/** Event logs read in block chunks, and the mint history they must add up to. */
module LogScan {
  import opened Wrappers
  import opened Sorting
  import opened Arithmetic

  /** A log as the provider reports it; `token` is the decoded token id, if it decodes as a mint. */
  datatype Log = Log(block: int, index: int, removed: bool, token: Option<int>)

  // ----- one query and many

  /** The provider's answer for a block range, in whatever order it keeps its logs. */
  function Query(all: seq<Log>, first: int, last: int): seq<Log> {
    Filter(all, (l: Log) => first <= l.block <= last)
  }

  /** An answer holds each log of the range as often as the provider does, and nothing else. */
  lemma QueryExactly(all: seq<Log>, first: int, last: int, l: Log)
    ensures multiset(Query(all, first, last))[l] == if first <= l.block <= last then multiset(all)[l] else 0
  {
    FilterCounts(all, (l: Log) => first <= l.block <= last, l);
  }

  lemma {:induction false} QuerySplits(all: seq<Log>, first: int, middle: int, last: int)
    requires first <= middle + 1 && middle <= last
    ensures multiset(Query(all, first, last))
            == multiset(Query(all, first, middle)) + multiset(Query(all, middle + 1, last))
  {
    if all != [] {
      QuerySplits(all[1..], first, middle, last);
    }
  }

  /** The requests tile the range: consecutive, each within the chunk size. */
  ghost predicate Tiles(requests: seq<(int, int)>, first: int, next: int, chunk: int) {
    && (requests == [] ==> next == first)
    && (requests != [] ==> requests[0].0 == first && requests[|requests| - 1].1 == next - 1)
    && (forall i | 0 <= i < |requests| :: requests[i].0 <= requests[i].1 < requests[i].0 + chunk)
    && (forall i, j | 0 <= i < |requests| && 0 <= j < |requests| && j == i + 1 :: requests[j].0 == requests[i].1 + 1)
  }

  ghost predicate Covers(request: (int, int), block: int) {
    request.0 <= block <= request.1
  }

  lemma {:induction false} TilesOrdered(requests: seq<(int, int)>, first: int, next: int, chunk: int, i: nat, j: nat)
    requires Tiles(requests, first, next, chunk) && i < j < |requests|
    ensures requests[i].1 < requests[j].0
    decreases j
  {
    if i < j - 1 {
      TilesOrdered(requests, first, next, chunk, i, j - 1);
    }
  }

  /** Every block of the range is asked for once, and no other block is asked for. */
  lemma {:induction false} EachBlockOnce(requests: seq<(int, int)>, first: int, next: int, chunk: int, block: int)
    requires Tiles(requests, first, next, chunk)
    ensures first <= block < next <==> exists i | 0 <= i < |requests| :: Covers(requests[i], block)
    ensures forall i, j | 0 <= i < j < |requests| :: !(Covers(requests[i], block) && Covers(requests[j], block))
  {
    forall i, j | 0 <= i < j < |requests|
      ensures !(Covers(requests[i], block) && Covers(requests[j], block))
    {
      TilesOrdered(requests, first, next, chunk, i, j);
    }
    if requests != [] {
      var last := requests[|requests| - 1];
      var before := requests[..|requests| - 1];
      assert before != [] ==> before[|before| - 1] == requests[|requests| - 2];
      assert Tiles(before, first, last.0, chunk);
      EachBlockOnce(before, first, last.0, chunk, block);
      if first <= block < last.0 {
        var i :| 0 <= i < |before| && Covers(before[i], block);
        assert Covers(requests[i], block);
      } else if first <= block < next {
        assert Covers(requests[|requests| - 1], block);
      }
      if |before| > 0 {
        TilesOrdered(requests, first, next, chunk, 0, |before|);
      }
      if i :| 0 <= i < |requests| && Covers(requests[i], block) {
        if i < |before| {
          assert Covers(before[i], block);
        }
      }
    }
  }

  // ----- the chunked reader

  /** The block ranges asked for, from `start` on. */
  function Chunks(start: int, toBlock: int, chunk: nat): seq<(int, int)>
    requires chunk > 0
    decreases toBlock - start
  {
    if start > toBlock then []
    else
      var end := Min(start + chunk - 1, toBlock);
      [(start, end)] + Chunks(start + chunk, toBlock, chunk)
  }

  /** The provider's answers to a list of requests, one after another. */
  function Answers(all: seq<Log>, requests: seq<(int, int)>): seq<Log> {
    if requests == [] then [] else Query(all, requests[0].0, requests[0].1) + Answers(all, requests[1..])
  }

  /** The requests tile the range: none overlaps another, none is larger than a chunk, no block is skipped. */
  lemma {:induction false} ChunksTile(start: int, toBlock: int, chunk: nat)
    requires chunk > 0
    ensures Tiles(Chunks(start, toBlock, chunk), start, if start <= toBlock then toBlock + 1 else start, chunk)
    decreases toBlock - start
  {
    if start <= toBlock {
      var end, rest := Min(start + chunk - 1, toBlock), Chunks(start + chunk, toBlock, chunk);
      ChunksTile(start + chunk, toBlock, chunk);
      TilesPrepend((start, end), rest, toBlock + 1, chunk);
    }
  }

  lemma TilesPrepend(request: (int, int), rest: seq<(int, int)>, next: int, chunk: int)
    requires request.0 <= request.1 < request.0 + chunk
    requires if rest == [] then next == request.1 + 1 else Tiles(rest, request.1 + 1, next, chunk)
    ensures Tiles([request] + rest, request.0, next, chunk)
  {
    var all := [request] + rest;
    assert forall i | 0 < i < |all| :: all[i] == rest[i - 1];
    forall i, j | 0 <= i < |all| && 0 <= j < |all| && j == i + 1
      ensures all[j].0 == all[i].1 + 1
    {
      assert all[j] == rest[i];
    }
  }

  lemma FirstAnswer(all: seq<Log>, request: (int, int), rest: seq<(int, int)>)
    ensures Answers(all, [request] + rest) == Query(all, request.0, request.1) + Answers(all, rest)
  {
    assert ([request] + rest)[1..] == rest;
  }

  lemma {:induction false} AnswersAppend(all: seq<Log>, requests: seq<(int, int)>, request: (int, int))
    ensures Answers(all, requests + [request]) == Answers(all, requests) + Query(all, request.0, request.1)
  {
    if requests == [] {
      assert [request][1..] == [] && [] + [request] == [request];
    } else {
      AnswersAppend(all, requests[1..], request);
      assert (requests + [request])[1..] == requests[1..] + [request];
    }
  }

  lemma OneChunkMore(requests: seq<(int, int)>, start: int, toBlock: int, chunk: nat)
    requires chunk > 0 && start <= toBlock
    ensures requests + Chunks(start, toBlock, chunk)
         == (requests + [(start, Min(start + chunk - 1, toBlock))]) + Chunks(start + chunk, toBlock, chunk)
  {}

  /** The chunked reader, with the ranges it asked for. */
  method GetEventLogsInChunks(all: seq<Log>, fromBlock: int, toBlock: int, chunk: nat)
    returns (logs: seq<Log>, requests: seq<(int, int)>)
    requires chunk > 0
    ensures requests == Chunks(fromBlock, toBlock, chunk)
    ensures logs == Answers(all, requests)
    ensures multiset(logs) == multiset(Query(all, fromBlock, toBlock))
  {
    logs, requests := [], [];
    var start := fromBlock;
    while start <= toBlock
      invariant Chunks(fromBlock, toBlock, chunk) == requests + Chunks(start, toBlock, chunk)
      invariant logs == Answers(all, requests)
      decreases toBlock - start
    {
      var end := Min(start + chunk - 1, toBlock);
      AnswersAppend(all, requests, (start, end));
      OneChunkMore(requests, start, toBlock, chunk);
      logs := logs + Query(all, start, end);
      requests := requests + [(start, end)];
      start := start + chunk;
    }
    ChunksFindAll(all, fromBlock, toBlock, chunk);
  }

  // ----- order

  function Earlier(): (Log, Log) -> bool {
    (a: Log, b: Log) => a.block < b.block || (a.block == b.block && a.index < b.index)
  }

  lemma EarlierIsWeak()
    ensures StrictWeak(Earlier())
  {}

  /** A log outside the chunks' range changes none of their answers. */
  lemma {:induction false} AnswersWithout(x: Log, rest: seq<Log>, start: int, toBlock: int, chunk: nat)
    requires chunk > 0 && (x.block < start || toBlock < x.block)
    ensures Answers([x] + rest, Chunks(start, toBlock, chunk)) == Answers(rest, Chunks(start, toBlock, chunk))
    decreases toBlock - start
  {
    assert ([x] + rest)[1..] == rest;
    if start <= toBlock {
      AnswersWithout(x, rest, start + chunk, toBlock, chunk);
    }
  }

  /** The answers with a log in front of the provider's list, chunk by chunk. */
  lemma AnswersOneMore(x: Log, rest: seq<Log>, start: int, toBlock: int, chunk: nat)
    requires chunk > 0 && start <= toBlock && start <= x.block
    ensures var end, later := Min(start + chunk - 1, toBlock), Chunks(start + chunk, toBlock, chunk);
            && Answers(rest, Chunks(start, toBlock, chunk)) == Query(rest, start, end) + Answers(rest, later)
            && Answers([x] + rest, Chunks(start, toBlock, chunk))
               == (if x.block <= end then [x] else []) + Query(rest, start, end) + Answers([x] + rest, later)
  {
    var end, later := Min(start + chunk - 1, toBlock), Chunks(start + chunk, toBlock, chunk);
    FirstAnswer([x] + rest, (start, end), later);
    FirstAnswer(rest, (start, end), later);
    QueryOneMore(x, rest, start, end);
  }

  /** A log inside the range shows up in its own chunk, behind the answers for earlier blocks only. */
  lemma {:induction false} AnswersWith(x: Log, rest: seq<Log>, start: int, toBlock: int, chunk: nat)
    returns (front: seq<Log>, back: seq<Log>)
    requires chunk > 0 && start <= x.block <= toBlock
    ensures Answers([x] + rest, Chunks(start, toBlock, chunk)) == front + [x] + back
    ensures Answers(rest, Chunks(start, toBlock, chunk)) == front + back
    ensures forall l | l in front :: l.block < x.block
    decreases toBlock - start
  {
    var end := Min(start + chunk - 1, toBlock);
    AnswersOneMore(x, rest, start, toBlock, chunk);
    if x.block <= end {
      AnswersWithout(x, rest, start + chunk, toBlock, chunk);
      front, back := [], Query(rest, start, end) + Answers(rest, Chunks(start + chunk, toBlock, chunk));
    } else {
      front, back := AnswersWith(x, rest, start + chunk, toBlock, chunk);
      Regroup(Query(rest, start, end), front, x, back);
      front := Query(rest, start, end) + front;
    }
  }

  lemma QueryOneMore(x: Log, rest: seq<Log>, first: int, last: int)
    ensures Query([x] + rest, first, last) == (if first <= x.block <= last then [x] else []) + Query(rest, first, last)
  {
    assert ([x] + rest)[1..] == rest;
  }

  lemma Regroup(q: seq<Log>, front: seq<Log>, x: Log, back: seq<Log>)
    ensures q + (front + [x] + back) == (q + front) + [x] + back
    ensures q + (front + back) == (q + front) + back
  {}

  /**
   Sorted, the chunked reading is the whole reading, for any logs at all: two logs the order ties
   lie in one block, so in one chunk, and the sort keeps their order.
   */
  lemma {:induction false} ChunkedSortAgrees(all: seq<Log>, fromBlock: int, toBlock: int, chunk: nat)
    requires chunk > 0
    ensures Sort(Answers(all, Chunks(fromBlock, toBlock, chunk)), Earlier())
            == Sort(Query(all, fromBlock, toBlock), Earlier())
  {
    if all == [] {
      NothingAnswered(Chunks(fromBlock, toBlock, chunk));
    } else {
      var x, rest := all[0], all[1..];
      assert all == [x] + rest;
      ChunkedSortAgrees(rest, fromBlock, toBlock, chunk);
      if fromBlock <= x.block <= toBlock {
        var front, back := AnswersWith(x, rest, fromBlock, toBlock, chunk);
        EarlierIsWeak();
        SortMovesPast(front, x, back, Earlier());
        assert Query(all, fromBlock, toBlock)[1..] == Query(rest, fromBlock, toBlock);
      } else {
        AnswersWithout(x, rest, fromBlock, toBlock, chunk);
      }
    }
  }

  lemma {:induction false} NothingAnswered(requests: seq<(int, int)>)
    ensures Answers([], requests) == []
  {
    if requests != [] {
      NothingAnswered(requests[1..]);
    }
  }

  /** Asking chunk by chunk finds what one query over the whole range finds. */
  lemma ChunksFindAll(all: seq<Log>, fromBlock: int, toBlock: int, chunk: nat)
    requires chunk > 0
    ensures multiset(Answers(all, Chunks(fromBlock, toBlock, chunk))) == multiset(Query(all, fromBlock, toBlock))
  {
    ChunkedSortAgrees(all, fromBlock, toBlock, chunk);
    SortPermutes(Answers(all, Chunks(fromBlock, toBlock, chunk)), Earlier());
    SortPermutes(Query(all, fromBlock, toBlock), Earlier());
  }

  /** The chunked reader of the evidence script: chunks, then one sort. */
  method LogsInChunks(all: seq<Log>, fromBlock: int, toBlock: int, chunk: nat) returns (logs: seq<Log>)
    requires chunk > 0
    ensures logs == Sort(Query(all, fromBlock, toBlock), Earlier())
    ensures forall p, q | 0 <= p < q < |logs| ::
              logs[p].block < logs[q].block || (logs[p].block == logs[q].block && logs[p].index <= logs[q].index)
  {
    var found, requests := GetEventLogsInChunks(all, fromBlock, toBlock, chunk);
    ChunkedSortAgrees(all, fromBlock, toBlock, chunk);
    EarlierIsWeak();
    SortSorted(found, Earlier());
    logs := Sort(found, Earlier());
    forall p, q | 0 <= p < q < |logs|
      ensures logs[p].block < logs[q].block || (logs[p].block == logs[q].block && logs[p].index <= logs[q].index)
    {
      assert !Earlier()(logs[q], logs[p]);
    }
  }

  // ----- mint history

  ghost predicate HasId(logs: seq<Log>, id: int) {
    exists i | 0 <= i < |logs| :: logs[i].token == Some(id)
  }

  /** The i-th log comes before the j-th: earlier block or index, or listed first at the same position. */
  ghost predicate Precedes(logs: seq<Log>, i: nat, j: nat)
    requires i < |logs| && j < |logs|
  {
    || logs[i].block < logs[j].block
    || (logs[i].block == logs[j].block
        && (logs[i].index < logs[j].index || (logs[i].index == logs[j].index && i < j)))
  }

  /** Token ids 1 .. nextTokenId - 1 and logs are in one-to-one correspondence, in minting order. */
  ghost predicate OneToOne(logs: seq<Log>, nextTokenId: int) {
    && nextTokenId >= 1
    && (forall i | 0 <= i < |logs| :: logs[i].token.Some? && 1 <= logs[i].token.value < nextTokenId)
    && (forall id | 1 <= id < nextTokenId :: HasId(logs, id))
    && (forall i, j | 0 <= i < j < |logs| :: logs[i].token != logs[j].token)
    && (forall i, j | 0 <= i < |logs| && 0 <= j < |logs| && i != j ::
          logs[i].token.value < logs[j].token.value
          <==> logs[i].block < logs[j].block
               || (logs[i].block == logs[j].block
                   && (logs[i].index < logs[j].index || (logs[i].index == logs[j].index && i < j))))
  }

  ghost predicate Numbered(sorted: seq<Log>, nextTokenId: int) {
    nextTokenId == |sorted| + 1 && forall i | 0 <= i < |sorted| :: sorted[i].token == Some(i + 1)
  }

  /** Distinct ids in 1 .. n - 1 that leave none out and increase are 1, 2, 3 ... */
  lemma {:induction false} IncreasingIdsAreNumbered(s: seq<Log>, nextTokenId: int, n: nat)
    requires n <= |s| && nextTokenId >= 1
    requires forall i | 0 <= i < |s| :: s[i].token.Some? && 1 <= s[i].token.value < nextTokenId
    requires forall id | 1 <= id < nextTokenId :: HasId(s, id)
    requires forall i, j | 0 <= i < j < |s| :: s[i].token.value < s[j].token.value
    ensures forall i | 0 <= i < n :: s[i].token == Some(i + 1)
  {
    if n > 0 {
      IncreasingIdsAreNumbered(s, nextTokenId, n - 1);
      assert n > 1 ==> s[n - 2].token.value < s[n - 1].token.value;
      assert s[n - 1].token.value >= n;
      assert HasId(s, n);
      var k :| 0 <= k < |s| && s[k].token == Some(n);
      assert k == n - 1;
    }
  }

  /** Nothing is listed twice before or after sorting. */
  lemma SortedStaysDistinct(logs: seq<Log>, p: nat, q: nat)
    requires forall i, j | 0 <= i < j < |logs| :: logs[i] != logs[j]
    requires p < q < |Sort(logs, Earlier())|
    ensures Sort(logs, Earlier())[p] != Sort(logs, Earlier())[q]
  {
    var s := Sort(logs, Earlier());
    SortPermutes(logs, Earlier());
    DistinctOnce(logs, s[p]);
    if s[p] == s[q] {
      OccursTwice(s, p, q);
    }
  }

  /** Among distinct logs, the order of positions after sorting is the order of precedence before. */
  lemma SortingFollowsPrecedence(logs: seq<Log>, i: nat, j: nat, p: nat, q: nat)
    requires forall i, j | 0 <= i < j < |logs| :: logs[i] != logs[j]
    requires i < |logs| && j < |logs| && i != j
    requires p < |Sort(logs, Earlier())| && Sort(logs, Earlier())[p] == logs[i]
    requires q < |Sort(logs, Earlier())| && Sort(logs, Earlier())[q] == logs[j]
    ensures p < q <==> Precedes(logs, i, j)
  {
    EarlierIsWeak();
    SortSorted(logs, Earlier());
    assert p != q;
    if Earlier()(logs[i], logs[j]) || Earlier()(logs[j], logs[i]) {
      assert p < q ==> !Earlier()(logs[j], logs[i]);
      assert q < p ==> !Earlier()(logs[i], logs[j]);
    } else {
      if i < j {
        TiesKeepTheirOrder(logs, i, j, p, q);
      } else {
        TiesKeepTheirOrder(logs, j, i, q, p);
      }
    }
  }

  lemma TiesKeepTheirOrder(logs: seq<Log>, i: nat, j: nat, p: nat, q: nat)
    requires forall i, j | 0 <= i < j < |logs| :: logs[i] != logs[j]
    requires i < j < |logs| && !Earlier()(logs[j], logs[i])
    requires p < |Sort(logs, Earlier())| && Sort(logs, Earlier())[p] == logs[i]
    requires q < |Sort(logs, Earlier())| && Sort(logs, Earlier())[q] == logs[j]
    ensures p < q
  {
    var s := Sort(logs, Earlier());
    SortKeepsOrder(logs, i, j, Earlier());
    var p', q' :| 0 <= p' < q' < |s| && s[p'] == logs[i] && s[q'] == logs[j];
    if p != p' {
      SortedStaysDistinct(logs, if p < p' then p else p', if p < p' then p' else p);
    }
    if q != q' {
      SortedStaysDistinct(logs, if q < q' then q else q', if q < q' then q' else q);
    }
  }

  lemma OneToOneIsNumbered(logs: seq<Log>, nextTokenId: int)
    requires OneToOne(logs, nextTokenId)
    ensures Numbered(Sort(logs, Earlier()), nextTokenId)
  {
    var sorted := Sort(logs, Earlier());
    SortMembers(logs, Earlier());
    forall i | 0 <= i < |sorted|
      ensures sorted[i].token.Some? && 1 <= sorted[i].token.value < nextTokenId
    {
      assert sorted[i] in logs;
    }
    forall id | 1 <= id < nextTokenId
      ensures HasId(sorted, id)
    {
      assert HasId(logs, id);
      var i :| 0 <= i < |logs| && logs[i].token == Some(id);
      assert logs[i] in sorted;
    }
    forall p, q | 0 <= p < q < |sorted|
      ensures sorted[p].token.value < sorted[q].token.value
    {
      SortedIdsIncrease(logs, nextTokenId, p, q);
    }
    IncreasingIdsAreNumbered(sorted, nextTokenId, |sorted|);
    if nextTokenId > 1 {
      assert HasId(sorted, nextTokenId - 1);
      var k :| 0 <= k < |sorted| && sorted[k].token == Some(nextTokenId - 1);
    }
  }

  lemma SortedIdsIncrease(logs: seq<Log>, nextTokenId: int, p: nat, q: nat)
    requires OneToOne(logs, nextTokenId) && p < q < |Sort(logs, Earlier())|
    ensures var s := Sort(logs, Earlier());
            s[p].token.Some? && s[q].token.Some? && s[p].token.value < s[q].token.value
  {
    var s := Sort(logs, Earlier());
    SortMembers(logs, Earlier());
    SortedStaysDistinct(logs, p, q);
    assert s[p] in logs && s[q] in logs;
    var i :| 0 <= i < |logs| && logs[i] == s[p];
    var j :| 0 <= j < |logs| && logs[j] == s[q];
    SortingFollowsPrecedence(logs, i, j, p, q);
  }

  lemma NumberedIsOneToOne(logs: seq<Log>, nextTokenId: int)
    requires Numbered(Sort(logs, Earlier()), nextTokenId)
    ensures OneToOne(logs, nextTokenId)
  {
    var sorted := Sort(logs, Earlier());
    SortMembers(logs, Earlier());
    forall i | 0 <= i < |logs|
      ensures logs[i].token.Some? && 1 <= logs[i].token.value < nextTokenId
              && sorted[logs[i].token.value - 1] == logs[i]
    {
      assert logs[i] in sorted;
      var p :| 0 <= p < |sorted| && sorted[p] == logs[i];
    }
    forall id | 1 <= id < nextTokenId
      ensures HasId(logs, id)
    {
      assert sorted[id - 1] in logs;
      var i :| 0 <= i < |logs| && logs[i] == sorted[id - 1];
    }
    NumberedNeverTwice(logs, nextTokenId);
    forall i, j | 0 <= i < |logs| && 0 <= j < |logs| && i != j
      ensures Precedes(logs, i, j) <==> logs[i].token.value < logs[j].token.value
    {
      SortingFollowsPrecedence(logs, i, j, logs[i].token.value - 1, logs[j].token.value - 1);
    }
  }

  /** A list that sorts into 1, 2, 3 ... lists no id twice. */
  lemma NumberedNeverTwice(logs: seq<Log>, nextTokenId: int)
    requires Numbered(Sort(logs, Earlier()), nextTokenId)
    ensures forall i, j | 0 <= i < j < |logs| :: logs[i] != logs[j] && logs[i].token != logs[j].token
  {
    var sorted := Sort(logs, Earlier());
    SortPermutes(logs, Earlier());
    SortMembers(logs, Earlier());
    forall i, j | 0 <= i < j < |logs|
      ensures logs[i] != logs[j] && logs[i].token != logs[j].token
    {
      assert logs[i] in sorted && logs[j] in sorted;
      DistinctOnce(sorted, logs[i]);
      if logs[i] == logs[j] {
        OccursTwice(logs, i, j);
      }
    }
  }

  /**
   Checks the mint history against the contract's counter, for any list of logs: duplicated and
   removed ones, and several at one position. Only the packet builder looks at `removed`.
   */
  method Reconcile(logs: seq<Log>, nextTokenId: int, rejectRemoved: bool) returns (r: Result<seq<Log>>)
    ensures r.Ok? <==> OneToOne(logs, nextTokenId) && (rejectRemoved ==> forall l | l in logs :: !l.removed)
    ensures r.Ok? ==> r.value == Sort(logs, Earlier()) && Numbered(r.value, nextTokenId)
  {
    var sorted := Sort(logs, Earlier());
    SortMembers(logs, Earlier());
    if OneToOne(logs, nextTokenId) {
      OneToOneIsNumbered(logs, nextTokenId);
    }
    for index := 0 to |sorted|
      invariant forall i | 0 <= i < index :: sorted[i].token == Some(i + 1) && !(rejectRemoved && sorted[i].removed)
    {
      if (rejectRemoved && sorted[index].removed) || sorted[index].token != Some(index + 1) {
        assert sorted[index] in logs;
        return Err("history is removed, undecodable, duplicated, or non-sequential");
      }
    }
    if nextTokenId != |sorted| + 1 {
      return Err("nextTokenId does not reconcile");
    }
    NumberedIsOneToOne(logs, nextTokenId);
    assert forall l | l in logs :: l in sorted;
    r := Ok(sorted);
  }

  /** Both scripts read in chunks of this many blocks. */
  const EVENT_LOG_BLOCK_CHUNK := 2000

  /** The history check as the scripts make it: read in chunks, then reconcile. */
  method ReconcileHistory(all: seq<Log>, fromBlock: int, toBlock: int, nextTokenId: int, rejectRemoved: bool)
    returns (r: Result<seq<Log>>)
    ensures var mints := Query(all, fromBlock, toBlock);
            r.Ok? <==> OneToOne(mints, nextTokenId) && (rejectRemoved ==> forall l | l in mints :: !l.removed)
  {
    var logs, requests := GetEventLogsInChunks(all, fromBlock, toBlock, EVENT_LOG_BLOCK_CHUNK);
    ChunkedSortAgrees(all, fromBlock, toBlock, EVENT_LOG_BLOCK_CHUNK);
    SameHistory(logs, Query(all, fromBlock, toBlock), nextTokenId);
    r := Reconcile(logs, nextTokenId, rejectRemoved);
  }

  /** Lists with one sorted history are accepted alike. */
  lemma SameHistory(logs: seq<Log>, mints: seq<Log>, nextTokenId: int)
    requires Sort(logs, Earlier()) == Sort(mints, Earlier())
    ensures OneToOne(logs, nextTokenId) <==> OneToOne(mints, nextTokenId)
    ensures forall l :: l in logs <==> l in mints
  {
    SortMembers(logs, Earlier());
    SortMembers(mints, Earlier());
    if OneToOne(logs, nextTokenId) {
      OneToOneIsNumbered(logs, nextTokenId);
      NumberedIsOneToOne(mints, nextTokenId);
    }
    if OneToOne(mints, nextTokenId) {
      OneToOneIsNumbered(mints, nextTokenId);
      NumberedIsOneToOne(logs, nextTokenId);
    }
  }

  /** The histories the check is there for: a log delivered twice, and a removed one next to its replacement. */
  lemma DuplicatesAreRejected(l: Log, nextTokenId: int)
    ensures !OneToOne([l, l], nextTokenId)
    ensures !OneToOne([l.(removed := true), l], nextTokenId)
  {
    assert [l, l][0].token == [l, l][1].token;
    var replaced := [l.(removed := true), l];
    assert replaced[0].token == replaced[1].token;
  }
}
