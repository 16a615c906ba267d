/**
 Publishing a Safe batch: the signing packet is written first, the batch is written under a name
 nobody imports, and one rename makes it importable. The machine may stop between any two effects.
 */
module Publication {
  import opened Wrappers
  import opened Sorting
  import opened ArtifactNames

  datatype Document =
    | PacketDocument(generation: Generation, embedded: string)
    | BatchDocument(batch: string)

  /** A file that was created but not fully written is torn. */
  datatype Content = Torn | Complete(document: Document)

  ghost predicate Clean(files: map<Name, Content>) {
    forall n | n in files :: !Candidate(n)
  }

  ghost predicate Matched(files: map<Name, Content>, g: Generation)
    requires SafeBatch(g) in files
  {
    && files[SafeBatch(g)].Complete? && files[SafeBatch(g)].document.BatchDocument?
    && SigningPacket(g) in files
    && files[SigningPacket(g)] == Complete(PacketDocument(g, files[SafeBatch(g)].document.batch))
  }

  /** What anyone looking at the directory may rely on, at every moment. */
  ghost predicate Sound(files: map<Name, Content>) {
    && (forall g | SafeBatch(g) in files :: Matched(files, g))
    && (forall m, n | m in files && n in files && Candidate(m) && Candidate(n) :: m.generation == n.generation)
  }

  /** Nothing but candidates and their quarantined copies differs. */
  ghost predicate OthersKept(before: map<Name, Content>, after: map<Name, Content>) {
    forall n | !Candidate(n) && !n.Incomplete? ::
      (n in before <==> n in after) && (n in before ==> after[n] == before[n])
  }

  /** Each candidate of `before` sits, whole, at its own name or at its quarantined name, not both. */
  ghost predicate Conserved(before: map<Name, Content>, after: map<Name, Content>) {
    && OthersKept(before, after)
    && (forall n | n in after && Candidate(n) :: n in before)
    && (forall n | n in before && Candidate(n) ::
          || (n in after && after[n] == before[n] && Incomplete(n) !in after)
          || (n !in after && Incomplete(n) in after && after[Incomplete(n)] == before[n]))
    && (forall n | n in before && n.Incomplete? :: n in after && after[n] == before[n])
  }

  /** Whether a listed name is one to refuse or to move. */
  function IsArtifact(): Name -> bool {
    (n: Name) => ArtifactPattern(FileName(n))
  }

  /** The files to move: each once, and no packet before a batch. */
  lemma OrderedCandidates(listing: seq<Name>)
    requires forall n :: multiset(listing)[n] <= 1
    ensures var candidates := Sort(Filter(listing, IsArtifact()), ByFileName());
            && (forall n :: n in candidates <==> n in listing && Candidate(n))
            && |candidates| <= |listing|
            && (forall i, j | 0 <= i < j < |candidates| ::
                  candidates[i] != candidates[j] && KindRank(candidates[i]) <= KindRank(candidates[j]))
  {
    var found := Filter(listing, IsArtifact());
    var candidates := Sort(found, ByFileName());
    forall n
      ensures IsArtifact()(n) <==> Candidate(n)
    {
      PatternExactly(n);
    }
    SortMembers(found, ByFileName());
    ByFileNameIsWeak();
    SortPermutes(found, ByFileName());
    SortSorted(found, ByFileName());
    forall i, j | 0 <= i < j < |candidates|
      ensures candidates[i] != candidates[j] && KindRank(candidates[i]) <= KindRank(candidates[j])
    {
      assert !ByFileName()(candidates[j], candidates[i]);
      assert candidates[i] in candidates && candidates[j] in candidates;
      if KindRank(candidates[j]) < KindRank(candidates[i]) {
        KindsSort(candidates[j], candidates[i]);
      }
      FilterCounts(listing, IsArtifact(), candidates[i]);
      assert multiset(candidates)[candidates[i]] == multiset(found)[candidates[i]];
      assert multiset(found)[candidates[i]] <= multiset(listing)[candidates[i]] <= 1;
      if candidates[i] == candidates[j] {
        OccursTwice(candidates, i, j);
        assert false;
      }
    }
  }

  function Moved(files: map<Name, Content>, source: Name): map<Name, Content>
    requires source in files
  {
    (files - {source})[Incomplete(source) := files[source]]
  }

  lemma MoveConserves(before: map<Name, Content>, files: map<Name, Content>, source: Name)
    requires Conserved(before, files) && source in files && Candidate(source)
    ensures Conserved(before, Moved(files, source))
  {}

  /** The batch leaves before the packet it needs. */
  lemma MoveKeepsSound(files: map<Name, Content>, candidates: seq<Name>, i: nat)
    requires Sound(files) && i < |candidates| && forall k | i <= k < |candidates| :: Candidate(candidates[k])
    requires forall n | Candidate(n) :: n in files <==> n in candidates[i..]
    requires forall j, k | 0 <= j < k < |candidates| :: KindRank(candidates[j]) <= KindRank(candidates[k])
    ensures candidates[i] in files
    ensures Sound(Moved(files, candidates[i]))
  {
    var source := candidates[i];
    assert source in candidates[i..];
    var after := Moved(files, source);
    forall g | SafeBatch(g) in after
      ensures Matched(after, g)
    {
      assert SafeBatch(g) in candidates[i..];
      var k :| 0 <= k < |candidates[i..]| && candidates[i..][k] == SafeBatch(g);
      assert candidates[i + k] == SafeBatch(g);
      assert KindRank(source) <= 1;
      assert Matched(files, g);
    }
  }

  /** The deployments directory of a machine with `budget` effects left before it stops. */
  class Directory {
    var files: map<Name, Content>
    var budget: nat

    constructor ()
      ensures files == map[] && budget == 0 && Sound(files)
    {
      files := map[];
      budget := 0;
    }

    method Put(n: Name, content: Content)
      modifies this
      ensures old(budget) == 0 ==> files == old(files) && budget == 0
      ensures old(budget) > 0 ==> files == old(files)[n := content] && budget == old(budget) - 1
    {
      if budget > 0 {
        files := files[n := content];
        budget := budget - 1;
      }
    }

    /** Atomic: the file is at one name or the other. */
    method Rename(source: Name, target: Name)
      requires budget > 0 ==> source in files
      modifies this
      ensures old(budget) == 0 ==> files == old(files) && budget == 0
      ensures old(budget) > 0 ==>
                files == (old(files) - {source})[target := old(files)[source]] && budget == old(budget) - 1
    {
      if budget > 0 {
        files := (files - {source})[target := files[source]];
        budget := budget - 1;
      }
    }

    /** Exclusive creation, then the contents. */
    method DurableWriteNew(n: Name, document: Document) returns (r: Result<()>)
      modifies this
      ensures r.Ok? <==> n !in old(files)
      ensures r.Err? ==> files == old(files) && budget == old(budget)
      ensures r.Ok? ==> budget == (if old(budget) < 2 then 0 else old(budget) - 2)
      ensures r.Ok? ==> files == (if old(budget) == 0 then old(files)
                                  else old(files)[n := if old(budget) == 1 then Torn else Complete(document)])
    {
      if n in files {
        return Err("file exists");
      }
      Put(n, Torn);
      Put(n, Complete(document));
      r := Ok(());
    }

    /**
     One build, up to the point where the machine stops. `listing` is the directory as read; a
     result is only seen by the operator when the machine is still running.
     */
    method Publish(g: Generation, batch: string, listing: seq<Name>) returns (r: Result<()>)
      requires Sound(files)
      requires forall n :: n in listing <==> n in files
      modifies this
      ensures Sound(files) && OthersKept(old(files), files)
      ensures forall n | n in old(files) :: n in files && files[n] == old(files)[n]
      ensures !Clean(old(files)) ==> r.Err? && files == old(files) && budget == old(budget)
      ensures Clean(old(files)) && old(budget) >= 5 ==>
                && r.Ok? && budget == old(budget) - 5
                && files == old(files)[SigningPacket(g) := Complete(PacketDocument(g, batch))]
                                      [SafeBatch(g) := Complete(BatchDocument(batch))]
      ensures Clean(old(files)) && old(budget) < 5 ==> SafeBatch(g) !in files && budget == 0
      ensures Clean(files) ==> files == old(files)
    {
      var stale := Filter(listing, IsArtifact());
      if stale != [] {
        assert stale[0] in stale;
        PatternExactly(stale[0]);
        return Err("stale or partial artifacts exist");
      }
      assert Clean(files) by {
        forall n | n in files
          ensures !Candidate(n)
        {
          PatternExactly(n);
          assert n !in stale;
        }
      }
      r := WriteGeneration(g, batch);
    }

    /** Packet, staged batch, then the rename that publishes it, each read back before the next. */
    method WriteGeneration(g: Generation, batch: string) returns (r: Result<()>)
      requires Clean(files)
      modifies this
      ensures Sound(files) && OthersKept(old(files), files)
      ensures forall n | n in old(files) :: n in files && files[n] == old(files)[n]
      ensures old(budget) >= 5 ==>
                && r.Ok? && budget == old(budget) - 5
                && files == old(files)[SigningPacket(g) := Complete(PacketDocument(g, batch))]
                                      [SafeBatch(g) := Complete(BatchDocument(batch))]
      ensures old(budget) < 5 ==> SafeBatch(g) !in files && budget == 0
      ensures Clean(files) ==> files == old(files)
    {
      var packet, staged, published := SigningPacket(g), StagedBatch(g), SafeBatch(g);
      if published in files || packet in files || staged in files {
        return Err("refusing to overwrite");
      }
      r := DurableWriteNew(packet, PacketDocument(g, batch));
      if packet !in files || files[packet] != Complete(PacketDocument(g, batch)) {
        return Err("signing packet did not reproduce");
      }
      r := DurableWriteNew(staged, BatchDocument(batch));
      if staged !in files || files[staged] != Complete(BatchDocument(batch)) {
        return Err("staged batch did not reproduce");
      }
      Rename(staged, published);
      if staged in files || published !in files || files[published] != Complete(BatchDocument(batch)) {
        return Err("batch was not published");
      }
      r := Ok(());
    }

    method MoveAll(candidates: seq<Name>)
      requires Sound(files)
      requires forall n :: n in candidates <==> n in files && Candidate(n)
      requires forall n | n in candidates :: Incomplete(n) !in files
      requires forall i, j | 0 <= i < j < |candidates| ::
                 candidates[i] != candidates[j] && KindRank(candidates[i]) <= KindRank(candidates[j])
      modifies this
      ensures Sound(files) && Conserved(old(files), files)
      ensures budget > 0 ==> Clean(files)
      ensures budget <= old(budget) <= budget + |candidates|
    {
      for i := 0 to |candidates|
        invariant Sound(files) && Conserved(old(files), files)
        invariant budget > 0 ==> forall n | Candidate(n) :: n in files <==> n in candidates[i..]
        invariant budget <= old(budget) <= budget + i
      {
        if budget > 0 {
          assert candidates[i] in candidates;
          MoveKeepsSound(files, candidates, i);
          MoveConserves(old(files), files, candidates[i]);
        }
        Rename(candidates[i], Incomplete(candidates[i]));
      }
    }

    method CopyExists(candidates: seq<Name>) returns (found: bool)
      ensures found <==> exists n | n in candidates :: Incomplete(n) in files
    {
      for i := 0 to |candidates|
        invariant forall k | 0 <= k < i :: Incomplete(candidates[k]) !in files
      {
        if Incomplete(candidates[i]) in files {
          assert candidates[i] in candidates;
          return true;
        }
      }
      found := false;
    }

    /** Moves every candidate aside, in name order, unless a quarantined copy would be overwritten. */
    method Quarantine(listing: seq<Name>) returns (r: Result<()>)
      requires Sound(files)
      requires forall n :: n in listing <==> n in files
      requires forall n :: multiset(listing)[n] <= 1
      modifies this
      ensures Sound(files)
      ensures r.Ok? ==> Conserved(old(files), files)
      ensures r.Ok? && budget > 0 ==> Clean(files)
      ensures r.Err? ==> files == old(files) && budget == old(budget)
      ensures r.Err? <==> Clean(old(files))
                          || exists n :: n in old(files) && Candidate(n) && Incomplete(n) in old(files)
      ensures budget + |listing| >= old(budget)
    {
      var candidates := Sort(Filter(listing, IsArtifact()), ByFileName());
      OrderedCandidates(listing);
      if candidates == [] {
        return Err("nothing to quarantine");
      }
      assert candidates[0] in candidates;
      var copied := CopyExists(candidates);
      if copied {
        return Err("refusing to overwrite prior quarantine evidence");
      }
      MoveAll(candidates);
      r := Ok(());
    }
  }

  // ----- any history of builds and quarantines

  /** One start of the machine: which tool is run, and after how many effects it stops. */
  datatype Event =
    | Build(generation: Generation, batch: string, budget: nat)
    | SetAside(budget: nat)

  method History(directory: Directory, events: seq<Event>)
    requires Sound(directory.files)
    modifies directory
    ensures Sound(directory.files)
    ensures forall g, h | SafeBatch(g) in directory.files && SafeBatch(h) in directory.files :: g == h
  {
    for i := 0 to |events|
      invariant Sound(directory.files)
    {
      directory.budget := events[i].budget;
      var listing := Listing(directory.files);
      var r;
      match events[i]
      case Build(g, batch, _) => r := directory.Publish(g, batch, listing);
      case SetAside(_) => r := directory.Quarantine(listing);
    }
    assert forall g | SafeBatch(g) in directory.files :: Candidate(SafeBatch(g));
  }

  method Listing(files: map<Name, Content>) returns (listing: seq<Name>)
    ensures forall n :: n in listing <==> n in files
    ensures forall n :: multiset(listing)[n] <= 1
  {
    listing := [];
    var left := files.Keys;
    while left != {}
      invariant forall n :: n in files <==> n in listing || n in left
      invariant forall n :: multiset(listing)[n] <= 1
      invariant forall n | n in listing :: n !in left
    {
      var n :| n in left;
      assert n !in multiset(listing);
      listing := listing + [n];
      left := left - {n};
    }
  }
}
