/**
 Retiring an executed deployment packet and its review: two renames that must both happen or
 neither, over a file system whose rename may fail before or after taking effect.
 */
module Retirement {
  import opened Wrappers

  datatype Path = Path(directory: string, name: string)

  // ----- artifact names

  const SOURCE_PREFIX: string := "UNEXECUTED-"
  const RETIRED_PREFIX: string := "EXECUTED-DO-NOT-IMPORT-"
  const STEM: string := "v4-treasury-range-deployment-"

  function DigitSpan(s: string): (n: nat)
    ensures n <= |s|
    ensures forall i | 0 <= i < n :: '0' <= s[i] <= '9'
    ensures n < |s| ==> !('0' <= s[n] <= '9')
  {
    if s == "" || !('0' <= s[0] <= '9') then 0 else 1 + DigitSpan(s[1..])
  }

  predicate NonceAndSuffix(s: string) {
    && "-nonce-" <= s
    && var t := s[7..];
    && DigitSpan(t) > 0
    && (t[DigitSpan(t)..] == ".json" || t[DigitSpan(t)..] == ".md")
  }

  /** What follows the prefix: the stem, a block number, a nonce, and .json or .md. */
  predicate CanonicalTail(tail: string) {
    && STEM <= tail
    && var rest := tail[|STEM|..];
    && DigitSpan(rest) > 0
    && NonceAndSuffix(rest[DigitSpan(rest)..])
  }

  predicate CanonicalName(name: string) {
    SOURCE_PREFIX <= name && CanonicalTail(name[|SOURCE_PREFIX|..])
  }

  function RetiredName(name: string): string
    requires SOURCE_PREFIX <= name
  {
    RETIRED_PREFIX + name[|SOURCE_PREFIX|..]
  }

  function ExecutedArtifactPath(source: Path): Result<Path> {
    if CanonicalName(source.name) then
      Ok(Path(source.directory, RetiredName(source.name)))
    else Err("Treasury Range deployment artifact is not a canonical UNEXECUTED JSON/Markdown path")
  }

  function DropLast(s: string, n: nat): string {
    if n <= |s| then s[..|s| - n] else ""
  }

  predicate EndsWith(s: string, suffix: string) {
    |suffix| <= |s| && s[|s| - |suffix|..] == suffix
  }

  datatype Plan = Plan(sourcePacket: Path, sourceReview: Path, retiredPacket: Path, retiredReview: Path)
  {
    ghost predicate Distinct() {
      && sourcePacket != sourceReview && sourcePacket != retiredPacket && sourcePacket != retiredReview
      && sourceReview != retiredPacket && sourceReview != retiredReview && retiredPacket != retiredReview
    }
  }

  function RetirementPlan(packet: Path, review: Path): Result<Plan> {
    if packet.directory != review.directory || !EndsWith(packet.name, ".json")
       || DropLast(packet.name, 5) != DropLast(review.name, 3)
    then Err("Treasury Range deployment JSON and Markdown must be the exact same-directory artifact pair")
    else
      var retiredPacket, retiredReview := ExecutedArtifactPath(packet), ExecutedArtifactPath(review);
      if retiredPacket.Err? then Err(retiredPacket.reason)
      else if retiredReview.Err? then Err(retiredReview.reason)
      else Ok(Plan(packet, review, retiredPacket.value, retiredReview.value))
  }

  lemma NestedDrop(s: string, a: nat, b: nat)
    requires a + b <= |s|
    ensures s[a..][b..] == s[a + b..]
  {}

  /** Where the nonce digits of a canonical name start. */
  lemma NonceStart(name: string) returns (k: nat)
    requires SOURCE_PREFIX <= name && CanonicalTail(name[|SOURCE_PREFIX|..])
    ensures k <= |name| && DigitSpan(name[k..]) > 0
    ensures name[k..][DigitSpan(name[k..])..] == ".json" || name[k..][DigitSpan(name[k..])..] == ".md"
  {
    var a := |SOURCE_PREFIX|;
    var b := a + |STEM|;
    NestedDrop(name, a, |STEM|);
    var c := b + DigitSpan(name[b..]);
    NestedDrop(name, b, DigitSpan(name[b..]));
    NestedDrop(name, c, 7);
    k := c + 7;
  }

  /**
   A digit run followed by the suffix ends the name, so the suffix and the digit before it can be read
   off its end.
   */
  lemma TailEnding(name: string, k: nat)
    requires k <= |name| && DigitSpan(name[k..]) > 0
    requires name[k..][DigitSpan(name[k..])..] == ".json" || name[k..][DigitSpan(name[k..])..] == ".md"
    ensures EndsWith(name, ".json") || EndsWith(name, ".md")
    ensures EndsWith(name, ".json") ==> |name| > 5 && '0' <= name[|name| - 6] <= '9'
    ensures EndsWith(name, ".md") ==> |name| > 3
  {
    var e := k + DigitSpan(name[k..]);
    NestedDrop(name, k, DigitSpan(name[k..]));
    assert '0' <= name[e - 1] <= '9' by {
      assert name[e - 1] == name[k..][e - 1 - k];
    }
    SuffixesDiffer(name, e);
  }

  lemma SuffixesDiffer(name: string, e: nat)
    requires e <= |name| && (name[e..] == ".json" || name[e..] == ".md")
    ensures EndsWith(name, ".json") ==> name[e..] == ".json" && |name| == e + 5
    ensures EndsWith(name, ".md") ==> name[e..] == ".md" && |name| == e + 3
    ensures EndsWith(name, ".json") || EndsWith(name, ".md")
  {
    if name[e..] == ".json" {
      LastOf(name, e, ".json");
    } else {
      LastOf(name, e, ".md");
    }
    if EndsWith(name, ".json") {
      LastOf(name, |name| - 5, ".json");
    }
    if EndsWith(name, ".md") {
      LastOf(name, |name| - 3, ".md");
    }
  }

  lemma LastOf(name: string, e: nat, suffix: string)
    requires e <= |name| && name[e..] == suffix && suffix != ""
    ensures |name| == e + |suffix| && name[|name| - 1] == suffix[|suffix| - 1] && EndsWith(name, suffix)
  {}

  /** A name ending in .json keeps its 'j' where a digit would have to be. */
  lemma NotJsonTwice(p: string, r: string)
    requires |p| > 5 && '0' <= p[|p| - 6] <= '9' && DropLast(p, 5) == DropLast(r, 3)
    ensures !EndsWith(r, ".json")
  {
    var stem := DropLast(p, 5);
    assert stem[|stem| - 1] == p[|p| - 6];
    if EndsWith(r, ".json") {
      FourthFromEnd(r);
      assert false;
    }
  }

  lemma FourthFromEnd(r: string)
    requires EndsWith(r, ".json")
    ensures |r| >= 5 && r[|r| - 4] == 'j' && (|r| > 3 ==> DropLast(r, 3)[|r| - 4] == 'j')
  {
    assert r[|r| - 5..][1] == 'j';
  }

  lemma Joined(s: string, suffix: string)
    requires EndsWith(s, suffix)
    ensures s == DropLast(s, |suffix|) + suffix
  {}

  lemma FourPaths(a: Path, b: Path, c: Path, d: Path)
    ensures |{a, b, c, d}| == 4 <==> a != b && a != c && a != d && b != c && b != d && c != d
  {
    if a == b {
      assert {a, b, c, d} == {a, c, d};
    } else if c == a || c == b {
      assert {a, b, c, d} == {a, b, d};
    } else if d == a || d == b || d == c {
      assert {a, b, c, d} == {a, b, c};
    }
  }

  lemma DistinctMeansFour(plan: Plan)
    ensures plan.Distinct()
            <==> |{plan.sourcePacket, plan.sourceReview, plan.retiredPacket, plan.retiredReview}| == 4
  {
    FourPaths(plan.sourcePacket, plan.sourceReview, plan.retiredPacket, plan.retiredReview);
  }

  /** An accepted pair differs only in its suffix, and none of the four paths coincide. */
  lemma PlanPathsDistinct(packet: Path, review: Path)
    requires RetirementPlan(packet, review).Ok?
    ensures RetirementPlan(packet, review).value.Distinct()
    ensures exists stem :: packet.name == stem + ".json" && review.name == stem + ".md"
  {
    AcceptedPair(packet, review);
    PairSuffixes(packet.name, review.name);
    FourNames(packet.name, review.name);
  }

  lemma AcceptedPair(packet: Path, review: Path)
    requires RetirementPlan(packet, review).Ok?
    ensures packet.directory == review.directory
    ensures CanonicalName(packet.name) && CanonicalName(review.name)
    ensures EndsWith(packet.name, ".json") && DropLast(packet.name, 5) == DropLast(review.name, 3)
    ensures RetirementPlan(packet, review).value
         == Plan(packet, review, Path(packet.directory, RetiredName(packet.name)),
                 Path(review.directory, RetiredName(review.name)))
  {}

  lemma CanonicalEnding(name: string)
    requires CanonicalName(name)
    ensures EndsWith(name, ".json") || EndsWith(name, ".md")
    ensures EndsWith(name, ".json") ==> |name| > 5 && '0' <= name[|name| - 6] <= '9'
    ensures EndsWith(name, ".md") ==> |name| > 3
  {
    var k := NonceStart(name);
    TailEnding(name, k);
  }

  lemma PairSuffixes(p: string, r: string)
    requires CanonicalName(p) && CanonicalName(r) && EndsWith(p, ".json") && DropLast(p, 5) == DropLast(r, 3)
    ensures p == DropLast(p, 5) + ".json" && r == DropLast(p, 5) + ".md"
  {
    CanonicalEnding(p);
    CanonicalEnding(r);
    NotJsonTwice(p, r);
    Joined(p, ".json");
    Joined(r, ".md");
  }

  lemma FourNames(p: string, r: string)
    requires SOURCE_PREFIX <= p && SOURCE_PREFIX <= r && |p| != |r|
    ensures RetiredName(p) != RetiredName(r)
    ensures RetiredName(p) !in {p, r} && RetiredName(r) !in {p, r}
  {
    assert |RetiredName(p)| != |RetiredName(r)|;
    assert p[0] == 'U' && r[0] == 'U' && RetiredName(p)[0] == 'E' && RetiredName(r)[0] == 'E';
  }

  // ----- exactly which pairs are accepted, and where they go

  ghost predicate Digits(s: string) {
    s != "" && forall i | 0 <= i < |s| :: '0' <= s[i] <= '9'
  }

  /** A stem, a block number and a nonce. */
  ghost predicate TailForm(tail: string) {
    exists block, nonce | Digits(block) && Digits(nonce) ::
      tail == "v4-treasury-range-deployment-" + block + "-nonce-" + nonce
  }

  /** The pair a tail names, both in one directory. */
  ghost predicate PairOf(packet: Path, review: Path, tail: string) {
    && packet.directory == review.directory
    && packet.name == "UNEXECUTED-" + tail + ".json"
    && review.name == "UNEXECUTED-" + tail + ".md"
  }

  lemma {:induction false} DigitSpanOf(digits: string, rest: string)
    requires forall i | 0 <= i < |digits| :: '0' <= digits[i] <= '9'
    requires rest == "" || !('0' <= rest[0] <= '9')
    ensures DigitSpan(digits + rest) == |digits|
  {
    if digits == "" {
      assert digits + rest == rest;
    } else {
      assert (digits + rest)[1..] == digits[1..] + rest;
      DigitSpanOf(digits[1..], rest);
    }
  }

  lemma WriteNonce(nonce: string, suffix: string)
    requires Digits(nonce) && (suffix == ".json" || suffix == ".md")
    ensures NonceAndSuffix("-nonce-" + (nonce + suffix))
  {
    var t := "-nonce-" + (nonce + suffix);
    assert t[7..] == nonce + suffix;
    DigitSpanOf(nonce, suffix);
    assert (nonce + suffix)[|nonce|..] == suffix;
  }

  lemma WriteTail(block: string, nonce: string, suffix: string)
    requires Digits(block) && Digits(nonce) && (suffix == ".json" || suffix == ".md")
    ensures CanonicalTail(STEM + (block + ("-nonce-" + (nonce + suffix))))
  {
    var u := "-nonce-" + (nonce + suffix);
    assert (STEM + (block + u))[|STEM|..] == block + u;
    DigitSpanOf(block, u);
    assert (block + u)[|block|..] == u;
    WriteNonce(nonce, suffix);
  }

  lemma Regroup(a: string, b: string, c: string, d: string, e: string)
    ensures a + b + c + d + e == a + (b + (c + (d + e)))
  {
    Joins(a + b + c, d, e);
    Joins(a + b, c, d + e);
    Joins(a, b, c + (d + e));
  }

  /** A text is its head, a separator, and what follows the separator. */
  lemma TakenApart(s: string, head: string)
    requires head <= s
    ensures s == head + s[|head|..]
  {}

  lemma ReadNonce(u: string) returns (nonce: string, suffix: string)
    requires NonceAndSuffix(u)
    ensures Digits(nonce) && (suffix == ".json" || suffix == ".md")
    ensures u == "-nonce-" + (nonce + suffix)
  {
    var v := u[7..];
    nonce, suffix := v[..DigitSpan(v)], v[DigitSpan(v)..];
    TakenApart(u, "-nonce-");
    TakenApart(v, nonce);
  }

  lemma ReadParts(t: string) returns (block: string, nonce: string, suffix: string)
    requires CanonicalTail(t)
    ensures Digits(block) && Digits(nonce) && (suffix == ".json" || suffix == ".md")
    ensures t == STEM + (block + ("-nonce-" + (nonce + suffix)))
  {
    var rest := t[|STEM|..];
    block := rest[..DigitSpan(rest)];
    nonce, suffix := ReadNonce(rest[DigitSpan(rest)..]);
    TakenApart(t, STEM);
    TakenApart(rest, block);
  }

  lemma ReadTail(t: string) returns (tail: string, suffix: string)
    requires CanonicalTail(t)
    ensures TailForm(tail) && (suffix == ".json" || suffix == ".md") && t == tail + suffix
  {
    var block, nonce;
    block, nonce, suffix := ReadParts(t);
    tail := STEM + block + "-nonce-" + nonce;
    Regroup(STEM, block, "-nonce-", nonce, suffix);
  }

  /** Every name of the form is taken for one. */
  lemma FormedName(tail: string, suffix: string)
    requires TailForm(tail) && (suffix == ".json" || suffix == ".md")
    ensures CanonicalName("UNEXECUTED-" + tail + suffix)
    ensures RetiredName("UNEXECUTED-" + tail + suffix) == "EXECUTED-DO-NOT-IMPORT-" + tail + suffix
  {
    var block, nonce :| Digits(block) && Digits(nonce)
                        && tail == "v4-treasury-range-deployment-" + block + "-nonce-" + nonce;
    WriteTail(block, nonce, suffix);
    Regroup(STEM, block, "-nonce-", nonce, suffix);
    PrefixExchanged(SOURCE_PREFIX, RETIRED_PREFIX, tail, suffix);
  }

  lemma PrefixExchanged(p: string, q: string, tail: string, suffix: string)
    ensures p <= p + tail + suffix && (p + tail + suffix)[|p|..] == tail + suffix
    ensures q + (p + tail + suffix)[|p|..] == q + tail + suffix
  {
    assert p + tail + suffix == p + (tail + suffix);
  }

  lemma FormedPairAccepted(packet: Path, review: Path, tail: string)
    requires TailForm(tail) && PairOf(packet, review, tail)
    ensures RetirementPlan(packet, review) == Ok(Plan(packet, review,
              Path(packet.directory, "EXECUTED-DO-NOT-IMPORT-" + tail + ".json"),
              Path(packet.directory, "EXECUTED-DO-NOT-IMPORT-" + tail + ".md")))
  {
    FormedName(tail, ".json");
    FormedName(tail, ".md");
    Dropped("UNEXECUTED-" + tail, ".json");
    Dropped("UNEXECUTED-" + tail, ".md");
  }

  lemma Dropped(s: string, suffix: string)
    ensures DropLast(s + suffix, |suffix|) == s && EndsWith(s + suffix, suffix)
  {}

  lemma AcceptedNamesFormed(p: string, r: string) returns (tail: string)
    requires CanonicalName(p) && CanonicalName(r) && EndsWith(p, ".json") && DropLast(p, 5) == DropLast(r, 3)
    ensures TailForm(tail) && p == "UNEXECUTED-" + tail + ".json" && r == "UNEXECUTED-" + tail + ".md"
  {
    PairSuffixes(p, r);
    var suffix;
    tail, suffix := ReadTail(p[|SOURCE_PREFIX|..]);
    TakenApart(p, SOURCE_PREFIX);
    Joins(SOURCE_PREFIX, tail, suffix);
    SameEnding(p, SOURCE_PREFIX + tail, suffix);
  }

  lemma Joins(a: string, b: string, c: string)
    ensures a + (b + c) == a + b + c
  {}

  lemma SameEnding(name: string, head: string, suffix: string)
    requires name == head + suffix && (suffix == ".json" || suffix == ".md") && EndsWith(name, ".json")
    ensures suffix == ".json" && DropLast(name, 5) == head
  {
    assert name[|head|..] == suffix;
    SuffixesDiffer(name, |head|);
    Dropped(head, ".json");
  }

  /**
   A pair is accepted exactly when one tail names both files in one directory, and each then goes to
   the name of the same tail under the other prefix.
   */
  lemma RetirementPlanExactly(packet: Path, review: Path)
    ensures RetirementPlan(packet, review).Ok? <==> exists tail :: TailForm(tail) && PairOf(packet, review, tail)
    ensures forall tail | TailForm(tail) && PairOf(packet, review, tail) ::
              RetirementPlan(packet, review) == Ok(Plan(packet, review,
                Path(packet.directory, "EXECUTED-DO-NOT-IMPORT-" + tail + ".json"),
                Path(packet.directory, "EXECUTED-DO-NOT-IMPORT-" + tail + ".md")))
  {
    forall tail | TailForm(tail) && PairOf(packet, review, tail)
      ensures RetirementPlan(packet, review) == Ok(Plan(packet, review,
                Path(packet.directory, "EXECUTED-DO-NOT-IMPORT-" + tail + ".json"),
                Path(packet.directory, "EXECUTED-DO-NOT-IMPORT-" + tail + ".md")))
    {
      FormedPairAccepted(packet, review, tail);
    }
    if RetirementPlan(packet, review).Ok? {
      AcceptedPair(packet, review);
      var tail := AcceptedNamesFormed(packet.name, review.name);
      assert PairOf(packet, review, tail);
    }
  }

  // ----- the file system

  datatype Fault = Clean | ThrowsBefore | ThrowsAfter

  /** What the n-th of the coming renames does; once the list is exhausted they succeed. */
  function FaultAt(faults: seq<Fault>, n: nat): (fault: Fault)
    ensures n < |faults| ==> fault == faults[n]
    ensures n >= |faults| ==> fault.Clean?
  {
    if n < |faults| then faults[n] else Clean
  }

  /** No two of the coming renames throw. */
  ghost predicate AtMostOneThrows(faults: seq<Fault>) {
    forall i, j | 0 <= i < j < |faults| :: faults[i].Clean? || faults[j].Clean?
  }

  /** How many of the coming renames will throw. */
  ghost function Throws(faults: seq<Fault>): nat {
    if faults == [] then 0 else (if faults[0].Clean? then 0 else 1) + Throws(faults[1..])
  }

  function Moved(files: map<Path, string>, source: Path, destination: Path): map<Path, string>
    requires source in files
  {
    (files - {source})[destination := files[source]]
  }

  class FileSystem {
    var files: map<Path, string>
    /** What the next renames will do; once exhausted they succeed. */
    var faults: seq<Fault>

    constructor (files: map<Path, string>, faults: seq<Fault>)
      ensures this.files == files && this.faults == faults
    {
      this.files := files;
      this.faults := faults;
    }

    predicate Exists(path: Path)
      reads this
    {
      path in files
    }

    function NextFault(): Fault
      reads this
    {
      FaultAt(faults, 0)
    }

    method Rename(source: Path, destination: Path) returns (thrown: bool)
      modifies this
      ensures faults == if old(faults) == [] then [] else old(faults)[1..]
      ensures thrown == (source !in old(files) || !old(NextFault()).Clean?)
      ensures files == if source in old(files) && !old(NextFault()).ThrowsBefore?
                       then Moved(old(files), source, destination) else old(files)
    {
      var fault := NextFault();
      if faults != [] {
        faults := faults[1..];
      }
      if source !in files || fault.ThrowsBefore? {
        return true;
      }
      files := Moved(files, source, destination);
      return fault.ThrowsAfter?;
    }
  }

  // ----- where the two artifacts are

  ghost predicate Ready(files: map<Path, string>, plan: Plan) {
    && plan.sourcePacket in files && plan.sourceReview in files
    && plan.retiredPacket !in files && plan.retiredReview !in files
  }

  /** The original files with each artifact at its source or its retired path, and nothing else touched. */
  ghost function Placement(
      files: map<Path, string>, plan: Plan, packetRetired: bool, reviewRetired: bool): map<Path, string>
    requires Ready(files, plan)
  {
    (files - {plan.sourcePacket, plan.sourceReview})
    [(if packetRetired then plan.retiredPacket else plan.sourcePacket) := files[plan.sourcePacket]]
    [(if reviewRetired then plan.retiredReview else plan.sourceReview) := files[plan.sourceReview]]
  }

  lemma PlacementAtStart(files: map<Path, string>, plan: Plan)
    requires Ready(files, plan) && plan.Distinct()
    ensures Placement(files, plan, false, false) == files
  {}

  lemma PlacementMoves(files: map<Path, string>, plan: Plan, p: bool, r: bool)
    requires Ready(files, plan) && plan.Distinct()
    ensures var here := Placement(files, plan, p, r);
            && (plan.sourcePacket in here <==> !p) && (plan.retiredPacket in here <==> p)
            && (plan.sourceReview in here <==> !r) && (plan.retiredReview in here <==> r)
            && (!p ==> Moved(here, plan.sourcePacket, plan.retiredPacket) == Placement(files, plan, true, r))
            && (p ==> Moved(here, plan.retiredPacket, plan.sourcePacket) == Placement(files, plan, false, r))
            && (!r ==> Moved(here, plan.sourceReview, plan.retiredReview) == Placement(files, plan, p, true))
            && (r ==> Moved(here, plan.retiredReview, plan.sourceReview) == Placement(files, plan, p, false))
  {}

  /** The content is at one path and not at the other. */
  ghost predicate HeldAt(here: map<Path, string>, path: Path, other: Path, content: string) {
    path in here && here[path] == content && other !in here
  }

  /** No placement loses, duplicates or overwrites anything. */
  lemma PlacementConserves(files: map<Path, string>, plan: Plan, p: bool, r: bool)
    requires Ready(files, plan) && plan.Distinct()
    ensures var here := Placement(files, plan, p, r);
            && |here| == |files|
            && (forall path | path !in {plan.sourcePacket, plan.sourceReview, plan.retiredPacket, plan.retiredReview} ::
                  (path in here <==> path in files) && (path in files ==> here[path] == files[path]))
            && (if p then HeldAt(here, plan.retiredPacket, plan.sourcePacket, files[plan.sourcePacket])
                else HeldAt(here, plan.sourcePacket, plan.retiredPacket, files[plan.sourcePacket]))
            && (if r then HeldAt(here, plan.retiredReview, plan.sourceReview, files[plan.sourceReview])
                else HeldAt(here, plan.sourceReview, plan.retiredReview, files[plan.sourceReview]))
  {
    PlacementAtStart(files, plan);
    PlacementMoves(files, plan, false, false);
    PlacementMoves(files, plan, p, false);
    MoveConserves(files, plan.sourcePacket, plan.retiredPacket);
    MoveConserves(Placement(files, plan, p, false), plan.sourceReview, plan.retiredReview);
  }

  lemma MoveConserves(files: map<Path, string>, source: Path, destination: Path)
    requires source in files && destination !in files
    ensures |Moved(files, source, destination)| == |files|
  {
    assert (files - {source}).Keys == files.Keys - {source};
    assert Moved(files, source, destination).Keys == files.Keys - {source} + {destination};
  }

  // ----- the transaction

  datatype Outcome =
    | Rejected(reason: string)
    | Retired(packet: Path, review: Path)
    | RolledBack
    | RollbackFailed(failures: seq<string>)

  method RetireArtifacts(packet: Path, review: Path, fs: FileSystem) returns (outcome: Outcome)
    modifies fs
    ensures var plan := RetirementPlan(packet, review);
            && (outcome.Rejected? <==> plan.Err? || !Ready(old(fs.files), plan.value))
            && (outcome.Rejected? ==> fs.files == old(fs.files) && fs.faults == old(fs.faults))
            && (!outcome.Rejected? ==>
                  && plan.value.Distinct()
                  && (exists p, r :: fs.files == Placement(old(fs.files), plan.value, p, r))
                  && (outcome.Retired? <==> BothClean(old(fs.faults)))
                  && (outcome.Retired? ==>
                        && fs.files == Placement(old(fs.files), plan.value, true, true)
                        && outcome == Retired(plan.value.retiredPacket, plan.value.retiredReview))
                  && (outcome.RolledBack? ==> fs.files == old(fs.files))
                  && (outcome.RolledBack? <==> RollsBack(old(fs.faults)))
                  && (Throws(old(fs.faults)) <= 1 ==> !outcome.RollbackFailed?)
                  && (AtMostOneThrows(old(fs.faults)) ==> !outcome.RollbackFailed?))
  {
    var planned := RetirementPlan(packet, review);
    if planned.Err? {
      return Rejected(planned.reason);
    }
    var plan := planned.value;
    if !fs.Exists(plan.sourcePacket) || !fs.Exists(plan.sourceReview) {
      return Rejected("Treasury Range deployment artifact pair is missing before retirement");
    }
    if fs.Exists(plan.retiredPacket) || fs.Exists(plan.retiredReview) {
      return Rejected("Refusing to overwrite an existing EXECUTED-DO-NOT-IMPORT deployment artifact");
    }
    PlanPathsDistinct(packet, review);
    outcome := RenameBoth(fs, plan);
  }

  method RenameBoth(fs: FileSystem, plan: Plan) returns (outcome: Outcome)
    requires plan.Distinct() && Ready(fs.files, plan)
    modifies fs
    ensures !outcome.Rejected? && (outcome.Retired? <==> BothClean(old(fs.faults)))
    ensures exists p, r :: fs.files == Placement(old(fs.files), plan, p, r)
    ensures outcome.Retired? ==>
              fs.files == Placement(old(fs.files), plan, true, true)
                && outcome == Retired(plan.retiredPacket, plan.retiredReview)
    ensures outcome.RolledBack? ==> fs.files == old(fs.files)
    ensures outcome.RolledBack? <==> RollsBack(old(fs.faults))
    ensures Throws(old(fs.faults)) <= 1 ==> !outcome.RollbackFailed?
    ensures AtMostOneThrows(old(fs.faults)) ==> !outcome.RollbackFailed?
  {
    if Throws(fs.faults) <= 1 {
      OneFaultIsUndone(fs.faults);
    }
    if AtMostOneThrows(fs.faults) {
      SingleFaultIsUndone(fs.faults);
    }
    ghost var start := fs.files;
    ghost var p, r := false, false;
    PlacementAtStart(start, plan);
    PlacementMoves(start, plan, p, r);
    p := !fs.NextFault().ThrowsBefore?;
    var thrown := fs.Rename(plan.sourcePacket, plan.retiredPacket);
    if !thrown {
      PlacementMoves(start, plan, p, r);
      r := !fs.NextFault().ThrowsBefore?;
      thrown := fs.Rename(plan.sourceReview, plan.retiredReview);
    }
    if thrown {
      outcome := RollBack(fs, plan, start, p, r);
    } else {
      outcome := Retired(plan.retiredPacket, plan.retiredReview);
    }
  }

  ghost predicate BothClean(faults: seq<Fault>) {
    FaultAt(faults, 0).Clean? && FaultAt(faults, 1).Clean?
  }

  /** A failed retirement is undone exactly when every rename needed to undo it is clean. */
  ghost predicate RollsBack(faults: seq<Fault>) {
    match FaultAt(faults, 0)
    case ThrowsBefore => true
    case ThrowsAfter => FaultAt(faults, 1).Clean?
    case Clean =>
      match FaultAt(faults, 1)
      case ThrowsBefore => FaultAt(faults, 2).Clean?
      case ThrowsAfter => FaultAt(faults, 2).Clean? && FaultAt(faults, 3).Clean?
      case Clean => false
  }

  lemma {:induction false} TwoFaultsCount(faults: seq<Fault>, m: nat, n: nat)
    requires m < n && !FaultAt(faults, m).Clean? && !FaultAt(faults, n).Clean?
    ensures Throws(faults) >= 2
  {
    if m == 0 {
      OneFaultCounts(faults[1..], n - 1);
    } else {
      TwoFaultsCount(faults[1..], m - 1, n - 1);
    }
  }

  lemma {:induction false} OneFaultCounts(faults: seq<Fault>, n: nat)
    requires !FaultAt(faults, n).Clean?
    ensures Throws(faults) >= 1
  {
    if n > 0 {
      OneFaultCounts(faults[1..], n - 1);
    }
  }

  /** A single fault never strands a file. */
  lemma OneFaultIsUndone(faults: seq<Fault>)
    requires Throws(faults) <= 1
    ensures BothClean(faults) || RollsBack(faults)
  {
    if !FaultAt(faults, 0).Clean? && !FaultAt(faults, 1).Clean? {
      TwoFaultsCount(faults, 0, 1);
    } else if !FaultAt(faults, 1).Clean? {
      if !FaultAt(faults, 2).Clean? {
        TwoFaultsCount(faults, 1, 2);
      }
      if !FaultAt(faults, 3).Clean? {
        TwoFaultsCount(faults, 1, 3);
      }
    }
  }

  lemma SingleFaultIsUndone(faults: seq<Fault>)
    requires AtMostOneThrows(faults)
    ensures BothClean(faults) || RollsBack(faults)
  {}

  /** The packet's rename back comes after the review's, if that one is needed. */
  ghost predicate UndoesPacket(faults: seq<Fault>, reviewRetired: bool) {
    FaultAt(faults, if reviewRetired then 1 else 0).Clean?
  }

  method RollBack(
      fs: FileSystem, plan: Plan, ghost start: map<Path, string>, ghost packetRetired: bool, ghost reviewRetired: bool)
    returns (outcome: Outcome)
    requires plan.Distinct() && Ready(start, plan) && fs.files == Placement(start, plan, packetRetired, reviewRetired)
    modifies fs
    ensures outcome.RolledBack? || outcome.RollbackFailed?
    ensures outcome.RolledBack? ==> fs.files == start
    ensures Throws(old(fs.faults)) == 0 ==> outcome.RolledBack?
    ensures outcome.RolledBack?
            <==> (reviewRetired ==> FaultAt(old(fs.faults), 0).Clean?)
                 && (packetRetired ==> UndoesPacket(old(fs.faults), reviewRetired))
    ensures outcome.RollbackFailed? ==>
              outcome.failures
              == (if reviewRetired && !FaultAt(old(fs.faults), 0).Clean? then ["Markdown"] else [])
                 + (if packetRetired && !UndoesPacket(old(fs.faults), reviewRetired) then ["JSON"] else [])
    ensures fs.files == Placement(start, plan,
              packetRetired && FaultAt(old(fs.faults), if reviewRetired then 1 else 0).ThrowsBefore?,
              reviewRetired && FaultAt(old(fs.faults), 0).ThrowsBefore?)
  {
    var rollbackFailures: seq<string> := [];
    var moves := [(plan.retiredReview, plan.sourceReview, "Markdown"), (plan.retiredPacket, plan.sourcePacket, "JSON")];
    ghost var faults := fs.faults;
    if !(reviewRetired ==> FaultAt(faults, 0).Clean?) {
      OneFaultCounts(faults, 0);
    }
    if !UndoesPacket(faults, reviewRetired) {
      OneFaultCounts(faults, if reviewRetired then 1 else 0);
    }
    ghost var p, r := packetRetired, reviewRetired;
    for i := 0 to 2
      invariant fs.files == Placement(start, plan, p, r)
      invariant i <= 1 ==> p == packetRetired
      invariant i == 0 ==> r == reviewRetired && fs.faults == faults
      invariant i > 0 ==> r == (reviewRetired && FaultAt(faults, 0).ThrowsBefore?)
      invariant i == 1 ==> fs.NextFault() == FaultAt(faults, if reviewRetired then 1 else 0)
      invariant i > 1 ==> p == (packetRetired && FaultAt(faults, if reviewRetired then 1 else 0).ThrowsBefore?)
      invariant rollbackFailures ==
                (if i > 0 && reviewRetired && !FaultAt(faults, 0).Clean? then ["Markdown"] else [])
                + (if i > 1 && packetRetired && !UndoesPacket(faults, reviewRetired) then ["JSON"] else [])
    {
      var (destination, source, artifact) := moves[i];
      PlacementMoves(start, plan, p, r);
      if fs.Exists(destination) {
        if fs.Exists(source) {
          rollbackFailures := rollbackFailures + [artifact + " source and retired paths both exist"];
        } else {
          ghost var effective := !fs.NextFault().ThrowsBefore?;
          var thrown := fs.Rename(destination, source);
          if effective {
            p, r := if i == 1 then false else p, if i == 0 then false else r;
          }
          if thrown {
            rollbackFailures := rollbackFailures + [artifact];
          }
        }
      }
    }
    if rollbackFailures != [] {
      return RollbackFailed(rollbackFailures);
    }
    PlacementAtStart(start, plan);
    return RolledBack;
  }
}
