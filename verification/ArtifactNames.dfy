/** The names of signing packets and Safe batches, as text: what matches them and how they sort. */
module ArtifactNames {
  import opened Sorting
  import opened CandidateIds

  /** The signing block and Safe nonce a file name carries. */
  datatype Generation = Generation(block: nat, nonce: nat)

  const UNEXECUTED: string := "UNEXECUTED-v4-position-nft-phase2-"
  const PENDING: string := "PENDING-PACKET-LINK-DO-NOT-IMPORT-" + "v4-position-nft-phase2-"
  const INCOMPLETE: string := "INCOMPLETE-DO-NOT-IMPORT-"

  /** The pattern both the builder and the quarantine look for. */
  predicate ArtifactPattern(file: string) {
    UNEXECUTED <= file || PENDING <= file
  }

  /** The pattern reads: one of the two prefixes, and then anything. */
  lemma PatternSpelledOut(file: string)
    ensures ArtifactPattern(file)
            <==> exists rest :: file == "UNEXECUTED-v4-position-nft-phase2-" + rest
                                || file == "PENDING-PACKET-LINK-DO-NOT-IMPORT-" + "v4-position-nft-phase2-" + rest
  {
    if UNEXECUTED <= file {
      assert file == UNEXECUTED + file[|UNEXECUTED|..];
    } else if PENDING <= file {
      assert file == PENDING + file[|PENDING|..];
    }
  }

  type OtherName = s: string | !ArtifactPattern(s) && !(INCOMPLETE <= s) witness ""

  datatype Name =
    | SigningPacket(generation: Generation)
    | StagedBatch(generation: Generation)
    | SafeBatch(generation: Generation)
    | Incomplete(original: Name)
    | Unrelated(name: OtherName)

  function Stamp(g: Generation): string {
    Decimal(g.block) + "-" + ("nonce-" + (Decimal(g.nonce) + ".json"))
  }

  function FileName(n: Name): string {
    match n
    case SigningPacket(g) => UNEXECUTED + ("signing-packet-" + Stamp(g))
    case StagedBatch(g) => PENDING + ("safe-batch-" + Stamp(g))
    case SafeBatch(g) => UNEXECUTED + ("safe-batch-" + Stamp(g))
    case Incomplete(original) => INCOMPLETE + FileName(original)
    case Unrelated(name) => name
  }

  /** The names that stand for an artifact of some generation. */
  ghost predicate Candidate(n: Name) {
    n.SigningPacket? || n.StagedBatch? || n.SafeBatch?
  }

  /** The pattern finds exactly those: a quarantined name is no longer one. */
  lemma PatternExactly(n: Name)
    ensures ArtifactPattern(FileName(n)) <==> Candidate(n)
  {
    match n
    case SigningPacket(g) => Prefixed(UNEXECUTED, "signing-packet-" + Stamp(g));
    case StagedBatch(g) => Prefixed(PENDING, "safe-batch-" + Stamp(g));
    case SafeBatch(g) => Prefixed(UNEXECUTED, "safe-batch-" + Stamp(g));
    case Incomplete(original) =>
      var file := INCOMPLETE + FileName(original);
      assert file[0] == 'I' && UNEXECUTED[0] == 'U' && PENDING[0] == 'P';
    case Unrelated(_) =>
  }

  lemma Prefixed(prefix: string, rest: string)
    ensures prefix <= prefix + rest
    ensures (prefix + rest)[|prefix|..] == rest
  {}

  // ----- different names are different files

  lemma SamePrefix(prefix: string, x: string, y: string)
    requires prefix + x == prefix + y
    ensures x == y
  {
    Prefixed(prefix, x);
    Prefixed(prefix, y);
  }

  lemma SameSuffix(x: string, y: string, suffix: string)
    requires x + suffix == y + suffix
    ensures x == y
  {
    assert x == (x + suffix)[..|x + suffix| - |suffix|] && y == (y + suffix)[..|y + suffix| - |suffix|];
  }

  lemma StampInjective(g: Generation, h: Generation)
    requires Stamp(g) == Stamp(h)
    ensures g == h
  {
    var x, y := Decimal(g.nonce) + ".json", Decimal(h.nonce) + ".json";
    DecimalHasNoDash(g.block);
    DecimalHasNoDash(h.block);
    SplitAtDash(Decimal(g.block), Decimal(h.block), "nonce-" + x, "nonce-" + y);
    DecimalInjective(g.block, h.block);
    SamePrefix("nonce-", x, y);
    SameSuffix(Decimal(g.nonce), Decimal(h.nonce), ".json");
    DecimalInjective(g.nonce, h.nonce);
  }

  /** Packets and batches are told apart one letter into what follows the prefix. */
  lemma KindsDiffer(g: Generation, h: Generation)
    ensures FileName(SigningPacket(g)) != FileName(SafeBatch(h))
  {
    var x, y := "signing-packet-" + Stamp(g), "safe-batch-" + Stamp(h);
    assert x[1] == 'i' && y[1] == 'a';
    if UNEXECUTED + x == UNEXECUTED + y {
      SamePrefix(UNEXECUTED, x, y);
    }
  }

  lemma FirstLetter(n: Name)
    ensures match n
            case StagedBatch(_) => FileName(n) != "" && FileName(n)[0] == 'P'
            case Incomplete(_) => INCOMPLETE <= FileName(n) && FileName(n)[0] == 'I'
            case Unrelated(_) => !(INCOMPLETE <= FileName(n))
            case _ => FileName(n) != "" && FileName(n)[0] == 'U'
  {
    if n.Incomplete? {
      Prefixed(INCOMPLETE, FileName(n.original));
    }
  }

  lemma {:induction false} FileNameInjective(m: Name, n: Name)
    requires FileName(m) == FileName(n)
    ensures m == n
  {
    PatternExactly(m);
    PatternExactly(n);
    FirstLetter(m);
    FirstLetter(n);
    match m
    case SigningPacket(g) =>
      if n.SafeBatch? {
        KindsDiffer(g, n.generation);
      } else {
        SamePrefix(UNEXECUTED, "signing-packet-" + Stamp(g), "signing-packet-" + Stamp(n.generation));
        SameKind("signing-packet-", g, n.generation);
      }
    case StagedBatch(g) =>
      SamePrefix(PENDING, "safe-batch-" + Stamp(g), "safe-batch-" + Stamp(n.generation));
      SameKind("safe-batch-", g, n.generation);
    case SafeBatch(g) =>
      if n.SigningPacket? {
        KindsDiffer(n.generation, g);
      } else {
        SamePrefix(UNEXECUTED, "safe-batch-" + Stamp(g), "safe-batch-" + Stamp(n.generation));
        SameKind("safe-batch-", g, n.generation);
      }
    case Incomplete(original) =>
      SamePrefix(INCOMPLETE, FileName(original), FileName(n.original));
      FileNameInjective(original, n.original);
    case Unrelated(_) =>
  }

  lemma SameKind(kind: string, g: Generation, h: Generation)
    requires kind + Stamp(g) == kind + Stamp(h)
    ensures g == h
  {
    SamePrefix(kind, Stamp(g), Stamp(h));
    StampInjective(g, h);
  }

  // ----- how names sort

  /** The order of texts, character by character. */
  predicate TextBefore(s: string, t: string) {
    if t == "" then false
    else if s == "" then true
    else if s[0] != t[0] then s[0] < t[0]
    else TextBefore(s[1..], t[1..])
  }

  lemma {:induction false} TextAsymmetric(s: string, t: string)
    requires TextBefore(s, t)
    ensures !TextBefore(t, s)
  {
    if s != "" && s[0] == t[0] {
      TextAsymmetric(s[1..], t[1..]);
    }
  }

  lemma {:induction false} TextChains(s: string, t: string, u: string)
    requires !TextBefore(s, t) && !TextBefore(t, u)
    ensures !TextBefore(s, u)
  {
    if s != "" && t != "" && u != "" && s[0] == t[0] == u[0] {
      TextChains(s[1..], t[1..], u[1..]);
    }
  }

  lemma {:induction false} TextSkips(prefix: string, x: string, y: string)
    ensures TextBefore(prefix + x, prefix + y) <==> TextBefore(x, y)
  {
    if prefix == "" {
      assert prefix + x == x && prefix + y == y;
    } else {
      assert (prefix + x)[1..] == prefix[1..] + x && (prefix + y)[1..] == prefix[1..] + y;
      TextSkips(prefix[1..], x, y);
    }
  }

  function ByFileName(): (Name, Name) -> bool {
    (m: Name, n: Name) => TextBefore(FileName(m), FileName(n))
  }

  lemma ByFileNameIsWeak()
    ensures StrictWeak(ByFileName())
  {
    forall m, n | ByFileName()(m, n)
      ensures !ByFileName()(n, m)
    {
      TextAsymmetric(FileName(m), FileName(n));
    }
    forall l, m, n | !ByFileName()(l, m) && !ByFileName()(m, n)
      ensures !ByFileName()(l, n)
    {
      TextChains(FileName(l), FileName(m), FileName(n));
    }
  }

  /** Staged batches, then batches, then packets. */
  ghost function KindRank(n: Name): nat {
    match n
    case StagedBatch(_) => 0
    case SafeBatch(_) => 1
    case SigningPacket(_) => 2
    case _ => 3
  }

  /** Sorting by name puts the kinds in that order, whatever their generations. */
  lemma KindsSort(m: Name, n: Name)
    requires Candidate(m) && Candidate(n) && KindRank(m) < KindRank(n)
    ensures ByFileName()(m, n)
  {
    if m.StagedBatch? {
      FirstLetter(m);
      FirstLetter(n);
    } else {
      var x, y := "safe-batch-" + Stamp(m.generation), "signing-packet-" + Stamp(n.generation);
      TextSkips(UNEXECUTED, x, y);
      SecondLetters(x, y);
    }
  }

  lemma SecondLetters(x: string, y: string)
    requires |x| > 1 && |y| > 1 && x[0] == y[0] && x[1] < y[1]
    ensures TextBefore(x, y)
  {
    assert x[1..][0] == x[1] && y[1..][0] == y[1];
  }
}
