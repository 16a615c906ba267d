/**
 The canonical text two JSON documents are compared by: keys sorted at every level, no white
 space. The text is the same exactly when the documents are the same up to key order.
 */
module CanonicalJson {
  import opened Sorting

  datatype Json =
    | Null
    | Bool(value: bool)
    | Number(text: string)
    | String(chars: string)
    | Array(items: seq<Json>)
    | Object(fields: seq<Field>)

  datatype Field = Field(key: string, value: Json)

  // ----- well-formed documents

  /** The texts numbers print as: they start with a digit or a sign and never contain a delimiter. */
  ghost predicate NumberText(s: string) {
    && s != ""
    && NumberStart(s[0])
    && forall i | 0 <= i < |s| :: NumberChar(s[i])
  }

  ghost predicate NumberStart(c: char) {
    '0' <= c <= '9' || c == '-'
  }

  ghost predicate NumberChar(c: char) {
    '0' <= c <= '9' || c == '-' || c == '+' || c == '.' || c == 'e' || c == 'E'
  }

  ghost predicate DistinctKeys(fields: seq<Field>) {
    forall i, j | 0 <= i < j < |fields| :: fields[i].key != fields[j].key
  }

  ghost predicate WellFormed(v: Json) {
    match v
    case Null => true
    case Bool(_) => true
    case Number(text) => NumberText(text)
    case String(_) => true
    case Array(items) => forall i | 0 <= i < |items| :: WellFormed(items[i])
    case Object(fields) => DistinctKeys(fields) && forall i | 0 <= i < |fields| :: WellFormed(fields[i].value)
  }

  /** Equal up to the order of object keys, at every depth. */
  ghost predicate Same(a: Json, b: Json)
    decreases a
  {
    match a
    case Array(items) =>
      b.Array? && |items| == |b.items| && forall i | 0 <= i < |items| :: Same(items[i], b.items[i])
    case Object(fields) =>
      && b.Object? && |fields| == |b.fields|
      && forall i | 0 <= i < |fields| ::
           exists j | 0 <= j < |b.fields| ::
             fields[i].key == b.fields[j].key && Same(fields[i].value, b.fields[j].value)
    case _ => a == b
  }

  // ----- strings

  function HexDigit(n: nat): char
    requires n < 16
  {
    if n < 10 then '0' + n as char else 'a' + (n - 10) as char
  }

  /** JSON.stringify's escape of one character. */
  function Escape(c: char): string {
    if c == '"' then "\\\""
    else if c == '\\' then "\\\\"
    else if c == 8 as char then "\\b"
    else if c == 12 as char then "\\f"
    else if c == '\n' then "\\n"
    else if c == '\r' then "\\r"
    else if c == '\t' then "\\t"
    else if c < ' ' then "\\u00" + [HexDigit(c as nat / 16), HexDigit(c as nat % 16)]
    else [c]
  }

  function EscapeAll(s: string): string {
    if s == "" then "" else Escape(s[0]) + EscapeAll(s[1..])
  }

  function Quote(s: string): string {
    "\"" + EscapeAll(s) + "\""
  }

  // ----- canonical text

  function ByKey(keyBefore: (string, string) -> bool): (Field, Field) -> bool {
    (f: Field, g: Field) => keyBefore(f.key, g.key)
  }

  function SortedFields(v: Json, keyBefore: (string, string) -> bool): (s: seq<Field>)
    requires v.Object?
    ensures |s| == |v.fields| && forall f :: f in s <==> f in v.fields
    ensures forall i | 0 <= i < |s| :: s[i].value < v
  {
    SortMembers(v.fields, ByKey(keyBefore));
    var s := Sort(v.fields, ByKey(keyBefore));
    InObject(v, s);
    s
  }

  lemma InObject(v: Json, s: seq<Field>)
    requires v.Object? && forall f | f in s :: f in v.fields
    ensures forall i | 0 <= i < |s| :: s[i].value < v
    ensures WellFormed(v) ==> forall i | 0 <= i < |s| :: WellFormed(s[i].value)
  {
    forall i | 0 <= i < |s|
      ensures s[i].value < v && (WellFormed(v) ==> WellFormed(s[i].value))
    {
      assert s[i] in v.fields;
      var j :| 0 <= j < |v.fields| && v.fields[j] == s[i];
    }
  }

  /** `keyBefore` stands for the locale's order of keys. */
  function Canonical(v: Json, keyBefore: (string, string) -> bool): string
    decreases v, 1
  {
    match v
    case Null => "null"
    case Bool(b) => if b then "true" else "false"
    case Number(text) => text
    case String(s) => Quote(s)
    case Array(items) => "[" + Items(v, items, keyBefore) + "]"
    case Object(_) => "{" + Fields(v, SortedFields(v, keyBefore), keyBefore) + "}"
  }

  /** The texts of some items of `parent`, joined by commas. */
  function Items(ghost parent: Json, items: seq<Json>, keyBefore: (string, string) -> bool): string
    requires forall i | 0 <= i < |items| :: items[i] < parent
    decreases parent, 0, |items|
  {
    if items == [] then ""
    else
      Canonical(items[0], keyBefore) + (if |items| == 1 then "" else "," + Items(parent, items[1..], keyBefore))
  }

  function FieldText(f: Field, keyBefore: (string, string) -> bool): string
    decreases f.value, 2
  {
    Quote(f.key) + ":" + Canonical(f.value, keyBefore)
  }

  function Fields(ghost parent: Json, fields: seq<Field>, keyBefore: (string, string) -> bool): string
    requires forall i | 0 <= i < |fields| :: fields[i].value < parent
    decreases parent, 0, |fields|
  {
    if fields == [] then ""
    else
      FieldText(fields[0], keyBefore) + (if |fields| == 1 then "" else "," + Fields(parent, fields[1..], keyBefore))
  }

  // ----- the text of a string can be read back

  lemma Cancel(p: string, x: string, y: string)
    requires p + x == p + y
    ensures x == y
  {
    assert x == (p + x)[|p|..] && y == (p + y)[|p|..];
  }

  lemma CancelRight(x: string, y: string, p: string)
    requires x + p == y + p
    ensures x == y
  {
    assert x == (x + p)[..|x + p| - |p|] && y == (y + p)[..|y + p| - |p|];
  }

  lemma Reassociate(p: string, q: string, r: string)
    ensures p + q + r == p + (q + r)
  {}

  lemma Bracketed(open: string, body: string, close: string, tail: string)
    ensures open + body + close + tail == open + (body + (close + tail))
  {}

  lemma HexInjective(m: nat, n: nat)
    requires m < 16 && n < 16 && HexDigit(m) == HexDigit(n)
    ensures m == n
  {}

  lemma EscapeShape(c: char)
    ensures Escape(c) != "" && Escape(c)[0] != '"'
    ensures Escape(c)[0] == '\\' ==> |Escape(c)| >= 2
    ensures Escape(c)[0] != '\\' ==> Escape(c) == [c]
    ensures Escape(c)[0] == '\\' && Escape(c)[1] != 'u' ==> |Escape(c)| == 2
    ensures Escape(c)[0] == '\\' && Escape(c)[1] == 'u' ==>
              |Escape(c)| == 6 && c < ' ' && Escape(c)[4] == HexDigit(c as nat / 16)
                && Escape(c)[5] == HexDigit(c as nat % 16)
  {}

  /** No escape is a prefix of another, so the first one in a text determines its character. */
  lemma EscapeUnambiguous(c: char, d: char, x: string, y: string)
    requires Escape(c) + x == Escape(d) + y
    ensures c == d && x == y
  {
    EscapeShape(c);
    EscapeShape(d);
    var s, t := Escape(c), Escape(d);
    assert s[0] == (s + x)[0] && t[0] == (t + y)[0];
    if s[0] == '\\' {
      assert s[1] == (s + x)[1] && t[1] == (t + y)[1];
      if s[1] == 'u' {
        assert s[4] == (s + x)[4] && t[4] == (t + y)[4];
        assert s[5] == (s + x)[5] && t[5] == (t + y)[5];
        HexInjective(c as nat / 16, d as nat / 16);
        HexInjective(c as nat % 16, d as nat % 16);
      } else {
        ShortEscapes(c, d);
      }
    }
    Cancel(s, x, y);
  }

  lemma ShortEscapes(c: char, d: char)
    requires |Escape(c)| == 2 && |Escape(d)| == 2 && Escape(c)[1] == Escape(d)[1]
    ensures c == d
  {}

  /** The text after an opening quote: the first character's escape, then the rest. */
  lemma EscapeAllText(s: string, x: string)
    requires s != ""
    ensures EscapeAll(s) + "\"" + x == Escape(s[0]) + (EscapeAll(s[1..]) + "\"" + x)
    ensures (EscapeAll(s) + "\"" + x)[0] != '"'
  {
    EscapeShape(s[0]);
    assert EscapeAll(s) == Escape(s[0]) + EscapeAll(s[1..]);
    Reassociate(Escape(s[0]), EscapeAll(s[1..]), "\"" + x);
    Reassociate(EscapeAll(s), "\"", x);
    Reassociate(EscapeAll(s[1..]), "\"", x);
    assert (EscapeAll(s) + "\"" + x)[0] == Escape(s[0])[0];
  }

  lemma {:induction false} EscapeAllUnambiguous(s: string, t: string, x: string, y: string)
    requires EscapeAll(s) + "\"" + x == EscapeAll(t) + "\"" + y
    ensures s == t && x == y
  {
    if s != "" { EscapeAllText(s, x); } else { assert EscapeAll(s) + "\"" + x == "\"" + x; }
    if t != "" { EscapeAllText(t, y); } else { assert EscapeAll(t) + "\"" + y == "\"" + y; }
    if s == "" || t == "" {
      assert s == t;
      Cancel("\"", x, y);
    } else {
      EscapeUnambiguous(s[0], t[0], EscapeAll(s[1..]) + "\"" + x, EscapeAll(t[1..]) + "\"" + y);
      EscapeAllUnambiguous(s[1..], t[1..], x, y);
      assert s == [s[0]] + s[1..] && t == [t[0]] + t[1..];
    }
  }

  lemma QuoteText(s: string, x: string)
    ensures Quote(s) + x == "\"" + (EscapeAll(s) + "\"" + x)
  {
    Reassociate("\"", EscapeAll(s), "\"");
    Reassociate("\"", EscapeAll(s) + "\"", x);
  }

  lemma QuoteUnambiguous(s: string, t: string, x: string, y: string)
    requires Quote(s) + x == Quote(t) + y
    ensures s == t && x == y
  {
    QuoteText(s, x);
    QuoteText(t, y);
    Cancel("\"", EscapeAll(s) + "\"" + x, EscapeAll(t) + "\"" + y);
    EscapeAllUnambiguous(s, t, x, y);
  }

  // ----- the text of a document can be read back, up to key order

  /** What may follow a value inside a document. */
  ghost predicate Delimited(x: string) {
    x == "" || x[0] == ',' || x[0] == ']' || x[0] == '}'
  }

  ghost function FirstChar(v: Json): char
    requires WellFormed(v)
  {
    match v
    case Null => 'n'
    case Bool(b) => if b then 't' else 'f'
    case Number(text) => text[0]
    case String(_) => '"'
    case Array(_) => '['
    case Object(_) => '{'
  }

  lemma CanonicalStart(v: Json, keyBefore: (string, string) -> bool, x: string)
    requires WellFormed(v)
    ensures Canonical(v, keyBefore) + x != "" && (Canonical(v, keyBefore) + x)[0] == FirstChar(v)
  {}

  lemma NumberUnambiguous(s: string, t: string, x: string, y: string)
    requires NumberText(s) && NumberText(t) && Delimited(x) && Delimited(y) && s + x == t + y
    ensures s == t && x == y
  {
    var u := s + x;
    assert forall i | 0 <= i < |s| :: u[i] == s[i];
    assert forall i | 0 <= i < |t| :: u[i] == t[i];
    assert |s| < |u| ==> u[|s|] == x[0];
    assert |t| < |u| ==> u[|t|] == y[0];
    assert |s| == |t|;
    assert s == u[..|s|] && t == u[..|t|];
    Cancel(s, x, y);
  }

  /** What follows the first item in the text of a non-empty list of items. */
  ghost function AfterItem(parent: Json, s: seq<Json>, tail: string, keyBefore: (string, string) -> bool): string
    requires s != [] && forall i | 0 <= i < |s| :: s[i] < parent
  {
    if |s| == 1 then tail else "," + (Items(parent, s[1..], keyBefore) + tail)
  }

  ghost function AfterField(parent: Json, s: seq<Field>, tail: string, keyBefore: (string, string) -> bool): string
    requires s != [] && forall i | 0 <= i < |s| :: s[i].value < parent
  {
    if |s| == 1 then tail else "," + (Fields(parent, s[1..], keyBefore) + tail)
  }

  lemma ItemsText(parent: Json, s: seq<Json>, tail: string, keyBefore: (string, string) -> bool)
    requires s != [] && forall i | 0 <= i < |s| :: s[i] < parent
    ensures Items(parent, s, keyBefore) + tail
         == Canonical(s[0], keyBefore) + AfterItem(parent, s, tail, keyBefore)
  {}

  lemma FieldsText(parent: Json, s: seq<Field>, tail: string, keyBefore: (string, string) -> bool)
    requires s != [] && forall i | 0 <= i < |s| :: s[i].value < parent
    ensures Fields(parent, s, keyBefore) + tail
         == Quote(s[0].key) + (":" + (Canonical(s[0].value, keyBefore) + AfterField(parent, s, tail, keyBefore)))
  {
    var more := if |s| == 1 then "" else "," + Fields(parent, s[1..], keyBefore);
    assert Fields(parent, s, keyBefore) == FieldText(s[0], keyBefore) + more;
    assert more + tail == AfterField(parent, s, tail, keyBefore) by {
      if |s| > 1 {
        Reassociate(",", Fields(parent, s[1..], keyBefore), tail);
      }
    }
    FiveParts(Quote(s[0].key), ":", Canonical(s[0].value, keyBefore), more, tail);
  }

  lemma FiveParts(a: string, b: string, c: string, d: string, e: string)
    ensures a + b + c + d + e == a + (b + (c + (d + e)))
  {
    Reassociate(a + b + c, d, e);
    Reassociate(a + b, c, d + e);
    Reassociate(a, b, c + (d + e));
  }

  /** The text of a non-empty list of items cannot be taken for that of an empty one. */
  lemma NonEmptyItems(parent: Json, s: seq<Json>, tail: string, keyBefore: (string, string) -> bool)
    requires s != [] && forall i | 0 <= i < |s| :: s[i] < parent && WellFormed(s[i])
    ensures Items(parent, s, keyBefore) + tail != ""
    ensures (Items(parent, s, keyBefore) + tail)[0] != ']'
  {
    ItemsText(parent, s, tail, keyBefore);
    CanonicalStart(s[0], keyBefore, AfterItem(parent, s, tail, keyBefore));
  }

  lemma {:induction false} Unambiguous(a: Json, b: Json, x: string, y: string, keyBefore: (string, string) -> bool)
    requires WellFormed(a) && WellFormed(b) && Delimited(x) && Delimited(y)
    requires Canonical(a, keyBefore) + x == Canonical(b, keyBefore) + y
    ensures Same(a, b) && x == y
    decreases a, 1
  {
    CanonicalStart(a, keyBefore, x);
    CanonicalStart(b, keyBefore, y);
    match a
    case Null => Cancel("null", x, y);
    case Bool(v) => Cancel(if v then "true" else "false", x, y);
    case Number(text) => NumberUnambiguous(text, b.text, x, y);
    case String(s) => QuoteUnambiguous(s, b.chars, x, y);
    case Array(items) => ArraysUnambiguous(a, b, x, y, keyBefore);
    case Object(fields) => ObjectsUnambiguous(a, b, x, y, keyBefore);
  }

  lemma {:induction false} ArraysUnambiguous(
      a: Json, b: Json, x: string, y: string, keyBefore: (string, string) -> bool)
    requires WellFormed(a) && WellFormed(b) && a.Array? && b.Array?
    requires Canonical(a, keyBefore) + x == Canonical(b, keyBefore) + y
    ensures Same(a, b) && x == y && Matching(a.items, b.items, keyBefore)
    decreases a, 0, |a.items| + 1
  {
    var s, t := Items(a, a.items, keyBefore), Items(b, b.items, keyBefore);
    Bracketed("[", s, "]", x);
    Bracketed("[", t, "]", y);
    Cancel("[", s + ("]" + x), t + ("]" + y));
    ItemsUnambiguous(a, b, a.items, b.items, x, y, keyBefore);
  }

  /** Equal texts of lists give equal texts of their first items and of what follows. */
  lemma {:induction false} ItemsHead(
      a: Json, b: Json, s: seq<Json>, t: seq<Json>, x: string, y: string, keyBefore: (string, string) -> bool)
    requires forall i | 0 <= i < |s| :: s[i] < a && WellFormed(s[i])
    requires forall i | 0 <= i < |t| :: t[i] < b && WellFormed(t[i])
    requires s != [] && t != []
    requires Items(a, s, keyBefore) + ("]" + x) == Items(b, t, keyBefore) + ("]" + y)
    ensures Same(s[0], t[0]) && Canonical(s[0], keyBefore) == Canonical(t[0], keyBefore)
    ensures |s| == 1 <==> |t| == 1
    ensures |s| == 1 ==> x == y
    ensures |s| > 1 ==> Items(a, s[1..], keyBefore) + ("]" + x) == Items(b, t[1..], keyBefore) + ("]" + y)
    decreases a, 0, |s|, 0
  {
    var more, more' := AfterItem(a, s, "]" + x, keyBefore), AfterItem(b, t, "]" + y, keyBefore);
    ItemsText(a, s, "]" + x, keyBefore);
    ItemsText(b, t, "]" + y, keyBefore);
    Unambiguous(s[0], t[0], more, more', keyBefore);
    CancelRight(Canonical(s[0], keyBefore), Canonical(t[0], keyBefore), more);
    assert more[0] == (if |s| == 1 then ']' else ',') && more'[0] == (if |t| == 1 then ']' else ',');
    if |s| == 1 {
      Cancel("]", x, y);
    } else {
      Cancel(",", Items(a, s[1..], keyBefore) + ("]" + x), Items(b, t[1..], keyBefore) + ("]" + y));
    }
  }

  /** Position by position the same documents, with the same texts. */
  ghost predicate Matching(s: seq<Json>, t: seq<Json>, keyBefore: (string, string) -> bool) {
    |s| == |t| && forall i | 0 <= i < |s| ::
      Same(s[i], t[i]) && Canonical(s[i], keyBefore) == Canonical(t[i], keyBefore)
  }

  lemma MatchingFromHead(s: seq<Json>, t: seq<Json>, keyBefore: (string, string) -> bool)
    requires s != [] && t != [] && Same(s[0], t[0]) && Canonical(s[0], keyBefore) == Canonical(t[0], keyBefore)
    requires Matching(s[1..], t[1..], keyBefore)
    ensures Matching(s, t, keyBefore)
  {
    forall i | 0 < i < |s|
      ensures Same(s[i], t[i]) && Canonical(s[i], keyBefore) == Canonical(t[i], keyBefore)
    {
      assert s[i] == s[1..][i - 1] && t[i] == t[1..][i - 1];
    }
  }

  lemma {:induction false} ItemsUnambiguous(
      a: Json, b: Json, s: seq<Json>, t: seq<Json>, x: string, y: string, keyBefore: (string, string) -> bool)
    requires forall i | 0 <= i < |s| :: s[i] < a && WellFormed(s[i])
    requires forall i | 0 <= i < |t| :: t[i] < b && WellFormed(t[i])
    requires Items(a, s, keyBefore) + ("]" + x) == Items(b, t, keyBefore) + ("]" + y)
    ensures x == y && Matching(s, t, keyBefore)
    decreases a, 0, |s|
  {
    if s != [] && t != [] {
      ItemsHead(a, b, s, t, x, y, keyBefore);
      if |s| > 1 {
        ItemsUnambiguous(a, b, s[1..], t[1..], x, y, keyBefore);
        MatchingFromHead(s, t, keyBefore);
      }
    } else if s != [] {
      NonEmptyItems(a, s, "]" + x, keyBefore);
    } else if t != [] {
      NonEmptyItems(b, t, "]" + y, keyBefore);
    } else {
      assert "" + ("]" + x) == "]" + x && "" + ("]" + y) == "]" + y;
      Cancel("]", x, y);
    }
  }

  lemma {:induction false} ObjectsUnambiguous(
      a: Json, b: Json, x: string, y: string, keyBefore: (string, string) -> bool)
    requires WellFormed(a) && WellFormed(b) && a.Object? && b.Object?
    requires Canonical(a, keyBefore) + x == Canonical(b, keyBefore) + y
    ensures Same(a, b) && x == y
    ensures MatchingFields(SortedFields(a, keyBefore), SortedFields(b, keyBefore), keyBefore)
    decreases a, 0, |a.fields| + 1
  {
    var s, t := SortedFields(a, keyBefore), SortedFields(b, keyBefore);
    InObject(a, s);
    InObject(b, t);
    Bracketed("{", Fields(a, s, keyBefore), "}", x);
    Bracketed("{", Fields(b, t, keyBefore), "}", y);
    Cancel("{", Fields(a, s, keyBefore) + ("}" + x), Fields(b, t, keyBefore) + ("}" + y));
    FieldsUnambiguous(a, b, s, t, x, y, keyBefore);
    MatchingObjects(a, b, s, t, keyBefore);
  }

  lemma MatchingObjects(a: Json, b: Json, s: seq<Field>, t: seq<Field>, keyBefore: (string, string) -> bool)
    requires a.Object? && b.Object? && |a.fields| == |s| && |b.fields| == |t| && MatchingFields(s, t, keyBefore)
    requires (forall f :: f in s <==> f in a.fields) && (forall f :: f in t <==> f in b.fields)
    ensures Same(a, b)
  {
    forall i | 0 <= i < |a.fields|
      ensures exists j | 0 <= j < |b.fields| ::
                a.fields[i].key == b.fields[j].key && Same(a.fields[i].value, b.fields[j].value)
    {
      assert a.fields[i] in s;
      var k :| 0 <= k < |s| && s[k] == a.fields[i];
      assert t[k] in b.fields;
      var j :| 0 <= j < |b.fields| && b.fields[j] == t[k];
    }
  }

  ghost predicate Aligned(s: seq<Field>, t: seq<Field>) {
    |s| == |t| && forall i | 0 <= i < |s| :: s[i].key == t[i].key && Same(s[i].value, t[i].value)
  }

  /** Position by position the same keys and values, with the same texts. */
  ghost predicate MatchingFields(s: seq<Field>, t: seq<Field>, keyBefore: (string, string) -> bool) {
    && Aligned(s, t)
    && forall i | 0 <= i < |s| :: Canonical(s[i].value, keyBefore) == Canonical(t[i].value, keyBefore)
  }

  /** Only an empty list of fields has a text that goes straight to the closing brace. */
  lemma FieldsStart(parent: Json, s: seq<Field>, x: string, keyBefore: (string, string) -> bool)
    requires forall i | 0 <= i < |s| :: s[i].value < parent
    ensures Fields(parent, s, keyBefore) + ("}" + x) != ""
    ensures (Fields(parent, s, keyBefore) + ("}" + x))[0] == (if s == [] then '}' else '"')
  {
    if s != [] {
      FieldsText(parent, s, "}" + x, keyBefore);
    }
  }

  lemma HeadKey(
      a: Json, b: Json, s: seq<Field>, t: seq<Field>, x: string, y: string, keyBefore: (string, string) -> bool)
    requires s != [] && forall i | 0 <= i < |s| :: s[i].value < a
    requires t != [] && forall i | 0 <= i < |t| :: t[i].value < b
    requires Fields(a, s, keyBefore) + x == Fields(b, t, keyBefore) + y
    ensures s[0].key == t[0].key
    ensures Canonical(s[0].value, keyBefore) + AfterField(a, s, x, keyBefore)
         == Canonical(t[0].value, keyBefore) + AfterField(b, t, y, keyBefore)
  {
    FieldsText(a, s, x, keyBefore);
    FieldsText(b, t, y, keyBefore);
    var first := Canonical(s[0].value, keyBefore) + AfterField(a, s, x, keyBefore);
    var first' := Canonical(t[0].value, keyBefore) + AfterField(b, t, y, keyBefore);
    QuoteUnambiguous(s[0].key, t[0].key, ":" + first, ":" + first');
    Cancel(":", first, first');
  }

  /** Equal texts of fields give equal first fields, with equal texts, and equal texts of what follows. */
  lemma {:induction false} FieldsHead(
      a: Json, b: Json, s: seq<Field>, t: seq<Field>, x: string, y: string, keyBefore: (string, string) -> bool)
    requires forall i | 0 <= i < |s| :: s[i].value < a && WellFormed(s[i].value)
    requires forall i | 0 <= i < |t| :: t[i].value < b && WellFormed(t[i].value)
    requires s != [] && t != []
    requires Fields(a, s, keyBefore) + ("}" + x) == Fields(b, t, keyBefore) + ("}" + y)
    ensures s[0].key == t[0].key && Same(s[0].value, t[0].value)
    ensures Canonical(s[0].value, keyBefore) == Canonical(t[0].value, keyBefore)
    ensures |s| == 1 <==> |t| == 1
    ensures |s| == 1 ==> x == y
    ensures |s| > 1 ==> Fields(a, s[1..], keyBefore) + ("}" + x) == Fields(b, t[1..], keyBefore) + ("}" + y)
    decreases a, 0, |s|, 0
  {
    HeadKey(a, b, s, t, "}" + x, "}" + y, keyBefore);
    var more, more' := AfterField(a, s, "}" + x, keyBefore), AfterField(b, t, "}" + y, keyBefore);
    Unambiguous(s[0].value, t[0].value, more, more', keyBefore);
    CancelRight(Canonical(s[0].value, keyBefore), Canonical(t[0].value, keyBefore), more);
    assert more[0] == (if |s| == 1 then '}' else ',') && more'[0] == (if |t| == 1 then '}' else ',');
    if |s| == 1 {
      Cancel("}", x, y);
    } else {
      Cancel(",", Fields(a, s[1..], keyBefore) + ("}" + x), Fields(b, t[1..], keyBefore) + ("}" + y));
    }
  }

  lemma MatchingFieldsFromHead(s: seq<Field>, t: seq<Field>, keyBefore: (string, string) -> bool)
    requires s != [] && t != [] && s[0].key == t[0].key && Same(s[0].value, t[0].value)
    requires Canonical(s[0].value, keyBefore) == Canonical(t[0].value, keyBefore)
    requires MatchingFields(s[1..], t[1..], keyBefore)
    ensures MatchingFields(s, t, keyBefore)
  {
    forall i | 0 < i < |s|
      ensures s[i].key == t[i].key && Same(s[i].value, t[i].value)
      ensures Canonical(s[i].value, keyBefore) == Canonical(t[i].value, keyBefore)
    {
      assert s[i] == s[1..][i - 1] && t[i] == t[1..][i - 1];
    }
  }

  lemma {:induction false} FieldsUnambiguous(
      a: Json, b: Json, s: seq<Field>, t: seq<Field>, x: string, y: string, keyBefore: (string, string) -> bool)
    requires forall i | 0 <= i < |s| :: s[i].value < a && WellFormed(s[i].value)
    requires forall i | 0 <= i < |t| :: t[i].value < b && WellFormed(t[i].value)
    requires Fields(a, s, keyBefore) + ("}" + x) == Fields(b, t, keyBefore) + ("}" + y)
    ensures x == y && MatchingFields(s, t, keyBefore)
    decreases a, 0, |s|
  {
    FieldsStart(a, s, x, keyBefore);
    FieldsStart(b, t, y, keyBefore);
    if s == [] {
      assert "" + ("}" + x) == "}" + x && "" + ("}" + y) == "}" + y;
      Cancel("}", x, y);
    } else {
      FieldsHead(a, b, s, t, x, y, keyBefore);
      if |s| > 1 {
        FieldsUnambiguous(a, b, s[1..], t[1..], x, y, keyBefore);
        MatchingFieldsFromHead(s, t, keyBefore);
      }
    }
  }

  // ----- documents equal up to key order have one text, unless the order ties keys

  ghost predicate Ordered(k: string, m: string, keyBefore: (string, string) -> bool) {
    keyBefore(k, m) || keyBefore(m, k)
  }

  /** In every object, at every depth, the order tells any two keys apart. */
  ghost predicate Untied(v: Json, keyBefore: (string, string) -> bool) {
    match v
    case Array(items) => forall i | 0 <= i < |items| :: Untied(items[i], keyBefore)
    case Object(fields) =>
      && (forall i, j | 0 <= i < j < |fields| :: Ordered(fields[i].key, fields[j].key, keyBefore))
      && (forall i | 0 <= i < |fields| :: Untied(fields[i].value, keyBefore))
    case _ => true
  }

  function Keys(fields: seq<Field>): (keys: seq<string>)
    ensures |keys| == |fields| && forall i | 0 <= i < |fields| :: keys[i] == fields[i].key
  {
    seq(|fields|, i requires 0 <= i < |fields| => fields[i].key)
  }

  /** Sorting fields by key sorts their keys. */
  lemma {:induction false} KeysOfSorted(fields: seq<Field>, keyBefore: (string, string) -> bool)
    ensures Keys(Sort(fields, ByKey(keyBefore))) == Sort(Keys(fields), keyBefore)
  {
    if fields == [] {
      assert Keys(fields) == [];
    } else {
      KeysOfSorted(fields[1..], keyBefore);
      KeysOfInserted(fields[0], Sort(fields[1..], ByKey(keyBefore)), keyBefore);
      assert Keys(fields)[1..] == Keys(fields[1..]);
    }
  }

  lemma {:induction false} KeysOfInserted(f: Field, s: seq<Field>, keyBefore: (string, string) -> bool)
    ensures Keys(Insert(f, s, ByKey(keyBefore))) == Insert(f.key, Keys(s), keyBefore)
  {
    if s != [] && keyBefore(s[0].key, f.key) {
      KeysOfInserted(f, s[1..], keyBefore);
      assert Keys(s)[1..] == Keys(s[1..]);
      assert Keys(s)[0] == s[0].key;
    } else {
      assert Keys([f] + s) == [f.key] + Keys(s);
    }
  }

  ghost predicate NoRepeats(s: seq<string>) {
    forall i, j | 0 <= i < j < |s| :: s[i] != s[j]
  }

  /** A repetition-free list of names covered by another of the same length is a rearrangement of it. */
  lemma {:induction false} CoveredIsPermuted(s: seq<string>, t: seq<string>)
    requires NoRepeats(s) && |s| == |t| && forall x | x in s :: x in t
    ensures multiset(s) == multiset(t)
    decreases |s|
  {
    if s != [] {
      assert s[0] in t;
      var k :| 0 <= k < |t| && t[k] == s[0];
      var u := t[..k] + t[k + 1..];
      assert t == t[..k] + [t[k]] + t[k + 1..];
      assert s == [s[0]] + s[1..];
      forall x | x in s[1..]
        ensures x in u
      {
        assert x in t && x != s[0];
      }
      CoveredIsPermuted(s[1..], u);
    }
  }

  /** Equal objects have the same keys. */
  lemma KeysCovered(a: Json, b: Json)
    requires WellFormed(a) && WellFormed(b) && a.Object? && Same(a, b)
    ensures multiset(Keys(a.fields)) == multiset(Keys(b.fields))
  {
    var s, t := Keys(a.fields), Keys(b.fields);
    forall x | x in s
      ensures x in t
    {
      var i :| 0 <= i < |s| && s[i] == x;
      var j :| 0 <= j < |b.fields| && a.fields[i].key == b.fields[j].key && Same(a.fields[i].value, b.fields[j].value);
      assert t[j] == x;
    }
    CoveredIsPermuted(s, t);
  }

  lemma UntiedKeys(a: Json, keyBefore: (string, string) -> bool)
    requires a.Object? && Untied(a, keyBefore)
    ensures forall x, y | x in Keys(a.fields) && y in Keys(a.fields) && x != y :: keyBefore(x, y) || keyBefore(y, x)
  {
    var s := Keys(a.fields);
    forall x, y | x in s && y in s && x != y
      ensures keyBefore(x, y) || keyBefore(y, x)
    {
      var i :| 0 <= i < |s| && s[i] == x;
      var j :| 0 <= j < |s| && s[j] == y;
      assert Ordered(a.fields[if i < j then i else j].key, a.fields[if i < j then j else i].key, keyBefore);
    }
  }

  /** Equal objects have equal sorted key lists. */
  lemma SortedKeysAgree(a: Json, b: Json, keyBefore: (string, string) -> bool)
    requires WellFormed(a) && WellFormed(b) && a.Object? && Same(a, b) && StrictWeak(keyBefore) && Untied(a, keyBefore)
    ensures Keys(SortedFields(a, keyBefore)) == Keys(SortedFields(b, keyBefore))
  {
    var s, t := Keys(a.fields), Keys(b.fields);
    KeysOfSorted(a.fields, keyBefore);
    KeysOfSorted(b.fields, keyBefore);
    KeysCovered(a, b);
    SortSorted(s, keyBefore);
    SortSorted(t, keyBefore);
    SortPermutes(s, keyBefore);
    SortPermutes(t, keyBefore);
    SortMembers(s, keyBefore);
    UntiedKeys(a, keyBefore);
    SortedUnique(Sort(s, keyBefore), Sort(t, keyBefore), keyBefore);
  }

  /** Sorting brings equal keys of two equal objects to the same position. */
  lemma SortAligns(a: Json, b: Json, keyBefore: (string, string) -> bool)
    requires WellFormed(a) && WellFormed(b) && a.Object? && Same(a, b) && StrictWeak(keyBefore) && Untied(a, keyBefore)
    ensures Aligned(SortedFields(a, keyBefore), SortedFields(b, keyBefore))
  {
    var s, t := SortedFields(a, keyBefore), SortedFields(b, keyBefore);
    SortedKeysAgree(a, b, keyBefore);
    forall k | 0 <= k < |s|
      ensures s[k].key == t[k].key && Same(s[k].value, t[k].value)
    {
      assert Keys(s)[k] == Keys(t)[k];
      SameAtKey(a, b, s[k], t[k]);
    }
  }

  lemma SameAtKey(a: Json, b: Json, f: Field, g: Field)
    requires WellFormed(b) && a.Object? && Same(a, b) && f in a.fields && g in b.fields && f.key == g.key
    ensures Same(f.value, g.value)
  {
    var i :| 0 <= i < |a.fields| && a.fields[i] == f;
    var j :| 0 <= j < |b.fields| && b.fields[j] == g;
    var m :| 0 <= m < |b.fields| && a.fields[i].key == b.fields[m].key && Same(a.fields[i].value, b.fields[m].value);
    assert m == j;
  }

  lemma UntiedInside(v: Json, s: seq<Field>, keyBefore: (string, string) -> bool)
    requires v.Object? && Untied(v, keyBefore) && forall f | f in s :: f in v.fields
    ensures forall i | 0 <= i < |s| :: Untied(s[i].value, keyBefore)
  {
    forall i | 0 <= i < |s|
      ensures Untied(s[i].value, keyBefore)
    {
      assert s[i] in v.fields;
      var j :| 0 <= j < |v.fields| && v.fields[j] == s[i];
    }
  }

  lemma {:induction false} SameCanonical(a: Json, b: Json, keyBefore: (string, string) -> bool)
    requires WellFormed(a) && WellFormed(b) && Same(a, b) && StrictWeak(keyBefore) && Untied(a, keyBefore)
    ensures Canonical(a, keyBefore) == Canonical(b, keyBefore)
    decreases a, 1
  {
    match a
    case Array(items) => SameItems(a, b, items, b.items, keyBefore);
    case Object(_) =>
      var s, t := SortedFields(a, keyBefore), SortedFields(b, keyBefore);
      InObject(a, s);
      InObject(b, t);
      UntiedInside(a, s, keyBefore);
      SortAligns(a, b, keyBefore);
      SameFields(a, b, s, t, keyBefore);
    case _ =>
  }

  lemma {:induction false} SameItems(
      a: Json, b: Json, s: seq<Json>, t: seq<Json>, keyBefore: (string, string) -> bool)
    requires StrictWeak(keyBefore) && |s| == |t|
    requires forall i | 0 <= i < |s| :: s[i] < a && WellFormed(s[i]) && Untied(s[i], keyBefore)
    requires forall i | 0 <= i < |t| :: t[i] < b && WellFormed(t[i])
    requires forall i | 0 <= i < |s| :: Same(s[i], t[i])
    ensures Items(a, s, keyBefore) == Items(b, t, keyBefore)
    decreases a, 0, |s|
  {
    if s != [] {
      SameCanonical(s[0], t[0], keyBefore);
      SameItems(a, b, s[1..], t[1..], keyBefore);
    }
  }

  lemma {:induction false} SameFields(
      a: Json, b: Json, s: seq<Field>, t: seq<Field>, keyBefore: (string, string) -> bool)
    requires StrictWeak(keyBefore) && Aligned(s, t)
    requires forall i | 0 <= i < |s| :: s[i].value < a && WellFormed(s[i].value) && Untied(s[i].value, keyBefore)
    requires forall i | 0 <= i < |t| :: t[i].value < b && WellFormed(t[i].value)
    ensures Fields(a, s, keyBefore) == Fields(b, t, keyBefore)
    decreases a, 0, |s|
  {
    if s != [] {
      SameCanonical(s[0].value, t[0].value, keyBefore);
      SameFields(a, b, s[1..], t[1..], keyBefore);
    }
  }

  // ----- a document with tied keys has a reordering that is taken for another document

  lemma {:induction false} SameAsItself(v: Json)
    ensures Same(v, v)
  {
    match v
    case Array(items) =>
      forall i | 0 <= i < |items|
        ensures Same(items[i], items[i])
      {
        SameAsItself(items[i]);
      }
    case Object(fields) =>
      forall i | 0 <= i < |fields|
        ensures Same(fields[i].value, fields[i].value)
      {
        SameAsItself(fields[i].value);
      }
      SameInPlace(v, v);
    case _ =>
  }

  lemma SameInPlace(a: Json, b: Json)
    requires a.Object? && b.Object? && Aligned(a.fields, b.fields)
    ensures Same(a, b)
  {
    forall i | 0 <= i < |a.fields|
      ensures exists j | 0 <= j < |b.fields| ::
                a.fields[i].key == b.fields[j].key && Same(a.fields[i].value, b.fields[j].value)
    {
      assert a.fields[i].key == b.fields[i].key && Same(a.fields[i].value, b.fields[i].value);
    }
  }

  /** The object with two fields exchanged. */
  ghost function Exchanged(v: Json, i: nat, j: nat): Json
    requires v.Object? && i < j < |v.fields|
  {
    Object(v.fields[i := v.fields[j]][j := v.fields[i]])
  }

  lemma ExchangeIsSame(v: Json, i: nat, j: nat)
    requires v.Object? && i < j < |v.fields| && WellFormed(v)
    ensures WellFormed(Exchanged(v, i, j)) && Same(v, Exchanged(v, i, j))
  {
    var w := Exchanged(v, i, j);
    forall k | 0 <= k < |v.fields|
      ensures exists m | 0 <= m < |w.fields| ::
                v.fields[k].key == w.fields[m].key && Same(v.fields[k].value, w.fields[m].value)
    {
      var m := if k == i then j else if k == j then i else k;
      SameAsItself(v.fields[k].value);
      assert w.fields[m] == v.fields[k];
    }
  }

  /** A name listed once stands at one place of the sorted list. */
  lemma SortedOnce(s: seq<string>, p: nat, q: nat, keyBefore: (string, string) -> bool)
    requires NoRepeats(s) && p < |Sort(s, keyBefore)| && q < |Sort(s, keyBefore)|
    requires Sort(s, keyBefore)[p] == Sort(s, keyBefore)[q]
    ensures p == q
  {
    var sorted := Sort(s, keyBefore);
    SortPermutes(s, keyBefore);
    DistinctOnce(s, sorted[p]);
    if p != q {
      OccursTwice(sorted, if p < q then p else q, if p < q then q else p);
    }
  }

  /** Exchanging two tied names exchanges their places in the sorted list. */
  lemma ExchangedNamesShow(s: seq<string>, t: seq<string>, i: nat, j: nat, keyBefore: (string, string) -> bool)
    requires NoRepeats(s) && i < j < |s| && t == s[i := s[j]][j := s[i]] && !Ordered(s[i], s[j], keyBefore)
    ensures Sort(s, keyBefore) != Sort(t, keyBefore)
  {
    SortKeepsOrder(s, i, j, keyBefore);
    SortKeepsOrder(t, i, j, keyBefore);
    var sorted, sorted' := Sort(s, keyBefore), Sort(t, keyBefore);
    var p, q :| 0 <= p < q < |sorted| && sorted[p] == s[i] && sorted[q] == s[j];
    var p', q' :| 0 <= p' < q' < |sorted'| && sorted'[p'] == s[j] && sorted'[q'] == s[i];
    if sorted == sorted' {
      SortedOnce(s, p, q', keyBefore);
      SortedOnce(s, q, p', keyBefore);
    }
  }

  lemma ExchangeShows(v: Json, i: nat, j: nat, keyBefore: (string, string) -> bool)
    requires v.Object? && i < j < |v.fields| && WellFormed(v)
    requires !Ordered(v.fields[i].key, v.fields[j].key, keyBefore)
    ensures Keys(SortedFields(v, keyBefore)) != Keys(SortedFields(Exchanged(v, i, j), keyBefore))
  {
    var w := Exchanged(v, i, j);
    KeysOfSorted(v.fields, keyBefore);
    KeysOfSorted(w.fields, keyBefore);
    ExchangedNamesShow(Keys(v.fields), Keys(w.fields), i, j, keyBefore);
  }

  /** Equal texts of two objects give matching sorted fields, of two arrays matching items. */
  lemma EqualTexts(a: Json, b: Json, keyBefore: (string, string) -> bool)
    requires WellFormed(a) && WellFormed(b) && Canonical(a, keyBefore) == Canonical(b, keyBefore)
    ensures a.Object? && b.Object? ==>
              && MatchingFields(SortedFields(a, keyBefore), SortedFields(b, keyBefore), keyBefore)
              && Keys(SortedFields(a, keyBefore)) == Keys(SortedFields(b, keyBefore))
    ensures a.Array? && b.Array? ==> Matching(a.items, b.items, keyBefore)
  {
    if a.Object? && b.Object? {
      ObjectsUnambiguous(a, b, "", "", keyBefore);
    } else if a.Array? && b.Array? {
      ArraysUnambiguous(a, b, "", "", keyBefore);
    }
  }

  /** The object with one value replaced. */
  ghost function Replaced(v: Json, i: nat, value: Json): Json
    requires v.Object? && i < |v.fields|
  {
    Object(v.fields[i := Field(v.fields[i].key, value)])
  }

  lemma ReplaceIsSame(v: Json, i: nat, value: Json)
    requires v.Object? && i < |v.fields| && WellFormed(v) && WellFormed(value) && Same(v.fields[i].value, value)
    ensures WellFormed(Replaced(v, i, value)) && Same(v, Replaced(v, i, value))
  {
    var w := Replaced(v, i, value);
    forall k | 0 <= k < |v.fields|
      ensures v.fields[k].key == w.fields[k].key && Same(v.fields[k].value, w.fields[k].value)
    {
      SameAsItself(v.fields[k].value);
    }
    SameInPlace(v, w);
  }

  /** Objects with matching sorted fields have equal texts under each key. */
  lemma EqualTextAtKey(
      a: Json, b: Json, i: nat, j: nat, keyBefore: (string, string) -> bool)
    requires WellFormed(a) && WellFormed(b) && a.Object? && b.Object? && i < |a.fields| && j < |b.fields|
    requires MatchingFields(SortedFields(a, keyBefore), SortedFields(b, keyBefore), keyBefore)
    requires a.fields[i].key == b.fields[j].key
    ensures Canonical(a.fields[i].value, keyBefore) == Canonical(b.fields[j].value, keyBefore)
  {
    var s, t := SortedFields(a, keyBefore), SortedFields(b, keyBefore);
    assert a.fields[i] in s;
    var p :| 0 <= p < |s| && s[p] == a.fields[i];
    assert t[p] in b.fields;
    var m :| 0 <= m < |b.fields| && b.fields[m] == t[p];
    assert m == j;
  }

  /** Whatever document holds two tied keys somewhere, one of its reorderings gets another text. */
  lemma {:induction false} TiedKeysAreMisjudged(a: Json, keyBefore: (string, string) -> bool) returns (b: Json)
    requires WellFormed(a) && !Untied(a, keyBefore)
    ensures WellFormed(b) && Same(a, b) && Canonical(a, keyBefore) != Canonical(b, keyBefore)
  {
    match a {
      case Array(items) =>
        var i :| 0 <= i < |items| && !Untied(items[i], keyBefore);
        var item := TiedKeysAreMisjudged(items[i], keyBefore);
        b := TiedItem(a, i, item, keyBefore);
      case Object(fields) =>
        if i, j :| 0 <= i < j < |fields| && !Ordered(fields[i].key, fields[j].key, keyBefore) {
          b := Exchanged(a, i, j);
          ExchangeIsSame(a, i, j);
          TiedFields(a, i, j, keyBefore);
        } else {
          var i :| 0 <= i < |fields| && !Untied(fields[i].value, keyBefore);
          var value := TiedKeysAreMisjudged(fields[i].value, keyBefore);
          b := Replaced(a, i, value);
          ReplaceIsSame(a, i, value);
          TiedValue(a, i, value, keyBefore);
        }
      case _ =>
    }
  }

  lemma TiedItem(a: Json, i: nat, item: Json, keyBefore: (string, string) -> bool) returns (b: Json)
    requires a.Array? && i < |a.items| && WellFormed(a) && WellFormed(item) && Same(a.items[i], item)
    requires Canonical(a.items[i], keyBefore) != Canonical(item, keyBefore)
    ensures WellFormed(b) && Same(a, b) && Canonical(a, keyBefore) != Canonical(b, keyBefore)
  {
    b := Array(a.items[i := item]);
    forall k | 0 <= k < |a.items|
      ensures Same(a.items[k], b.items[k])
    {
      SameAsItself(a.items[k]);
    }
    assert b.items[i] == item;
    if Canonical(a, keyBefore) == Canonical(b, keyBefore) {
      EqualTexts(a, b, keyBefore);
    }
  }

  lemma TiedFields(a: Json, i: nat, j: nat, keyBefore: (string, string) -> bool)
    requires a.Object? && i < j < |a.fields| && WellFormed(a)
    requires !Ordered(a.fields[i].key, a.fields[j].key, keyBefore)
    ensures Canonical(a, keyBefore) != Canonical(Exchanged(a, i, j), keyBefore)
  {
    var b := Exchanged(a, i, j);
    ExchangeIsSame(a, i, j);
    ExchangeShows(a, i, j, keyBefore);
    if Canonical(a, keyBefore) == Canonical(b, keyBefore) {
      EqualTexts(a, b, keyBefore);
    }
  }

  lemma TiedValue(a: Json, i: nat, value: Json, keyBefore: (string, string) -> bool)
    requires a.Object? && i < |a.fields| && WellFormed(a) && WellFormed(value) && Same(a.fields[i].value, value)
    requires Canonical(a.fields[i].value, keyBefore) != Canonical(value, keyBefore)
    ensures Canonical(a, keyBefore) != Canonical(Replaced(a, i, value), keyBefore)
  {
    var b := Replaced(a, i, value);
    ReplaceIsSame(a, i, value);
    if Canonical(a, keyBefore) == Canonical(b, keyBefore) {
      EqualTexts(a, b, keyBefore);
      EqualTextAtKey(a, b, i, i, keyBefore);
    }
  }

  /** For a document without tied keys the comparison `same` makes is equality up to key order. */
  lemma UntiedIsJudgedRight(actual: Json, expected: Json, keyBefore: (string, string) -> bool)
    requires WellFormed(actual) && WellFormed(expected) && StrictWeak(keyBefore) && Untied(actual, keyBefore)
    ensures Canonical(actual, keyBefore) == Canonical(expected, keyBefore) <==> Same(actual, expected)
  {
    if Canonical(actual, keyBefore) == Canonical(expected, keyBefore) {
      Unambiguous(actual, expected, "", "", keyBefore);
    }
    if Same(actual, expected) {
      SameCanonical(actual, expected, keyBefore);
    }
  }

  /** The comparison accepts exactly the documents equal up to key order. */
  ghost predicate JudgedRight(actual: Json, keyBefore: (string, string) -> bool) {
    forall expected | WellFormed(expected) ::
      Canonical(actual, keyBefore) == Canonical(expected, keyBefore) <==> Same(actual, expected)
  }

  /** A document is compared rightly with every other one exactly when none of its objects holds tied keys. */
  lemma CanonicalExact(actual: Json, keyBefore: (string, string) -> bool)
    requires WellFormed(actual) && StrictWeak(keyBefore)
    ensures JudgedRight(actual, keyBefore) <==> Untied(actual, keyBefore)
  {
    if Untied(actual, keyBefore) {
      forall expected | WellFormed(expected)
        ensures Canonical(actual, keyBefore) == Canonical(expected, keyBefore) <==> Same(actual, expected)
      {
        UntiedIsJudgedRight(actual, expected, keyBefore);
      }
    } else {
      var expected := TiedKeysAreMisjudged(actual, keyBefore);
    }
  }

  // ----- the text is JSON for the document, by the grammar of RFC 8259

  /** The value of a hexadecimal digit, or -1. */
  ghost function HexValue(c: char): int {
    if '0' <= c <= '9' then c as int - '0' as int
    else if 'a' <= c <= 'f' then 10 + c as int - 'a' as int
    else if 'A' <= c <= 'F' then 10 + c as int - 'A' as int
    else -1
  }

  /** Section 7 of RFC 8259: which character a piece of a string's text stands for. */
  ghost predicate Denotes(piece: string, c: char) {
    || (piece == [c] && c >= ' ' && c != '"' && c != '\\')
    || (|piece| == 2 && piece[0] == '\\'
        && match piece[1]
           case '"' => c == '"'
           case '\\' => c == '\\'
           case '/' => c == '/'
           case 'b' => c as int == 8
           case 'f' => c as int == 12
           case 'n' => c as int == 10
           case 'r' => c as int == 13
           case 't' => c as int == 9
           case _ => false)
    || (|piece| == 6 && piece[0] == '\\' && piece[1] == 'u'
        && (forall i | 2 <= i < 6 :: HexValue(piece[i]) >= 0)
        && c as int
           == 4096 * HexValue(piece[2]) + 256 * HexValue(piece[3]) + 16 * HexValue(piece[4]) + HexValue(piece[5]))
  }

  ghost predicate SpellsChars(s: string, body: string)
    decreases |s|
  {
    if s == "" then body == ""
    else exists n | 0 <= n <= |body| :: Denotes(body[..n], s[0]) && SpellsChars(s[1..], body[n..])
  }

  ghost predicate SpellsString(s: string, text: string) {
    exists body :: SpellsChars(s, body) && text == "\"" + body + "\""
  }

  ghost function Joined(texts: seq<string>): string {
    if texts == [] then "" else texts[0] + (if |texts| == 1 then "" else "," + Joined(texts[1..]))
  }

  /** Sections 2 to 5 of RFC 8259 without white space, the members of an object in the order of their keys. */
  ghost predicate Spells(v: Json, text: string, keyBefore: (string, string) -> bool)
    decreases v, 0
  {
    match v
    case Null => text == "null"
    case Bool(value) => if value then text == "true" else text == "false"
    case Number(number) => text == number
    case String(chars) => SpellsString(chars, text)
    case Array(items) =>
      exists texts: seq<string> | |texts| == |items| ::
        && text == "[" + Joined(texts) + "]"
        && forall i | 0 <= i < |items| :: Spells(items[i], texts[i], keyBefore)
    case Object(fields) =>
      exists order: seq<nat>, texts: seq<string> | Arranges(order, fields, keyBefore) && |texts| == |fields| ::
        && text == "{" + Joined(texts) + "}"
        && forall i | 0 <= i < |fields| :: SpellsMember(fields[order[i]], texts[i], keyBefore)
  }

  ghost predicate SpellsMember(f: Field, text: string, keyBefore: (string, string) -> bool)
    decreases f.value, 1
  {
    exists key, value :: SpellsString(f.key, key) && Spells(f.value, value, keyBefore) && text == key + ":" + value
  }

  ghost predicate AllDigits(s: string) {
    forall i | 0 <= i < |s| :: '0' <= s[i] <= '9'
  }

  /** Section 6 of RFC 8259: an integer part, then perhaps a fraction, then perhaps an exponent. */
  ghost predicate JsonNumber(s: string) {
    exists minus, whole, fraction, exponent ::
      && (minus == "" || minus == "-")
      && whole != "" && AllDigits(whole) && (whole[0] == '0' ==> whole == "0")
      && (fraction == "" || (|fraction| > 1 && fraction[0] == '.' && AllDigits(fraction[1..])))
      && (exponent == "" || Exponent(exponent))
      && s == minus + whole + fraction + exponent
  }

  ghost predicate Exponent(s: string) {
    && |s| > 1 && (s[0] == 'e' || s[0] == 'E')
    && (AllDigits(s[1..]) || (|s| > 2 && (s[1] == '+' || s[1] == '-') && AllDigits(s[2..])))
  }

  /** Every JSON number is among the number texts the documents may hold. */
  lemma JsonNumbersAreNumberTexts(s: string)
    requires JsonNumber(s)
    ensures NumberText(s)
  {
    var minus, whole, fraction, exponent :|
      && (minus == "" || minus == "-")
      && whole != "" && AllDigits(whole) && (whole[0] == '0' ==> whole == "0")
      && (fraction == "" || (|fraction| > 1 && fraction[0] == '.' && AllDigits(fraction[1..])))
      && (exponent == "" || Exponent(exponent))
      && s == minus + whole + fraction + exponent;
    FractionChars(fraction);
    ExponentChars(exponent);
    NumberChars(minus, whole, fraction, exponent);
  }

  lemma FractionChars(fraction: string)
    requires fraction == "" || (|fraction| > 1 && fraction[0] == '.' && AllDigits(fraction[1..]))
    ensures forall i | 0 <= i < |fraction| :: NumberChar(fraction[i])
  {
    forall i | 0 < i < |fraction|
      ensures NumberChar(fraction[i])
    {
      assert fraction[i] == fraction[1..][i - 1];
    }
  }

  lemma ExponentChars(exponent: string)
    requires exponent == "" || Exponent(exponent)
    ensures forall i | 0 <= i < |exponent| :: NumberChar(exponent[i])
  {
    forall i | 0 <= i < |exponent|
      ensures NumberChar(exponent[i])
    {
      if i > 0 {
        assert exponent[i] == exponent[1..][i - 1];
      }
      if i > 1 {
        assert exponent[i] == exponent[2..][i - 2];
      }
    }
  }

  lemma NumberChars(minus: string, whole: string, fraction: string, exponent: string)
    requires (minus == "" || minus == "-") && whole != "" && AllDigits(whole)
    requires forall i | 0 <= i < |fraction| :: NumberChar(fraction[i])
    requires forall i | 0 <= i < |exponent| :: NumberChar(exponent[i])
    ensures NumberText(minus + whole + fraction + exponent)
  {
    var s := minus + whole + fraction + exponent;
    assert s[0] == if minus == "" then whole[0] else '-';
  }

  /** Every field once, none before one whose key precedes its own. */
  ghost predicate Arranges(order: seq<nat>, fields: seq<Field>, keyBefore: (string, string) -> bool) {
    && |order| == |fields|
    && (forall i | 0 <= i < |order| :: order[i] < |fields|)
    && (forall j: nat | j < |fields| :: j in order)
    && (forall i, j | 0 <= i < j < |order| :: !keyBefore(fields[order[j]].key, fields[order[i]].key))
  }

  lemma EscapeDenotes(c: char)
    ensures Denotes(Escape(c), c)
  {
    if c < ' ' && |Escape(c)| == 6 {
      HexDigitValue(c as nat / 16);
      HexDigitValue(c as nat % 16);
      assert Escape(c)[2] == '0' && Escape(c)[3] == '0';
    }
  }

  lemma HexDigitValue(n: nat)
    requires n < 16
    ensures HexValue(HexDigit(n)) == n
  {}

  lemma {:induction false} EscapeAllSpells(s: string)
    ensures SpellsChars(s, EscapeAll(s))
  {
    if s != "" {
      EscapeDenotes(s[0]);
      EscapeAllSpells(s[1..]);
      var n, body := |Escape(s[0])|, EscapeAll(s);
      assert body[..n] == Escape(s[0]) && body[n..] == EscapeAll(s[1..]);
    }
  }

  lemma QuoteSpells(s: string)
    ensures SpellsString(s, Quote(s))
  {
    EscapeAllSpells(s);
  }

  lemma {:induction false} ItemsSpelled(parent: Json, s: seq<Json>, keyBefore: (string, string) -> bool)
    returns (texts: seq<string>)
    requires forall i | 0 <= i < |s| :: s[i] < parent && WellFormed(s[i])
    requires StrictWeak(keyBefore)
    ensures |texts| == |s| && Items(parent, s, keyBefore) == Joined(texts)
    ensures forall i | 0 <= i < |s| :: Spells(s[i], texts[i], keyBefore)
    decreases parent, 0, |s|
  {
    texts := [];
    if s != [] {
      var rest := ItemsSpelled(parent, s[1..], keyBefore);
      CanonicalSpells(s[0], keyBefore);
      texts := OneMoreItem(s, Canonical(s[0], keyBefore), rest, keyBefore);
    }
  }

  lemma OneMoreItem(s: seq<Json>, text: string, rest: seq<string>, keyBefore: (string, string) -> bool)
    returns (texts: seq<string>)
    requires s != [] && Spells(s[0], text, keyBefore) && |rest| == |s| - 1
    requires forall i | 0 <= i < |rest| :: Spells(s[1..][i], rest[i], keyBefore)
    ensures |texts| == |s| && forall i | 0 <= i < |s| :: Spells(s[i], texts[i], keyBefore)
    ensures Joined(texts) == text + (if |s| == 1 then "" else "," + Joined(rest))
  {
    texts := [text] + rest;
    assert texts[1..] == rest;
    forall i | 0 < i < |s|
      ensures Spells(s[i], texts[i], keyBefore)
    {
      assert s[i] == s[1..][i - 1] && texts[i] == rest[i - 1];
    }
  }

  lemma {:induction false} FieldsSpelled(parent: Json, s: seq<Field>, keyBefore: (string, string) -> bool)
    returns (texts: seq<string>)
    requires forall i | 0 <= i < |s| :: s[i].value < parent && WellFormed(s[i].value)
    requires StrictWeak(keyBefore)
    ensures |texts| == |s| && Fields(parent, s, keyBefore) == Joined(texts)
    ensures forall i | 0 <= i < |s| :: SpellsMember(s[i], texts[i], keyBefore)
    decreases parent, 0, |s|
  {
    texts := [];
    if s != [] {
      var rest := FieldsSpelled(parent, s[1..], keyBefore);
      CanonicalSpells(s[0].value, keyBefore);
      QuoteSpells(s[0].key);
      texts := OneMoreMember(s, FieldText(s[0], keyBefore), rest, keyBefore);
    }
  }

  lemma OneMoreMember(s: seq<Field>, text: string, rest: seq<string>, keyBefore: (string, string) -> bool)
    returns (texts: seq<string>)
    requires s != [] && SpellsMember(s[0], text, keyBefore) && |rest| == |s| - 1
    requires forall i | 0 <= i < |rest| :: SpellsMember(s[1..][i], rest[i], keyBefore)
    ensures |texts| == |s| && forall i | 0 <= i < |s| :: SpellsMember(s[i], texts[i], keyBefore)
    ensures Joined(texts) == text + (if |s| == 1 then "" else "," + Joined(rest))
  {
    texts := [text] + rest;
    assert texts[1..] == rest;
    forall i | 0 < i < |s|
      ensures SpellsMember(s[i], texts[i], keyBefore)
    {
      assert s[i] == s[1..][i - 1] && texts[i] == rest[i - 1];
    }
  }

  ghost function IndexOf(f: Field, fields: seq<Field>): (j: nat)
    requires f in fields
    ensures j < |fields| && fields[j] == f
  {
    var j :| 0 <= j < |fields| && fields[j] == f;
    j
  }

  /** Where each field of an object stood before sorting. */
  lemma SortArranges(v: Json, keyBefore: (string, string) -> bool) returns (order: seq<nat>)
    requires v.Object? && WellFormed(v) && StrictWeak(keyBefore)
    ensures Arranges(order, v.fields, keyBefore)
    ensures forall i | 0 <= i < |order| :: v.fields[order[i]] == SortedFields(v, keyBefore)[i]
  {
    var s := SortedFields(v, keyBefore);
    order := seq(|s|, i requires 0 <= i < |s| => IndexOf(s[i], v.fields));
    forall j: nat | j < |v.fields|
      ensures j in order
    {
      assert v.fields[j] in s;
      var i :| 0 <= i < |s| && s[i] == v.fields[j];
      assert order[i] == j;
    }
    KeysOfSorted(v.fields, keyBefore);
    SortSorted(Keys(v.fields), keyBefore);
    forall i, j | 0 <= i < j < |s|
      ensures !keyBefore(s[j].key, s[i].key)
    {
      assert Keys(s)[i] == s[i].key && Keys(s)[j] == s[j].key;
    }
  }

  /** The canonical text spells its document. */
  lemma {:induction false} CanonicalSpells(v: Json, keyBefore: (string, string) -> bool)
    requires WellFormed(v) && StrictWeak(keyBefore)
    ensures Spells(v, Canonical(v, keyBefore), keyBefore)
    decreases v, 1
  {
    match v
    case String(chars) => QuoteSpells(chars);
    case Array(items) =>
      var texts := ItemsSpelled(v, items, keyBefore);
    case Object(fields) =>
      var order := SortArranges(v, keyBefore);
      InObject(v, SortedFields(v, keyBefore));
      var texts := FieldsSpelled(v, SortedFields(v, keyBefore), keyBefore);
      forall i | 0 <= i < |fields|
        ensures SpellsMember(fields[order[i]], texts[i], keyBefore)
      {
        assert fields[order[i]] == SortedFields(v, keyBefore)[i];
      }
    case _ =>
  }
}
