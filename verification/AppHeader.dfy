/**
 * The app request's header (lambda/shared/app-auth.ts): six members, each
 * exactly once, in their forms. What is accepted, and that a header written
 * for any well-formed members reads back.
 */
module AppHeader {
  import opened Json
  import opened KeyPolicy
  import opened Signing
  import opened Wrappers

  const SEMICOLON: CodeUnit := 0x3B
  const EQUALS: CodeUnit := 0x3D
  const NAMES := [U("v"), U("vault"), U("kid"), U("ts"), U("nonce"), U("sig")]
  const MAX_HEADER := 512

  // ---- texts --------------------------------------------------------------------------

  /** The parts between the separators; always at least one. */
  function Split(t: Text, sep: CodeUnit): (r: seq<Text>)
    ensures r != []
  {
    if t == [] then [[]]
    else
      var rest := Split(t[1..], sep);
      if t[0] == sep then [[]] + rest else [[t[0]] + rest[0]] + rest[1..]
  }

  /** White space and line ends, as String.prototype.trim has them. */
  predicate IsSpace(u: CodeUnit) {
    0x09 <= u <= 0x0D || u == 0x20 || u == 0xA0 || u == 0x1680 || 0x2000 <= u <= 0x200A
    || u == 0x2028 || u == 0x2029 || u == 0x202F || u == 0x205F || u == 0x3000 || u == 0xFEFF
  }

  function TrimStart(t: Text): Text { if t != [] && IsSpace(t[0]) then TrimStart(t[1..]) else t }

  function TrimEnd(t: Text): Text { if t != [] && IsSpace(t[|t| - 1]) then TrimEnd(t[..|t| - 1]) else t }

  function Trim(t: Text): Text { TrimEnd(TrimStart(t)) }

  function IndexOf(t: Text, u: CodeUnit): (r: Option<nat>)
    ensures r.Some? ==> r.value < |t| && t[r.value] == u && u !in t[..r.value]
    ensures r.None? ==> u !in t
  {
    if t == [] then None
    else if t[0] == u then Some(0)
    else
      var r := IndexOf(t[1..], u);
      assert t == [t[0]] + t[1..];
      if r.Some? then
        assert t[..r.value + 1] == [t[0]] + t[1..][..r.value];
        Some(r.value + 1)
      else None
  }

  // ---- the forms ------------------------------------------------------------------------

  predicate LowerHex(t: Text) { forall i :: 0 <= i < |t| ==> IsLowerHex(t[i]) }

  predicate VaultForm(t: Text) { t == [] || (|t| == 32 && LowerHex(t)) }

  predicate KidForm(t: Text) { |t| == 32 && LowerHex(t) }

  predicate TsForm(t: Text) { t == [0x30] || (1 <= |t| <= 12 && 0x31 <= t[0] <= 0x39 && AllDigits(t)) }

  /** The six bits a base64url character stands for. */
  function Sextet(u: CodeUnit): (r: Option<int>)
    ensures r.Some? ==> 0 <= r.value < 64
  {
    if 0x41 <= u <= 0x5A then Some(u - 0x41)
    else if 0x61 <= u <= 0x7A then Some(u - 0x61 + 26)
    else if IsDigit(u) then Some(u - 0x30 + 52)
    else if u == 0x2D then Some(62)
    else if u == 0x5F then Some(63)
    else None
  }

  predicate Base64Url(t: Text) { forall i :: 0 <= i < |t| ==> Sextet(t[i]).Some? }

  /** Unpadded and canonical: the bits past the last byte are zero. */
  predicate Canonical(t: Text)
    requires Base64Url(t)
  {
    if |t| % 4 == 0 then true
    else if |t| % 4 == 1 then false
    else if |t| % 4 == 2 then Sextet(t[|t| - 1]).value % 16 == 0
    else Sextet(t[|t| - 1]).value % 4 == 0
  }

  predicate NonceForm(t: Text) { |t| == 22 && Base64Url(t) && Canonical(t) }

  predicate SigForm(t: Text) { 8 <= |t| <= 128 && Base64Url(t) && Canonical(t) }

  datatype Parsed = Parsed(header: Header, sig: Text)

  predicate WellFormed(p: Parsed) {
    VaultForm(p.header.vault) && KidForm(p.header.kid) && TsForm(p.header.ts) && NonceForm(p.header.nonce) && SigForm(p.sig)
  }

  // ---- the parser -----------------------------------------------------------------------------

  /** One `name=value` part into the members so far. */
  function WithPart(fields: map<Text, Text>, part: Text): Option<map<Text, Text>> {
    var p := Trim(part);
    var i := IndexOf(p, EQUALS);
    if i.None? || i.value == 0 then None
    else if p[..i.value] !in NAMES || p[..i.value] in fields then None
    else Some(fields[p[..i.value] := p[i.value + 1..]])
  }

  function FieldsOf(parts: seq<Text>): Option<map<Text, Text>> {
    if parts == [] then Some(map[])
    else
      var before := FieldsOf(parts[..|parts| - 1]);
      if before.None? then None else WithPart(before.value, parts[|parts| - 1])
  }

  function FromFields(fields: map<Text, Text>): Option<Parsed> {
    if !(forall k :: 0 <= k < |NAMES| ==> NAMES[k] in fields) || fields[NAMES[0]] != [0x31] then None
    else
      var r := Parsed(Header(fields[NAMES[1]], fields[NAMES[2]], fields[NAMES[3]], fields[NAMES[4]]), fields[NAMES[5]]);
      if WellFormed(r) then Some(r) else None
  }

  function ParseHeader(value: Text): Option<Parsed> {
    if |value| > MAX_HEADER then None
    else
      var fields := FieldsOf(Split(value, SEMICOLON));
      if fields.None? then None else FromFields(fields.value)
  }

  lemma {:induction false} FailedPrefix(parts: seq<Text>, i: nat)
    requires i <= |parts| && FieldsOf(parts[..i]).None?
    ensures FieldsOf(parts).None?
    decreases |parts|
  {
    hide WithPart;
    if i < |parts| {
      assert parts[..|parts| - 1][..i] == parts[..i];
      FailedPrefix(parts[..|parts| - 1], i);
    } else {
      assert parts[..i] == parts;
    }
  }

  /** Members have names of the six only, so six members are all of them. */
  lemma {:induction false} OnlyNames(parts: seq<Text>)
    requires FieldsOf(parts).Some?
    ensures forall k :: k in FieldsOf(parts).value ==> k in NAMES
  {
    hide Trim;
    if parts != [] { OnlyNames(parts[..|parts| - 1]); }
  }

  lemma NamesAreSix()
    ensures |NAMES| == 6 && forall i, j :: 0 <= i < j < 6 ==> NAMES[i] != NAMES[j]
  {
    assert |NAMES[0]| == 1 && |NAMES[1]| == 5 && |NAMES[2]| == 3 && |NAMES[3]| == 2 && |NAMES[4]| == 5 && |NAMES[5]| == 3;
    assert NAMES[1][0] != NAMES[4][0] && NAMES[2][0] != NAMES[5][0];
  }

  lemma SameSize<T>(a: set<T>, b: set<T>)
    requires a <= b
    ensures |a| == |b| <==> a == b
  {
    assert b == a + (b - a);
    assert |b| == |a| + |b - a|;
  }

  function NameSet(names: seq<Text>): (r: set<Text>)
    ensures forall i :: 0 <= i < |names| ==> names[i] in r
    ensures forall k :: k in r ==> k in names
  {
    if names == [] then {} else NameSet(names[..|names| - 1]) + {names[|names| - 1]}
  }

  lemma {:induction false} NameSetSize(names: seq<Text>)
    requires forall i, j :: 0 <= i < j < |names| ==> names[i] != names[j]
    ensures |NameSet(names)| == |names|
  {
    if names != [] {
      var t := names[..|names| - 1];
      NameSetSize(t);
      assert forall i :: 0 <= i < |t| ==> t[i] == names[i];
      assert names[|names| - 1] !in t;
    }
  }

  lemma SixMeansAll(fields: map<Text, Text>)
    requires forall k :: k in fields ==> k in NAMES
    ensures |fields| == |NAMES| <==> forall k :: 0 <= k < |NAMES| ==> NAMES[k] in fields
  {
    NamesAreSix();
    hide NAMES;
    NameSetSize(NAMES);
    forall k | k in fields.Keys ensures k in NameSet(NAMES) {}
    SameSize(fields.Keys, NameSet(NAMES));
    assert |fields| == |fields.Keys|;
  }

  /** parseAppHeader: a map filled part by part, then the forms. */
  method ParseAppHeader(value: Text) returns (r: Option<Parsed>)
    ensures r == ParseHeader(value)
  {
    hide Trim, WellFormed, FromFields, NAMES;
    if |value| > MAX_HEADER { return None; }
    var parts := Split(value, SEMICOLON);
    var fields: map<Text, Text> := map[];
    for i := 0 to |parts|
      invariant FieldsOf(parts[..i]) == Some(fields)
    {
      assert parts[..i + 1][..i] == parts[..i];
      var p := Trim(parts[i]);
      var at := IndexOf(p, EQUALS);
      if at.None? || at.value == 0 || p[..at.value] !in NAMES || p[..at.value] in fields {
        FailedPrefix(parts, i + 1);
        return None;
      }
      fields := fields[p[..at.value] := p[at.value + 1..]];
    }
    assert parts[..|parts|] == parts;
    r := Finish(parts, fields);
  }

  /** All six there, and in their forms. */
  method Finish(ghost parts: seq<Text>, fields: map<Text, Text>) returns (r: Option<Parsed>)
    requires FieldsOf(parts) == Some(fields)
    ensures r == FromFields(fields)
  {
    hide WellFormed, FieldsOf;
    OnlyNames(parts);
    SixMeansAll(fields);
    if |fields| != |NAMES| { return None; }
    r := FromFields(fields);
  }

  // ---- what is accepted --------------------------------------------------------------------------

  /** No accepted member has a newline: the signing string's lines are lines. */
  lemma AcceptedFieldsAreLines(value: Text)
    requires ParseHeader(value).Some?
    ensures var h := ParseHeader(value).value.header;
            OneLine(h.vault) && OneLine(h.kid) && OneLine(h.ts) && OneLine(h.nonce)
  {
    hide FieldsOf, Split;
    var h := ParseHeader(value).value.header;
    assert forall i :: 0 <= i < |h.vault| ==> IsLowerHex(h.vault[i]);
  }

  // ---- writing and reading back --------------------------------------------------------------------

  function Part(name: Text, value: Text): Text { name + [EQUALS] + value }

  /** The first `n` names with their values. */
  function PartList(names: seq<Text>, values: seq<Text>, n: nat): (r: seq<Text>)
    requires n <= |names| && n <= |values|
    ensures |r| == n && forall k :: 0 <= k < n ==> r[k] == Part(names[k], values[k])
  {
    if n == 0 then [] else PartList(names, values, n - 1) + [Part(names[n - 1], values[n - 1])]
  }

  function Values(p: Parsed): seq<Text> {
    [[0x31], p.header.vault, p.header.kid, p.header.ts, p.header.nonce, p.sig]
  }

  function Parts(p: Parsed): (r: seq<Text>)
    ensures |r| == 6
  {
    PartList(NAMES, Values(p), 6)
  }

  function JoinWith(parts: seq<Text>, sep: CodeUnit): Text
    requires parts != []
  {
    if |parts| == 1 then parts[0] else parts[0] + [sep] + JoinWith(parts[1..], sep)
  }

  function PrintHeader(p: Parsed): Text { JoinWith(Parts(p), SEMICOLON) }

  lemma {:induction false} SplitFirst(a: Text, rest: Text, sep: CodeUnit)
    requires sep !in a
    ensures Split(a + [sep] + rest, sep) == [a] + Split(rest, sep)
    decreases |a|
  {
    if a == [] {
      assert a + [sep] + rest == [sep] + rest;
      assert ([sep] + rest)[1..] == rest;
    } else {
      SplitFirst(a[1..], rest, sep);
      assert a == [a[0]] + a[1..];
      assert (a + [sep] + rest)[1..] == a[1..] + [sep] + rest;
    }
  }

  lemma {:induction false} SplitNone(a: Text, sep: CodeUnit)
    requires sep !in a
    ensures Split(a, sep) == [a]
  {
    if a != [] {
      SplitNone(a[1..], sep);
      assert a == [a[0]] + a[1..];
    }
  }

  lemma {:induction false} SplitJoin(parts: seq<Text>, sep: CodeUnit)
    requires parts != [] && forall k :: 0 <= k < |parts| ==> sep !in parts[k]
    ensures Split(JoinWith(parts, sep), sep) == parts
  {
    if |parts| == 1 {
      SplitNone(parts[0], sep);
    } else {
      SplitJoin(parts[1..], sep);
      SplitFirst(parts[0], JoinWith(parts[1..], sep), sep);
    }
  }

  /** Characters of names and values: no separator, no space. */
  predicate Plain(t: Text) { forall i :: 0 <= i < |t| ==> !IsSpace(t[i]) && t[i] != SEMICOLON && t[i] != EQUALS }

  lemma {:induction false} IndexOfFirst(name: Text, value: Text)
    requires Plain(name)
    ensures IndexOf(name + [EQUALS] + value, EQUALS) == Some(|name|)
  {
    var t := name + [EQUALS] + value;
    assert t[|name|] == EQUALS;
    assert forall i :: 0 <= i < |name| ==> t[i] == name[i];
    var r := IndexOf(t, EQUALS);
    assert forall i :: 0 <= i < r.value ==> t[..r.value][i] == t[i];
  }

  lemma PartReads(fields: map<Text, Text>, name: Text, value: Text)
    requires Plain(name) && Plain(value) && name in NAMES && name !in fields && name != []
    ensures WithPart(fields, Part(name, value)) == Some(fields[name := value])
  {
    var t := Part(name, value);
    assert t[0] == name[0];
    assert !IsSpace(t[|t| - 1]);
    assert Trim(t) == t;
    IndexOfFirst(name, value);
    assert t[..|name|] == name && t[|name| + 1..] == value;
  }

  lemma NamesArePlain()
    ensures forall k :: 0 <= k < 6 ==> Plain(NAMES[k]) && NAMES[k] != []
  {
  }

  lemma ValuesArePlain(p: Parsed)
    requires WellFormed(p)
    ensures Plain(p.header.vault) && Plain(p.header.kid) && Plain(p.header.ts) && Plain(p.header.nonce) && Plain(p.sig)
  {
    assert forall u: CodeUnit :: IsLowerHex(u) || Sextet(u).Some? ==> !IsSpace(u) && u != SEMICOLON && u != EQUALS;
  }

  ghost predicate AllPlain(ts: seq<Text>) { forall k :: 0 <= k < |ts| ==> Plain(ts[k]) }

  ghost predicate Distinct(names: seq<Text>) { forall i, j :: 0 <= i < j < |names| ==> names[i] != names[j] }

  /** The first `n` names have their values, the others none. */
  ghost predicate Holds(fields: map<Text, Text>, names: seq<Text>, values: seq<Text>, n: nat)
    requires |values| == |names|
  {
    && (forall k :: 0 <= k < n && k < |names| ==> names[k] in fields && fields[names[k]] == values[k])
    && (forall k :: n <= k < |names| ==> names[k] !in fields)
  }

  lemma HoldsMore(fields: map<Text, Text>, names: seq<Text>, values: seq<Text>, n: nat)
    requires |values| == |names| && n < |names| && Distinct(names) && Holds(fields, names, values, n)
    ensures names[n] !in fields && Holds(fields[names[n] := values[n]], names, values, n + 1)
  {
  }

  /** The parts of distinct names read back as a map from each name to its value. */
  lemma {:induction false} PartsReadBack(names: seq<Text>, values: seq<Text>, n: nat)
    requires n <= |names| && |values| == |names| && AllPlain(names) && AllPlain(values) && Distinct(names)
    requires forall k :: 0 <= k < |names| ==> names[k] in NAMES && names[k] != []
    ensures FieldsOf(PartList(names, values, n)).Some?
    ensures Holds(FieldsOf(PartList(names, values, n)).value, names, values, n)
  {
    hide Part, WithPart, NAMES, Plain, Holds, Distinct;
    if n == 0 {
      NothingHeld(names, values);
    } else {
      var before := PartList(names, values, n - 1);
      PartsReadBack(names, values, n - 1);
      assert PartList(names, values, n)[..n - 1] == before;
      HoldsMore(FieldsOf(before).value, names, values, n - 1);
      PartReads(FieldsOf(before).value, names[n - 1], values[n - 1]);
    }
  }

  lemma NothingHeld(names: seq<Text>, values: seq<Text>)
    requires |values| == |names|
    ensures FieldsOf([]) == Some(map[]) && Holds(map[], names, values, 0)
  {
  }

  lemma ValuesAllPlain(p: Parsed)
    requires WellFormed(p)
    ensures AllPlain(Values(p)) && AllPlain(NAMES)
  {
    NamesAreSix();
    NamesArePlain();
    ValuesArePlain(p);
    assert Plain([0x31]);
    hide Plain, NAMES, WellFormed;
  }

  lemma FieldsGiveBack(p: Parsed, fields: map<Text, Text>)
    requires WellFormed(p) && |NAMES| == 6
    requires forall k :: 0 <= k < 6 ==> NAMES[k] in fields && fields[NAMES[k]] == Values(p)[k]
    ensures FromFields(fields) == Some(p)
  {
    hide WellFormed, NAMES;
  }

  lemma PartsHaveNoSeparator(p: Parsed)
    requires AllPlain(Values(p)) && AllPlain(NAMES) && |NAMES| == 6
    ensures forall k :: 0 <= k < 6 ==> SEMICOLON !in Parts(p)[k]
  {
    hide NAMES;
    forall k | 0 <= k < 6 ensures SEMICOLON !in Parts(p)[k] { assert Plain(NAMES[k]) && Plain(Values(p)[k]); }
  }

  lemma {:induction false} JoinLength(parts: seq<Text>, sep: CodeUnit, n: nat)
    requires parts != [] && forall k :: 0 <= k < |parts| ==> |parts[k]| <= n
    ensures |JoinWith(parts, sep)| <= |parts| * (n + 1)
  {
    if |parts| > 1 { JoinLength(parts[1..], sep, n); }
  }

  lemma PrintedLength(p: Parsed)
    requires WellFormed(p)
    ensures |PrintHeader(p)| <= MAX_HEADER
  {
    var parts := Parts(p);
    var short := parts[..5];
    assert |parts[5]| <= 132 && forall k :: 0 <= k < 5 ==> |parts[k]| <= 38;
    JoinLength(short, SEMICOLON, 38);
    JoinTwo(short, [parts[5]], SEMICOLON);
    assert short + [parts[5]] == parts;
  }

  lemma {:induction false} JoinTwo(a: seq<Text>, b: seq<Text>, sep: CodeUnit)
    requires a != [] && b != []
    ensures |JoinWith(a + b, sep)| == |JoinWith(a, sep)| + 1 + |JoinWith(b, sep)|
  {
    if |a| == 1 {
      assert (a + b)[1..] == b;
    } else {
      JoinTwo(a[1..], b, sep);
      assert (a + b)[1..] == a[1..] + b;
    }
  }

  /** A header written for any well-formed members reads back as those members. */
  lemma HeaderRoundTrip(p: Parsed)
    requires WellFormed(p)
    ensures ParseHeader(PrintHeader(p)) == Some(p)
  {
    NamesAreSix();
    NamesArePlain();
    hide WellFormed, Plain, AllPlain, FieldsOf, FromFields, NAMES, PartList;
    assert Distinct(NAMES);
    ValuesAllPlain(p);
    PartsReadBack(NAMES, Values(p), 6);
    PartsHaveNoSeparator(p);
    SplitJoin(Parts(p), SEMICOLON);
    PrintedLength(p);
    FieldsGiveBack(p, FieldsOf(Parts(p)).value);
  }
}
