/**
 * The strict parser refuses exactly the repeated member names: beside the
 * lenient parser it accepts the same texts with the same values, except
 * those whose value repeats a name somewhere. What it accepts, a printer
 * writes back to a text it accepts again, as the same value.
 */
module JsonTheorems {
  import opened Wrappers
  import opened Json

  // ---- strict against lenient -----------------------------------------------

  /** The strict answer, judged from the lenient one. */
  ghost function Refused(lenient: Reading<JVal>): Reading<JVal> {
    if lenient.Read? && NoDuplicates(lenient.value) then lenient else Failed
  }

  lemma {:induction false} StrictValue(t: Text, i: nat, depth: nat)
    requires i <= |t|
    ensures ValueAt(t, i, depth, true) == Refused(ValueAt(t, i, depth, false))
    decreases |t| - i, 0
  {
    hide LiteralAt, StringAt, SkipWs, MembersAt, ElementsAt;
    if depth <= MAX_DEPTH {
      var j := SkipWs(t, i);
      if j < |t| && t[j] == OPEN_BRACE {
        var k := SkipWs(t, j + 1);
        StrictMembers(t, k, depth, []);
      } else if j < |t| && t[j] == OPEN_BRACKET {
        var k := SkipWs(t, j + 1);
        StrictElements(t, k, depth, []);
      }
    }
  }

  ghost predicate CleanMembers(ms: seq<Member>) {
    DistinctNames(ms) && forall k :: 0 <= k < |ms| ==> NoDuplicates(ms[k].value)
  }

  ghost predicate CleanElements(es: seq<JVal>) {
    forall k :: 0 <= k < |es| ==> NoDuplicates(es[k])
  }

  /** The lenient parser only adds members after `acc`. */
  lemma {:induction false} MembersKeep(t: Text, i: nat, depth: nat, acc: seq<Member>)
    requires i <= |t|
    ensures var r := MembersAt(t, i, depth, acc, false);
      r.Read? ==> r.value.Obj? && acc <= r.value.members
    decreases |t| - i
  {
    hide MemberAt, SkipWs;
    var m := MemberAt(t, i, depth, false);
    if m.Read? {
      var j := SkipWs(t, m.next);
      if j < |t| && t[j] == COMMA {
        MembersKeep(t, j + 1, depth, acc + [m.value]);
      }
    }
  }

  lemma {:induction false} ElementsKeep(t: Text, i: nat, depth: nat, acc: seq<JVal>)
    requires i <= |t|
    ensures var r := ElementsAt(t, i, depth, acc, false);
      r.Read? ==> r.value.Arr? && acc <= r.value.elems
    decreases |t| - i
  {
    hide StringAt, SkipWs, ValueAt;
    var v := ValueAt(t, i, depth + 1, false);
    if v.Read? {
      var j := SkipWs(t, v.next);
      if j < |t| && t[j] == COMMA {
        ElementsKeep(t, j + 1, depth, acc + [v.value]);
      }
    }
  }

  lemma ObjectClean(ms: seq<Member>)
    ensures NoDuplicates(Obj(ms)) <==> CleanMembers(ms)
  {
  }

  lemma PrefixClean(a: seq<Member>, b: seq<Member>)
    requires a <= b && CleanMembers(b)
    ensures CleanMembers(a)
  {
    forall k | 0 <= k < |a| ensures NoDuplicates(a[k].value) { assert a[k] == b[k]; }
  }

  lemma ExtendClean(acc: seq<Member>, m: Member)
    requires CleanMembers(acc)
    ensures CleanMembers(acc + [m]) <==> !HasName(acc, m.name) && NoDuplicates(m.value)
  {
    var all := acc + [m];
    if CleanMembers(all) {
      assert all[|acc|] == m;
      forall k | 0 <= k < |acc| ensures acc[k].name != m.name { assert all[k] == acc[k]; }
    }
  }

  lemma {:induction false} StrictMember(t: Text, i: nat, depth: nat)
    requires i <= |t|
    ensures var lenient := MemberAt(t, i, depth, false);
      MemberAt(t, i, depth, true) ==
      if lenient.Read? && NoDuplicates(lenient.value.value) then lenient else Failed
    decreases |t| - i, 1
  {
    hide StringAt, SkipWs, ValueAt, NoDuplicates;
    var name := StringAt(t, SkipWs(t, i));
    if name.Read? {
      var colon := SkipWs(t, name.next);
      if colon < |t| && t[colon] == COLON {
        StrictValue(t, colon + 1, depth + 1);
      }
    }
  }

  lemma {:induction false} StrictMembers(t: Text, i: nat, depth: nat, acc: seq<Member>)
    requires i <= |t| && CleanMembers(acc)
    ensures MembersAt(t, i, depth, acc, true) == Refused(MembersAt(t, i, depth, acc, false))
    decreases |t| - i, 2
  {
    hide MemberAt, SkipWs, NoDuplicates, DistinctNames, CleanMembers, HasName;
    var m := MemberAt(t, i, depth, false);
    StrictMember(t, i, depth);
    if m.Read? {
      var all := acc + [m.value];
      var j := SkipWs(t, m.next);
      ExtendClean(acc, m.value);
      ObjectClean(all);
      if j < |t| && t[j] == COMMA {
        if CleanMembers(all) {
          StrictMembers(t, j + 1, depth, all);
        } else {
          DirtyMembers(t, j + 1, depth, all);
        }
      }
    }
  }

  /** A repeated name once read stays in the value: nothing after it makes it acceptable. */
  lemma DirtyMembers(t: Text, i: nat, depth: nat, acc: seq<Member>)
    requires i <= |t| && !CleanMembers(acc)
    ensures Refused(MembersAt(t, i, depth, acc, false)).Failed?
  {
    MembersKeep(t, i, depth, acc);
    var r := MembersAt(t, i, depth, acc, false);
    if r.Read? && NoDuplicates(r.value) {
      PrefixClean(acc, r.value.members);
    }
  }

  lemma {:induction false} StrictElements(t: Text, i: nat, depth: nat, acc: seq<JVal>)
    requires i <= |t| && CleanElements(acc)
    ensures ElementsAt(t, i, depth, acc, true) == Refused(ElementsAt(t, i, depth, acc, false))
    decreases |t| - i, 2
  {
    hide StringAt, SkipWs, ValueAt;
    var v := ValueAt(t, i, depth + 1, false);
    StrictValue(t, i, depth + 1);
    if v.Read? {
      var all := acc + [v.value];
      var j := SkipWs(t, v.next);
      assert all[|acc|] == v.value;
      if j < |t| && t[j] == COMMA {
        if NoDuplicates(v.value) {
          StrictElements(t, j + 1, depth, all);
        } else {
          ElementsKeep(t, j + 1, depth, all);
          var r := ElementsAt(t, j + 1, depth, all, false);
          if r.Read? { assert r.value.elems[|acc|] == v.value; }
        }
      }
    }
  }

  /** The strict parser accepts exactly what the lenient one reads without a repeated name. */
  lemma StrictRefusesExactlyDuplicates(t: Text)
    ensures Parse(t, true) ==
            match Parse(t, false)
            case None => None
            case Some(v) => if NoDuplicates(v) then Some(v) else None
  {
    StrictValue(t, 0, 0);
  }

  // ---- the printer ------------------------------------------------------------

  function HexDigit(n: nat): CodeUnit
    requires n < 16
  {
    if n < 10 then 0x30 + n else 0x61 + n - 10
  }

  function EscapeUnit(u: CodeUnit): (e: Text) {
    if u == QUOTE || u == BACKSLASH then [BACKSLASH, u]
    else if u < 0x20 then [BACKSLASH, 0x75, 0x30, 0x30, HexDigit(u / 16), HexDigit(u % 16)]
    else [u]
  }

  function Escape(s: Text): Text {
    if s == [] then [] else EscapeUnit(s[0]) + Escape(s[1..])
  }

  function PrintString(s: Text): Text {
    [QUOTE] + Escape(s) + [QUOTE]
  }

  function Print(v: JVal): Text
    decreases v, 0
  {
    match v
    case Obj(ms) => [OPEN_BRACE] + PrintMembers(ms) + [CLOSE_BRACE]
    case Arr(es) => [OPEN_BRACKET] + PrintElements(es) + [CLOSE_BRACKET]
    case Str(s) => PrintString(s)
    case Num(raw) => raw
    case Bool(b) => if b then TRUE_WORD else FALSE_WORD
    case Null => NULL_WORD
  }

  function PrintMember(m: Member): Text
    decreases m, 1
  {
    PrintString(m.name) + [COLON] + Print(m.value)
  }

  function PrintMembers(ms: seq<Member>): Text
    decreases ms, 2
  {
    if ms == [] then []
    else if |ms| == 1 then PrintMember(ms[0])
    else PrintMember(ms[0]) + [COMMA] + PrintMembers(ms[1..])
  }

  function PrintElements(es: seq<JVal>): Text
    decreases es, 2
  {
    if es == [] then []
    else if |es| == 1 then Print(es[0])
    else Print(es[0]) + [COMMA] + PrintElements(es[1..])
  }

  /** `p` stands in `t` at `i`. */
  ghost predicate Stands(t: Text, i: nat, p: Text) {
    i + |p| <= |t| && t[i..i + |p|] == p
  }

  lemma Split(t: Text, i: nat, a: Text, b: Text)
    ensures Stands(t, i, a + b) <==> Stands(t, i, a) && Stands(t, i + |a|, b)
  {
    var n := i + |a|;
    if n + |b| <= |t| {
      assert t[i..n + |b|] == t[i..n] + t[n..n + |b|];
      assert t[i..n] == t[i..n + |b|][..|a|];
      assert t[n..n + |b|] == t[i..n + |b|][|a|..];
    }
  }

  lemma {:induction false} DecodeEscape(s: Text)
    ensures Decode(Escape(s)) == Some(s)
  {
    if s != [] {
      DecodeEscape(s[1..]);
      var e, rest := EscapeUnit(s[0]), Escape(s[1..]);
      var b := e + rest;
      assert b[|e|..] == rest;
      assert s == [s[0]] + s[1..];
      if |e| == 6 {
        var h := b[2..6];
        assert h == [0x30, 0x30, HexDigit(s[0] / 16), HexDigit(s[0] % 16)];
        assert Hex4(h) == Some(s[0]);
      }
    }
  }

  lemma {:induction false} ScanEscape(t: Text, i: nat, s: Text)
    requires Stands(t, i, Escape(s))
    requires var n := i + |Escape(s)|; n < |t| && t[n] == QUOTE
    ensures ScanString(t, i) == Some(i + |Escape(s)|)
    decreases |s|
  {
    hide ScanString, EscapeUnit, Stands;
    if s == [] {
      ScanClose(t, i);
    } else {
      var e, rest := EscapeUnit(s[0]), Escape(s[1..]);
      Split(t, i, e, rest);
      ScanEscape(t, i + |e|, s[1..]);
      ScanUnit(t, i, s[0]);
    }
  }

  lemma ScanClose(t: Text, i: nat)
    requires i < |t| && t[i] == QUOTE
    ensures ScanString(t, i) == Some(i)
  {
  }

  /** One escaped code unit is passed over whole. */
  lemma ScanUnit(t: Text, i: nat, u: CodeUnit)
    requires Stands(t, i, EscapeUnit(u))
    ensures ScanString(t, i) == ScanString(t, i + |EscapeUnit(u)|)
  {
    hide ScanString;
    var e := EscapeUnit(u);
    var w := t[i..i + |e|];
    assert w == e && t[i] == w[0];
    if |e| == 1 {
      ScanPlain(t, i);
    } else {
      ScanEscaped(t, i);
      if |e| == 6 {
        assert t[i + 2] == w[2] && t[i + 3] == w[3] && t[i + 4] == w[4] && t[i + 5] == w[5];
        ScanPlain(t, i + 2);
        ScanPlain(t, i + 3);
        ScanPlain(t, i + 4);
        ScanPlain(t, i + 5);
      }
    }
  }

  lemma ScanEscaped(t: Text, i: nat)
    requires i + 2 <= |t| && t[i] == BACKSLASH
    ensures ScanString(t, i) == ScanString(t, i + 2)
  {
  }

  lemma ScanPlain(t: Text, i: nat)
    requires i < |t| && t[i] != QUOTE && t[i] >= 0x20 && t[i] != BACKSLASH
    ensures ScanString(t, i) == ScanString(t, i + 1)
  {
  }

  lemma StringRoundTrip(t: Text, i: nat, s: Text)
    requires Stands(t, i, PrintString(s))
    ensures StringAt(t, i) == Read(s, i + |PrintString(s)|)
  {
    hide Escape, ScanString, Decode;
    var e := Escape(s);
    Split(t, i, [QUOTE] + e, [QUOTE]);
    Split(t, i, [QUOTE], e);
    var n := i + 1 + |e|;
    assert t[i] == t[i..i + 1][0] == QUOTE;
    assert t[n] == t[n..n + 1][0] == QUOTE;
    ScanEscape(t, i + 1, s);
    DecodeEscape(s);
  }

  // ---- numbers ------------------------------------------------------------------

  /** A code unit that cannot continue a number. */
  predicate EndsNumber(u: CodeUnit) {
    !IsDigit(u) && u != 0x2E && u != 0x65 && u != 0x45
  }

  lemma {:induction false} DigitRunAppend(a: Text, b: Text)
    requires b == [] || !IsDigit(b[0])
    ensures DigitRun(a + b) == DigitRun(a)
  {
    if a == [] {
      assert a + b == b;
    } else {
      assert (a + b)[1..] == a[1..] + b;
      DigitRunAppend(a[1..], b);
    }
  }

  lemma {:induction false} DigitRunWhole(a: Text)
    ensures DigitRun(a) < |a| ==> !IsDigit(a[DigitRun(a)])
    ensures forall k :: 0 <= k < DigitRun(a) ==> IsDigit(a[k])
  {
    if a != [] && IsDigit(a[0]) { DigitRunWhole(a[1..]); }
  }

  lemma NumberAppend(a: Text, b: Text)
    requires NumberLength(a) == |a| > 0
    requires b == [] || EndsNumber(b[0])
    ensures NumberLength(a + b) == |a|
  {
    hide IntegerLength, FractionLength, ExponentLength;
    IntegerAppend(a, b);
    var n := IntegerLength(a);
    assert (a + b)[n..] == a[n..] + b;
    FractionAppend(a[n..], b);
    var m := n + FractionLength(a[n..]);
    assert (a + b)[m..] == a[m..] + b;
    ExponentAppend(a[m..], b);
  }

  lemma IntegerAppend(a: Text, b: Text)
    requires a != [] && (b == [] || EndsNumber(b[0])) && IntegerLength(a) > 0
    ensures IntegerLength(a + b) == IntegerLength(a)
  {
    var sign := if a[0] == 0x2D then 1 else 0;
    assert (a + b)[sign..] == a[sign..] + b;
    DigitRunAppend(a[sign..], b);
  }

  lemma FractionAppend(a: Text, b: Text)
    requires b == [] || EndsNumber(b[0])
    ensures FractionLength(a + b) == FractionLength(a)
  {
    if a == [] {
      assert a + b == b;
    } else {
      assert (a + b)[1..] == a[1..] + b;
      DigitRunAppend(a[1..], b);
    }
  }

  lemma ExponentAppend(a: Text, b: Text)
    requires b == [] || EndsNumber(b[0])
    requires ExponentLength(a) == |a|
    ensures ExponentLength(a + b) == |a|
  {
    if a == [] {
      assert a + b == b;
    } else {
      var sign := if |a| > 1 && (a[1] == 0x2B || a[1] == 0x2D) then 1 else 0;
      assert (a + b)[1 + sign..] == a[1 + sign..] + b;
      DigitRunAppend(a[1 + sign..], b);
    }
  }

  // ---- values -------------------------------------------------------------------

  ghost predicate Printable(v: JVal, depth: nat) {
    NoDuplicates(v) && ValidNumbers(v) && NestedAtMost(v, MAX_DEPTH - depth)
  }

  ghost predicate Ended(t: Text, i: nat) {
    i <= |t| && (i == |t| || t[i] == COMMA || t[i] == CLOSE_BRACE || t[i] == CLOSE_BRACKET)
  }

  lemma FirstUnit(v: JVal)
    requires ValidNumbers(v)
    ensures |Print(v)| > 0 && !IsWs(Print(v)[0])
    ensures v.Str? <==> Print(v)[0] == QUOTE
    ensures v.Obj? <==> Print(v)[0] == OPEN_BRACE
    ensures v.Arr? <==> Print(v)[0] == OPEN_BRACKET
    ensures Print(v)[0] != CLOSE_BRACE && Print(v)[0] != CLOSE_BRACKET && Print(v)[0] != COMMA
    ensures v.Num? ==> Print(v)[0] == 0x2D || IsDigit(Print(v)[0])
  {
  }

  lemma NoWs(t: Text, i: nat)
    requires i < |t| && !IsWs(t[i])
    ensures SkipWs(t, i) == i
  {
  }

  lemma StandsFirst(t: Text, i: nat, p: Text)
    requires Stands(t, i, p) && |p| > 0
    ensures t[i] == p[0]
  {
    assert t[i] == t[i..i + |p|][0];
  }

  lemma NumberFirst(raw: Text)
    requires |raw| > 0 && NumberLength(raw) == |raw|
    ensures raw[0] == 0x2D || IsDigit(raw[0])
  {
    hide FractionLength, ExponentLength, DigitRun;
  }

  lemma NumberRoundTrip(t: Text, i: nat, raw: Text)
    requires |raw| > 0 && NumberLength(raw) == |raw|
    requires Stands(t, i, raw) && Ended(t, i + |raw|)
    ensures LiteralAt(t, i) == Read(Num(raw), i + |raw|)
  {
    hide NumberLength;
    NumberFirst(raw);
    var rest := t[i + |raw|..];
    var u := t[i..];
    assert u == raw + rest;
    NumberAppend(raw, rest);
    assert u[..|raw|] == raw;
    assert u[0] == raw[0];
    assert !(TRUE_WORD <= u) && !(FALSE_WORD <= u) && !(NULL_WORD <= u);
  }

  lemma WordRoundTrip(t: Text, i: nat, v: JVal)
    requires v.Bool? || v.Null?
    requires Stands(t, i, Print(v))
    ensures LiteralAt(t, i) == Read(v, i + |Print(v)|)
  {
    hide NumberLength;
    var p := Print(v);
    var u := t[i..];
    assert u == p + t[i + |p|..];
    assert p <= u;
    assert u[0] == p[0];
  }

  lemma {:induction false} ValueRoundTrip(t: Text, i: nat, v: JVal, depth: nat)
    requires Printable(v, depth) && Stands(t, i, Print(v)) && Ended(t, i + |Print(v)|)
    ensures ValueAt(t, i, depth, true) == Read(v, i + |Print(v)|)
    decreases v, 1
  {
    FirstUnit(v);
    StandsFirst(t, i, Print(v));
    NoWs(t, i);
    hide LiteralAt, StringAt, SkipWs, MembersAt, ElementsAt, PrintMembers, PrintElements;
    match v {
      case Obj(ms) => ObjectRoundTrip(t, i, ms, depth);
      case Arr(es) => ArrayRoundTrip(t, i, es, depth);
      case Str(s) => StringRoundTrip(t, i, s);
      case Num(raw) => NumberRoundTrip(t, i, raw);
      case _ => WordRoundTrip(t, i, v);
    }
  }

  lemma MembersFirst(ms: seq<Member>)
    requires |ms| > 0
    ensures |PrintMembers(ms)| > 0 && PrintMembers(ms)[0] == QUOTE
  {
  }

  lemma ElementsFirst(es: seq<JVal>)
    requires |es| > 0 && |Print(es[0])| > 0
    ensures |PrintElements(es)| > 0 && PrintElements(es)[0] == Print(es[0])[0]
  {
  }

  lemma {:induction false} ObjectRoundTrip(t: Text, i: nat, ms: seq<Member>, depth: nat)
    requires Printable(Obj(ms), depth) && Stands(t, i, Print(Obj(ms)))
    ensures ValueAt(t, i, depth, true) == Read(Obj(ms), i + |Print(Obj(ms))|)
    decreases Obj(ms), 0
  {
    hide SkipWs, PrintMembers, MembersAt;
    var p := PrintMembers(ms);
    var n := i + 1 + |p|;
    Split(t, i, [OPEN_BRACE] + p, [CLOSE_BRACE]);
    Split(t, i, [OPEN_BRACE], p);
    StandsFirst(t, i, [OPEN_BRACE]);
    NoWs(t, i);
    StandsFirst(t, n, [CLOSE_BRACE]);
    assert PrintMembers([]) == [] by { EmptyPrint(); }
    if ms == [] {
      NoWs(t, n);
    } else {
      MembersFirst(ms);
      StandsFirst(t, i + 1, p);
      NoWs(t, i + 1);
      assert ms[0..] == ms && ms[..0] == [];
      MembersRoundTrip(t, i + 1, ms, 0, depth);
    }
  }

  lemma EmptyPrint()
    ensures PrintMembers([]) == [] && PrintElements([]) == []
  {
  }

  lemma PrintArray(es: seq<JVal>)
    ensures Print(Arr(es)) == [OPEN_BRACKET] + PrintElements(es) + [CLOSE_BRACKET]
  {
  }

  lemma PrintableNumbers(v: JVal, depth: nat)
    requires Printable(v, depth)
    ensures ValidNumbers(v) && depth <= MAX_DEPTH
  {
  }

  lemma {:induction false} ArrayRoundTrip(t: Text, i: nat, es: seq<JVal>, depth: nat)
    requires Printable(Arr(es), depth) && Stands(t, i, Print(Arr(es)))
    ensures ValueAt(t, i, depth, true) == Read(Arr(es), i + |Print(Arr(es))|)
    decreases Arr(es), 0
  {
    hide SkipWs, PrintElements, ElementsAt, Print, ValidNumbers, NoDuplicates, NestedAtMost;
    PrintArray(es);
    PrintableNumbers(Arr(es), depth);
    if es != [] {
      PrintableElement(es, 0, depth);
      PrintableNumbers(es[0], depth + 1);
      FirstUnit(es[0]);
    }
    var p := PrintElements(es);
    var n := i + 1 + |p|;
    Split(t, i, [OPEN_BRACKET] + p, [CLOSE_BRACKET]);
    Split(t, i, [OPEN_BRACKET], p);
    StandsFirst(t, i, [OPEN_BRACKET]);
    NoWs(t, i);
    StandsFirst(t, n, [CLOSE_BRACKET]);
    assert PrintElements([]) == [] by { EmptyPrint(); }
    if es == [] {
      NoWs(t, n);
    } else {
      ElementsFirst(es);
      StandsFirst(t, i + 1, p);
      NoWs(t, i + 1);
      assert es[0..] == es && es[..0] == [];
      ElementsRoundTrip(t, i + 1, es, 0, depth);
    }
  }

  lemma {:induction false} MemberRoundTrip(t: Text, i: nat, m: Member, depth: nat)
    requires Printable(m.value, depth + 1) && Stands(t, i, PrintMember(m)) && Ended(t, i + |PrintMember(m)|)
    ensures MemberAt(t, i, depth, true) == Read(m, i + |PrintMember(m)|)
    decreases m, 1
  {
    hide SkipWs, StringAt, ValueAt, Print, Printable;
    var name, value := PrintString(m.name), Print(m.value);
    Split(t, i, name + [COLON], value);
    Split(t, i, name, [COLON]);
    StandsFirst(t, i, name);
    NoWs(t, i);
    StringRoundTrip(t, i, m.name);
    StandsFirst(t, i + |name|, [COLON]);
    NoWs(t, i + |name|);
    ValueRoundTrip(t, i + |name| + 1, m.value, depth + 1);
  }

  /** What follows the k-th member of a printed object. */
  function MembersTail(ms: seq<Member>, k: nat): Text
    requires k < |ms|
  {
    if k + 1 == |ms| then [] else [COMMA] + PrintMembers(ms[k + 1..])
  }

  lemma MembersUnfold(ms: seq<Member>, k: nat)
    requires k < |ms|
    ensures PrintMembers(ms[k..]) == PrintMember(ms[k]) + MembersTail(ms, k)
  {
    hide PrintMember;
    var rest := ms[k..];
    assert rest[0] == ms[k] && rest[1..] == ms[k + 1..];
  }

  lemma MembersLast(t: Text, i: nat, depth: nat, acc: seq<Member>, m: Member, after: nat)
    requires i <= |t| && after < |t| && t[after] == CLOSE_BRACE && !HasName(acc, m.name)
    requires MemberAt(t, i, depth, true) == Read(m, after)
    ensures MembersAt(t, i, depth, acc, true) == Read(Obj(acc + [m]), after + 1)
  {
    hide MemberAt, HasName;
    NoWs(t, after);
  }

  lemma MembersNext(t: Text, i: nat, depth: nat, acc: seq<Member>, m: Member, after: nat)
    requires i <= |t| && after < |t| && t[after] == COMMA && !HasName(acc, m.name)
    requires MemberAt(t, i, depth, true) == Read(m, after)
    ensures MembersAt(t, i, depth, acc, true) == MembersAt(t, after + 1, depth, acc + [m], true)
  {
    hide MemberAt, HasName;
    NoWs(t, after);
  }

  lemma PrintableMember(ms: seq<Member>, k: nat, depth: nat)
    requires k < |ms| && Printable(Obj(ms), depth)
    ensures Printable(ms[k].value, depth + 1) && !HasName(ms[..k], ms[k].name)
  {
  }

  /** After the k-th member stands a comma and the next members, or the closing brace. */
  lemma MembersSeparator(t: Text, i: nat, ms: seq<Member>, k: nat)
    requires k < |ms| && Stands(t, i, PrintMembers(ms[k..]))
    requires var n := i + |PrintMembers(ms[k..])|; n < |t| && t[n] == CLOSE_BRACE
    ensures var after := i + |PrintMember(ms[k])|;
      && Stands(t, i, PrintMember(ms[k])) && after < |t|
      && (k + 1 == |ms| ==> t[after] == CLOSE_BRACE && |PrintMembers(ms[k..])| == |PrintMember(ms[k])|)
      && (k + 1 < |ms| ==> t[after] == COMMA && Stands(t, after + 1, PrintMembers(ms[k + 1..])))
      && (k + 1 < |ms| ==> |PrintMembers(ms[k..])| == |PrintMember(ms[k])| + 1 + |PrintMembers(ms[k + 1..])|)
  {
    hide PrintMember, PrintMembers;
    MembersUnfold(ms, k);
    var tail := MembersTail(ms, k);
    Split(t, i, PrintMember(ms[k]), tail);
    if k + 1 < |ms| {
      var after := i + |PrintMember(ms[k])|;
      StandsFirst(t, after, tail);
      Split(t, after, [COMMA], PrintMembers(ms[k + 1..]));
    }
  }

  lemma {:induction false} MembersRoundTrip(t: Text, i: nat, ms: seq<Member>, k: nat, depth: nat)
    requires k < |ms| && Printable(Obj(ms), depth)
    requires Stands(t, i, PrintMembers(ms[k..]))
    requires var n := i + |PrintMembers(ms[k..])|; n < |t| && t[n] == CLOSE_BRACE
    ensures MembersAt(t, i, depth, ms[..k], true) == Read(Obj(ms), i + |PrintMembers(ms[k..])| + 1)
    decreases ms, 0, |ms| - k
  {
    hide MembersAt, MemberAt, PrintMember, PrintMembers, Printable, HasName, Stands;
    PrintableMember(ms, k, depth);
    var m := ms[k];
    MembersSeparator(t, i, ms, k);
    var after := i + |PrintMember(m)|;
    MemberRoundTrip(t, i, m, depth);
    assert ms[..k] + [m] == ms[..k + 1];
    if k + 1 == |ms| {
      MembersLast(t, i, depth, ms[..k], m, after);
      assert ms[..k + 1] == ms;
    } else {
      MembersNext(t, i, depth, ms[..k], m, after);
      MembersRoundTrip(t, after + 1, ms, k + 1, depth);
    }
  }

  /** What follows the k-th element of a printed array. */
  function ElementsTail(es: seq<JVal>, k: nat): Text
    requires k < |es|
  {
    if k + 1 == |es| then [] else [COMMA] + PrintElements(es[k + 1..])
  }

  lemma ElementsUnfold(es: seq<JVal>, k: nat)
    requires k < |es|
    ensures PrintElements(es[k..]) == Print(es[k]) + ElementsTail(es, k)
  {
    hide Print;
    var rest := es[k..];
    assert rest[0] == es[k] && rest[1..] == es[k + 1..];
  }

  lemma ElementsLast(t: Text, i: nat, depth: nat, acc: seq<JVal>, v: JVal, after: nat)
    requires i <= |t| && after < |t| && t[after] == CLOSE_BRACKET
    requires ValueAt(t, i, depth + 1, true) == Read(v, after)
    ensures ElementsAt(t, i, depth, acc, true) == Read(Arr(acc + [v]), after + 1)
  {
    hide ValueAt;
    NoWs(t, after);
  }

  lemma ElementsNext(t: Text, i: nat, depth: nat, acc: seq<JVal>, v: JVal, after: nat)
    requires i <= |t| && after < |t| && t[after] == COMMA
    requires ValueAt(t, i, depth + 1, true) == Read(v, after)
    ensures ElementsAt(t, i, depth, acc, true) == ElementsAt(t, after + 1, depth, acc + [v], true)
  {
    hide ValueAt;
    NoWs(t, after);
  }

  lemma PrintableElement(es: seq<JVal>, k: nat, depth: nat)
    requires k < |es| && Printable(Arr(es), depth)
    ensures Printable(es[k], depth + 1)
  {
  }

  /** After the k-th element stands a comma and the next elements, or the closing bracket. */
  lemma ElementsSeparator(t: Text, i: nat, es: seq<JVal>, k: nat)
    requires k < |es| && Stands(t, i, PrintElements(es[k..]))
    requires var n := i + |PrintElements(es[k..])|; n < |t| && t[n] == CLOSE_BRACKET
    ensures var after := i + |Print(es[k])|;
      && Stands(t, i, Print(es[k])) && after < |t|
      && (k + 1 == |es| ==> t[after] == CLOSE_BRACKET && |PrintElements(es[k..])| == |Print(es[k])|)
      && (k + 1 < |es| ==> t[after] == COMMA && Stands(t, after + 1, PrintElements(es[k + 1..])))
      && (k + 1 < |es| ==> |PrintElements(es[k..])| == |Print(es[k])| + 1 + |PrintElements(es[k + 1..])|)
  {
    hide Print, PrintElements;
    ElementsUnfold(es, k);
    var tail := ElementsTail(es, k);
    Split(t, i, Print(es[k]), tail);
    if k + 1 < |es| {
      var after := i + |Print(es[k])|;
      StandsFirst(t, after, tail);
      Split(t, after, [COMMA], PrintElements(es[k + 1..]));
    }
  }

  lemma {:induction false} ElementsRoundTrip(t: Text, i: nat, es: seq<JVal>, k: nat, depth: nat)
    requires k < |es| && Printable(Arr(es), depth)
    requires Stands(t, i, PrintElements(es[k..]))
    requires var n := i + |PrintElements(es[k..])|; n < |t| && t[n] == CLOSE_BRACKET
    ensures ElementsAt(t, i, depth, es[..k], true) == Read(Arr(es), i + |PrintElements(es[k..])| + 1)
    decreases es, 0, |es| - k
  {
    hide ElementsAt, ValueAt, Print, PrintElements, Printable, Stands;
    PrintableElement(es, k, depth);
    var v := es[k];
    ElementsSeparator(t, i, es, k);
    var after := i + |Print(v)|;
    ValueRoundTrip(t, i, v, depth + 1);
    assert es[..k] + [v] == es[..k + 1];
    if k + 1 == |es| {
      ElementsLast(t, i, depth, es[..k], v, after);
      assert es[..k + 1] == es;
    } else {
      ElementsNext(t, i, depth, es[..k], v, after);
      ElementsRoundTrip(t, after + 1, es, k + 1, depth);
    }
  }

  /** Printing then parsing gives the value back, for every value the parser can return. */
  lemma ParsePrint(v: JVal)
    requires Printable(v, 0)
    ensures Parse(Print(v), true) == Some(v)
  {
    ValueRoundTrip(Print(v), 0, v, 0);
  }

  // ---- everything accepted is printable ---------------------------------------------

  lemma {:induction false} ReadsNumber(u: Text)
    requires NumberLength(u) > 0
    ensures var n := NumberLength(u); NumberLength(u[..n]) == n
  {
    hide IntegerLength, FractionLength, ExponentLength;
    var n := NumberLength(u);
    var a := IntegerLength(u);
    var b := a + FractionLength(u[a..]);
    var p := u[..n];
    ReadsInteger(u, n);
    assert p[a..] == u[a..][..n - a];
    ReadsFraction(u[a..], n - a);
    assert p[b..] == u[b..][..n - b];
    ReadsExponent(u[b..]);
  }

  lemma {:induction false} DigitRunCut(u: Text, n: nat)
    requires DigitRun(u) <= n <= |u|
    ensures DigitRun(u[..n]) == DigitRun(u)
  {
    if n > 0 && IsDigit(u[0]) {
      assert u[..n][1..] == u[1..][..n - 1];
      DigitRunCut(u[1..], n - 1);
    }
  }

  lemma ReadsInteger(u: Text, n: nat)
    requires 0 < IntegerLength(u) <= n <= |u|
    ensures IntegerLength(u[..n]) == IntegerLength(u)
  {
    var sign := if u[0] == 0x2D then 1 else 0;
    assert u[..n][sign..] == u[sign..][..n - sign];
    if IsDigit(u[sign]) && u[sign] != 0x30 { DigitRunCut(u[sign..], n - sign); }
  }

  lemma ReadsFraction(u: Text, n: nat)
    requires FractionLength(u) <= n <= |u|
    requires FractionLength(u) == 0 ==> n == ExponentLength(u)
    ensures FractionLength(u[..n]) == FractionLength(u)
  {
    if n > 0 && u[0] == 0x2E {
      assert u[..n][1..] == u[1..][..n - 1];
      DigitRunCut(u[1..], n - 1);
    }
  }

  lemma ReadsExponent(u: Text)
    ensures var n := ExponentLength(u); ExponentLength(u[..n]) == n
  {
    var n := ExponentLength(u);
    if n > 0 {
      var sign := if |u| > 1 && (u[1] == 0x2B || u[1] == 0x2D) then 1 else 0;
      assert u[..n][1 + sign..] == u[1 + sign..][..n - 1 - sign];
      DigitRunCut(u[1 + sign..], n - 1 - sign);
    }
  }

  lemma {:induction false} AcceptedValue(t: Text, i: nat, depth: nat)
    requires i <= |t|
    ensures var r := ValueAt(t, i, depth, true); r.Read? ==> Printable(r.value, depth)
    decreases |t| - i, 0
  {
    hide SkipWs, StringAt, MembersAt, ElementsAt, LiteralAt;
    if depth <= MAX_DEPTH {
      var j := SkipWs(t, i);
      if j < |t| && t[j] == OPEN_BRACE {
        AcceptedMembers(t, SkipWs(t, j + 1), depth, []);
      } else if j < |t| && t[j] == OPEN_BRACKET {
        AcceptedElements(t, SkipWs(t, j + 1), depth, []);
      } else if j < |t| && t[j] != QUOTE {
        AcceptedLiteral(t, j, depth);
      }
    }
  }

  lemma AcceptedLiteral(t: Text, j: nat, depth: nat)
    requires j <= |t| && depth <= MAX_DEPTH
    ensures var r := LiteralAt(t, j); r.Read? ==> Printable(r.value, depth)
  {
    hide NumberLength;
    if NumberLength(t[j..]) > 0 { ReadsNumber(t[j..]); }
  }

  lemma {:induction false} AcceptedMember(t: Text, i: nat, depth: nat)
    requires i <= |t|
    ensures var r := MemberAt(t, i, depth, true); r.Read? ==> Printable(r.value.value, depth + 1)
    decreases |t| - i, 1
  {
    hide StringAt, SkipWs, ValueAt, Printable;
    var name := StringAt(t, SkipWs(t, i));
    if name.Read? {
      var colon := SkipWs(t, name.next);
      if colon < |t| && t[colon] == COLON { AcceptedValue(t, colon + 1, depth + 1); }
    }
  }

  lemma {:induction false} AcceptedMembers(t: Text, i: nat, depth: nat, acc: seq<Member>)
    requires i <= |t| && depth <= MAX_DEPTH
    requires Printable(Obj(acc), depth)
    ensures var r := MembersAt(t, i, depth, acc, true); r.Read? ==> Printable(r.value, depth)
    decreases |t| - i, 2
  {
    hide MemberAt, SkipWs, Printable, HasName;
    AcceptedMember(t, i, depth);
    var m := MemberAt(t, i, depth, true);
    if m.Read? && !HasName(acc, m.value.name) {
      var all := acc + [m.value];
      ExtendPrintable(acc, m.value, depth);
      var j := SkipWs(t, m.next);
      if j < |t| && t[j] == COMMA { AcceptedMembers(t, j + 1, depth, all); }
    }
  }

  lemma ExtendPrintable(acc: seq<Member>, m: Member, depth: nat)
    requires Printable(Obj(acc), depth) && Printable(m.value, depth + 1) && !HasName(acc, m.name)
    ensures Printable(Obj(acc + [m]), depth)
  {
    ExtendClean(acc, m);
  }

  lemma ExtendElements(acc: seq<JVal>, v: JVal, depth: nat)
    requires Printable(Arr(acc), depth) && Printable(v, depth + 1)
    ensures Printable(Arr(acc + [v]), depth)
  {
    var all := acc + [v];
    assert forall k :: 0 <= k < |acc| ==> all[k] == acc[k];
  }

  lemma {:induction false} AcceptedElements(t: Text, i: nat, depth: nat, acc: seq<JVal>)
    requires i <= |t| && depth <= MAX_DEPTH
    requires Printable(Arr(acc), depth)
    ensures var r := ElementsAt(t, i, depth, acc, true); r.Read? ==> Printable(r.value, depth)
    decreases |t| - i, 2
  {
    hide ValueAt, SkipWs, Printable;
    AcceptedValue(t, i, depth + 1);
    var v := ValueAt(t, i, depth + 1, true);
    if v.Read? {
      var all := acc + [v.value];
      ExtendElements(acc, v.value, depth);
      var j := SkipWs(t, v.next);
      if j < |t| && t[j] == COMMA { AcceptedElements(t, j + 1, depth, all); }
    }
  }

  /** Parsing then printing: whatever text was accepted, its value's print is accepted as the same value. */
  lemma PrintParse(t: Text)
    requires Parse(t, true).Some?
    ensures var v := Parse(t, true).value; Printable(v, 0) && Parse(Print(v), true) == Some(v)
  {
    AcceptedValue(t, 0, 0);
    ParsePrint(Parse(t, true).value);
  }

  /** The values the parser can return are exactly the printable ones. */
  lemma AcceptedIffPrintable(v: JVal)
    ensures (exists t: Text :: Parse(t, true) == Some(v)) <==> Printable(v, 0)
  {
    if Printable(v, 0) { ParsePrint(v); }
    forall t: Text | Parse(t, true) == Some(v) ensures Printable(v, 0) { AcceptedValue(t, 0, 0); }
  }
}
