/**
 * The grammar of RFC 8259 as a relation between a text and a value, written
 * without the parser: white space around every token, every escape, every
 * number. The strict parser reads exactly the texts of this grammar whose
 * objects have distinct names and that nest at most 64 deep.
 */
module JsonGrammar {
  import opened Json
  import opened JsonTheorems
  import opened Wrappers

  // ---- tokens --------------------------------------------------------------------------

  /** Only space, tab, line feed and carriage return from `i` to `j`. */
  ghost predicate Blank(t: Text, i: nat, j: nat) {
    i <= j <= |t| && forall k :: i <= k < j ==> t[k] == 0x20 || t[k] == 0x09 || t[k] == 0x0A || t[k] == 0x0D
  }

  ghost predicate IsAt(t: Text, i: nat, u: CodeUnit) { i < |t| && t[i] == u }

  /** `"` `\` `/` stand for themselves after a backslash, `b` `f` `n` `r` `t` for their control characters. */
  ghost predicate ShortEscape(c: CodeUnit, u: CodeUnit) {
    || (c == 0x22 && u == 0x22) || (c == 0x5C && u == 0x5C) || (c == 0x2F && u == 0x2F)
    || (c == 0x62 && u == 0x08) || (c == 0x66 && u == 0x0C) || (c == 0x6E && u == 0x0A)
    || (c == 0x72 && u == 0x0D) || (c == 0x74 && u == 0x09)
  }

  ghost predicate HexIs(c: CodeUnit, d: int) {
    || (0x30 <= c <= 0x39 && d == c - 0x30) || (0x41 <= c <= 0x46 && d == c - 0x41 + 10) || (0x61 <= c <= 0x66 && d == c - 0x61 + 10)
  }

  ghost predicate DigitsStand(t: Text, i: nat, a: int, b: int, c: int, d: int)
    requires i + 4 <= |t|
  {
    HexIs(t[i], a) && HexIs(t[i + 1], b) && HexIs(t[i + 2], c) && HexIs(t[i + 3], d)
  }

  ghost predicate FourDigits(t: Text, i: nat, u: CodeUnit)
    requires i + 4 <= |t|
  {
    exists a, b, c, d :: DigitsStand(t, i, a, b, c, d) && u == a * 4096 + b * 256 + c * 16 + d
  }

  /** A string's next code unit `u`, written in the `n` code units at `i`: as it is, by a short escape, or by its four hexadecimal digits. */
  ghost predicate UnitAt(t: Text, i: nat, n: nat, u: CodeUnit) {
    i + n <= |t| &&
    (|| (n == 1 && t[i] == u && u >= 0x20 && u != 0x22 && u != 0x5C)
     || (n == 2 && t[i] == 0x5C && ShortEscape(t[i + 1], u))
     || (n == 6 && t[i] == 0x5C && t[i + 1] == 0x75
         && FourDigits(t, i + 2, u)))
  }

  /** The content of a string literal and its closing quote. */
  ghost predicate ContentAt(t: Text, i: nat, s: Text, j: nat)
    decreases |s|
  {
    if s == [] then IsAt(t, i, 0x22) && j == i + 1
    else exists n: nat :: UnitAt(t, i, n, s[0]) && ContentAt(t, i + n, s[1..], j)
  }

  ghost predicate LiteralIs(t: Text, i: nat, s: Text, j: nat) { IsAt(t, i, 0x22) && ContentAt(t, i + 1, s, j) }

  ghost predicate SignIs(t: Text) { t == [] || t == [0x2D] }

  ghost predicate DigitsAre(t: Text) { t != [] && forall k :: 0 <= k < |t| ==> 0x30 <= t[k] <= 0x39 }

  ghost predicate WholeIs(t: Text) { DigitsAre(t) && (t[0] == 0x30 ==> |t| == 1) }

  ghost predicate FractionIs(t: Text) { t == [] || (t[0] == 0x2E && DigitsAre(t[1..])) }

  ghost predicate ExponentIs(t: Text) {
    t == [] || ((t[0] == 0x65 || t[0] == 0x45) && (DigitsAre(t[1..]) || (|t| > 1 && (t[1] == 0x2B || t[1] == 0x2D) && DigitsAre(t[2..]))))
  }

  ghost predicate PartsAre(raw: Text, a: nat, b: nat, c: nat) {
    a <= b <= c <= |raw| && SignIs(raw[..a]) && WholeIs(raw[a..b]) && FractionIs(raw[b..c]) && ExponentIs(raw[c..])
  }

  /** A sign or none, a whole part without leading zeros, a fraction or none, an exponent or none. */
  ghost predicate NumberIs(raw: Text) {
    exists a: nat, b: nat, c: nat :: PartsAre(raw, a, b, c)
  }

  // ---- values ----------------------------------------------------------------------------

  /** `v` stands in `t` from `i` to `j`. */
  ghost predicate ValueIs(t: Text, i: nat, v: JVal, j: nat)
    decreases v, 1
  {
    match v
    case Str(s) => LiteralIs(t, i, s, j)
    case Num(raw) => Stands(t, i, raw) && j == i + |raw| && NumberIs(raw)
    case Bool(b) => Stands(t, i, if b then TRUE_WORD else FALSE_WORD) && j == i + if b then 4 else 5
    case Null => Stands(t, i, NULL_WORD) && j == i + 4
    case Obj(ms) =>
      && IsAt(t, i, 0x7B)
      && if ms == [] then exists k: nat :: Blank(t, i + 1, k) && IsAt(t, k, 0x7D) && j == k + 1 else MembersAre(t, i + 1, ms, 0, j)
    case Arr(es) =>
      && IsAt(t, i, 0x5B)
      && if es == [] then exists k: nat :: Blank(t, i + 1, k) && IsAt(t, k, 0x5D) && j == k + 1 else ElementsAre(t, i + 1, es, 0, j)
  }

  /** White space, a name, white space and a colon, white space and a value. */
  ghost predicate MemberIs(t: Text, i: nat, m: Member, j: nat)
    decreases m, 2
  {
    exists a: nat, b: nat, c: nat, d: nat ::
      Blank(t, i, a) && LiteralIs(t, a, m.name, b) && Blank(t, b, c) && IsAt(t, c, 0x3A) && Blank(t, c + 1, d) && ValueIs(t, d, m.value, j)
  }

  /** The members from the `k`-th on, with commas between and the closing brace. */
  ghost predicate MembersAre(t: Text, i: nat, ms: seq<Member>, k: nat, j: nat)
    requires k < |ms|
    decreases ms, 0, |ms| - k
  {
    exists e: nat, f: nat ::
      MemberIs(t, i, ms[k], e) && Blank(t, e, f)
      && if k + 1 == |ms| then IsAt(t, f, 0x7D) && j == f + 1 else IsAt(t, f, 0x2C) && MembersAre(t, f + 1, ms, k + 1, j)
  }

  /** The elements from the `k`-th on, with commas between and the closing bracket. */
  ghost predicate ElementsAre(t: Text, i: nat, es: seq<JVal>, k: nat, j: nat)
    requires k < |es|
    decreases es, 0, |es| - k
  {
    exists d: nat, e: nat, f: nat ::
      Blank(t, i, d) && ValueIs(t, d, es[k], e) && Blank(t, e, f)
      && if k + 1 == |es| then IsAt(t, f, 0x5D) && j == f + 1 else IsAt(t, f, 0x2C) && ElementsAre(t, f + 1, es, k + 1, j)
  }

  /** A whole text: white space, a value, white space. */
  ghost predicate TextIs(t: Text, v: JVal) {
    exists i: nat, j: nat :: Blank(t, 0, i) && ValueIs(t, i, v, j) && Blank(t, j, |t|)
  }

  // ---- numbers -----------------------------------------------------------------------------

  lemma {:induction false} RunOfDigits(t: Text, n: nat)
    requires n <= |t| && (forall k :: 0 <= k < n ==> 0x30 <= t[k] <= 0x39) && (n == |t| || !IsDigit(t[n]))
    ensures DigitRun(t) == n
    decreases n
  {
    if n > 0 { RunOfDigits(t[1..], n - 1); }
  }

  lemma FractionRead(t: Text, n: nat)
    requires n <= |t| && FractionIs(t[..n]) && (n == |t| || (!IsDigit(t[n]) && t[n] != 0x2E))
    ensures FractionLength(t) == n
  {
    if n > 0 {
      assert t[..n][0] == t[0];
      assert forall k :: 0 <= k < n - 1 ==> t[..n][1..][k] == t[1..][k];
      RunOfDigits(t[1..], n - 1);
    }
  }

  lemma ExponentRead(t: Text)
    requires ExponentIs(t)
    ensures ExponentLength(t) == |t|
  {
    if t != [] {
      if DigitsAre(t[1..]) {
        assert t[1..][0] == t[1];
        RunOfDigits(t[1..], |t| - 1);
      } else {
        RunOfDigits(t[2..], |t| - 2);
      }
    }
  }

  lemma IntegerRead(t: Text, a: nat, b: nat)
    requires a <= b <= |t| && SignIs(t[..a]) && WholeIs(t[a..b]) && (b == |t| || !IsDigit(t[b]))
    ensures IntegerLength(t) == b
  {
    assert t[a..b][0] == t[a];
    if a == 1 { assert t[..1][0] == t[0]; }
    assert forall k :: 0 <= k < b - a ==> t[a..][k] == t[a..b][k];
    RunOfDigits(t[a..], b - a);
    assert a == if t[0] == 0x2D then 1 else 0;
  }

  lemma PartsRead(raw: Text, a: nat, b: nat, c: nat)
    requires PartsAre(raw, a, b, c)
    ensures |raw| > 0 && NumberLength(raw) == |raw|
  {
    NumberParts(raw, a, b, c);
    hide SignIs, WholeIs, FractionIs, ExponentIs, IntegerLength, FractionLength, ExponentLength;
    IntegerRead(raw, a, b);
    FractionRead(raw[b..], c - b);
    assert raw[b..][c - b..] == raw[c..];
    ExponentRead(raw[c..]);
  }

  lemma PartsFound(raw: Text) returns (a: nat, b: nat, c: nat)
    requires |raw| > 0 && NumberLength(raw) == |raw|
    ensures PartsAre(raw, a, b, c)
  {
    hide SignIs, WholeIs, FractionIs, ExponentIs, IntegerLength, FractionLength, ExponentLength;
    b := IntegerLength(raw);
    c := b + FractionLength(raw[b..]);
    a := IntegerParts(raw);
    FractionParts(raw[b..]);
    assert raw[b..][..c - b] == raw[b..c];
    ExponentParts(raw[c..]);
    assert raw[c..][..|raw| - c] == raw[c..];
  }

  /** The parser's number is the grammar's. */
  lemma NumberForms(raw: Text)
    ensures NumberIs(raw) <==> |raw| > 0 && NumberLength(raw) == |raw|
  {
    hide NumberLength;
    if NumberIs(raw) {
      var a: nat, b: nat, c: nat :| PartsAre(raw, a, b, c);
      PartsRead(raw, a, b, c);
    }
    if |raw| > 0 && NumberLength(raw) == |raw| { var a, b, c := PartsFound(raw); }
  }

  lemma NumberParts(raw: Text, a: nat, b: nat, c: nat)
    requires a <= b <= c <= |raw| && SignIs(raw[..a]) && WholeIs(raw[a..b]) && FractionIs(raw[b..c]) && ExponentIs(raw[c..])
    ensures b > 0 && (b == |raw| || !IsDigit(raw[b]))
    ensures raw[b..][..c - b] == raw[b..c] && (c == |raw| || (!IsDigit(raw[c]) && raw[c] != 0x2E))
  {
    if b < c { assert raw[b..c][0] == raw[b]; }
    if c < |raw| { assert raw[c..][0] == raw[c]; }
  }

  lemma IntegerParts(t: Text) returns (a: nat)
    requires IntegerLength(t) > 0
    ensures a <= IntegerLength(t) && SignIs(t[..a]) && WholeIs(t[a..IntegerLength(t)])
  {
    a := if t != [] && t[0] == 0x2D then 1 else 0;
    DigitRunWhole(t[a..]);
    var b := IntegerLength(t);
    assert forall k :: 0 <= k < b - a ==> t[a..b][k] == t[a..][k];
  }

  lemma FractionParts(t: Text)
    ensures FractionIs(t[..FractionLength(t)])
  {
    var n := FractionLength(t);
    if n > 0 {
      DigitRunWhole(t[1..]);
      assert forall k :: 0 <= k < n - 1 ==> t[..n][1..][k] == t[1..][k];
    }
  }

  lemma ExponentParts(t: Text)
    ensures ExponentIs(t[..ExponentLength(t)])
  {
    var n := ExponentLength(t);
    if n > 0 {
      var sign := if |t| > 1 && (t[1] == 0x2B || t[1] == 0x2D) then 1 else 0;
      DigitRunWhole(t[1 + sign..]);
      var part, rest := t[..n][1 + sign..], t[1 + sign..];
      assert part == rest[..n - 1 - sign];
    }
  }

  // ---- strings -----------------------------------------------------------------------------

  lemma HexForms(c: CodeUnit, d: int)
    ensures HexIs(c, d) <==> HexValue(c) == Some(d)
  {
  }

  /** One unit of a string's content, scanned over and decoded. */
  lemma UnitRead(t: Text, i: nat, n: nat, u: CodeUnit, b: Text)
    requires UnitAt(t, i, n, u) && n <= |b| && b[..n] == t[i..i + n] && Decode(b[n..]).Some?
    ensures n > 0 && ScanString(t, i) == ScanString(t, i + n)
    ensures Decode(b) == Some([u] + Decode(b[n..]).value)
  {
    hide ScanString;
    assert forall k :: 0 <= k < n ==> b[k] == b[..n][k] == t[i..i + n][k] == t[i + k];
    if n == 1 {
      ScanPlain(t, i);
    } else {
      ScanEscaped(t, i);
      if n == 6 {
        var w, x, y, z :| DigitsStand(t, i + 2, w, x, y, z) && u == w * 4096 + x * 256 + y * 16 + z;
        HexForms(t[i + 2], w);
        HexForms(t[i + 3], x);
        HexForms(t[i + 4], y);
        HexForms(t[i + 5], z);
        ScanPlain(t, i + 2);
        ScanPlain(t, i + 3);
        ScanPlain(t, i + 4);
        ScanPlain(t, i + 5);
        assert b[2..6][0] == t[i + 2] && b[2..6][1] == t[i + 3] && b[2..6][2] == t[i + 4] && b[2..6][3] == t[i + 5];
      }
    }
  }

  lemma {:induction false} ContentRead(t: Text, i: nat, s: Text, j: nat)
    requires ContentAt(t, i, s, j)
    ensures i < j <= |t| && t[j - 1] == QUOTE && ScanString(t, i) == Some(j - 1) && Decode(t[i..j - 1]) == Some(s)
    decreases |s|
  {
    hide UnitAt, ScanString, Decode;
    if s == [] {
      ScanClose(t, i);
      assert t[i..i] == [];
      assert Decode([]) == Some([]) by { NothingDecoded(); }
    } else {
      var n: nat :| UnitAt(t, i, n, s[0]) && ContentAt(t, i + n, s[1..], j);
      ContentRead(t, i + n, s[1..], j);
      var b := t[i..j - 1];
      assert n <= |b| && b[..n] == t[i..i + n] && b[n..] == t[i + n..j - 1];
      UnitRead(t, i, n, s[0], b);
      assert s == [s[0]] + s[1..];
    }
  }

  lemma NothingDecoded()
    ensures Decode([]) == Some([])
  {
  }

  lemma LiteralRead(t: Text, i: nat, s: Text, j: nat)
    requires LiteralIs(t, i, s, j)
    ensures StringAt(t, i) == Read(s, j)
  {
    hide ContentAt, ScanString, Decode;
    ContentRead(t, i + 1, s, j);
  }

  /** And back: what is scanned and decoded is such content. */
  lemma {:induction false} ContentFound(t: Text, i: nat, j: nat, s: Text)
    requires i <= j < |t| && ScanString(t, i) == Some(j) && Decode(t[i..j]) == Some(s)
    ensures ContentAt(t, i, s, j + 1)
    decreases |t| - i
  {
    hide UnitAt, Decode, ScanString;
    if i == j {
      NothingFound(t, i, s);
    } else {
      var b := t[i..j];
      var n := UnitFound(t, i, j, s);
      assert b[n..] == t[i + n..j];
      ContentFound(t, i + n, j, s[1..]);
      assert UnitAt(t, i, n, s[0]) && ContentAt(t, i + n, s[1..], j + 1);
    }
  }

  lemma NothingFound(t: Text, i: nat, s: Text)
    requires i < |t| && ScanString(t, i) == Some(i) && Decode(t[i..i]) == Some(s)
    ensures ContentAt(t, i, s, i + 1)
  {
    assert t[i..i] == [];
  }

  lemma UnitFound(t: Text, i: nat, j: nat, s: Text) returns (n: nat)
    requires i < j < |t| && ScanString(t, i) == Some(j) && Decode(t[i..j]) == Some(s)
    ensures s != [] && 1 <= n && i + n <= j && UnitAt(t, i, n, s[0])
    ensures ScanString(t, i + n) == Some(j) && Decode(t[i..j][n..]) == Some(s[1..])
  {
    var b := t[i..j];
    assert forall k :: 0 <= k < j - i ==> b[k] == t[i + k];
    assert t[i] != QUOTE;
    if t[i] != BACKSLASH {
      n := 1;
    } else if b[1] != 0x75 {
      n := 2;
    } else {
      n := 6;
      var h := b[2..6];
      assert h[0] == t[i + 2] && h[1] == t[i + 3] && h[2] == t[i + 4] && h[3] == t[i + 5];
      var w, x, y, z := HexValue(h[0]).value, HexValue(h[1]).value, HexValue(h[2]).value, HexValue(h[3]).value;
      HexForms(h[0], w);
      HexForms(h[1], x);
      HexForms(h[2], y);
      HexForms(h[3], z);
      assert DigitsStand(t, i + 2, w, x, y, z);
      hide ScanString;
      ScanEscaped(t, i);
      ScanPlain(t, i + 2);
      ScanPlain(t, i + 3);
      ScanPlain(t, i + 4);
      ScanPlain(t, i + 5);
    }
  }

  // ---- from the grammar to the parser ----------------------------------------------------------

  lemma {:induction false} BlankSkipped(t: Text, i: nat, j: nat)
    requires Blank(t, i, j) && (j == |t| || !IsWs(t[j]))
    ensures SkipWs(t, i) == j
    decreases j - i
  {
    if i < j { BlankSkipped(t, i + 1, j); }
  }

  /** White space, a separator or the end. */
  ghost predicate Follows(t: Text, j: nat) {
    j == |t| || (j < |t| && (IsWs(t[j]) || t[j] == COMMA || t[j] == CLOSE_BRACE || t[j] == CLOSE_BRACKET))
  }

  lemma BlankFollows(t: Text, e: nat, f: nat)
    requires Blank(t, e, f) && (f == |t| || t[f] == COMMA || t[f] == CLOSE_BRACE || t[f] == CLOSE_BRACKET)
    ensures Follows(t, e) && SkipWs(t, e) == f
  {
    BlankSkipped(t, e, f);
  }

  lemma NumberStands(t: Text, i: nat, raw: Text)
    requires NumberIs(raw) && Stands(t, i, raw) && Follows(t, i + |raw|)
    ensures LiteralAt(t, i) == Read(Num(raw), i + |raw|)
    ensures t[i] == 0x2D || IsDigit(t[i])
  {
    NumberForms(raw);
    hide NumberLength;
    NumberFirst(raw);
    var rest := t[i + |raw|..];
    var u := t[i..];
    assert u == raw + rest;
    NumberAppend(raw, rest);
    assert u[..|raw|] == raw;
    assert u[0] == raw[0] == t[i];
    assert !(TRUE_WORD <= u) && !(FALSE_WORD <= u) && !(NULL_WORD <= u);
  }

  lemma WordStands(t: Text, i: nat, v: JVal, j: nat)
    requires (v.Bool? || v.Null?) && ValueIs(t, i, v, j)
    ensures LiteralAt(t, i) == Read(v, j) && i < |t| && !IsWs(t[i])
    ensures t[i] != OPEN_BRACE && t[i] != OPEN_BRACKET && t[i] != QUOTE
  {
    hide NumberLength;
    var word := if v.Null? then NULL_WORD else if v.b then TRUE_WORD else FALSE_WORD;
    var u := t[i..];
    assert u == word + t[i + |word|..];
    assert word <= u && u[0] == word[0] == t[i];
  }

  lemma {:induction false} ValueRead(t: Text, i0: nat, i: nat, v: JVal, j: nat, depth: nat)
    requires Blank(t, i0, i) && ValueIs(t, i, v, j) && Printable(v, depth) && Follows(t, j)
    ensures ValueAt(t, i0, depth, true) == Read(v, j)
    decreases v, 1
  {
    hide LiteralAt, StringAt, SkipWs, MembersAt, ElementsAt, MembersAre, ElementsAre, LiteralIs, NumberIs;
    match v {
      case Obj(ms) => ObjectRead(t, i0, i, ms, j, depth);
      case Arr(es) => ArrayRead(t, i0, i, es, j, depth);
      case Str(s) =>
        LiteralRead(t, i, s, j);
        assert t[i] == QUOTE by { LiteralQuote(t, i, s, j); }
        BlankSkipped(t, i0, i);
      case Num(raw) =>
        assert |raw| > 0 by { NumberForms(raw); }
        NumberStands(t, i, raw);
        BlankSkipped(t, i0, i);
      case _ =>
        WordStands(t, i, v, j);
        BlankSkipped(t, i0, i);
    }
  }

  lemma LiteralQuote(t: Text, i: nat, s: Text, j: nat)
    requires LiteralIs(t, i, s, j)
    ensures i < |t| && t[i] == QUOTE
  {
  }

  lemma {:induction false} ObjectRead(t: Text, i0: nat, i: nat, ms: seq<Member>, j: nat, depth: nat)
    requires Blank(t, i0, i) && ValueIs(t, i, Obj(ms), j) && Printable(Obj(ms), depth)
    ensures ValueAt(t, i0, depth, true) == Read(Obj(ms), j)
    decreases Obj(ms), 0
  {
    hide SkipWs, MembersAt, MembersAre, Blank;
    BlankSkipped(t, i0, i);
    PrintableNumbers(Obj(ms), depth);
    if ms == [] {
      var k: nat :| Blank(t, i + 1, k) && IsAt(t, k, 0x7D) && j == k + 1;
      BlankSkipped(t, i + 1, k);
    } else {
      assert ms[..0] == [];
      var k := MembersStart(t, i + 1, ms, j);
      BlankSkipped(t, i + 1, k);
      SkippedMembers(t, i + 1, depth, []);
      MembersRead(t, i + 1, ms, 0, j, depth);
    }
  }

  /** Where the first name is. */
  lemma MembersStart(t: Text, i: nat, ms: seq<Member>, j: nat) returns (k: nat)
    requires ms != [] && MembersAre(t, i, ms, 0, j)
    ensures Blank(t, i, k) && IsAt(t, k, QUOTE)
  {
    hide ContentAt, ValueIs;
    var e: nat, f: nat :| MemberIs(t, i, ms[0], e) && Blank(t, e, f)
      && if 1 == |ms| then IsAt(t, f, 0x7D) && j == f + 1 else IsAt(t, f, 0x2C) && MembersAre(t, f + 1, ms, 1, j);
    k := MemberStart(t, i, ms[0], e);
  }

  lemma MemberStart(t: Text, i: nat, m: Member, e: nat) returns (a: nat)
    requires MemberIs(t, i, m, e)
    ensures Blank(t, i, a) && IsAt(t, a, QUOTE)
  {
    hide ContentAt, ValueIs, Blank;
    var a': nat, b: nat, c: nat, d: nat :|
      Blank(t, i, a') && LiteralIs(t, a', m.name, b) && Blank(t, b, c) && IsAt(t, c, 0x3A) && Blank(t, c + 1, d) && ValueIs(t, d, m.value, e);
    a := a';
  }

  lemma SkipTwice(t: Text, i: nat)
    requires i <= |t|
    ensures SkipWs(t, SkipWs(t, i)) == SkipWs(t, i)
  {
    var j := SkipWs(t, i);
    if j < |t| { NoWs(t, j); }
  }

  lemma SkippedMembers(t: Text, i: nat, depth: nat, acc: seq<Member>)
    requires i <= |t|
    ensures MembersAt(t, SkipWs(t, i), depth, acc, true) == MembersAt(t, i, depth, acc, true)
  {
    hide StringAt, ValueAt;
    SkipTwice(t, i);
    assert MemberAt(t, SkipWs(t, i), depth, true) == MemberAt(t, i, depth, true);
  }

  lemma SkippedElements(t: Text, i: nat, depth: nat, acc: seq<JVal>)
    requires i <= |t|
    ensures ElementsAt(t, SkipWs(t, i), depth, acc, true) == ElementsAt(t, i, depth, acc, true)
  {
    hide StringAt, MembersAt, LiteralAt;
    SkipTwice(t, i);
    assert ValueAt(t, SkipWs(t, i), depth + 1, true) == ValueAt(t, i, depth + 1, true);
  }

  lemma {:induction false} MemberRead(t: Text, i: nat, m: Member, e: nat, depth: nat)
    requires MemberIs(t, i, m, e) && Printable(m.value, depth + 1) && Follows(t, e)
    ensures MemberAt(t, i, depth, true) == Read(m, e)
    decreases m, 1
  {
    hide SkipWs, StringAt, ValueAt, ValueIs, LiteralIs, Blank, Printable;
    var a: nat, b: nat, c: nat, d: nat :|
      Blank(t, i, a) && LiteralIs(t, a, m.name, b) && Blank(t, b, c) && IsAt(t, c, 0x3A) && Blank(t, c + 1, d) && ValueIs(t, d, m.value, e);
    LiteralQuote(t, a, m.name, b);
    BlankSkipped(t, i, a);
    LiteralRead(t, a, m.name, b);
    BlankSkipped(t, b, c);
    ValueRead(t, c + 1, d, m.value, e, depth + 1);
    BlankIn(t, i, a);
  }

  lemma BlankIn(t: Text, i: nat, j: nat)
    requires Blank(t, i, j)
    ensures i <= j <= |t|
  {
  }

  lemma {:induction false} MembersRead(t: Text, i: nat, ms: seq<Member>, k: nat, j: nat, depth: nat)
    requires k < |ms| && Printable(Obj(ms), depth) && MembersAre(t, i, ms, k, j)
    ensures i <= |t| && MembersAt(t, i, depth, ms[..k], true) == Read(Obj(ms), j)
    decreases ms, 0, |ms| - k
  {
    hide MembersAt, MemberAt, MemberIs, Printable, HasName, Blank, SkipWs;
    var e: nat, f: nat :| MemberIs(t, i, ms[k], e) && Blank(t, e, f)
      && if k + 1 == |ms| then IsAt(t, f, 0x7D) && j == f + 1 else IsAt(t, f, 0x2C) && MembersAre(t, f + 1, ms, k + 1, j);
    var m := ms[k];
    PrintableMember(ms, k, depth);
    BlankFollows(t, e, f);
    MemberRead(t, i, m, e, depth);
    var a := MemberStart(t, i, m, e);
    BlankIn(t, i, a);
    BlankIn(t, e, f);
    assert ms[..k] + [m] == ms[..k + 1];
    if k + 1 == |ms| {
      assert ms[..k + 1] == ms;
      LastMember(t, i, depth, ms[..k], m, e, f);
    } else {
      NextMember(t, i, depth, ms[..k], m, e, f);
      MembersRead(t, f + 1, ms, k + 1, j, depth);
    }
  }

  lemma LastMember(t: Text, i: nat, depth: nat, acc: seq<Member>, m: Member, e: nat, f: nat)
    requires i <= |t| && e <= |t| && MemberAt(t, i, depth, true) == Read(m, e) && !HasName(acc, m.name)
    requires SkipWs(t, e) == f && IsAt(t, f, CLOSE_BRACE)
    ensures MembersAt(t, i, depth, acc, true) == Read(Obj(acc + [m]), f + 1)
  {
    hide MemberAt, HasName, SkipWs;
  }

  lemma NextMember(t: Text, i: nat, depth: nat, acc: seq<Member>, m: Member, e: nat, f: nat)
    requires i <= |t| && e <= |t| && MemberAt(t, i, depth, true) == Read(m, e) && !HasName(acc, m.name)
    requires SkipWs(t, e) == f && IsAt(t, f, COMMA)
    ensures MembersAt(t, i, depth, acc, true) == MembersAt(t, f + 1, depth, acc + [m], true)
  {
    hide MemberAt, HasName, SkipWs;
  }

  /** A value's first code unit. */
  lemma ValueStart(t: Text, i: nat, v: JVal, j: nat)
    requires ValueIs(t, i, v, j)
    ensures i < |t| && !IsWs(t[i]) && t[i] != CLOSE_BRACKET && t[i] != CLOSE_BRACE
  {
    hide MembersAre, ElementsAre, ContentAt, NumberIs;
    match v {
      case Num(raw) =>
        NumberForms(raw);
        NumberFirst(raw);
        StandsFirst(t, i, raw);
      case Bool(b) => StandsFirst(t, i, if b then TRUE_WORD else FALSE_WORD);
      case Null => StandsFirst(t, i, NULL_WORD);
      case _ =>
    }
  }

  lemma {:induction false} ArrayRead(t: Text, i0: nat, i: nat, es: seq<JVal>, j: nat, depth: nat)
    requires Blank(t, i0, i) && ValueIs(t, i, Arr(es), j) && Printable(Arr(es), depth)
    ensures ValueAt(t, i0, depth, true) == Read(Arr(es), j)
    decreases Arr(es), 0
  {
    hide SkipWs, ElementsAt, ElementsAre, Blank;
    BlankSkipped(t, i0, i);
    PrintableNumbers(Arr(es), depth);
    if es == [] {
      var k: nat :| Blank(t, i + 1, k) && IsAt(t, k, 0x5D) && j == k + 1;
      BlankSkipped(t, i + 1, k);
    } else {
      assert es[..0] == [];
      var d := ElementsStart(t, i + 1, es, j);
      BlankSkipped(t, i + 1, d);
      SkippedElements(t, i + 1, depth, []);
      ElementsRead(t, i + 1, es, 0, j, depth);
    }
  }

  lemma ElementsStart(t: Text, i: nat, es: seq<JVal>, j: nat) returns (d: nat)
    requires es != [] && ElementsAre(t, i, es, 0, j)
    ensures Blank(t, i, d) && d < |t| && !IsWs(t[d]) && t[d] != CLOSE_BRACKET
  {
    hide ValueIs, Blank;
    var d': nat, e: nat, f: nat :| Blank(t, i, d') && ValueIs(t, d', es[0], e) && Blank(t, e, f)
      && if 1 == |es| then IsAt(t, f, 0x5D) && j == f + 1 else IsAt(t, f, 0x2C) && ElementsAre(t, f + 1, es, 1, j);
    ValueStart(t, d', es[0], e);
    d := d';
  }

  lemma {:induction false} ElementsRead(t: Text, i: nat, es: seq<JVal>, k: nat, j: nat, depth: nat)
    requires k < |es| && Printable(Arr(es), depth) && ElementsAre(t, i, es, k, j)
    ensures i <= |t| && ElementsAt(t, i, depth, es[..k], true) == Read(Arr(es), j)
    decreases es, 0, |es| - k
  {
    hide ElementsAt, ValueAt, ValueIs, Printable, Blank, SkipWs;
    var d: nat, e: nat, f: nat :| Blank(t, i, d) && ValueIs(t, d, es[k], e) && Blank(t, e, f)
      && if k + 1 == |es| then IsAt(t, f, 0x5D) && j == f + 1 else IsAt(t, f, 0x2C) && ElementsAre(t, f + 1, es, k + 1, j);
    var v := es[k];
    PrintableElement(es, k, depth);
    BlankFollows(t, e, f);
    ValueRead(t, i, d, v, e, depth + 1);
    BlankIn(t, i, d);
    BlankIn(t, e, f);
    assert es[..k] + [v] == es[..k + 1];
    if k + 1 == |es| {
      assert es[..k + 1] == es;
      LastElement(t, i, depth, es[..k], v, e, f);
    } else {
      NextElement(t, i, depth, es[..k], v, e, f);
      ElementsRead(t, f + 1, es, k + 1, j, depth);
    }
  }

  lemma LastElement(t: Text, i: nat, depth: nat, acc: seq<JVal>, v: JVal, e: nat, f: nat)
    requires i <= |t| && e <= |t| && ValueAt(t, i, depth + 1, true) == Read(v, e) && SkipWs(t, e) == f && IsAt(t, f, CLOSE_BRACKET)
    ensures ElementsAt(t, i, depth, acc, true) == Read(Arr(acc + [v]), f + 1)
  {
    hide ValueAt, SkipWs;
  }

  lemma NextElement(t: Text, i: nat, depth: nat, acc: seq<JVal>, v: JVal, e: nat, f: nat)
    requires i <= |t| && e <= |t| && ValueAt(t, i, depth + 1, true) == Read(v, e) && SkipWs(t, e) == f && IsAt(t, f, COMMA)
    ensures ElementsAt(t, i, depth, acc, true) == ElementsAt(t, f + 1, depth, acc + [v], true)
  {
    hide ValueAt, SkipWs;
  }

  // ---- from the parser to the grammar ----------------------------------------------------------

  lemma SkippedIsBlank(t: Text, i: nat)
    requires i <= |t|
    ensures Blank(t, i, SkipWs(t, i))
  {
  }

  lemma StringFound(t: Text, i: nat)
    requires i <= |t| && StringAt(t, i).Read?
    ensures LiteralIs(t, i, StringAt(t, i).value, StringAt(t, i).next)
  {
    hide ContentAt, ScanString, Decode;
    var r := StringAt(t, i);
    ContentFound(t, i + 1, r.next - 1, r.value);
  }

  lemma LiteralFound(t: Text, i: nat)
    requires i <= |t| && LiteralAt(t, i).Read?
    ensures ValueIs(t, i, LiteralAt(t, i).value, LiteralAt(t, i).next)
  {
    hide NumberLength;
    var u := t[i..];
    if TRUE_WORD <= u {
      assert t[i..i + 4] == u[..4];
    } else if FALSE_WORD <= u {
      assert t[i..i + 5] == u[..5];
    } else if NULL_WORD <= u {
      assert t[i..i + 4] == u[..4];
    } else {
      var n := NumberLength(u);
      ReadsNumber(u);
      NumberForms(u[..n]);
      assert t[i..i + n] == u[..n];
    }
  }

  lemma {:induction false} ValueFound(t: Text, i: nat, depth: nat)
    requires i <= |t| && ValueAt(t, i, depth, true).Read?
    ensures var r := ValueAt(t, i, depth, true); Blank(t, i, SkipWs(t, i)) && ValueIs(t, SkipWs(t, i), r.value, r.next)
    decreases |t| - i, 0
  {
    hide LiteralAt, StringAt, SkipWs, MembersAt, ElementsAt, MembersAre, ElementsAre, LiteralIs, Blank, NumberIs;
    SkippedIsBlank(t, i);
    var j := SkipWs(t, i);
    if t[j] == OPEN_BRACE {
      SkippedIsBlank(t, j + 1);
      var k := SkipWs(t, j + 1);
      if k < |t| && t[k] == CLOSE_BRACE {
        assert Blank(t, j + 1, k) && IsAt(t, k, 0x7D);
      } else {
        MembersFound(t, k, depth, []);
        MembersEarlier(t, j + 1, k, ValueAt(t, i, depth, true).value.members, ValueAt(t, i, depth, true).next);
      }
    } else if t[j] == OPEN_BRACKET {
      SkippedIsBlank(t, j + 1);
      var k := SkipWs(t, j + 1);
      if k < |t| && t[k] == CLOSE_BRACKET {
        assert Blank(t, j + 1, k) && IsAt(t, k, 0x5D);
      } else {
        ElementsFound(t, k, depth, []);
        ElementsEarlier(t, j + 1, k, ValueAt(t, i, depth, true).value.elems, ValueAt(t, i, depth, true).next);
      }
    } else if t[j] == QUOTE {
      StringFound(t, j);
    } else {
      LiteralFound(t, j);
    }
  }

  lemma BlankTwice(t: Text, i: nat, j: nat, k: nat)
    requires Blank(t, i, j) && Blank(t, j, k)
    ensures Blank(t, i, k)
  {
  }

  lemma MembersEarlier(t: Text, i: nat, k: nat, ms: seq<Member>, j: nat)
    requires Blank(t, i, k) && ms != [] && MembersAre(t, k, ms, 0, j)
    ensures MembersAre(t, i, ms, 0, j)
  {
    hide Blank, MemberIs;
    var e: nat, f: nat :| MemberIs(t, k, ms[0], e) && Blank(t, e, f)
      && if 1 == |ms| then IsAt(t, f, 0x7D) && j == f + 1 else IsAt(t, f, 0x2C) && MembersAre(t, f + 1, ms, 1, j);
    MemberEarlier(t, i, k, ms[0], e);
  }

  lemma MemberEarlier(t: Text, i: nat, k: nat, m: Member, e: nat)
    requires Blank(t, i, k) && MemberIs(t, k, m, e)
    ensures MemberIs(t, i, m, e)
  {
    hide Blank, ValueIs, LiteralIs;
    var a: nat, b: nat, c: nat, d: nat :|
      Blank(t, k, a) && LiteralIs(t, a, m.name, b) && Blank(t, b, c) && IsAt(t, c, 0x3A) && Blank(t, c + 1, d) && ValueIs(t, d, m.value, e);
    BlankTwice(t, i, k, a);
  }

  lemma ElementsEarlier(t: Text, i: nat, k: nat, es: seq<JVal>, j: nat)
    requires Blank(t, i, k) && es != [] && ElementsAre(t, k, es, 0, j)
    ensures ElementsAre(t, i, es, 0, j)
  {
    hide Blank, ValueIs;
    var d: nat, e: nat, f: nat :| Blank(t, k, d) && ValueIs(t, d, es[0], e) && Blank(t, e, f)
      && if 1 == |es| then IsAt(t, f, 0x5D) && j == f + 1 else IsAt(t, f, 0x2C) && ElementsAre(t, f + 1, es, 1, j);
    BlankTwice(t, i, k, d);
  }

  lemma {:induction false} MemberFound(t: Text, i: nat, depth: nat)
    requires i <= |t| && MemberAt(t, i, depth, true).Read?
    ensures MemberIs(t, i, MemberAt(t, i, depth, true).value, MemberAt(t, i, depth, true).next)
    decreases |t| - i, 1
  {
    hide SkipWs, StringAt, ValueAt, ValueIs, LiteralIs, Blank;
    var a := SkipWs(t, i);
    SkippedIsBlank(t, i);
    StringFound(t, a);
    var b := StringAt(t, a).next;
    SkippedIsBlank(t, b);
    var c := SkipWs(t, b);
    ValueFound(t, c + 1, depth + 1);
    assert IsAt(t, c, 0x3A);
  }

  lemma {:induction false} MembersFound(t: Text, i: nat, depth: nat, acc: seq<Member>)
    requires i <= |t| && MembersAt(t, i, depth, acc, true).Read?
    ensures var r := MembersAt(t, i, depth, acc, true);
            r.value.Obj? && |acc| < |r.value.members| && r.value.members[..|acc|] == acc && MembersAre(t, i, r.value.members, |acc|, r.next)
    decreases |t| - i, 2
  {
    hide SkipWs, MemberAt, MemberIs, HasName, Blank;
    var m := MemberAt(t, i, depth, true);
    MemberFound(t, i, depth);
    SkippedIsBlank(t, m.next);
    var f := SkipWs(t, m.next);
    var all := acc + [m.value];
    if t[f] == COMMA {
      MembersFound(t, f + 1, depth, all);
      var r := MembersAt(t, f + 1, depth, all, true);
      assert r.value.members[|acc|] == r.value.members[..|all|][|acc|] == m.value;
      assert r.value.members[..|acc|] == r.value.members[..|all|][..|acc|] == acc;
      assert IsAt(t, f, 0x2C);
    } else {
      assert all[..|acc|] == acc && all[|acc|] == m.value;
      assert IsAt(t, f, 0x7D);
    }
  }

  lemma {:induction false} ElementsFound(t: Text, i: nat, depth: nat, acc: seq<JVal>)
    requires i <= |t| && ElementsAt(t, i, depth, acc, true).Read?
    ensures var r := ElementsAt(t, i, depth, acc, true);
            r.value.Arr? && |acc| < |r.value.elems| && r.value.elems[..|acc|] == acc && ElementsAre(t, i, r.value.elems, |acc|, r.next)
    decreases |t| - i, 1
  {
    hide SkipWs, ValueAt, ValueIs, Blank;
    var v := ValueAt(t, i, depth + 1, true);
    ValueFound(t, i, depth + 1);
    SkippedIsBlank(t, v.next);
    var f := SkipWs(t, v.next);
    var all := acc + [v.value];
    if t[f] == COMMA {
      ElementsFound(t, f + 1, depth, all);
      var r := ElementsAt(t, f + 1, depth, all, true);
      assert r.value.elems[|acc|] == r.value.elems[..|all|][|acc|] == v.value;
      assert r.value.elems[..|acc|] == r.value.elems[..|all|][..|acc|] == acc;
      assert IsAt(t, f, 0x2C);
    } else {
      assert all[..|acc|] == acc && all[|acc|] == v.value;
      assert IsAt(t, f, 0x5D);
    }
  }

  // ---- whole texts ----------------------------------------------------------------------------

  lemma {:induction false} NumbersAreNumbers(t: Text, i: nat, v: JVal, j: nat)
    requires ValueIs(t, i, v, j)
    ensures ValidNumbers(v)
    decreases v, 1
  {
    hide MembersAre, ElementsAre, NumberIs, LiteralIs, NumberLength;
    match v {
      case Obj(ms) => if ms != [] { MemberNumbers(t, i + 1, ms, 0, j); }
      case Arr(es) => if es != [] { ElementNumbers(t, i + 1, es, 0, j); }
      case Num(raw) => NumberForms(raw);
      case _ =>
    }
  }

  lemma {:induction false} MemberNumbers(t: Text, i: nat, ms: seq<Member>, k: nat, j: nat)
    requires k < |ms| && MembersAre(t, i, ms, k, j)
    ensures forall n :: k <= n < |ms| ==> ValidNumbers(ms[n].value)
    decreases ms, 0, |ms| - k
  {
    hide MemberIs, Blank, ValidNumbers;
    var e: nat, f: nat :| MemberIs(t, i, ms[k], e) && Blank(t, e, f)
      && if k + 1 == |ms| then IsAt(t, f, 0x7D) && j == f + 1 else IsAt(t, f, 0x2C) && MembersAre(t, f + 1, ms, k + 1, j);
    MemberNumber(t, i, ms[k], e);
    if k + 1 < |ms| { MemberNumbers(t, f + 1, ms, k + 1, j); }
  }

  lemma {:induction false} MemberNumber(t: Text, i: nat, m: Member, e: nat)
    requires MemberIs(t, i, m, e)
    ensures ValidNumbers(m.value)
    decreases m, 1
  {
    hide ValueIs, Blank, LiteralIs, ValidNumbers;
    var a: nat, b: nat, c: nat, d: nat :|
      Blank(t, i, a) && LiteralIs(t, a, m.name, b) && Blank(t, b, c) && IsAt(t, c, 0x3A) && Blank(t, c + 1, d) && ValueIs(t, d, m.value, e);
    NumbersAreNumbers(t, d, m.value, e);
  }

  lemma {:induction false} ElementNumbers(t: Text, i: nat, es: seq<JVal>, k: nat, j: nat)
    requires k < |es| && ElementsAre(t, i, es, k, j)
    ensures forall n :: k <= n < |es| ==> ValidNumbers(es[n])
    decreases es, 0, |es| - k
  {
    hide ValueIs, Blank, ValidNumbers;
    var d: nat, e: nat, f: nat :| Blank(t, i, d) && ValueIs(t, d, es[k], e) && Blank(t, e, f)
      && if k + 1 == |es| then IsAt(t, f, 0x5D) && j == f + 1 else IsAt(t, f, 0x2C) && ElementsAre(t, f + 1, es, k + 1, j);
    NumbersAreNumbers(t, d, es[k], e);
    if k + 1 < |es| { ElementNumbers(t, f + 1, es, k + 1, j); }
  }

  /**
   * The strict parser reads a value from a text if and only if the text is the
   * value's by the grammar, no object in it repeats a name, and it nests at
   * most 64 deep.
   */
  lemma StrictReadsTheGrammar(t: Text, v: JVal)
    ensures Parse(t, true) == Some(v) <==> TextIs(t, v) && NoDuplicates(v) && NestedAtMost(v, 64)
  {
    hide ValueAt, ValueIs, Blank, SkipWs;
    if Parse(t, true) == Some(v) {
      ValueFound(t, 0, 0);
      SkippedIsBlank(t, ValueAt(t, 0, 0, true).next);
      AcceptedValue(t, 0, 0);
    }
    if TextIs(t, v) && NoDuplicates(v) && NestedAtMost(v, 64) {
      var i: nat, j: nat :| Blank(t, 0, i) && ValueIs(t, i, v, j) && Blank(t, j, |t|);
      NumbersAreNumbers(t, i, v, j);
      BlankFollows(t, j, |t|);
      BlankIn(t, j, |t|);
      ValueRead(t, 0, i, v, j, 0);
    }
  }
}
