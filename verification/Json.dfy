/**
 * Strict JSON as lambda/shared/keypolicy.ts reads it: values keep their raw
 * form and an object with a repeated member name is refused.
 *
 * Text is a sequence of UTF-16 code units, as a JavaScript string is. The
 * functions below specify the cursor parser of `Parser` (StrictParser.dfy);
 * `strict` chooses whether repeated names are refused, so that the lenient
 * parser is the reference the strict one is compared with.
 */
module Json {
  import opened Wrappers

  type CodeUnit = u: int | 0 <= u < 0x1_0000
  type Text = seq<CodeUnit>

  datatype Member = Member(name: Text, value: JVal)

  /** Object members keep their order, as a JavaScript Map does. */
  datatype JVal =
    | Obj(members: seq<Member>)
    | Arr(elems: seq<JVal>)
    | Str(s: Text)
    | Num(raw: Text)
    | Bool(b: bool)
    | Null

  const MAX_DEPTH := 64

  const QUOTE: CodeUnit := 0x22
  const BACKSLASH: CodeUnit := 0x5C
  const COMMA: CodeUnit := 0x2C
  const COLON: CodeUnit := 0x3A
  const OPEN_BRACE: CodeUnit := 0x7B
  const CLOSE_BRACE: CodeUnit := 0x7D
  const OPEN_BRACKET: CodeUnit := 0x5B
  const CLOSE_BRACKET: CodeUnit := 0x5D

  const TRUE_WORD: Text := [0x74, 0x72, 0x75, 0x65]
  const FALSE_WORD: Text := [0x66, 0x61, 0x6C, 0x73, 0x65]
  const NULL_WORD: Text := [0x6E, 0x75, 0x6C, 0x6C]

  // ---- tokens ------------------------------------------------------------

  predicate IsWs(u: CodeUnit) {
    u == 0x20 || u == 0x09 || u == 0x0A || u == 0x0D
  }

  predicate IsDigit(u: CodeUnit) {
    0x30 <= u <= 0x39
  }

  /** The position of the first code unit at or after `i` that is not white space. */
  function SkipWs(t: Text, i: nat): (j: nat)
    requires i <= |t|
    ensures i <= j <= |t|
    ensures j < |t| ==> !IsWs(t[j])
    ensures forall k :: i <= k < j ==> IsWs(t[k])
    decreases |t| - i
  {
    if i < |t| && IsWs(t[i]) then SkipWs(t, i + 1) else i
  }

  /** The closing quote of a string literal whose content starts at `i`. */
  function ScanString(t: Text, i: nat): (r: Option<nat>)
    requires i <= |t|
    ensures r.Some? ==> i <= r.value < |t| && t[r.value] == QUOTE
    decreases |t| - i
  {
    if i == |t| then None
    else if t[i] == QUOTE then Some(i)
    else if t[i] < 0x20 then None
    else if t[i] == BACKSLASH then (if i + 2 > |t| then None else ScanString(t, i + 2))
    else ScanString(t, i + 1)
  }

  function HexValue(u: CodeUnit): (r: Option<nat>)
    ensures r.Some? ==> r.value < 16
  {
    if 0x30 <= u <= 0x39 then Some(u - 0x30)
    else if 0x61 <= u <= 0x66 then Some(u - 0x61 + 10)
    else if 0x41 <= u <= 0x46 then Some(u - 0x41 + 10)
    else None
  }

  /** Four hexadecimal digits as one code unit. */
  function Hex4(h: Text): (r: Option<CodeUnit>)
    requires |h| == 4
  {
    var a, b, c, d := HexValue(h[0]), HexValue(h[1]), HexValue(h[2]), HexValue(h[3]);
    if a.Some? && b.Some? && c.Some? && d.Some?
    then Some(((a.value * 16 + b.value) * 16 + c.value) * 16 + d.value)
    else None
  }

  /** The two-character escapes of RFC 8259 section 7. */
  function SimpleEscape(u: CodeUnit): Option<CodeUnit> {
    if u == QUOTE || u == BACKSLASH || u == 0x2F then Some(u)
    else if u == 0x62 then Some(0x08)
    else if u == 0x66 then Some(0x0C)
    else if u == 0x6E then Some(0x0A)
    else if u == 0x72 then Some(0x0D)
    else if u == 0x74 then Some(0x09)
    else None
  }

  /** What JSON.parse makes of a string literal with this content. */
  function Decode(b: Text): Option<Text>
    decreases |b|
  {
    if b == [] then Some([])
    else if b[0] == BACKSLASH then
      if |b| < 2 then None
      else if b[1] == 0x75 then
        if |b| < 6 then None
        else
          var u := Hex4(b[2..6]);
          var rest := Decode(b[6..]);
          if u.Some? && rest.Some? then Some([u.value] + rest.value) else None
      else
        var u := SimpleEscape(b[1]);
        var rest := Decode(b[2..]);
        if u.Some? && rest.Some? then Some([u.value] + rest.value) else None
    else if b[0] < 0x20 || b[0] == QUOTE then None
    else
      var rest := Decode(b[1..]);
      if rest.Some? then Some([b[0]] + rest.value) else None
  }

  /** What a parse step read and where it stopped, or nothing. */
  datatype Reading<T> = Failed | Read(value: T, next: nat)

  function StringAt(t: Text, i: nat): (r: Reading<Text>)
    requires i <= |t|
    ensures r.Read? ==> i < r.next <= |t|
  {
    if i == |t| || t[i] != QUOTE then Failed
    else
      var close := ScanString(t, i + 1);
      if close.None? then Failed
      else
        var s := Decode(t[i + 1..close.value]);
        if s.None? then Failed else Read(s.value, close.value + 1)
  }

  function DigitRun(u: Text): (n: nat)
    ensures n <= |u|
  {
    if u != [] && IsDigit(u[0]) then 1 + DigitRun(u[1..]) else 0
  }

  /** Length of the fraction `\.\d+` at the start of `u`, 0 if there is none. */
  function FractionLength(u: Text): (n: nat)
    ensures n <= |u|
  {
    if u == [] || u[0] != 0x2E then 0
    else
      var d := DigitRun(u[1..]);
      if d == 0 then 0 else 1 + d
  }

  /** Length of the exponent `[eE][+-]?\d+` at the start of `u`, 0 if there is none. */
  function ExponentLength(u: Text): (n: nat)
    ensures n <= |u|
  {
    if u == [] || (u[0] != 0x65 && u[0] != 0x45) then 0
    else
      var sign := if |u| > 1 && (u[1] == 0x2B || u[1] == 0x2D) then 1 else 0;
      var d := DigitRun(u[1 + sign..]);
      if d == 0 then 0 else 1 + sign + d
  }

  /** Length of the integer part `-?(0|[1-9]\d*)` at the start of `u`, 0 if there is none. */
  function IntegerLength(u: Text): (n: nat)
    ensures n <= |u|
  {
    var sign := if u != [] && u[0] == 0x2D then 1 else 0;
    var rest := u[sign..];
    if rest == [] || !IsDigit(rest[0]) then 0
    else if rest[0] == 0x30 then sign + 1
    else sign + DigitRun(rest)
  }

  /** Length of the longest JSON number at the start of `u`, 0 if there is none. */
  function NumberLength(u: Text): (n: nat)
    ensures n <= |u|
  {
    var a := IntegerLength(u);
    if a == 0 then 0
    else
      var b := a + FractionLength(u[a..]);
      b + ExponentLength(u[b..])
  }

  /** true, false, null or a number: the regular expression of the source, on the rest of the text. */
  function LiteralAt(t: Text, i: nat): (r: Reading<JVal>)
    requires i <= |t|
    ensures r.Read? ==> i < r.next <= |t|
    ensures r.Read? ==> r.value.Bool? || r.value.Null? || r.value.Num?
  {
    var u := t[i..];
    if TRUE_WORD <= u then Read(Bool(true), i + 4)
    else if FALSE_WORD <= u then Read(Bool(false), i + 5)
    else if NULL_WORD <= u then Read(Null, i + 4)
    else
      var n := NumberLength(u);
      if n == 0 then Failed else Read(Num(u[..n]), i + n)
  }

  // ---- values ------------------------------------------------------------

  predicate HasName(ms: seq<Member>, name: Text) {
    exists k :: 0 <= k < |ms| && ms[k].name == name
  }

  function ValueAt(t: Text, i: nat, depth: nat, strict: bool): (r: Reading<JVal>)
    requires i <= |t|
    ensures r.Read? ==> i < r.next <= |t|
    decreases |t| - i, 0
  {
    if depth > MAX_DEPTH then Failed
    else
      var j := SkipWs(t, i);
      if j == |t| then Failed
      else if t[j] == OPEN_BRACE then
        var k := SkipWs(t, j + 1);
        if k < |t| && t[k] == CLOSE_BRACE then Read(Obj([]), k + 1)
        else MembersAt(t, k, depth, [], strict)
      else if t[j] == OPEN_BRACKET then
        var k := SkipWs(t, j + 1);
        if k < |t| && t[k] == CLOSE_BRACKET then Read(Arr([]), k + 1)
        else ElementsAt(t, k, depth, [], strict)
      else if t[j] == QUOTE then
        var s := StringAt(t, j);
        if s.Failed? then Failed else Read(Str(s.value), s.next)
      else LiteralAt(t, j)
  }

  /** One member of an object: its name, a colon and its value. */
  function MemberAt(t: Text, i: nat, depth: nat, strict: bool): (r: Reading<Member>)
    requires i <= |t|
    ensures r.Read? ==> i < r.next <= |t|
    decreases |t| - i, 1
  {
    var name := StringAt(t, SkipWs(t, i));
    if name.Failed? then Failed
    else
      var colon := SkipWs(t, name.next);
      if colon == |t| || t[colon] != COLON then Failed
      else
        var v := ValueAt(t, colon + 1, depth + 1, strict);
        if v.Failed? then Failed else Read(Member(name.value, v.value), v.next)
  }

  /** The members of an object from `i` to its closing brace, after those in `acc`. */
  function MembersAt(t: Text, i: nat, depth: nat, acc: seq<Member>, strict: bool): (r: Reading<JVal>)
    requires i <= |t|
    ensures r.Read? ==> i < r.next <= |t|
    decreases |t| - i, 2
  {
    var m := MemberAt(t, i, depth, strict);
    if m.Failed? || (strict && HasName(acc, m.value.name)) then Failed
    else
      var all := acc + [m.value];
      var j := SkipWs(t, m.next);
      if j == |t| then Failed
      else if t[j] == COMMA then MembersAt(t, j + 1, depth, all, strict)
      else if t[j] == CLOSE_BRACE then Read(Obj(all), j + 1)
      else Failed
  }

  /** The elements of an array from `i` to its closing bracket, after those in `acc`. */
  function ElementsAt(t: Text, i: nat, depth: nat, acc: seq<JVal>, strict: bool): (r: Reading<JVal>)
    requires i <= |t|
    ensures r.Read? ==> i < r.next <= |t|
    decreases |t| - i, 1
  {
    var v := ValueAt(t, i, depth + 1, strict);
    if v.Failed? then Failed
    else
      var all := acc + [v.value];
      var j := SkipWs(t, v.next);
      if j == |t| then Failed
      else if t[j] == COMMA then ElementsAt(t, j + 1, depth, all, strict)
      else if t[j] == CLOSE_BRACKET then Read(Arr(all), j + 1)
      else Failed
  }

  function Parse(t: Text, strict: bool): Option<JVal> {
    var v := ValueAt(t, 0, 0, strict);
    if v.Read? && SkipWs(t, v.next) == |t| then Some(v.value) else None
  }

  // ---- what the strict parser accepts --------------------------------------

  ghost predicate DistinctNames(ms: seq<Member>) {
    forall a, b :: 0 <= a < b < |ms| ==> ms[a].name != ms[b].name
  }

  /** No object anywhere in `v` repeats a member name. */
  ghost predicate NoDuplicates(v: JVal) {
    match v
    case Obj(ms) => DistinctNames(ms) && forall k :: 0 <= k < |ms| ==> NoDuplicates(ms[k].value)
    case Arr(es) => forall k :: 0 <= k < |es| ==> NoDuplicates(es[k])
    case _ => true
  }

  ghost predicate NestedAtMost(v: JVal, d: int) {
    match v
    case Obj(ms) => d >= 0 && forall k :: 0 <= k < |ms| ==> NestedAtMost(ms[k].value, d - 1)
    case Arr(es) => d >= 0 && forall k :: 0 <= k < |es| ==> NestedAtMost(es[k], d - 1)
    case _ => d >= 0
  }

  /** Every number in `v` is one whole JSON number. */
  ghost predicate ValidNumbers(v: JVal) {
    match v
    case Obj(ms) => forall k :: 0 <= k < |ms| ==> ValidNumbers(ms[k].value)
    case Arr(es) => forall k :: 0 <= k < |es| ==> ValidNumbers(es[k])
    case Num(raw) => |raw| > 0 && NumberLength(raw) == |raw|
    case _ => true
  }
}
