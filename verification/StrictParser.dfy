/**
 * The cursor parser of lambda/shared/keypolicy.ts: a text and a position
 * that the parsing steps move. A failed step answers None, where the source
 * throws; the cursor is then of no further use.
 */
module StrictParser {
  import opened Wrappers
  import opened Json

  class Parser {
    const text: Text
    var i: nat

    ghost predicate Valid()
      reads this
    {
      i <= |text|
    }

    constructor (t: Text)
      ensures Valid() && text == t && i == 0
    {
      text, i := t, 0;
    }

    method SkipSpace()
      requires Valid()
      modifies this
      ensures Valid() && i == SkipWs(text, old(i))
    {
      while i < |text| && IsWs(text[i])
        invariant Valid()
        invariant SkipWs(text, i) == SkipWs(text, old(i))
      {
        i := i + 1;
      }
    }

    /** A string literal: scanned to its closing quote, then decoded as JSON.parse decodes it. */
    method ReadString() returns (r: Option<Text>)
      requires Valid()
      modifies this
      ensures match StringAt(text, old(i))
        case Failed => r.None?
        case Read(s, next) => r == Some(s) && i == next
      ensures r.Some? ==> Valid()
    {
      if i == |text| || text[i] != QUOTE { return None; }
      var start := i + 1;
      i := i + 1;
      while i < |text| && text[i] != QUOTE
        invariant start <= i
        invariant i <= |text| ==> ScanString(text, i) == ScanString(text, start)
        invariant i > |text| ==> ScanString(text, start).None?
      {
        if text[i] < 0x20 { return None; }
        if text[i] == BACKSLASH { i := i + 1; }
        i := i + 1;
      }
      if i >= |text| { return None; }
      i := i + 1;
      r := Decode(text[start..i - 1]);
    }

    method ReadLiteral() returns (r: Option<JVal>)
      requires Valid()
      modifies this
      ensures match LiteralAt(text, old(i))
        case Failed => r.None?
        case Read(v, next) => r == Some(v) && i == next
      ensures r.Some? ==> Valid()
    {
      var rest := text[i..];
      if TRUE_WORD <= rest {
        i, r := i + 4, Some(Bool(true));
      } else if FALSE_WORD <= rest {
        i, r := i + 5, Some(Bool(false));
      } else if NULL_WORD <= rest {
        i, r := i + 4, Some(Null);
      } else {
        var n := NumberLength(rest);
        if n == 0 { return None; }
        i, r := i + n, Some(Num(rest[..n]));
      }
    }

    method ReadValue(depth: nat) returns (r: Option<JVal>)
      requires Valid()
      modifies this
      ensures match ValueAt(text, old(i), depth, true)
        case Failed => r.None?
        case Read(v, next) => r == Some(v) && i == next
      ensures r.Some? ==> Valid()
      decreases |text| - i, 0
    {
      if depth > MAX_DEPTH { return None; }
      SkipSpace();
      if i == |text| { return None; }
      if text[i] == OPEN_BRACE {
        r := ReadObject(depth);
      } else if text[i] == OPEN_BRACKET {
        r := ReadArray(depth);
      } else if text[i] == QUOTE {
        var s := ReadString();
        r := if s.Some? then Some(Str(s.value)) else None;
      } else {
        r := ReadLiteral();
      }
    }

    /** What an object at `j` reads as. */
    static function ObjectAt(t: Text, j: nat, depth: nat): Reading<JVal>
      requires j < |t|
    {
      var k := SkipWs(t, j + 1);
      if k < |t| && t[k] == CLOSE_BRACE then Read(Obj([]), k + 1) else MembersAt(t, k, depth, [], true)
    }

    static function ArrayAt(t: Text, j: nat, depth: nat): Reading<JVal>
      requires j < |t|
    {
      var k := SkipWs(t, j + 1);
      if k < |t| && t[k] == CLOSE_BRACKET then Read(Arr([]), k + 1) else ElementsAt(t, k, depth, [], true)
    }

    /** The next member of an object that has the members `m` already. */
    method ReadMember(m: seq<Member>, depth: nat) returns (r: Option<Member>)
      requires Valid()
      modifies this
      ensures match MemberAt(text, old(i), depth, true)
        case Failed => r.None?
        case Read(member, next) => if HasName(m, member.name) then r.None? else r == Some(member) && i == next
      ensures r.Some? ==> Valid()
      decreases |text| - i, 1
    {
      hide StringAt, ValueAt, LiteralAt;
      SkipSpace();
      var k := ReadString();
      if k.None? || HasName(m, k.value) { return None; }
      SkipSpace();
      if i == |text| || text[i] != COLON { return None; }
      i := i + 1;
      var v := ReadValue(depth + 1);
      if v.None? { return None; }
      r := Some(Member(k.value, v.value));
    }

    /** The map `m` of the source, with its members in the order they were set. */
    method ReadObject(depth: nat) returns (r: Option<JVal>)
      requires i < |text|
      modifies this
      ensures match ObjectAt(text, old(i), depth)
        case Failed => r.None?
        case Read(v, next) => r == Some(v) && i == next
      ensures r.Some? ==> Valid()
      decreases |text| - i - 1, 2
    {
      hide MemberAt, ValueAt, LiteralAt, HasName;
      ghost var start := i;
      i := i + 1;
      SkipSpace();
      if i < |text| && text[i] == CLOSE_BRACE {
        i := i + 1;
        return Some(Obj([]));
      }
      ghost var whole := MembersAt(text, i, depth, [], true);
      var m: seq<Member> := [];
      while true
        invariant start < i <= |text|
        invariant MembersAt(text, i, depth, m, true) == whole
        decreases |text| - i
      {
        var member := ReadMember(m, depth);
        if member.None? { return None; }
        m := m + [member.value];
        SkipSpace();
        if i == |text| { return None; }
        if text[i] == COMMA {
          i := i + 1;
        } else if text[i] == CLOSE_BRACE {
          i := i + 1;
          return Some(Obj(m));
        } else {
          return None;
        }
      }
    }

    method ReadArray(depth: nat) returns (r: Option<JVal>)
      requires i < |text|
      modifies this
      ensures match ArrayAt(text, old(i), depth)
        case Failed => r.None?
        case Read(v, next) => r == Some(v) && i == next
      ensures r.Some? ==> Valid()
      decreases |text| - i - 1, 2
    {
      hide ValueAt, LiteralAt;
      ghost var start := i;
      i := i + 1;
      SkipSpace();
      if i < |text| && text[i] == CLOSE_BRACKET {
        i := i + 1;
        return Some(Arr([]));
      }
      ghost var whole := ElementsAt(text, i, depth, [], true);
      var a: seq<JVal> := [];
      while true
        invariant start < i <= |text|
        invariant ElementsAt(text, i, depth, a, true) == whole
        decreases |text| - i
      {
        var v := ReadValue(depth + 1);
        if v.None? { return None; }
        a := a + [v.value];
        SkipSpace();
        if i == |text| { return None; }
        if text[i] == COMMA {
          i := i + 1;
        } else if text[i] == CLOSE_BRACKET {
          i := i + 1;
          return Some(Arr(a));
        } else {
          return None;
        }
      }
    }
  }

  /** parseStrict: one value, then nothing but white space. */
  method ParseStrict(text: Text) returns (r: Option<JVal>)
    ensures r == Parse(text, true)
  {
    var p := new Parser(text);
    var v := p.ReadValue(0);
    if v.None? { return None; }
    p.SkipSpace();
    r := if p.i == |text| then v else None;
  }
}
