/**
 * What an accepted app header is, named directly: its six members in their
 * forms, a nonce and a signature that are the base64url of bytes, and white
 * space around the parts.
 */
module AppHeaderForms {
  import opened Json
  import opened KeyPolicy
  import opened Signing
  import opened AppHeader
  import opened Wrappers

  // ---- base64url -------------------------------------------------------------------------

  type Byte = b: int | 0 <= b < 256

  function Symbol(n: int): CodeUnit
    requires 0 <= n < 64
  {
    if n < 26 then 0x41 + n else if n < 52 then 0x61 + n - 26 else if n < 62 then 0x30 + n - 52 else if n == 62 then 0x2D else 0x5F
  }

  /** Base64url without padding, RFC 4648 section 5. */
  function Encode(bs: seq<Byte>): Text {
    if bs == [] then []
    else if |bs| == 1 then [Symbol(bs[0] / 4), Symbol(bs[0] % 4 * 16)]
    else if |bs| == 2 then [Symbol(bs[0] / 4), Symbol(bs[0] % 4 * 16 + bs[1] / 16), Symbol(bs[1] % 16 * 4)]
    else [Symbol(bs[0] / 4), Symbol(bs[0] % 4 * 16 + bs[1] / 16), Symbol(bs[1] % 16 * 4 + bs[2] / 64), Symbol(bs[2] % 64)] + Encode(bs[3..])
  }

  lemma SymbolBack(n: int)
    requires 0 <= n < 64
    ensures Sextet(Symbol(n)) == Some(n)
  {
  }

  lemma SextetBack(u: CodeUnit)
    requires Sextet(u).Some?
    ensures Symbol(Sextet(u).value) == u
  {
  }

  /** How many code units the bytes take. */
  function Length64(n: nat): nat { n / 3 * 4 + (if n % 3 == 0 then 0 else n % 3 + 1) }

  ghost predicate Good(t: Text) { Base64Url(t) && Canonical(t) }

  lemma {:induction false} EncodeGood(bs: seq<Byte>)
    ensures Good(Encode(bs)) && |Encode(bs)| == Length64(|bs|)
  {
    hide Sextet, Symbol;
    forall n | 0 <= n < 64 ensures Sextet(Symbol(n)) == Some(n) { SymbolBack(n); }
    if |bs| >= 3 {
      EncodeGood(bs[3..]);
      hide Good;
      assert Encode(bs)[4..] == Encode(bs[3..]);
      GoodMore(Encode(bs), Encode(bs[3..]));
    }
  }

  lemma GoodMore(t: Text, rest: Text)
    requires |t| >= 4 && rest == t[4..] && forall i :: 0 <= i < 4 ==> Sextet(t[i]).Some?
    ensures Good(t) <==> Good(rest)
  {
    assert forall i :: 0 <= i < |rest| ==> rest[i] == t[i + 4];
    if Base64Url(rest) {
      forall i | 0 <= i < |t| ensures Sextet(t[i]).Some? { if i >= 4 { assert t[i] == rest[i - 4]; } }
    }
    if Base64Url(t) {
      forall i | 0 <= i < |rest| ensures Sextet(rest[i]).Some? { assert rest[i] == t[i + 4]; }
    }
  }

  lemma {:induction false} GoodIsEncoded(t: Text) returns (bs: seq<Byte>)
    requires Good(t)
    ensures Encode(bs) == t
  {
    hide Sextet, Symbol;
    forall i | 0 <= i < |t| ensures Symbol(Sextet(t[i]).value) == t[i] { SextetBack(t[i]); }
    if t == [] {
      bs := [];
    } else if |t| == 2 {
      var a, b := Sextet(t[0]).value, Sextet(t[1]).value;
      bs := [a * 4 + b / 16];
      assert bs[0] / 4 == a && bs[0] % 4 * 16 == b;
      assert t == [t[0], t[1]];
    } else if |t| == 3 {
      var a, b, c := Sextet(t[0]).value, Sextet(t[1]).value, Sextet(t[2]).value;
      bs := [a * 4 + b / 16, b % 16 * 16 + c / 4];
      assert bs[0] / 4 == a && bs[0] % 4 * 16 + bs[1] / 16 == b && bs[1] % 16 * 4 == c;
      assert t == [t[0], t[1], t[2]];
    } else {
      assert |t| >= 4 by { assert |t| % 4 != 1; }
      GoodMore(t, t[4..]);
      hide Good, Encode;
      var rest := GoodIsEncoded(t[4..]);
      var three := FourAreThree(Sextet(t[0]).value, Sextet(t[1]).value, Sextet(t[2]).value, Sextet(t[3]).value, rest);
      bs := three + rest;
      assert t == [t[0], t[1], t[2], t[3]] + t[4..];
    }
  }

  /** Four symbols' bits as three bytes. */
  lemma FourAreThree(a: int, b: int, c: int, d: int, rest: seq<Byte>) returns (three: seq<Byte>)
    requires 0 <= a < 64 && 0 <= b < 64 && 0 <= c < 64 && 0 <= d < 64
    ensures Encode(three + rest) == [Symbol(a), Symbol(b), Symbol(c), Symbol(d)] + Encode(rest)
  {
    hide Symbol;
    var x, y, z := a * 4 + b / 16, b % 16 * 16 + c / 4, c % 4 * 64 + d;
    three := [x, y, z];
    assert x / 4 == a && x % 4 * 16 + y / 16 == b && y % 16 * 4 + z / 64 == c && z % 64 == d;
    assert (three + rest)[3..] == rest;
  }

  // ---- the forms ---------------------------------------------------------------------------

  ghost predicate IsHex32(t: Text) { |t| == 32 && forall i :: 0 <= i < 32 ==> 0x30 <= t[i] <= 0x39 || 0x61 <= t[i] <= 0x66 }

  /** A number of at most 12 digits, without leading zeros. */
  ghost predicate IsTime(t: Text) {
    1 <= |t| <= 12 && (forall i :: 0 <= i < |t| ==> 0x30 <= t[i] <= 0x39) && (t[0] == 0x30 ==> |t| == 1)
  }

  ghost predicate Encodes(t: Text, bs: seq<Byte>) { Encode(bs) == t }

  /** The vault's id or none, the key's id, the time, 16 bytes of nonce, a signature of 6 to 96 bytes. */
  ghost predicate IsHeader(p: Parsed) {
    && (p.header.vault == [] || IsHex32(p.header.vault)) && IsHex32(p.header.kid) && IsTime(p.header.ts)
    && (exists bs: seq<Byte> :: |bs| == 16 && Encodes(p.header.nonce, bs))
    && (exists bs: seq<Byte> :: 6 <= |bs| <= 96 && Encodes(p.sig, bs))
  }

  lemma NonceForms(t: Text)
    ensures NonceForm(t) <==> exists bs: seq<Byte> :: |bs| == 16 && Encodes(t, bs)
  {
    if NonceForm(t) {
      var bs := GoodIsEncoded(t);
      EncodeGood(bs);
      assert |bs| == 16 && Encodes(t, bs);
    }
    if exists bs: seq<Byte> :: |bs| == 16 && Encodes(t, bs) {
      var bs: seq<Byte> :| |bs| == 16 && Encodes(t, bs);
      EncodeGood(bs);
    }
  }

  lemma SigForms(t: Text)
    ensures SigForm(t) <==> exists bs: seq<Byte> :: 6 <= |bs| <= 96 && Encodes(t, bs)
  {
    if SigForm(t) {
      var bs := GoodIsEncoded(t);
      EncodeGood(bs);
      assert 6 <= |bs| <= 96 && Encodes(t, bs);
    }
    if exists bs: seq<Byte> :: 6 <= |bs| <= 96 && Encodes(t, bs) {
      var bs: seq<Byte> :| 6 <= |bs| <= 96 && Encodes(t, bs);
      EncodeGood(bs);
    }
  }

  lemma HeaderForms(p: Parsed)
    ensures WellFormed(p) <==> IsHeader(p)
  {
    NonceForms(p.header.nonce);
    SigForms(p.sig);
    hide NonceForm, SigForm;
  }

  // ---- the text ------------------------------------------------------------------------------

  /** Only spaces and tabs. */
  ghost predicate Blanks(t: Text) { forall i :: 0 <= i < |t| ==> t[i] == 0x20 || t[i] == 0x09 }

  function Pad(part: Text, pad: Text): Text { pad + part + pad }

  /** `v=1;vault=..;kid=..;ts=..;nonce=..;sig=..` with the same white space around each part. */
  function HeaderText(p: Parsed, pad: Text): Text {
    Pad(U("v=1"), pad) + [0x3B] + (Pad(U("vault=") + p.header.vault, pad) + [0x3B] + (Pad(U("kid=") + p.header.kid, pad) + [0x3B] +
    (Pad(U("ts=") + p.header.ts, pad) + [0x3B] + (Pad(U("nonce=") + p.header.nonce, pad) + [0x3B] + Pad(U("sig=") + p.sig, pad)))))
  }

  lemma {:induction false} TrimStartPad(pad: Text, t: Text)
    requires Blanks(pad)
    ensures TrimStart(pad + t) == TrimStart(t)
  {
    if pad == [] {
      assert pad + t == t;
    } else {
      assert (pad + t)[1..] == pad[1..] + t;
      TrimStartPad(pad[1..], t);
    }
  }

  lemma {:induction false} TrimEndPad(t: Text, pad: Text)
    requires Blanks(pad)
    ensures TrimEnd(t + pad) == TrimEnd(t)
    decreases |pad|
  {
    if pad == [] {
      assert t + pad == t;
    } else {
      assert (t + pad)[..|t + pad| - 1] == t + pad[..|pad| - 1];
      TrimEndPad(t, pad[..|pad| - 1]);
    }
  }

  lemma TrimPadded(part: Text, pad: Text)
    requires Blanks(pad) && part != [] && !IsSpace(part[0]) && !IsSpace(part[|part| - 1])
    ensures Trim(Pad(part, pad)) == part
  {
    assert Pad(part, pad) == pad + (part + pad);
    TrimStartPad(pad, part + pad);
    TrimEndPad(part, pad);
  }

  function Padded(p: Parsed, pad: Text): seq<Text> {
    [Pad(U("v=1"), pad), Pad(U("vault=") + p.header.vault, pad), Pad(U("kid=") + p.header.kid, pad),
     Pad(U("ts=") + p.header.ts, pad), Pad(U("nonce=") + p.header.nonce, pad), Pad(U("sig=") + p.sig, pad)]
  }

  lemma TextJoins(p: Parsed, pad: Text)
    ensures HeaderText(p, pad) == JoinWith(Padded(p, pad), SEMICOLON)
  {
    hide U, Pad;
    var l := Padded(p, pad);
    assert l[1..][1..] == l[2..] && l[2..][1..] == l[3..] && l[3..][1..] == l[4..] && l[4..][1..] == l[5..];
    assert JoinWith(l[5..], SEMICOLON) == l[5];
    assert JoinWith(l[4..], SEMICOLON) == l[4] + [SEMICOLON] + l[5];
    assert JoinWith(l[3..], SEMICOLON) == l[3] + [SEMICOLON] + JoinWith(l[4..], SEMICOLON);
    assert JoinWith(l[2..], SEMICOLON) == l[2] + [SEMICOLON] + JoinWith(l[3..], SEMICOLON);
    assert JoinWith(l[1..], SEMICOLON) == l[1] + [SEMICOLON] + JoinWith(l[2..], SEMICOLON);
  }

  /** The parts are `name=value`. */
  lemma PartsAre(p: Parsed)
    ensures Padded(p, []) == Parts(p)
  {
    assert U("v=1") == NAMES[0] + [EQUALS] + [0x31];
    assert U("vault=") == NAMES[1] + [EQUALS] && U("kid=") == NAMES[2] + [EQUALS] && U("ts=") == NAMES[3] + [EQUALS];
    assert U("nonce=") == NAMES[4] + [EQUALS] && U("sig=") == NAMES[5] + [EQUALS];
    hide U, NAMES;
    var l := Padded(p, []);
    assert l[0] == Part(NAMES[0], [0x31]) && l[1] == Part(NAMES[1], p.header.vault) && l[2] == Part(NAMES[2], p.header.kid);
    assert l[3] == Part(NAMES[3], p.header.ts) && l[4] == Part(NAMES[4], p.header.nonce) && l[5] == Part(NAMES[5], p.sig);
    assert forall k :: 0 <= k < 6 ==> l[k] == Parts(p)[k];
  }

  lemma {:induction false} SameFields(a: seq<Text>, b: seq<Text>)
    requires |a| == |b| && forall k :: 0 <= k < |a| ==> Trim(a[k]) == Trim(b[k])
    ensures FieldsOf(a) == FieldsOf(b)
    decreases |a|
  {
    hide Trim;
    if a != [] { SameFields(a[..|a| - 1], b[..|b| - 1]); }
  }

  lemma PlainPart(name: Text, value: Text)
    requires Plain(name) && Plain(value) && name != []
    ensures var part := Part(name, value);
            part != [] && !IsSpace(part[0]) && !IsSpace(part[|part| - 1]) && SEMICOLON !in part
  {
    var part := Part(name, value);
    assert part[0] == name[0];
    assert part[|part| - 1] == if value == [] then EQUALS else value[|value| - 1];
    forall i | 0 <= i < |part| ensures part[i] != SEMICOLON {
      if i > |name| { assert part[i] == value[i - |name| - 1]; }
    }
  }

  lemma PaddedIs(p: Parsed, pad: Text, k: nat)
    requires k < 6
    ensures Padded(p, pad)[k] == Pad(Parts(p)[k], pad)
  {
    PartsAre(p);
    hide U, Parts;
    assert forall t: Text :: Pad(t, []) == t;
  }

  lemma NoSeparator(part: Text, pad: Text)
    requires SEMICOLON !in part && Blanks(pad)
    ensures SEMICOLON !in Pad(part, pad)
  {
  }

  lemma PaddedPart(p: Parsed, pad: Text, k: nat)
    requires k < 6 && WellFormed(p) && Blanks(pad)
    ensures Padded(p, pad)[k] == Pad(Parts(p)[k], pad) && Trim(Padded(p, pad)[k]) == Trim(Parts(p)[k]) && SEMICOLON !in Padded(p, pad)[k]
  {
    hide U, NAMES, Plain, WellFormed, Trim, IsSpace, Padded, Pad;
    ValuesAllPlain(p);
    NamesAreSix();
    NamesArePlain();
    PlainPart(NAMES[k], Values(p)[k]);
    PaddedIs(p, pad, k);
    var part := Parts(p)[k];
    TrimPadded(part, pad);
    TrimPadded(part, []);
    assert Pad(part, []) == part by { NoPad(part); }
    NoSeparator(part, pad);
  }

  lemma NoPad(part: Text)
    ensures Pad(part, []) == part
  {
  }

  /** A header of six members in their forms is accepted as those members, with or without white space around its parts, if it is no longer than 512. */
  lemma HeaderIsAccepted(p: Parsed, pad: Text)
    requires IsHeader(p) && Blanks(pad) && |HeaderText(p, pad)| <= 512
    ensures ParseHeader(HeaderText(p, pad)) == Some(p)
  {
    HeaderForms(p);
    hide IsHeader, WellFormed, Trim, HeaderText, FieldsOf, FromFields, NAMES, U;
    forall k | 0 <= k < 6 ensures Trim(Padded(p, pad)[k]) == Trim(Parts(p)[k]) && SEMICOLON !in Padded(p, pad)[k] { PaddedPart(p, pad, k); }
    TextJoins(p, pad);
    SplitJoin(Padded(p, pad), SEMICOLON);
    SameFields(Padded(p, pad), Parts(p));
    HeaderRoundTrip(p);
    forall k | 0 <= k < 6 ensures SEMICOLON !in Parts(p)[k] {
      PaddedPart(p, [], k);
      PartsAre(p);
    }
    SplitJoin(Parts(p), SEMICOLON);
  }

  /** And only such members are ever accepted. */
  lemma AcceptedIsHeader(value: Text)
    requires ParseHeader(value).Some?
    ensures IsHeader(ParseHeader(value).value) && |value| <= 512
  {
    hide FieldsOf, Split, WellFormed;
    HeaderForms(ParseHeader(value).value);
  }
}
