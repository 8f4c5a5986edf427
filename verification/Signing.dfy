/**
 * The two strings that are signed: the recovery request's
 * (lambda/shared/recovery-sign.ts) and the app request's
 * (lambda/shared/app-auth.ts). Both join lines; what they determine is proved
 * for all members. A digest stands for the bytes it is of: it is 64 hex
 * digits, and different bytes have different ones.
 */
module Signing {
  import opened Json
  import opened KeyPolicy
  import opened Wrappers

  const NEWLINE: CodeUnit := 0x0A
  const RETURN: CodeUnit := 0x0D

  const RECOVERY_LABEL := U("vettid/vms/2/recovery-request")
  const APP_LABEL := U("vettid/member-api/app/1")
  const RECOVERY := U("recovery")
  const CANCEL := U("recovery_cancel")

  // ---- lines ----------------------------------------------------------------------

  function Join(lines: seq<Text>): Text {
    if lines == [] then [] else if |lines| == 1 then lines[0] else lines[0] + [NEWLINE] + Join(lines[1..])
  }

  /** What comes first up to a newline, and what comes after it, are determined. */
  lemma FirstLine(a: Text, x: Text, b: Text, y: Text)
    requires NEWLINE !in a && NEWLINE !in b
    requires a + [NEWLINE] + x == b + [NEWLINE] + y
    ensures a == b && x == y
  {
    var t := a + [NEWLINE] + x;
    assert t[|a|] == NEWLINE && t[|b|] == NEWLINE;
    assert forall i :: 0 <= i < |a| ==> t[i] == a[i];
    assert forall i :: 0 <= i < |b| ==> t[i] == b[i];
    assert |a| == |b|;
    assert t[..|a|] == a && t[..|b|] == b;
    assert t[|a| + 1..] == x && t[|b| + 1..] == y;
  }

  /** What comes after the last newline, and what comes before it, are determined. */
  lemma LastLine(x: Text, a: Text, y: Text, b: Text)
    requires NEWLINE !in a && NEWLINE !in b
    requires x + [NEWLINE] + a == y + [NEWLINE] + b
    ensures a == b && x == y
  {
    var t := x + [NEWLINE] + a;
    var n := |t|;
    assert t[n - |a| - 1] == NEWLINE && t[n - |b| - 1] == NEWLINE;
    assert forall i :: 0 <= i < |a| ==> t[n - |a| + i] == a[i];
    assert forall i :: 0 <= i < |b| ==> t[n - |b| + i] == b[i];
    assert |a| == |b|;
    assert t[n - |a|..] == a && t[n - |b|..] == b;
    assert t[..|x|] == x && t[..|y|] == y;
  }

  predicate OneLine(t: Text) { NEWLINE !in t }

  /** Lists of newline-free lines with the same joined text are the same list, however many lines each has. */
  lemma {:induction false} JoinInjective(a: seq<Text>, b: seq<Text>)
    requires a != [] && b != [] && Join(a) == Join(b)
    requires forall i :: 0 <= i < |a| ==> OneLine(a[i])
    requires forall i :: 0 <= i < |b| ==> OneLine(b[i])
    ensures a == b
    decreases |a|
  {
    if |a| == 1 || |b| == 1 {
      LinesInJoin(a);
      LinesInJoin(b);
      assert |a| == 1 && |b| == 1;
      assert a == [a[0]] && b == [b[0]];
    } else {
      FirstLine(a[0], Join(a[1..]), b[0], Join(b[1..]));
      JoinInjective(a[1..], b[1..]);
      assert a == [a[0]] + a[1..] && b == [b[0]] + b[1..];
    }
  }

  lemma LinesInJoin(a: seq<Text>)
    requires a != [] && OneLine(a[0])
    ensures NEWLINE in Join(a) <==> |a| > 1
  {
    if |a| > 1 { assert Join(a)[|a[0]|] == NEWLINE; }
  }

  // ---- the recovery request ---------------------------------------------------------------

  /** A browser key: whether it has no bytes, and the digest of those it has. */
  datatype BrowserKey = BrowserKey(empty: bool, digest: Text)

  predicate Digest(t: Text) { |t| == 64 && forall i :: 0 <= i < 64 ==> IsLowerHex(t[i]) }

  predicate GoodMember(t: Text) { t != [] && NEWLINE !in t && RETURN !in t }

  datatype RecoveryRequest = RecoveryRequest(
    op: Text, vault: Text, user: Text, request: Text, signedAt: Text,
    browserKey: Option<BrowserKey>, recoveryId: Option<Text>)

  /** The requests a string is made for: those of the enclave's two forms. */
  predicate Signable(r: RecoveryRequest) {
    && GoodMember(r.op) && GoodMember(r.vault) && GoodMember(r.user) && GoodMember(r.request) && GoodMember(r.signedAt)
    && (r.op == RECOVERY || r.op == CANCEL)
    && (r.op == RECOVERY ==> r.browserKey.Some? && !r.browserKey.value.empty)
    && (r.op == CANCEL ==> r.browserKey.None?)
    && (r.recoveryId.Some? ==> r.op == CANCEL && GoodMember(r.recoveryId.value))
  }

  /** Seven lines, or eight when a cancel names its recovery. */
  function RecoveryLines(r: RecoveryRequest): seq<Text> {
    var last := if r.browserKey.Some? then r.browserKey.value.digest else [];
    [RECOVERY_LABEL, r.op, r.vault, r.user, r.request, r.signedAt, last]
    + (if r.recoveryId.Some? then [r.recoveryId.value] else [])
  }

  function RecoveryString(r: RecoveryRequest): Option<Text> {
    if Signable(r) then Some(Join(RecoveryLines(r))) else None
  }

  lemma OpsDiffer()
    ensures RECOVERY != CANCEL && |RECOVERY| == 8 && |CANCEL| == 15
  {
  }

  /** The builder as the source runs it: the members in a loop, the last line, then the named form's extra line. */
  method BuildRecoveryString(r: RecoveryRequest) returns (s: Option<Text>)
    ensures s == RecoveryString(r)
  {
    hide Join;
    OpsDiffer();
    var members := [r.op, r.vault, r.user, r.request, r.signedAt];
    for i := 0 to |members|
      invariant forall j :: 0 <= j < i ==> GoodMember(members[j])
    {
      if members[i] == [] || NEWLINE in members[i] || RETURN in members[i] {
        assert !GoodMember(members[i]);
        return None;
      }
    }
    assert GoodMember(members[0]) && GoodMember(members[1]) && GoodMember(members[2]) && GoodMember(members[3]) && GoodMember(members[4]);
    var last: Text := [];
    if r.op == RECOVERY {
      if r.browserKey.None? || r.browserKey.value.empty { return None; }
      last := r.browserKey.value.digest;
    } else if r.op == CANCEL {
      if r.browserKey.Some? { return None; }
    } else {
      return None;
    }
    var lines := [RECOVERY_LABEL, r.op, r.vault, r.user, r.request, r.signedAt, last];
    if r.recoveryId.Some? {
      if r.op != CANCEL || r.recoveryId.value == [] || NEWLINE in r.recoveryId.value || RETURN in r.recoveryId.value { return None; }
      lines := lines + [r.recoveryId.value];
    }
    assert lines == RecoveryLines(r);
    s := Some(Join(lines));
  }

  ghost predicate MemberIs(t: Text) { t != [] && forall i :: 0 <= i < |t| ==> t[i] != 0x0A && t[i] != 0x0D }

  /** A recovery with a browser key, or a cancel without one that may name its recovery; every member there and on one line. */
  ghost predicate IsRequest(r: RecoveryRequest) {
    && MemberIs(r.vault) && MemberIs(r.user) && MemberIs(r.request) && MemberIs(r.signedAt)
    && (|| (r.op == U("recovery") && r.browserKey.Some? && !r.browserKey.value.empty && r.recoveryId.None?)
        || (r.op == U("recovery_cancel") && r.browserKey.None? && (r.recoveryId.Some? ==> MemberIs(r.recoveryId.value))))
  }

  /** The string, line by line: the label, the members, the key's digest or an empty line, and the recovery a cancel names. */
  lemma RecoveryStringIs(r: RecoveryRequest)
    ensures RecoveryString(r).Some? <==> IsRequest(r)
    ensures IsRequest(r) ==>
              RecoveryString(r).value ==
                U("vettid/vms/2/recovery-request") + [0x0A] + (r.op + [0x0A] + (r.vault + [0x0A] + (r.user + [0x0A] + (r.request + [0x0A] + (r.signedAt + [0x0A] +
                (if r.recoveryId.Some? then [] + [0x0A] + r.recoveryId.value else if r.browserKey.Some? then r.browserKey.value.digest else []))))))
  {
    assert RecoveryString(r).Some? <==> IsRequest(r) by { RequestForms(r); }
    if IsRequest(r) {
      hide U, IsRequest, Signable;
      var lines := RecoveryLines(r);
      JoinSix(lines);
      assert lines[6] == if r.browserKey.Some? then r.browserKey.value.digest else [];
      if r.recoveryId.Some? {
        assert lines[6..] == [lines[6], lines[7]] && lines[6..][1..] == [lines[7]];
        assert Join(lines[6..][1..]) == lines[7];
        assert Join(lines[6..]) == lines[6] + [NEWLINE] + lines[7];
        assert lines[6] == [] by { CancelHasNoKey(r); }
      } else {
        assert lines[6..] == [lines[6]];
      }
    }
  }

  lemma RequestForms(r: RecoveryRequest)
    ensures Signable(r) <==> IsRequest(r)
  {
    OpsDiffer();
    MemberForms(r.vault);
    MemberForms(r.user);
    MemberForms(r.request);
    MemberForms(r.signedAt);
    if r.recoveryId.Some? { MemberForms(r.recoveryId.value); }
    MemberForms(r.op);
    assert MemberIs(RECOVERY) && MemberIs(CANCEL);
  }

  lemma MemberForms(t: Text)
    ensures GoodMember(t) <==> MemberIs(t)
  {
  }

  lemma CancelHasNoKey(r: RecoveryRequest)
    requires IsRequest(r) && r.recoveryId.Some?
    ensures r.browserKey.None?
  {
  }

  lemma JoinSix(lines: seq<Text>)
    requires |lines| >= 7
    ensures Join(lines) == lines[0] + [NEWLINE] + (lines[1] + [NEWLINE] + (lines[2] + [NEWLINE] + (lines[3] + [NEWLINE] + (lines[4] + [NEWLINE] + (lines[5] + [NEWLINE] + Join(lines[6..]))))))
  {
    assert Join(lines[5..]) == lines[5] + [NEWLINE] + Join(lines[6..]) by { assert lines[5..][1..] == lines[6..]; }
    assert Join(lines[4..]) == lines[4] + [NEWLINE] + Join(lines[5..]) by { assert lines[4..][1..] == lines[5..]; }
    assert Join(lines[3..]) == lines[3] + [NEWLINE] + Join(lines[4..]) by { assert lines[3..][1..] == lines[4..]; }
    assert Join(lines[2..]) == lines[2] + [NEWLINE] + Join(lines[3..]) by { assert lines[2..][1..] == lines[3..]; }
    assert Join(lines[1..]) == lines[1] + [NEWLINE] + Join(lines[2..]) by { assert lines[1..][1..] == lines[2..]; }
  }

  ghost predicate DigestOk(r: RecoveryRequest) { r.browserKey.Some? ==> Digest(r.browserKey.value.digest) }

  lemma LinesAreLines(r: RecoveryRequest)
    requires Signable(r) && DigestOk(r)
    ensures |RecoveryLines(r)| == if r.recoveryId.Some? then 8 else 7
    ensures forall i :: 0 <= i < |RecoveryLines(r)| ==> OneLine(RecoveryLines(r)[i])
  {
    hide RECOVERY, CANCEL;
    assert OneLine(RECOVERY_LABEL) by { LabelLine(); }
    if r.browserKey.Some? { assert OneLine(r.browserKey.value.digest); }
  }

  lemma LabelLine()
    ensures OneLine(RECOVERY_LABEL) && OneLine(APP_LABEL)
  {
  }

  /** Two requests with one signing string are one request: the same op, vault, user, request, time, key digest, and the same named recovery or none. */
  lemma RecoveryStringDetermines(a: RecoveryRequest, b: RecoveryRequest)
    requires RecoveryString(a).Some? && RecoveryString(a) == RecoveryString(b)
    requires DigestOk(a) && DigestOk(b)
    ensures a.op == b.op && a.vault == b.vault && a.user == b.user && a.request == b.request && a.signedAt == b.signedAt
    ensures a.recoveryId == b.recoveryId
    ensures a.browserKey == b.browserKey
  {
    hide Join, Signable, OneLine;
    LinesAreLines(a);
    LinesAreLines(b);
    var la, lb := RecoveryLines(a), RecoveryLines(b);
    JoinInjective(la, lb);
    assert la[1] == lb[1] && la[2] == lb[2] && la[3] == lb[3] && la[4] == lb[4] && la[5] == lb[5] && la[6] == lb[6];
    if a.recoveryId.Some? { assert la[7] == lb[7]; }
    SameKeys(a, b);
  }

  lemma SameKeys(a: RecoveryRequest, b: RecoveryRequest)
    requires Signable(a) && Signable(b) && a.op == b.op
    requires a.browserKey.Some? && b.browserKey.Some? ==> a.browserKey.value.digest == b.browserKey.value.digest
    ensures a.browserKey == b.browserKey
  {
    OpsDiffer();
  }

  // ---- the app request --------------------------------------------------------------------

  datatype Header = Header(vault: Text, kid: Text, ts: Text, nonce: Text)

  function UpperUnit(u: CodeUnit): CodeUnit { if 0x61 <= u <= 0x7A then u - 0x20 else u }

  function Upper(t: Text): Text { seq(|t|, i requires 0 <= i < |t| => UpperUnit(t[i])) }

  function SigningInput(verb: Text, path: Text, query: Text, h: Header, digest: Text): Text {
    Join([APP_LABEL, Upper(verb), path, query, h.vault, h.kid, h.ts, h.nonce, digest])
  }

  /** The forms parseAppHeader lets through have no newline. */
  ghost predicate HeaderLines(h: Header, digest: Text) {
    OneLine(h.vault) && OneLine(h.kid) && OneLine(h.ts) && OneLine(h.nonce) && OneLine(digest)
  }

  /** Everything but the path and the query, line by line; those two as one text. */
  function PathAndQuery(path: Text, query: Text): Text { path + [NEWLINE] + query }

  lemma SigningInputShape(verb: Text, path: Text, query: Text, h: Header, digest: Text)
    ensures SigningInput(verb, path, query, h, digest) ==
            APP_LABEL + [NEWLINE] + (Upper(verb) + [NEWLINE] +
            (((((PathAndQuery(path, query) + [NEWLINE] + h.vault) + [NEWLINE] + h.kid) + [NEWLINE] + h.ts) + [NEWLINE] + h.nonce) + [NEWLINE] + digest))
  {
    var five := [h.vault, h.kid, h.ts, h.nonce, digest];
    FiveLines(five);
    var lines := [APP_LABEL, Upper(verb), path, query] + five;
    assert lines[4..] == five;
    assert lines[1..][1..][1..][1..] == five;
    assert Join(lines[3..]) == query + [NEWLINE] + Join(five) by { assert lines[3..][1..] == five; }
    assert Join(lines[2..]) == path + [NEWLINE] + Join(lines[3..]) by { assert lines[2..][1..] == lines[3..]; }
    assert Join(lines[1..]) == Upper(verb) + [NEWLINE] + Join(lines[2..]) by { assert lines[1..][1..] == lines[2..]; }
    assert Join(lines) == APP_LABEL + [NEWLINE] + Join(lines[1..]);
    assert lines == [APP_LABEL, Upper(verb), path, query, h.vault, h.kid, h.ts, h.nonce, digest];
  }

  /** The app's string, line by line. */
  lemma SigningInputIs(verb: Text, path: Text, query: Text, h: Header, digest: Text)
    ensures SigningInput(verb, path, query, h, digest) ==
            U("vettid/member-api/app/1") + [0x0A] + (Upper(verb) + [0x0A] +
            ((((((path + [0x0A] + query) + [0x0A] + h.vault) + [0x0A] + h.kid) + [0x0A] + h.ts) + [0x0A] + h.nonce) + [0x0A] + digest))
  {
    hide U, SigningInput, Upper;
    SigningInputShape(verb, path, query, h, digest);
  }

  lemma FiveLines(l: seq<Text>)
    requires |l| == 5
    ensures Join(l) == (((l[0] + [NEWLINE] + l[1]) + [NEWLINE] + l[2]) + [NEWLINE] + l[3]) + [NEWLINE] + l[4]
  {
    assert Join(l[4..]) == l[4];
    assert Join(l[3..]) == l[3] + [NEWLINE] + Join(l[4..]) by { assert l[3..][1..] == l[4..]; }
    assert Join(l[2..]) == l[2] + [NEWLINE] + Join(l[3..]) by { assert l[2..][1..] == l[3..]; }
    assert Join(l[1..]) == l[1] + [NEWLINE] + Join(l[2..]) by { assert l[1..][1..] == l[2..]; }
  }

  /**
   * The signed text determines the method, every header field and the body's
   * digest, and the path with the query after it; path and query each, if
   * neither path has a newline, or neither query: a request's raw query is
   * percent-encoded and has none.
   */
  lemma SigningInputDetermines(
    m: Text, path: Text, query: Text, h: Header, digest: Text,
    m': Text, path': Text, query': Text, h': Header, digest': Text)
    requires SigningInput(m, path, query, h, digest) == SigningInput(m', path', query', h', digest')
    requires OneLine(Upper(m)) && OneLine(Upper(m')) && HeaderLines(h, digest) && HeaderLines(h', digest')
    ensures Upper(m) == Upper(m') && h == h' && digest == digest'
    ensures PathAndQuery(path, query) == PathAndQuery(path', query')
    ensures (OneLine(path) && OneLine(path')) || (OneLine(query) && OneLine(query')) ==> path == path' && query == query'
  {
    hide SigningInput, PathAndQuery, OneLine;
    SigningInputShape(m, path, query, h, digest);
    SigningInputShape(m', path', query', h', digest');
    LabelLine();
    var p, p' := PathAndQuery(path, query), PathAndQuery(path', query');
    var v, v' := p + [NEWLINE] + h.vault, p' + [NEWLINE] + h'.vault;
    var k, k' := v + [NEWLINE] + h.kid, v' + [NEWLINE] + h'.kid;
    var t, t' := k + [NEWLINE] + h.ts, k' + [NEWLINE] + h'.ts;
    var n, n' := t + [NEWLINE] + h.nonce, t' + [NEWLINE] + h'.nonce;
    First(APP_LABEL, Upper(m) + [NEWLINE] + (n + [NEWLINE] + digest), APP_LABEL, Upper(m') + [NEWLINE] + (n' + [NEWLINE] + digest'));
    First(Upper(m), n + [NEWLINE] + digest, Upper(m'), n' + [NEWLINE] + digest');
    Last(n, digest, n', digest');
    Last(t, h.nonce, t', h'.nonce);
    Last(k, h.ts, k', h'.ts);
    Last(v, h.kid, v', h'.kid);
    Last(p, h.vault, p', h'.vault);
    if OneLine(path) && OneLine(path') { SplitPath(path, query, path', query'); }
    if OneLine(query) && OneLine(query') { SplitQuery(path, query, path', query'); }
  }

  lemma First(a: Text, x: Text, b: Text, y: Text)
    requires OneLine(a) && OneLine(b) && a + [NEWLINE] + x == b + [NEWLINE] + y
    ensures a == b && x == y
  {
    FirstLine(a, x, b, y);
  }

  lemma Last(x: Text, a: Text, y: Text, b: Text)
    requires OneLine(a) && OneLine(b) && x + [NEWLINE] + a == y + [NEWLINE] + b
    ensures a == b && x == y
  {
    LastLine(x, a, y, b);
  }

  lemma SplitPath(path: Text, query: Text, path': Text, query': Text)
    requires OneLine(path) && OneLine(path') && PathAndQuery(path, query) == PathAndQuery(path', query')
    ensures path == path' && query == query'
  {
    FirstLine(path, query, path', query');
  }

  lemma SplitQuery(path: Text, query: Text, path': Text, query': Text)
    requires OneLine(query) && OneLine(query') && PathAndQuery(path, query) == PathAndQuery(path', query')
    ensures path == path' && query == query'
  {
    LastLine(path, query, path', query');
  }

  /**
   * Where both are broken, a boundary of the string function alone: a path
   * with a newline is not told from a shorter path with a query that has one.
   */
  lemma NewlineInPathIsAmbiguous(m: Text, h: Header, digest: Text)
    ensures SigningInput(m, U("/a") + [NEWLINE] + U("b"), U("c"), h, digest) == SigningInput(m, U("/a"), U("b") + [NEWLINE] + U("c"), h, digest)
    ensures U("/a") + [NEWLINE] + U("b") != U("/a")
  {
    hide SigningInput;
    var path, query, path', query' := U("/a") + [NEWLINE] + U("b"), U("c"), U("/a"), U("b") + [NEWLINE] + U("c");
    SigningInputShape(m, path, query, h, digest);
    SigningInputShape(m, path', query', h, digest);
    assert PathAndQuery(path, query) == PathAndQuery(path', query');
  }
}
