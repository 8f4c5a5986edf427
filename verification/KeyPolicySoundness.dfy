/**
 * A small IAM evaluation of a key policy, written without looking at the
 * check: it reads the policy's JSON, matches actions without regard to case
 * and with wildcards, and wherever it does not understand a part of the policy
 * it takes the part as granting. Deny statements are ignored: they only remove
 * access. What the check accepts grants no more than it should.
 */
module KeyPolicySoundness {
  import opened Json
  import opened JsonTheorems
  import opened KeyPolicy
  import opened Wrappers

  /**
   * One call to the key. `pcr0`: the measurement in the attestation document,
   * which KMS offers under both `ImageSha384` and `PCR0`. `window`: the pending
   * window asked for. `other`: any other condition key, in lower case.
   */
  datatype Request = Request(
    action: Text, principalArn: Text, principalAccount: Text,
    pcr0: Option<Text>, callerAccount: Option<Text>, window: Option<int>, other: map<Text, Text>)

  // ---- the evaluation ------------------------------------------------------------------

  /** `*` stands for any run of characters, `?` for any one. */
  predicate Glob(pattern: Text, t: Text)
    decreases |pattern| + |t|
  {
    if pattern == [] then t == []
    else if pattern[0] == 0x2A then Glob(pattern[1..], t) || (t != [] && Glob(pattern, t[1..]))
    else t != [] && (pattern[0] == 0x3F || pattern[0] == t[0]) && Glob(pattern[1..], t[1..])
  }

  predicate ActionMatches(pattern: Text, action: Text) { Glob(Lower(pattern), Lower(action)) }

  function KeyValue(key: Text, req: Request): Option<Text> {
    var k := Lower(key);
    if k == Lower(KEY_IMAGE) || k == Lower(KEY_PCR0) then req.pcr0
    else if k == Lower(KEY_CALLER) then req.callerAccount
    else if k in req.other then Some(req.other[k])
    else None
  }

  predicate EntryHolds(op: Text, key: Text, values: seq<Text>, req: Request) {
    var v := KeyValue(key, req);
    if op == STRING_EQUALS then v.Some? && v.value in values
    else if op == STRING_EQUALS_IGNORE_CASE then v.Some? && exists k :: 0 <= k < |values| && Lower(values[k]) == Lower(v.value)
    else true
  }

  function Decimal(t: Text): nat
    requires AllDigits(t)
  {
    if t == [] then 0 else 10 * Decimal(t[..|t| - 1]) + (t[|t| - 1] - 0x30)
  }

  function NumberOf(v: JVal): Option<nat> {
    match v
    case Str(s) => if AllDigits(s) && s != [] then Some(Decimal(s)) else None
    case Num(raw) => if AllDigits(raw) && raw != [] then Some(Decimal(raw)) else None
    case _ => None
  }

  /** One entry of an operator's block may hold. */
  predicate MayHold(op: Text, m: Member, req: Request) {
    if op == NUMERIC_EQUALS && Lower(m.name) == Lower(KEY_WINDOW) && NumberOf(m.value).Some?
    then req.window == Some(NumberOf(m.value).value)
    else
      var values := TextsOf(Some(m.value));
      values.Some? ==> EntryHolds(op, m.name, values.value, req)
  }

  predicate BlockMayHold(op: Text, block: JVal, req: Request) {
    block.Obj? ==> forall k :: 0 <= k < |block.members| ==> MayHold(op, block.members[k], req)
  }

  predicate ConditionMayHold(condition: Option<JVal>, req: Request) {
    match condition
    case Some(Obj(ops)) => forall k :: 0 <= k < |ops| ==> BlockMayHold(ops[k].name, ops[k].value, req)
    case _ => true
  }

  predicate PrincipalMatches(p: Text, req: Request) {
    IAM_PREFIX <= p ==> p == req.principalArn || p == IAM_PREFIX + req.principalAccount + ROOT_SUFFIX
  }

  predicate PrincipalMayMatch(principal: Option<JVal>, req: Request) {
    match principal
    case Some(Obj(ms)) =>
      var aws := TextsOf(Get(ms, U("AWS")));
      |ms| == 1 && aws.Some? ==> exists k :: 0 <= k < |aws.value| && PrincipalMatches(aws.value[k], req)
    case _ => true
  }

  predicate ActionMayMatch(actions: Option<JVal>, req: Request) {
    var texts := TextsOf(actions);
    texts.Some? ==> exists k :: 0 <= k < |texts.value| && ActionMatches(texts.value[k], req.action)
  }

  /** A statement may grant the request: not a Deny, and no part of it that is understood refuses. */
  predicate StatementMayAllow(st: JVal, req: Request) {
    st.Obj? ==>
      && !IsText(Get(st.members, U("Effect")), U("Deny"))
      && ActionMayMatch(Get(st.members, U("Action")), req)
      && PrincipalMayMatch(Get(st.members, U("Principal")), req)
      && ConditionMayHold(Get(st.members, U("Condition")), req)
  }

  predicate PolicyMayAllow(policy: JVal, req: Request) {
    policy.Obj? ==>
      match Get(policy.members, U("Statement"))
      case Some(Arr(es)) => exists k :: 0 <= k < |es| && StatementMayAllow(es[k], req)
      case Some(st) => StatementMayAllow(st, req)
      case None => true
  }

  // ---- what may be granted ----------------------------------------------------------------

  predicate Is(req: Request, action: Text) { Lower(req.action) == Lower(action) }

  predicate IsAny(req: Request, actions: seq<Text>) { exists k :: 0 <= k < |actions| && Is(req, actions[k]) }

  /** The attested image is that of one of the releases. */
  predicate AttestedImage(req: Request, releases: seq<Release>) {
    req.pcr0.Some? && exists i :: 0 <= i < |releases| && releases[i].pcr0 == Lower(req.pcr0.value)
  }

  predicate OfAccount(req: Request, account: Text) {
    req.principalAccount == account || IamArnAccount(req.principalArn) == Some(account)
  }

  /** What a release key's policy is for, and nothing else. */
  predicate Intended(req: Request, input: Input, target: Release) {
    && OfAccount(req, input.account)
    && (IsAny(req, [DECRYPT, GENERATE] + READ_ONLY + RETIREMENT))
    && (Is(req, DECRYPT) ==> req.callerAccount == Some(input.account) && AttestedImage(req, [target]))
    && (Is(req, GENERATE) ==> req.callerAccount == Some(input.account) && AttestedImage(req, UpTo(input.releases, target.number)))
    && (IsAny(req, RETIREMENT) ==>
          && input.retirementPrincipal != []
          && req.callerAccount == Some(input.account)
          && req.principalArn == input.retirementPrincipal)
    && (Is(req, SCHEDULE) ==> req.window == Some(input.retirementWindowDays))
  }

  // ---- actions ------------------------------------------------------------------------------

  lemma {:induction false} GlobPlain(pattern: Text, t: Text)
    requires 0x2A !in pattern && 0x3F !in pattern
    ensures Glob(pattern, t) <==> pattern == t
    decreases |pattern|
  {
    if pattern != [] && t != [] {
      GlobPlain(pattern[1..], t[1..]);
      assert pattern == [pattern[0]] + pattern[1..] && t == [t[0]] + t[1..];
    }
  }

  lemma LowerPlain(t: Text, u: CodeUnit)
    requires u !in t && (u < 0x41 || u > 0x7A)
    ensures u !in Lower(t)
  {
  }

  /** A listed action's name has no wildcard, so it matches only itself. */
  lemma ListedMatch(a: Text, input: Input, req: Request)
    requires ActionOk(a, input) && ActionMatches(a, req.action)
    ensures Is(req, a)
  {
    LowerPlain(a, 0x2A);
    LowerPlain(a, 0x3F);
    GlobPlain(Lower(a), Lower(req.action));
  }

  /** No two listed names differ only in case. */
  lemma LowerTells(a: Text, b: Text)
    requires a in [DECRYPT, GENERATE] + READ_ONLY + RETIREMENT && b in [DECRYPT, GENERATE] + READ_ONLY + RETIREMENT
    requires Lower(a) == Lower(b)
    ensures a == b
  {
    assert |a| == |b|;
    if |a| == 19 {
      assert Lower(GENERATE)[4] != Lower(U("kms:ListKeyPolicies"))[4];
    }
  }

  // ---- conditions -------------------------------------------------------------------------------

  /** The entry of a block that a condition comes from. */
  lemma {:induction false} EntryOf(op: Text, ms: seq<Member>, i: nat)
    requires EntryConds(op, ms).Some? && i < |EntryConds(op, ms).value|
    ensures |EntryConds(op, ms).value| == |ms|
    ensures var c := EntryConds(op, ms).value[i];
            c.op == op && c.key == ms[i].name && TextsOf(Some(ms[i].value)) == Some(c.values) && AllowedEntry(op, c.key, c.values)
    decreases |ms|
  {
    hide AllowedEntry, TextsOf;
    var n := |ms| - 1;
    if i < |EntryConds(op, ms[..n]).value| {
      EntryOf(op, ms[..n], i);
    } else if n > 0 {
      EntryOf(op, ms[..n], 0);
    }
  }

  /** The operator's block a condition comes from, and its place in what that block gives. */
  lemma {:induction false} BlockOf(c: seq<Member>, i: nat) returns (k: nat, j: nat)
    requires CondsOf(c).Some? && i < |CondsOf(c).value|
    ensures k < |c| && OperatorConds(c[k].name, c[k].value).Some?
    ensures j < |OperatorConds(c[k].name, c[k].value).value|
    ensures OperatorConds(c[k].name, c[k].value).value[j] == CondsOf(c).value[i]
    decreases |c|
  {
    hide OperatorConds;
    var n := |c| - 1;
    var before := CondsOf(c[..n]).value;
    if i < |before| {
      k, j := BlockOf(c[..n], i);
    } else {
      k, j := n, i - |before|;
    }
  }

  /** A string condition the check read holds of every request the statement's condition may hold for. */
  lemma StringCondHolds(c: seq<Member>, i: nat, req: Request)
    requires CondsOf(c).Some? && i < |CondsOf(c).value|
    requires CondsOf(c).value[i].op != NUMERIC_EQUALS
    requires ConditionMayHold(Some(Obj(c)), req)
    ensures var cond := CondsOf(c).value[i];
            AllowedEntry(cond.op, cond.key, cond.values) && EntryHolds(cond.op, cond.key, cond.values, req)
  {
    hide AllowedEntry, EntryHolds, CondsOf, TextsOf, EntryConds;
    var k, j := BlockOf(c, i);
    assert BlockMayHold(c[k].name, c[k].value, req);
    if c[k].name != NUMERIC_EQUALS {
      EntryOf(c[k].name, c[k].value.members, j);
      assert MayHold(c[k].name, c[k].value.members[j], req);
    }
  }

  lemma NumericCond(c: seq<Member>, i: nat, req: Request)
    requires CondsOf(c).Some? && i < |CondsOf(c).value|
    requires CondsOf(c).value[i].op == NUMERIC_EQUALS
    requires ConditionMayHold(Some(Obj(c)), req)
    ensures var cond := CondsOf(c).value[i];
            |cond.values| == 1 && CanonicalWindow(cond.values[0]) && req.window == Some(Decimal(cond.values[0]))
  {
    hide AllowedEntry, EntryHolds, CondsOf, TextsOf, Decimal;
    var k, j := BlockOf(c, i);
    if c[k].name != NUMERIC_EQUALS {
      EntryOf(c[k].name, c[k].value.members, j);
    } else {
      var ms := c[k].value.members;
      assert BlockMayHold(c[k].name, c[k].value, req);
      assert MayHold(c[k].name, ms[0], req);
      assert ms[0].name == KEY_WINDOW && Get(ms, KEY_WINDOW) == Some(ms[0].value);
    }
  }

  lemma CallerPinned(c: seq<Member>, account: Text, req: Request)
    requires CondsOf(c).Some? && NamesCaller(CondsOf(c).value) && CallersOk(CondsOf(c).value, account)
    requires ConditionMayHold(Some(Obj(c)), req)
    ensures req.callerAccount == Some(account)
  {
    hide ConditionMayHold, CondsOf;
    var i :| 0 <= i < |CondsOf(c).value| && CondsOf(c).value[i].key == KEY_CALLER;
    var cond := CondsOf(c).value[i];
    assert CallerOk(cond, account);
    if cond.op == NUMERIC_EQUALS {
      NumericKey(c, i);
    } else {
      StringCondHolds(c, i, req);
      assert |KEY_CALLER| == 17 && |KEY_IMAGE| == 36 && |KEY_PCR0| == 29 && |KEY_PCR_PREFIX| == 28;
      CallerEntry(cond.op, cond.values, account, req);
    }
  }

  lemma CallerEntry(op: Text, values: seq<Text>, account: Text, req: Request)
    requires AllowedEntry(op, KEY_CALLER, values) && EntryHolds(op, KEY_CALLER, values, req)
    requires forall k :: 0 <= k < |values| ==> values[k] == account
    ensures req.callerAccount == Some(account)
  {
    assert |KEY_CALLER| == 17 && |KEY_IMAGE| == 36 && |KEY_PCR0| == 29 && |KEY_PCR_PREFIX| == 28 && |KEY_CONTEXT_PREFIX| == 22;
  }

  /** The numeric operator has only the window's key. */
  lemma NumericKey(c: seq<Member>, i: nat)
    requires CondsOf(c).Some? && i < |CondsOf(c).value| && CondsOf(c).value[i].op == NUMERIC_EQUALS
    ensures CondsOf(c).value[i].key == KEY_WINDOW
    ensures KEY_WINDOW != KEY_CALLER && !IsPcr0Key(KEY_WINDOW)
  {
    hide AllowedEntry, CondsOf, TextsOf;
    assert |KEY_WINDOW| == 42 && |KEY_CALLER| == 17 && |KEY_IMAGE| == 36 && |KEY_PCR0| == 29;
    var k, j := BlockOf(c, i);
    if c[k].name != NUMERIC_EQUALS { EntryOf(c[k].name, c[k].value.members, j); }
  }

  lemma ImagePinned(c: seq<Member>, admitted: seq<Release>, req: Request)
    requires CondsOf(c).Some? && Attested(CondsOf(c).value, admitted)
    requires ConditionMayHold(Some(Obj(c)), req)
    ensures AttestedImage(req, admitted)
  {
    hide ConditionMayHold, CondsOf;
    var i :| 0 <= i < |CondsOf(c).value| && IsPcr0Key(CondsOf(c).value[i].key);
    var cond := CondsOf(c).value[i];
    assert CondAttests(cond, admitted);
    if cond.op == NUMERIC_EQUALS {
      NumericKey(c, i);
    } else {
      StringCondHolds(c, i, req);
      ImageEntry(cond, admitted, req);
    }
  }

  lemma ImageEntry(cond: Cond, admitted: seq<Release>, req: Request)
    requires IsPcr0Key(cond.key) && CondAttests(cond, admitted)
    requires AllowedEntry(cond.op, cond.key, cond.values) && EntryHolds(cond.op, cond.key, cond.values, req)
    ensures AttestedImage(req, admitted)
  {
    var x := req.pcr0.value;
    var k :| 0 <= k < |cond.values| && Lower(cond.values[k]) == Lower(x);
    var i :| 0 <= i < |admitted| && ReleaseHas(admitted[i], cond.key, Lower(cond.values[k]));
  }

  lemma {:induction false} WindowIndex(conds: seq<Cond>) returns (i: nat)
    requires WindowOf(conds) != []
    ensures i < |conds| && conds[i].op == NUMERIC_EQUALS && conds[i].values != [] && conds[i].values[0] == WindowOf(conds)
  {
    if conds[0].op == NUMERIC_EQUALS {
      i := 0;
    } else {
      i := WindowIndex(conds[1..]);
      i := i + 1;
    }
  }

  lemma {:induction false} DecimalBack(n: nat)
    ensures AllDigits(DecimalText(n)) && Decimal(DecimalText(n)) == n && DecimalText(n) != []
  {
    if n < 10 {
      assert DecimalText(n)[..0] == [];
      assert Decimal([]) == 0;
    } else {
      DecimalBack(n / 10);
      var t := DecimalText(n);
      assert t[..|t| - 1] == DecimalText(n / 10);
    }
  }

  lemma WindowPinned(c: seq<Member>, days: int, req: Request)
    requires CondsOf(c).Some? && 0 <= days && WindowOf(CondsOf(c).value) == IntText(days)
    requires ConditionMayHold(Some(Obj(c)), req)
    ensures req.window == Some(days)
  {
    hide ConditionMayHold, CondsOf;
    DecimalBack(days);
    var i := WindowIndex(CondsOf(c).value);
    NumericCond(c, i, req);
  }

  // ---- principals -------------------------------------------------------------------------------

  lemma RootAccount(x: Text, account: Text)
    requires IamArnAccount(IAM_PREFIX + x + ROOT_SUFFIX) == Some(account)
    ensures x == account
  {
    var p := IAM_PREFIX + x + ROOT_SUFFIX;
    var n := |IAM_PREFIX|;
    assert n == 13 && |ROOT_SUFFIX| == 5;
    assert p[|p| - 5] == COLON && !RoleUnit(COLON);
    if p[n + 12..][1..] == U("root") {
      assert |x| == 12;
      assert p[n..n + 12] == x;
    }
  }

  lemma PrincipalPinned(principal: Option<JVal>, account: Text, req: Request)
    requires PrincipalOk(principal, account) && PrincipalMayMatch(principal, req)
    ensures OfAccount(req, account)
  {
    hide IamArnAccount;
    var arns := TextsOf(Get(principal.value.members, U("AWS"))).value;
    var k :| 0 <= k < |arns| && PrincipalMatches(arns[k], req);
    assert IamArnAccount(arns[k]) == Some(account);
    HasPrefix(arns[k]);
    if arns[k] != req.principalArn { RootAccount(req.principalAccount, account); }
  }

  lemma HasPrefix(s: Text)
    requires IamArnAccount(s).Some?
    ensures IAM_PREFIX <= s
  {
  }

  lemma RetirementPinned(principal: Option<JVal>, input: Input, req: Request)
    requires ValidRetirement(input) && input.retirementPrincipal != []
    requires ExactPrincipal(principal, input.retirementPrincipal) && PrincipalMayMatch(principal, req)
    ensures req.principalArn == input.retirementPrincipal
  {
    hide IamArnAccount;
    var arn := input.retirementPrincipal;
    assert TextsOf(Get(principal.value.members, U("AWS"))) == Some([arn]);
    HasPrefix(arn);
    assert PrincipalMatches(arn, req);
  }

  // ---- one statement ------------------------------------------------------------------------------

  /** The kinds of listed actions exclude each other. */
  lemma KindsApart(a: Text)
    requires a in RETIREMENT
    ensures !Gated(a) && a !in READ_ONLY
    ensures Retires(a)
  {
    assert |DECRYPT| == 11 && |GENERATE| == 19;
  }

  lemma StatementSound(s: Statement, k: nat, input: Input, target: Release, req: Request)
    requires ValidRetirement(input) && AllowError(s, input, target) == 0
    requires k < |s.actions| && ActionMatches(s.actions[k], req.action)
    requires PrincipalMayMatch(s.principal, req) && ConditionMayHold(Some(Obj(s.condition)), req)
    ensures Intended(req, input, target)
  {
    hide CondsOf, ActionMatches, PrincipalMayMatch, ConditionMayHold, PrincipalOk, ExactPrincipal,
      Attested, WindowOf, IamArnAccount, AttestedImage, OfAccount, IntText;
    var a := s.actions[k];
    assert ActionOk(a, input);
    ListedMatch(a, input, req);
    PrincipalPinned(s.principal, input.account, req);
    Listed(a, input, req);
    forall b | b in [DECRYPT, GENERATE] + READ_ONLY + RETIREMENT && Is(req, b) ensures b == a { LowerTells(a, b); }
    if Gated(a) {
      assert SomeGated(s.actions);
      CallerPinned(s.condition, input.account, req);
      ImagePinned(s.condition, AdmittedFor(a, input.releases, target), req);
      assert forall b :: b in RETIREMENT && Is(req, b) ==> b == a;
      assert !IsAny(req, RETIREMENT) by { GatedIsNone(a); }
      assert Is(req, DECRYPT) ==> a == DECRYPT;
      assert Is(req, GENERATE) ==> a == GENERATE;
      assert a != SCHEDULE by { GatedIsNone(a); }
    } else if a in RETIREMENT {
      KindsApart(a);
      RetirementStatement(s, a, input, target, req);
    } else {
      assert a in READ_ONLY;
      assert !IsAny(req, RETIREMENT);
    }
  }

  lemma GatedIsNone(a: Text)
    requires Gated(a)
    ensures a !in RETIREMENT && a != SCHEDULE && DECRYPT != GENERATE
  {
    if a in RETIREMENT { KindsApart(a); }
    assert |DECRYPT| == 11 && |GENERATE| == 19;
  }

  lemma Listed(a: Text, input: Input, req: Request)
    requires ActionOk(a, input) && Is(req, a)
    ensures a in [DECRYPT, GENERATE] + READ_ONLY + RETIREMENT
    ensures IsAny(req, [DECRYPT, GENERATE] + READ_ONLY + RETIREMENT)
  {
    var all := [DECRYPT, GENERATE] + READ_ONLY + RETIREMENT;
    assert all[0] == DECRYPT && all[1] == GENERATE;
    assert a in all;
    var i :| 0 <= i < |all| && all[i] == a;
    assert Is(req, all[i]);
  }

  lemma RetirementStatement(s: Statement, a: Text, input: Input, target: Release, req: Request)
    requires ValidRetirement(input) && AllowError(s, input, target) == 0
    requires a in s.actions && Retires(a) && ActionOk(a, input) && Is(req, a)
    requires forall b :: b in [DECRYPT, GENERATE] + READ_ONLY + RETIREMENT && Is(req, b) ==> b == a
    requires PrincipalMayMatch(s.principal, req) && ConditionMayHold(Some(Obj(s.condition)), req)
    ensures input.retirementPrincipal != [] && req.callerAccount == Some(input.account)
    ensures req.principalArn == input.retirementPrincipal
    ensures Is(req, SCHEDULE) ==> req.window == Some(input.retirementWindowDays)
    ensures !Is(req, DECRYPT) && !Is(req, GENERATE)
  {
    hide CondsOf, PrincipalMayMatch, ConditionMayHold, PrincipalOk, ExactPrincipal, Attested, WindowOf, IamArnAccount, IntText;
    assert SomeRetires(s.actions);
    CallerPinned(s.condition, input.account, req);
    RetirementPinned(s.principal, input, req);
    if Is(req, SCHEDULE) {
      assert SCHEDULE in [DECRYPT, GENERATE] + READ_ONLY + RETIREMENT;
      WindowPinned(s.condition, input.retirementWindowDays, req);
    }
    var all := [DECRYPT, GENERATE] + READ_ONLY + RETIREMENT;
    assert all[0] == DECRYPT && all[1] == GENERATE;
  }

  // ---- the policy -----------------------------------------------------------------------------------

  lemma {:induction false} ParsedStatement(raws: seq<JVal>, keyArn: Text, k: nat)
    requires ParseStatements(raws, keyArn).Some? && k < |raws|
    ensures |ParseStatements(raws, keyArn).value| == |raws|
    ensures ParseStatement(raws[k], keyArn) == Some(ParseStatements(raws, keyArn).value[k])
    decreases |raws|
  {
    hide ParseStatement;
    var n := |raws| - 1;
    if k < n { ParsedStatement(raws[..n], keyArn, k); } else if n > 0 { ParsedStatement(raws[..n], keyArn, 0); }
  }

  lemma {:induction false} NoErrorInAny(ss: seq<Statement>, input: Input, target: Release, k: nat)
    requires StatementsError(ss, input, target) == 0 && k < |ss| && ss[k].allow
    ensures AllowError(ss[k], input, target) == 0
    decreases |ss|
  {
    hide AllowError;
    if k < |ss| - 1 { NoErrorInAny(ss[..|ss| - 1], input, target, k); }
  }

  lemma RawStatementSound(raw: JVal, s: Statement, input: Input, target: Release, req: Request)
    requires ValidRetirement(input) && ParseStatement(raw, input.keyArn) == Some(s)
    requires s.allow ==> AllowError(s, input, target) == 0
    requires StatementMayAllow(raw, req)
    ensures Intended(req, input, target)
  {
    hide AllowError, ActionMatches, PrincipalMayMatch, ValidRetirement, Intended, BlockMayHold;
    var k :| 0 <= k < |s.actions| && ActionMatches(s.actions[k], req.action);
    StatementSound(s, k, input, target, req);
  }

  lemma PolicySound(policy: JVal, input: Input, target: Release, req: Request)
    requires ValidRetirement(input) && RawStatements(policy).Some?
    requires ParseStatements(RawStatements(policy).value, input.keyArn).Some?
    requires StatementsError(ParseStatements(RawStatements(policy).value, input.keyArn).value, input, target) == 0
    requires PolicyMayAllow(policy, req)
    ensures Intended(req, input, target)
  {
    hide ParseStatement, AllowError, StatementMayAllow, Intended, ValidRetirement, ParseStatements, StatementsError, OnlyMembers;
    var raws := RawStatements(policy).value;
    var ss := ParseStatements(raws, input.keyArn).value;
    var k :| 0 <= k < |raws| && StatementMayAllow(raws[k], req);
    ParsedStatement(raws, input.keyArn, k);
    if ss[k].allow { NoErrorInAny(ss, input, target, k); }
    RawStatementSound(raws[k], ss[k], input, target, req);
  }

  /**
   * If the whole check passes, the policy document it read, however a JSON
   * reader resolves repeated names (there are none), grants only intended
   * requests: Decrypt carries the target's image, GenerateDataKey that of a
   * release up to the target, both from the pinned caller account; retirement
   * is for its exact principal, and ScheduleKeyDeletion for the pinned window;
   * nothing outside the listed actions is granted to anyone.
   */
  lemma CheckerSound(input: Input, req: Request)
    requires ReleaseKeyError(input) == 0
    ensures PolicyDocument(input.getKeyPolicy).Some?
    ensures FindRelease(input.releases, input.target).Some?
    ensures var doc := PolicyDocument(input.getKeyPolicy).value;
            var target := FindRelease(input.releases, input.target).value;
            && Parse(doc, false).Some?
            && (PolicyMayAllow(Parse(doc, false).value, req) ==> Intended(req, input, target))
  {
    hide ValidRetirement, MetadataOk, GrantsOk, PolicyDocument, FindRelease,
      RawStatements, ParseStatements, StatementsError, PolicyMayAllow, Intended, KeyArnOk;
    var doc := PolicyDocument(input.getKeyPolicy).value;
    StrictRefusesExactlyDuplicates(doc);
    var policy := Parse(doc, true).value;
    if PolicyMayAllow(policy, req) {
      PolicySound(policy, input, FindRelease(input.releases, input.target).value, req);
    }
  }

  // ---- what the check means, seen from the other side ----------------------------------------------

  /** The identifiers that have an account are exactly the root and the well-formed roles of a 12-digit account. */
  lemma IamArnForms(s: Text, account: Text)
    ensures IamArnAccount(s) == Some(account) <==>
            && ValidAccount(account)
            && (s == IAM_PREFIX + account + ROOT_SUFFIX
                || exists name: Text :: RoleNameOk(name) && s == IAM_PREFIX + account + [COLON] + ROLE_PREFIX + name)
  {
    hide RoleNameOk;
    var n := |IAM_PREFIX|;
    assert ROOT_SUFFIX == [COLON] + U("root");
    if IamArnAccount(s) == Some(account) {
      var rest := s[n + 12..];
      assert s == IAM_PREFIX + account + rest;
      assert rest == [COLON] + rest[1..];
      if rest[1..] != U("root") {
        var name := rest[1..][|ROLE_PREFIX|..];
        assert rest[1..] == ROLE_PREFIX + name;
        assert s == IAM_PREFIX + account + [COLON] + ROLE_PREFIX + name;
      }
    }
    if ValidAccount(account) && s == IAM_PREFIX + account + ROOT_SUFFIX {
      assert s[n..n + 12] == account && s[n + 12..] == ROOT_SUFFIX && ROOT_SUFFIX[1..] == U("root");
    }
    if ValidAccount(account) && exists name: Text :: RoleNameOk(name) && s == IAM_PREFIX + account + [COLON] + ROLE_PREFIX + name {
      var name: Text :| RoleNameOk(name) && s == IAM_PREFIX + account + [COLON] + ROLE_PREFIX + name;
      assert s[n..n + 12] == account && s[n + 12..] == [COLON] + (ROLE_PREFIX + name);
      assert s[n + 12..][1..] == ROLE_PREFIX + name;
      assert |U("root")| == 4 && |ROLE_PREFIX| == 5;
      assert (ROLE_PREFIX + name)[|ROLE_PREFIX|..] == name;
    }
  }
}
