/**
 * The release key's policy as the deployment renders it
 * (lib/vault/release-key-policy.ts), and the check of
 * lambda/shared/keypolicy.ts on it: when exactly it passes.
 */
module ReleaseKeyPolicy {
  import opened Json
  import opened JsonTheorems
  import opened KeyPolicy
  import opened KeyPolicyExample
  import opened KeyPolicySoundness
  import opened Wrappers

  /** `admitted`: the PCR0s of the other releases that may seal for this one. */
  datatype PolicyInput = PolicyInput(
    account: Text, release: int, pcr0: Text, admitted: seq<Text>,
    hostRole: Text, retirementRole: Text, window: int)

  // ---- what is rendered -----------------------------------------------------------------

  /** 96 lower-case hexadecimal digits. */
  predicate IsPcr0(t: Text) { |t| == 96 && forall i :: 0 <= i < 96 ==> 0x30 <= t[i] <= 0x39 || 0x61 <= t[i] <= 0x66 }

  function RolesOf(account: Text): Text { U("arn:aws:iam::") + account + U(":role/") }

  predicate Distinct(ts: seq<Text>) { forall i, j :: 0 <= i < j < |ts| ==> ts[i] != ts[j] }

  predicate ValidInput(p: PolicyInput) {
    && |p.account| == 12 && (forall i :: 0 <= i < 12 ==> 0x30 <= p.account[i] <= 0x39)
    && 1 <= p.release <= 9_007_199_254_740_991
    && IsPcr0(p.pcr0) && (forall k :: 0 <= k < |p.admitted| ==> IsPcr0(p.admitted[k]))
    && Distinct(p.admitted + [p.pcr0])
    && (p.window == 30 || p.window == 7)
    && RolesOf(p.account) <= p.hostRole && RolesOf(p.account) <= p.retirementRole
    && p.hostRole != p.retirementRole
  }

  function Texts(ts: seq<Text>): JVal { Arr(seq(|ts|, k requires 0 <= k < |ts| => Str(ts[k]))) }

  function CallerAccount(p: PolicyInput): Member {
    Member(U("StringEquals"), Obj([Member(U("kms:CallerAccount"), Str(p.account))]))
  }

  function Image(pcr0s: JVal): Member {
    Member(U("StringEqualsIgnoreCase"), Obj([Member(U("kms:RecipientAttestation:ImageSha384"), pcr0s)]))
  }

  function Window(p: PolicyInput): Member {
    Member(U("NumericEquals"), Obj([Member(U("kms:ScheduleKeyDeletionPendingWindowInDays"), Str(if p.window == 30 then U("30") else U("7")))]))
  }

  function SealPcr0s(p: PolicyInput): JVal { if p.admitted == [] then Str(p.pcr0) else Texts(p.admitted + [p.pcr0]) }

  /** One Allow statement on the key itself. */
  function AllowJson(sid: Text, aws: JVal, action: JVal, condition: seq<Member>): JVal {
    Obj([Member(U("Sid"), Str(sid)),
         Member(U("Effect"), Str(U("Allow"))),
         Member(U("Principal"), Obj([Member(U("AWS"), aws)])),
         Member(U("Action"), action),
         Member(U("Resource"), Str(U("*")))]
        + if condition == [] then [] else [Member(U("Condition"), Obj(condition))])
  }

  function Unseal(p: PolicyInput): JVal {
    AllowJson(U("UnsealOnlyInRelease") + IntText(p.release), Str(p.hostRole), Str(U("kms:Decrypt")), [Image(Str(p.pcr0)), CallerAccount(p)])
  }

  function Seal(p: PolicyInput): JVal {
    AllowJson(U("SealFromAdmittedReleases"), Str(p.hostRole), Str(U("kms:GenerateDataKey")), [Image(SealPcr0s(p)), CallerAccount(p)])
  }

  function Verify(p: PolicyInput): JVal {
    AllowJson(U("EnclaveVerifiesThisPolicy"), Texts([p.hostRole, p.retirementRole]),
              Texts([U("kms:DescribeKey"), U("kms:GetKeyPolicy"), U("kms:ListGrants")]), [])
  }

  function Retire(p: PolicyInput): JVal {
    AllowJson(U("RetireAfterNotice"), Str(p.retirementRole), Str(U("kms:ScheduleKeyDeletion")), [Window(p), CallerAccount(p)])
  }

  function Rescue(p: PolicyInput): JVal {
    AllowJson(U("RescueBeforeDeletion"), Str(p.retirementRole), Texts([U("kms:CancelKeyDeletion"), U("kms:EnableKey")]), [CallerAccount(p)])
  }

  function Policy(p: PolicyInput): JVal {
    Obj([Member(U("Version"), Str(U("2012-10-17"))),
         Member(U("Id"), Str(U("vettid-release-") + IntText(p.release))),
         Member(U("Statement"), Arr([Unseal(p), Seal(p), Verify(p), Retire(p), Rescue(p)]))])
  }

  /** The policy as an object, or nothing for an input that is refused. */
  function RenderReleaseKeyPolicy(p: PolicyInput): Option<JVal> {
    if ValidInput(p) then Some(Policy(p)) else None
  }

  // ---- the statements as the check reads them ---------------------------------------------

  function Aws(v: JVal): Option<JVal> { Some(Obj([Member(U("AWS"), v)])) }

  lemma TextsBack(ts: seq<Text>)
    requires ts != []
    ensures TextsOf(Some(Texts(ts))) == Some(ts)
  {
    assert TextsOf(Some(Texts(ts))).value == ts;
  }

  lemma NamesApart()
    ensures |STATEMENT_MEMBERS| == 6 && forall i, j :: 0 <= i < j < 6 ==> STATEMENT_MEMBERS[i] != STATEMENT_MEMBERS[j]
  {
    EffectIsNotAction();
    hide U;
    assert |U("Sid")| == 3 && |U("Effect")| == 6 && |U("Principal")| == 9 && |U("Action")| == 6 && |U("Resource")| == 8 && |U("Condition")| == 9;
  }

  /** A statement whose members are the first few of these names, in this order. */
  lemma NamedMembers(m: seq<Member>, name: Text, k: nat)
    requires |m| <= 6 && k < 6 && STATEMENT_MEMBERS[k] == name
    requires forall i :: 0 <= i < |m| ==> m[i].name == STATEMENT_MEMBERS[i]
    ensures Get(m, name) == if k < |m| then Some(m[k].value) else None
  {
    NamesApart();
    hide U, STATEMENT_MEMBERS, Get;
    if k < |m| { GetAt(m, k); } else { assert !HasName(m, name); }
  }

  lemma AllowNames(sid: Text, aws: JVal, action: JVal, condition: seq<Member>)
    ensures var m := AllowJson(sid, aws, action, condition).members;
            && |m| == (if condition == [] then 5 else 6)
            && (forall i :: 0 <= i < |m| ==> i < |STATEMENT_MEMBERS| && m[i].name == STATEMENT_MEMBERS[i])
            && OnlyMembers(m, STATEMENT_MEMBERS)
  {
    hide U;
  }

  lemma AllowMembers(sid: Text, aws: JVal, action: JVal, condition: seq<Member>)
    ensures var m := AllowJson(sid, aws, action, condition).members;
            && Get(m, U("Sid")) == Some(Str(sid))
            && Get(m, U("Effect")) == Some(Str(U("Allow")))
            && Get(m, U("Principal")) == Aws(aws)
            && Get(m, U("Action")) == Some(action)
            && Get(m, U("Resource")) == Some(Str(U("*")))
            && Get(m, U("Condition")) == (if condition == [] then None else Some(Obj(condition)))
  {
    hide U, Get, OnlyMembers;
    AllowNames(sid, aws, action, condition);
    var m := AllowJson(sid, aws, action, condition).members;
    NamedMembers(m, U("Sid"), 0);
    NamedMembers(m, U("Effect"), 1);
    NamedMembers(m, U("Principal"), 2);
    NamedMembers(m, U("Action"), 3);
    NamedMembers(m, U("Resource"), 4);
    NamedMembers(m, U("Condition"), 5);
  }

  lemma AllowParses(sid: Text, aws: JVal, action: JVal, actions: seq<Text>, condition: seq<Member>, keyArn: Text)
    requires TextsOf(Some(action)) == Some(actions)
    ensures ParseStatement(AllowJson(sid, aws, action, condition), keyArn) == Some(Statement(true, Aws(aws), actions, condition))
  {
    hide U, Get, OnlyMembers, TextsOf;
    AllowNames(sid, aws, action, condition);
    AllowMembers(sid, aws, action, condition);
    assert |U("Allow")| == 5 && |U("Deny")| == 4;
  }

  /** One entry of a block of strings. */
  lemma EntryRead(op: Text, key: Text, v: JVal, vals: seq<Text>)
    requires op == STRING_EQUALS || op == STRING_EQUALS_IGNORE_CASE
    requires TextsOf(Some(v)) == Some(vals) && AllowedEntry(op, key, vals)
    ensures OperatorConds(op, Obj([Member(key, v)])) == Some([Cond(op, key, vals)])
  {
    hide AllowedEntry, TextsOf;
    var ms := [Member(key, v)];
    assert |STRING_EQUALS_IGNORE_CASE| == 22 && |STRING_EQUALS| == 12 && |NUMERIC_EQUALS| == 13;
    assert ms[..0] == [] && EntryConds(op, ms[..0]) == Some([]);
    assert EntryConds(op, ms) == Some([] + [Cond(op, key, vals)]);
    assert [] + [Cond(op, key, vals)] == [Cond(op, key, vals)];
  }

  lemma OneCond(a: Member, ca: Cond)
    requires OperatorConds(a.name, a.value) == Some([ca])
    ensures CondsOf([a]) == Some([ca])
  {
    hide OperatorConds;
    assert [a][..0] == [] && CondsOf([a][..0]) == Some([]);
    assert [] + [ca] == [ca];
  }

  lemma TwoConds(a: Member, b: Member, ca: Cond, cb: Cond)
    requires OperatorConds(a.name, a.value) == Some([ca]) && OperatorConds(b.name, b.value) == Some([cb])
    ensures CondsOf([a, b]) == Some([ca, cb])
  {
    hide OperatorConds;
    OneCond(a, ca);
    assert [a, b][..1] == [a];
    assert [ca] + [cb] == [ca, cb];
  }

  lemma CallerRead(p: PolicyInput)
    requires ValidInput(p)
    ensures var m := CallerAccount(p);
            OperatorConds(m.name, m.value) == Some([Cond(STRING_EQUALS, KEY_CALLER, [p.account])])
  {
    assert |KEY_CALLER| == 17 && |KEY_IMAGE| == 36 && |KEY_PCR0| == 29 && |KEY_PCR_PREFIX| == 28 && |KEY_CONTEXT_PREFIX| == 22;
    EntryRead(STRING_EQUALS, KEY_CALLER, Str(p.account), [p.account]);
  }

  lemma ImageRead(v: JVal, vals: seq<Text>)
    requires TextsOf(Some(v)) == Some(vals) && forall k :: 0 <= k < |vals| ==> IsPcr0(vals[k])
    ensures var m := Image(v);
            OperatorConds(m.name, m.value) == Some([Cond(STRING_EQUALS_IGNORE_CASE, KEY_IMAGE, vals)])
  {
    hide TextsOf;
    EntryRead(STRING_EQUALS_IGNORE_CASE, KEY_IMAGE, v, vals);
  }

  lemma WindowRead(p: PolicyInput)
    requires ValidInput(p)
    ensures var m := Window(p);
            OperatorConds(m.name, m.value) == Some([Cond(NUMERIC_EQUALS, KEY_WINDOW, [if p.window == 30 then U("30") else U("7")])])
  {
    var m := Window(p);
    assert Get(m.value.members, KEY_WINDOW) == Some(m.value.members[0].value);
  }

  // ---- when each passes checks 6 to 8 ---------------------------------------------------------

  lemma PrincipalOne(arn: Text, account: Text)
    ensures PrincipalOk(Aws(Str(arn)), account) <==> IamArnAccount(arn) == Some(account)
    ensures ExactPrincipal(Aws(Str(arn)), account) <==> arn == account
    ensures NamesPrincipal(Aws(Str(arn)), account) <==> arn == account
  {
    hide IamArnAccount;
    var ms := [Member(U("AWS"), Str(arn))];
    assert Get(ms, U("AWS")) == Some(Str(arn));
    assert TextsOf(Some(Str(arn))) == Some([arn]) && [arn][0] == arn;
  }

  /** The two conditions of a gated statement: the image and the caller's account. */
  function ImageAndCaller(p: PolicyInput, vals: seq<Text>): seq<Cond> {
    [Cond(STRING_EQUALS_IGNORE_CASE, KEY_IMAGE, vals), Cond(STRING_EQUALS, KEY_CALLER, [p.account])]
  }

  lemma ImageAndCallerTell(p: PolicyInput, vals: seq<Text>, account: Text, admitted: seq<Release>)
    ensures var conds := ImageAndCaller(p, vals);
            && WindowOf(conds) == [] && NamesCaller(conds)
            && (CallersOk(conds, account) <==> p.account == account)
            && (Attested(conds, admitted) <==> forall k :: 0 <= k < |vals| ==> SomeReleaseHas(admitted, KEY_IMAGE, Lower(vals[k])))
  {
    hide IamArnAccount, SomeReleaseHas;
    assert |STRING_EQUALS_IGNORE_CASE| == 22 && |STRING_EQUALS| == 12 && |NUMERIC_EQUALS| == 13;
    assert |KEY_CALLER| == 17 && |KEY_IMAGE| == 36 && |KEY_PCR0| == 29 && |KEY_PCR_PREFIX| == 28 && |KEY_PRINCIPAL| == 16;
    var conds := ImageAndCaller(p, vals);
    assert conds[1..] == [conds[1]] && conds[1..][1..] == [] && WindowOf([]) == [];
    assert WindowOf(conds[1..]) == [];
    assert conds[1].key == KEY_CALLER && IsPcr0Key(conds[0].key);
    assert conds[1].values[0] == p.account;
    assert CallerOk(conds[0], account) && (CallerOk(conds[1], account) <==> p.account == account);
    assert CondAttests(conds[1], admitted);
    assert CondAttests(conds[0], admitted) <==> forall k :: 0 <= k < |vals| ==> SomeReleaseHas(admitted, KEY_IMAGE, Lower(vals[k]));
  }

  lemma OneGated(action: Text, input: Input, conds: seq<Cond>, target: Release)
    requires action == DECRYPT || action == GENERATE
    ensures ActionsOk([action], input) && SomeGated([action]) && !SomeRetires([action]) && !SomeReadOnly([action])
    ensures SCHEDULE !in [action]
    ensures GatedAttested([action], conds, input, target) <==> Attested(conds, AdmittedFor(action, input.releases, target))
  {
    hide Attested;
    assert |DECRYPT| == 11 && |GENERATE| == 19 && |SCHEDULE| == 23;
    assert Gated([action][0]);
    assert forall k :: 0 <= k < 1 ==> [action][k] == action;
  }

  lemma GatedPasses(p: PolicyInput, action: Text, vals: seq<Text>, condition: seq<Member>, input: Input, target: Release)
    requires action == DECRYPT || action == GENERATE
    requires CondsOf(condition) == Some(ImageAndCaller(p, vals))
    ensures AllowError(Statement(true, Aws(Str(p.hostRole)), [action], condition), input, target) == 0 <==>
            && IamArnAccount(p.hostRole) == Some(input.account) && p.account == input.account
            && (input.retirementPrincipal != [] ==> p.hostRole != input.retirementPrincipal)
            && (forall k :: 0 <= k < |vals| ==> SomeReleaseHas(AdmittedFor(action, input.releases, target), KEY_IMAGE, Lower(vals[k])))
  {
    hide CondsOf, ActionsOk, GatedAttested, PrincipalOk, ExactPrincipal, NamesPrincipal, CallersOk, NamesCaller, WindowOf, SomeGated,
      SomeRetires, SomeReadOnly, IamArnAccount, IntText, Attested, AdmittedFor, Aws, SomeReleaseHas, Lower, U, Gated, ImageAndCaller;
    var conds := ImageAndCaller(p, vals);
    OneGated(action, input, conds, target);
    ImageAndCallerTell(p, vals, input.account, AdmittedFor(action, input.releases, target));
    PrincipalOne(p.hostRole, input.account);
    PrincipalOne(p.hostRole, input.retirementPrincipal);
  }

  lemma PrincipalTwo(a: Text, b: Text, account: Text)
    ensures PrincipalOk(Aws(Texts([a, b])), account) <==> IamArnAccount(a) == Some(account) && IamArnAccount(b) == Some(account)
  {
    hide IamArnAccount;
    TextsBack([a, b]);
    var ms := [Member(U("AWS"), Texts([a, b]))];
    assert Get(ms, U("AWS")) == Some(Texts([a, b]));
    assert [a, b][0] == a && [a, b][1] == b;
  }

  const VERIFY_ACTIONS := [U("kms:DescribeKey"), U("kms:GetKeyPolicy"), U("kms:ListGrants")]

  lemma VerifyAction(input: Input, k: nat)
    requires k < 3
    ensures var a := VERIFY_ACTIONS[k]; ActionOk(a, input) && !Gated(a) && !Retires(a) && a != SCHEDULE
  {
    var actions := VERIFY_ACTIONS;
    assert |actions[0]| == 15 && |actions[1]| == 16 && |actions[2]| == 14;
    assert |DECRYPT| == 11 && |GENERATE| == 19 && |SCHEDULE| == 23;
    assert READ_ONLY[0] == actions[0] && READ_ONLY[1] == actions[1] && READ_ONLY[2] == actions[2];
  }

  lemma VerifyActions(input: Input)
    ensures ActionsOk(VERIFY_ACTIONS, input) && !SomeGated(VERIFY_ACTIONS) && !SomeRetires(VERIFY_ACTIONS) && SCHEDULE !in VERIFY_ACTIONS
  {
    var actions := VERIFY_ACTIONS;
    forall k | 0 <= k < 3 ensures ActionOk(actions[k], input) && !Gated(actions[k]) && !Retires(actions[k]) && actions[k] != SCHEDULE {
      VerifyAction(input, k);
    }
    hide U, ActionOk, Gated, Retires;
  }

  lemma VerifyPasses(p: PolicyInput, input: Input, target: Release)
    ensures AllowError(Statement(true, Aws(Texts([p.hostRole, p.retirementRole])), VERIFY_ACTIONS, []), input, target) == 0 <==>
            IamArnAccount(p.hostRole) == Some(input.account) && IamArnAccount(p.retirementRole) == Some(input.account)
  {
    VerifyActions(input);
    PrincipalTwo(p.hostRole, p.retirementRole, input.account);
    assert GatedAttested(VERIFY_ACTIONS, [], input, target) by { NoneGated(VERIFY_ACTIONS, [], input, target); }
    hide ActionsOk, GatedAttested, PrincipalOk, ExactPrincipal, NamesPrincipal, SomeGated, SomeRetires, SomeReadOnly, IamArnAccount,
      IntText, Aws, Texts, VERIFY_ACTIONS;
    assert CondsOf([]) == Some([]) && WindowOf([]) == [];
  }

  lemma NoneGated(actions: seq<Text>, conds: seq<Cond>, input: Input, target: Release)
    requires !SomeGated(actions)
    ensures GatedAttested(actions, conds, input, target)
  {
  }

  lemma RetirementActions(actions: seq<Text>, input: Input)
    requires actions == [SCHEDULE] || actions == [U("kms:CancelKeyDeletion"), U("kms:EnableKey")]
    ensures ActionsOk(actions, input) <==> input.retirementPrincipal != []
    ensures !SomeGated(actions) && SomeRetires(actions) && !SomeReadOnly(actions)
    ensures SCHEDULE in actions <==> actions == [SCHEDULE]
  {
    assert |SCHEDULE| == 23 && |U("kms:CancelKeyDeletion")| == 21 && |U("kms:EnableKey")| == 13;
    assert RETIREMENT[0] == SCHEDULE && RETIREMENT[1] == U("kms:CancelKeyDeletion") && RETIREMENT[2] == U("kms:EnableKey");
    forall k | 0 <= k < |actions| ensures !Gated(actions[k]) && actions[k] !in READ_ONLY && Retires(actions[k]) {
      assert actions[k] in RETIREMENT;
      KindsApart(actions[k]);
    }
    assert Retires(actions[0]);
    assert ActionOk(actions[0], input) <==> input.retirementPrincipal != [];
  }

  lemma CallerTells(p: PolicyInput, conds: seq<Cond>, account: Text)
    requires conds != [] && conds[|conds| - 1] == Cond(STRING_EQUALS, KEY_CALLER, [p.account])
    requires forall i :: 0 <= i < |conds| - 1 ==> conds[i].key == KEY_WINDOW
    ensures NamesCaller(conds) && (CallersOk(conds, account) <==> p.account == account)
  {
    hide IamArnAccount;
    assert |KEY_WINDOW| == 42 && |KEY_CALLER| == 17 && |KEY_PRINCIPAL| == 16;
    var c := conds[|conds| - 1];
    assert c.values[0] == p.account;
    assert CallerOk(c, account) <==> p.account == account;
  }

  /** A statement of retirement actions, with the window's text where deletion is scheduled. */
  lemma RetirementPasses(p: PolicyInput, actions: seq<Text>, condition: seq<Member>, conds: seq<Cond>, input: Input, target: Release)
    requires actions == [SCHEDULE] || actions == [U("kms:CancelKeyDeletion"), U("kms:EnableKey")]
    requires CondsOf(condition) == Some(conds) && conds != [] && conds[|conds| - 1] == Cond(STRING_EQUALS, KEY_CALLER, [p.account])
    requires forall i :: 0 <= i < |conds| - 1 ==> conds[i].key == KEY_WINDOW
    requires WindowOf(conds) != [] <==> actions == [SCHEDULE]
    ensures AllowError(Statement(true, Aws(Str(p.retirementRole)), actions, condition), input, target) == 0 <==>
            && input.retirementPrincipal != [] && p.retirementRole == input.retirementPrincipal
            && IamArnAccount(p.retirementRole) == Some(input.account) && p.account == input.account
            && (actions == [SCHEDULE] ==> WindowOf(conds) == IntText(input.retirementWindowDays))
  {
    RetirementActions(actions, input);
    NoneGated(actions, conds, input, target);
    CallerTells(p, conds, input.account);
    PrincipalOne(p.retirementRole, input.account);
    PrincipalOne(p.retirementRole, input.retirementPrincipal);
    hide CondsOf, ActionsOk, GatedAttested, PrincipalOk, ExactPrincipal, NamesPrincipal, CallersOk, NamesCaller, WindowOf, SomeGated,
      SomeRetires, SomeReadOnly, IamArnAccount, IntText, Aws, U;
  }

  lemma WindowText(days: int)
    ensures IntText(days) == U("30") <==> days == 30
    ensures IntText(days) == U("7") <==> days == 7
  {
    assert DecimalText(30) == DecimalText(3) + [0x30] == U("30") && DecimalText(7) == U("7");
    if days >= 0 {
      DecimalBack(days);
      DecimalBack(30);
      DecimalBack(7);
    } else {
      assert U("30")[0] == 0x33 && U("7")[0] == 0x37;
    }
  }

  // ---- role names ------------------------------------------------------------------------------

  /** A letter, a digit or one of `+=,.@_-`. */
  predicate IsNameUnit(u: CodeUnit) {
    || 0x41 <= u <= 0x5A || 0x61 <= u <= 0x7A || 0x30 <= u <= 0x39
    || u == 0x2B || u == 0x3D || u == 0x2C || u == 0x2E || u == 0x40 || u == 0x5F || u == 0x2D
  }

  /** A name unit, or a slash between two. */
  predicate NamePlace(name: Text, i: nat)
    requires i < |name|
  {
    IsNameUnit(name[i]) || (name[i] == 0x2F && 0 < i < |name| - 1 && IsNameUnit(name[i - 1]) && IsNameUnit(name[i + 1]))
  }

  /** A role's path and name: such units in parts that slashes separate, at most 512 in all. */
  predicate IsRoleName(name: Text) { 1 <= |name| <= 512 && forall i :: 0 <= i < |name| ==> NamePlace(name, i) }

  lemma RoleNameForms(name: Text)
    ensures RoleNameOk(name) <==> IsRoleName(name)
  {
    if RoleNameOk(name) {
      forall i | 0 <= i < |name| ensures NamePlace(name, i) {
        assert RoleUnit(name[i]);
        if name[i] == 0x2F {
          assert name[i - 1 + 1] == 0x2F;
          assert RoleUnit(name[i - 1]) && RoleUnit(name[i + 1]);
        }
      }
    }
    if IsRoleName(name) {
      assert NamePlace(name, 0) && NamePlace(name, |name| - 1);
      forall i | 0 <= i < |name| ensures RoleUnit(name[i]) && (i < |name| - 1 && name[i] == 0x2F ==> name[i + 1] != 0x2F) {
        assert NamePlace(name, i);
      }
    }
  }

  lemma RoleAccount(account: Text, role: Text, b: Text)
    requires |account| == 12 && AllDigits(account) && RolesOf(account) <= role
    ensures IamArnAccount(role) == Some(b) <==> b == account && IsRoleName(role[|RolesOf(account)|..])
  {
    var n, name := |IAM_PREFIX|, role[|RolesOf(account)|..];
    RoleNameForms(name);
    hide RoleNameOk, IsRoleName;
    assert |U(":role/")| == 6 && |ROLE_PREFIX| == 5 && |U("root")| == 4;
    assert role == RolesOf(account) + name;
    assert role[n..n + 12] == account && role[n + 12..] == U(":role/") + name;
    var rest := role[n + 12..];
    assert rest[1..] == ROLE_PREFIX + name;
    assert rest[0] == COLON;
    assert rest[1..] != U("root") by { assert rest[1..][1] == U("role/")[1] == 0x6F; assert rest[1..][2] == U("role/")[2] == 0x6C; assert U("root")[2] == 0x6F; }
    assert rest[1..][|ROLE_PREFIX|..] == name;
  }

  // ---- the whole policy ------------------------------------------------------------------------

  /** The five statements as the check reads them. */
  function Read(p: PolicyInput): seq<Statement> {
    [Statement(true, Aws(Str(p.hostRole)), [DECRYPT], [Image(Str(p.pcr0)), CallerAccount(p)]),
     Statement(true, Aws(Str(p.hostRole)), [GENERATE], [Image(SealPcr0s(p)), CallerAccount(p)]),
     Statement(true, Aws(Texts([p.hostRole, p.retirementRole])), VERIFY_ACTIONS, []),
     Statement(true, Aws(Str(p.retirementRole)), [SCHEDULE], [Window(p), CallerAccount(p)]),
     Statement(true, Aws(Str(p.retirementRole)), [U("kms:CancelKeyDeletion"), U("kms:EnableKey")], [CallerAccount(p)])]
  }

  function Raw(p: PolicyInput): seq<JVal> { [Unseal(p), Seal(p), Verify(p), Retire(p), Rescue(p)] }

  lemma {:induction false} AllParse(raws: seq<JVal>, ss: seq<Statement>, keyArn: Text)
    requires |raws| == |ss| && forall k :: 0 <= k < |raws| ==> ParseStatement(raws[k], keyArn) == Some(ss[k])
    ensures ParseStatements(raws, keyArn) == Some(ss)
    decreases |raws|
  {
    hide ParseStatement;
    if raws != [] {
      var n := |raws| - 1;
      AllParse(raws[..n], ss[..n], keyArn);
      assert ss == ss[..n] + [ss[n]];
    }
  }

  lemma {:induction false} AllPass(ss: seq<Statement>, input: Input, target: Release)
    requires forall k :: 0 <= k < |ss| ==> AllowError(ss[k], input, target) == 0
    ensures StatementsError(ss, input, target) == 0
    decreases |ss|
  {
    hide AllowError;
    if ss != [] { AllPass(ss[..|ss| - 1], input, target); }
  }

  lemma ReadsBack(p: PolicyInput, keyArn: Text)
    ensures ParseStatements(Raw(p), keyArn) == Some(Read(p))
  {
    hide ParseStatement, U, Image, CallerAccount, Window, SealPcr0s, TextsOf, Texts, AllowJson, Aws;
    TextsBack(VERIFY_ACTIONS);
    TextsBack([U("kms:CancelKeyDeletion"), U("kms:EnableKey")]);
    assert TextsOf(Some(Str(DECRYPT))) == Some([DECRYPT]) && TextsOf(Some(Str(GENERATE))) == Some([GENERATE])
      && TextsOf(Some(Str(SCHEDULE))) == Some([SCHEDULE]) by { OneText(DECRYPT); OneText(GENERATE); OneText(SCHEDULE); }
    AllowParses(U("UnsealOnlyInRelease") + IntText(p.release), Str(p.hostRole), Str(DECRYPT), [DECRYPT], [Image(Str(p.pcr0)), CallerAccount(p)], keyArn);
    AllowParses(U("SealFromAdmittedReleases"), Str(p.hostRole), Str(GENERATE), [GENERATE], [Image(SealPcr0s(p)), CallerAccount(p)], keyArn);
    AllowParses(U("EnclaveVerifiesThisPolicy"), Texts([p.hostRole, p.retirementRole]), Texts(VERIFY_ACTIONS), VERIFY_ACTIONS, [], keyArn);
    AllowParses(U("RetireAfterNotice"), Str(p.retirementRole), Str(SCHEDULE), [SCHEDULE], [Window(p), CallerAccount(p)], keyArn);
    AllowParses(U("RescueBeforeDeletion"), Str(p.retirementRole), Texts([U("kms:CancelKeyDeletion"), U("kms:EnableKey")]),
                [U("kms:CancelKeyDeletion"), U("kms:EnableKey")], [CallerAccount(p)], keyArn);
    AllParse(Raw(p), Read(p), keyArn);
  }

  lemma OneText(t: Text)
    ensures TextsOf(Some(Str(t))) == Some([t])
  {
  }

  lemma PolicyShape(p: PolicyInput)
    ensures RawStatements(Policy(p)) == Some(Raw(p))
  {
    hide U, Get, Unseal, Seal, Verify, Retire, Rescue, IntText;
    var policy := Policy(p);
    assert |U("Version")| == 7 && |U("Statement")| == 9 && |U("Id")| == 2;
    GetAt(policy.members, 0);
    GetAt(policy.members, 1);
    GetAt(policy.members, 2);
    var names := [U("Version"), U("Id"), U("Statement")];
    assert names[0] == policy.members[0].name && names[1] == policy.members[1].name && names[2] == policy.members[2].name;
  }

  // ---- printed and read back --------------------------------------------------------------------

  ghost predicate Plain(v: JVal, d: int) { NoDuplicates(v) && ValidNumbers(v) && NestedAtMost(v, d) }

  lemma PlainTexts(ts: seq<Text>)
    ensures Plain(Texts(ts), 1)
  {
  }

  lemma PlainOne(name: Text, v: JVal, d: int)
    requires Plain(v, d) && d >= 0
    ensures Plain(Obj([Member(name, v)]), d + 1)
  {
  }

  lemma PlainObj(ms: seq<Member>, d: int)
    requires DistinctNames(ms) && d >= 0 && forall k :: 0 <= k < |ms| ==> Plain(ms[k].value, d)
    ensures Plain(Obj(ms), d + 1)
  {
  }

  lemma PlainDeeper(v: JVal, d: int, e: int)
    requires Plain(v, d) && d <= e
    ensures Plain(v, e)
  {
    Shallower(v, d, e);
  }

  lemma PlainStr(t: Text, d: int)
    requires d >= 0
    ensures Plain(Str(t), d)
  {
  }

  lemma PlainConditions(p: PolicyInput)
    ensures Plain(Obj([Image(Str(p.pcr0)), CallerAccount(p)]), 4)
    ensures Plain(Obj([Image(SealPcr0s(p)), CallerAccount(p)]), 4)
    ensures Plain(Obj([Window(p), CallerAccount(p)]), 4)
    ensures Plain(Obj([CallerAccount(p)]), 4)
  {
    hide U, Texts, Plain;
    assert |U("StringEqualsIgnoreCase")| == 22 && |U("StringEquals")| == 12 && |U("NumericEquals")| == 13;
    PlainTexts(p.admitted + [p.pcr0]);
    PlainStr(p.pcr0, 1);
    PlainStr(p.account, 1);
    PlainStr(if p.window == 30 then U("30") else U("7"), 1);
    PlainOne(U("kms:RecipientAttestation:ImageSha384"), Str(p.pcr0), 1);
    PlainOne(U("kms:RecipientAttestation:ImageSha384"), SealPcr0s(p), 1);
    PlainOne(U("kms:CallerAccount"), Str(p.account), 1);
    PlainOne(U("kms:ScheduleKeyDeletionPendingWindowInDays"), Window(p).value.members[0].value, 1);
    PlainObj([Image(Str(p.pcr0)), CallerAccount(p)], 2);
    PlainObj([Image(SealPcr0s(p)), CallerAccount(p)], 2);
    PlainObj([Window(p), CallerAccount(p)], 2);
    PlainObj([CallerAccount(p)], 2);
    PlainDeeper(Obj([Image(Str(p.pcr0)), CallerAccount(p)]), 3, 4);
    PlainDeeper(Obj([Image(SealPcr0s(p)), CallerAccount(p)]), 3, 4);
    PlainDeeper(Obj([Window(p), CallerAccount(p)]), 3, 4);
    PlainDeeper(Obj([CallerAccount(p)]), 3, 4);
  }

  lemma PlainStatement(sid: Text, aws: JVal, action: JVal, condition: seq<Member>)
    requires Plain(aws, 1) && Plain(action, 1) && (condition != [] ==> Plain(Obj(condition), 4))
    ensures Plain(AllowJson(sid, aws, action, condition), 5)
  {
    NamesApart();
    AllowNames(sid, aws, action, condition);
    hide U, Plain, STATEMENT_MEMBERS, OnlyMembers;
    PlainStr(sid, 4);
    PlainStr(U("Allow"), 4);
    PlainStr(U("*"), 4);
    PlainOne(U("AWS"), aws, 1);
    PlainDeeper(Obj([Member(U("AWS"), aws)]), 2, 4);
    PlainDeeper(action, 1, 4);
    PlainObj(AllowJson(sid, aws, action, condition).members, 4);
  }

  lemma PlainRaw(p: PolicyInput, k: nat)
    requires k < 5
    ensures Plain(Raw(p)[k], 5)
  {
    hide U, Plain, AllowJson, IntText, Texts, Image, CallerAccount, Window, SealPcr0s;
    PlainConditions(p);
    PlainStr(p.hostRole, 1);
    PlainStr(p.retirementRole, 1);
    PlainTexts([p.hostRole, p.retirementRole]);
    PlainStr(DECRYPT, 1);
    PlainStr(GENERATE, 1);
    PlainStr(SCHEDULE, 1);
    PlainTexts(VERIFY_ACTIONS);
    PlainTexts([U("kms:CancelKeyDeletion"), U("kms:EnableKey")]);
    PlainStatement(U("UnsealOnlyInRelease") + IntText(p.release), Str(p.hostRole), Str(DECRYPT), [Image(Str(p.pcr0)), CallerAccount(p)]);
    PlainStatement(U("SealFromAdmittedReleases"), Str(p.hostRole), Str(GENERATE), [Image(SealPcr0s(p)), CallerAccount(p)]);
    PlainStatement(U("EnclaveVerifiesThisPolicy"), Texts([p.hostRole, p.retirementRole]), Texts(VERIFY_ACTIONS), []);
    PlainStatement(U("RetireAfterNotice"), Str(p.retirementRole), Str(SCHEDULE), [Window(p), CallerAccount(p)]);
    PlainStatement(U("RescueBeforeDeletion"), Str(p.retirementRole), Texts([U("kms:CancelKeyDeletion"), U("kms:EnableKey")]), [CallerAccount(p)]);
  }

  lemma PlainArr(es: seq<JVal>, d: int)
    requires d >= 0 && forall k :: 0 <= k < |es| ==> Plain(es[k], d)
    ensures Plain(Arr(es), d + 1)
  {
  }

  lemma PolicyPrints(p: PolicyInput)
    ensures Printable(Policy(p), 0)
  {
    hide U, Plain, IntText, Unseal, Seal, Verify, Retire, Rescue;
    forall k | 0 <= k < 5 ensures Plain(Raw(p)[k], 5) { PlainRaw(p, k); }
    PlainArr(Raw(p), 5);
    assert |U("Version")| == 7 && |U("Statement")| == 9 && |U("Id")| == 2;
    PlainStr(U("2012-10-17"), 6);
    PlainStr(U("vettid-release-") + IntText(p.release), 6);
    PlainObj(Policy(p).members, 6);
    PlainDeeper(Policy(p), 7, 64);
    assert Printable(Policy(p), 0) by { PlainIsPrintable(Policy(p)); }
  }

  lemma PlainIsPrintable(v: JVal)
    requires Plain(v, 64)
    ensures Printable(v, 0)
  {
  }

  // ---- when the check passes ---------------------------------------------------------------------

  /** The image of a release numbered up to the target. */
  ghost predicate OfEarlierRelease(input: Input, target: Release, pcr0: Text) {
    exists i :: 0 <= i < |input.releases| && input.releases[i].number <= target.number && input.releases[i].pcr0 == pcr0
  }

  /** The rendered policy is for these pins and this target. */
  ghost predicate Fits(p: PolicyInput, input: Input, target: Release)
    requires ValidInput(p)
  {
    && p.account == input.account
    && p.pcr0 == target.pcr0
    && (forall k :: 0 <= k < |p.admitted| ==> OfEarlierRelease(input, target, p.admitted[k]))
    && p.retirementRole == input.retirementPrincipal && p.window == input.retirementWindowDays
    && IsRoleName(p.hostRole[|RolesOf(p.account)|..]) && IsRoleName(p.retirementRole[|RolesOf(p.account)|..])
  }

  lemma LowerPcr0(t: Text)
    requires IsPcr0(t)
    ensures Lower(t) == t
  {
  }

  lemma {:induction false} AdmittedUpTo(rs: seq<Release>, number: int, pcr0: Text)
    ensures SomeReleaseHas(UpTo(rs, number), KEY_IMAGE, pcr0) <==> exists i :: 0 <= i < |rs| && rs[i].number <= number && rs[i].pcr0 == pcr0
    decreases |rs|
  {
    if rs != [] {
      var n := |rs| - 1;
      AdmittedUpTo(rs[..n], number, pcr0);
      assert forall i :: 0 <= i < n ==> rs[..n][i] == rs[i];
      var before, all := UpTo(rs[..n], number), UpTo(rs, number);
      assert forall i :: 0 <= i < |before| ==> all[i] == before[i];
      if rs[n].number <= number { assert all[|before|] == rs[n]; }
      if SomeReleaseHas(all, KEY_IMAGE, pcr0) {
        var i :| 0 <= i < |all| && ReleaseHas(all[i], KEY_IMAGE, pcr0);
        if i < |before| { assert ReleaseHas(before[i], KEY_IMAGE, pcr0); }
      }
      if SomeReleaseHas(before, KEY_IMAGE, pcr0) {
        var i :| 0 <= i < |before| && ReleaseHas(before[i], KEY_IMAGE, pcr0);
        assert ReleaseHas(all[i], KEY_IMAGE, pcr0);
      }
      if exists i :: 0 <= i < |rs| && rs[i].number <= number && rs[i].pcr0 == pcr0 {
        var i :| 0 <= i < |rs| && rs[i].number <= number && rs[i].pcr0 == pcr0;
        if i == n { assert ReleaseHas(all[|before|], KEY_IMAGE, pcr0); }
      }
    }
  }

  lemma UnsealPasses(p: PolicyInput, input: Input, target: Release)
    requires ValidInput(p)
    ensures AllowError(Read(p)[0], input, target) == 0 <==>
            && IamArnAccount(p.hostRole) == Some(input.account) && p.account == input.account
            && (input.retirementPrincipal != [] ==> p.hostRole != input.retirementPrincipal)
            && p.pcr0 == target.pcr0
  {
    hide AllowError, CondsOf, IamArnAccount, Aws, AdmittedFor;
    OneText(p.pcr0);
    ImageRead(Str(p.pcr0), [p.pcr0]);
    CallerRead(p);
    hide OperatorConds, Image, CallerAccount;
    TwoConds(Image(Str(p.pcr0)), CallerAccount(p), ImageAndCaller(p, [p.pcr0])[0], ImageAndCaller(p, [p.pcr0])[1]);
    GatedPasses(p, DECRYPT, [p.pcr0], Read(p)[0].condition, input, target);
    LowerPcr0(p.pcr0);
    assert AdmittedFor(DECRYPT, input.releases, target) == [target] by { TargetOnly(input.releases, target); }
    OnlyRelease(target, p.pcr0);
    assert [p.pcr0][0] == p.pcr0;
  }

  lemma TargetOnly(rs: seq<Release>, target: Release)
    ensures AdmittedFor(DECRYPT, rs, target) == [target]
    ensures AdmittedFor(GENERATE, rs, target) == UpTo(rs, target.number)
  {
    assert |DECRYPT| == 11 && |GENERATE| == 19;
  }

  lemma OnlyRelease(target: Release, pcr0: Text)
    ensures SomeReleaseHas([target], KEY_IMAGE, pcr0) <==> target.pcr0 == pcr0
  {
    assert [target][0] == target;
    assert ReleaseHas([target][0], KEY_IMAGE, pcr0) <==> target.pcr0 == pcr0;
  }

  lemma SealRead(p: PolicyInput)
    requires ValidInput(p)
    ensures CondsOf(Read(p)[1].condition) == Some(ImageAndCaller(p, p.admitted + [p.pcr0]))
  {
    var vals := p.admitted + [p.pcr0];
    SealTexts(p);
    assert forall k :: 0 <= k < |vals| ==> IsPcr0(vals[k]);
    hide TextsOf, SealPcr0s, CondsOf, OperatorConds;
    ImageRead(SealPcr0s(p), vals);
    CallerRead(p);
    TwoConds(Image(SealPcr0s(p)), CallerAccount(p), ImageAndCaller(p, vals)[0], ImageAndCaller(p, vals)[1]);
  }

  lemma AdmittedIsEarlier(input: Input, target: Release, pcr0: Text)
    ensures SomeReleaseHas(UpTo(input.releases, target.number), KEY_IMAGE, pcr0) <==> OfEarlierRelease(input, target, pcr0)
  {
    AdmittedUpTo(input.releases, target.number, pcr0);
  }

  lemma SealedBy(p: PolicyInput, input: Input, target: Release)
    requires ValidInput(p) && target in input.releases && p.pcr0 == target.pcr0
    ensures var vals := p.admitted + [p.pcr0];
            (forall k :: 0 <= k < |vals| ==> SomeReleaseHas(UpTo(input.releases, target.number), KEY_IMAGE, Lower(vals[k]))) <==>
            (forall k :: 0 <= k < |p.admitted| ==> OfEarlierRelease(input, target, p.admitted[k]))
  {
    hide SomeReleaseHas, UpTo, U, Lower, OfEarlierRelease, RolesOf;
    var vals := p.admitted + [p.pcr0];
    forall k | 0 <= k < |vals|
      ensures SomeReleaseHas(UpTo(input.releases, target.number), KEY_IMAGE, Lower(vals[k])) <==> OfEarlierRelease(input, target, vals[k])
    {
      LowerPcr0(vals[k]);
      AdmittedIsEarlier(input, target, vals[k]);
    }
    assert vals[|p.admitted|] == target.pcr0;
    assert OfEarlierRelease(input, target, target.pcr0) by { TargetItself(input, target); }
    assert forall k :: 0 <= k < |p.admitted| ==> vals[k] == p.admitted[k];
  }

  lemma TargetItself(input: Input, target: Release)
    requires target in input.releases
    ensures OfEarlierRelease(input, target, target.pcr0)
  {
    var t :| 0 <= t < |input.releases| && input.releases[t] == target;
    assert input.releases[t].number <= target.number;
  }

  lemma SealPasses(p: PolicyInput, input: Input, target: Release)
    requires ValidInput(p) && target in input.releases && p.pcr0 == target.pcr0
    ensures AllowError(Read(p)[1], input, target) == 0 <==>
            && IamArnAccount(p.hostRole) == Some(input.account) && p.account == input.account
            && (input.retirementPrincipal != [] ==> p.hostRole != input.retirementPrincipal)
            && (forall k :: 0 <= k < |p.admitted| ==> OfEarlierRelease(input, target, p.admitted[k]))
  {
    hide AllowError, CondsOf, IamArnAccount, Aws, AdmittedFor, SomeReleaseHas, UpTo, U, Lower, OfEarlierRelease, RolesOf, ValidInput, Image,
      CallerAccount, SealPcr0s, ImageAndCaller;
    SealRead(p);
    TargetOnly(input.releases, target);
    GatedPasses(p, GENERATE, p.admitted + [p.pcr0], Read(p)[1].condition, input, target);
    SealedBy(p, input, target);
  }

  lemma SealTexts(p: PolicyInput)
    ensures TextsOf(Some(SealPcr0s(p))) == Some(p.admitted + [p.pcr0])
  {
    if p.admitted == [] {
      assert p.admitted + [p.pcr0] == [p.pcr0];
      OneText(p.pcr0);
    } else {
      TextsBack(p.admitted + [p.pcr0]);
    }
  }

  lemma RetirePasses(p: PolicyInput, input: Input, target: Release)
    requires ValidInput(p)
    ensures AllowError(Read(p)[3], input, target) == 0 <==>
            && input.retirementPrincipal != [] && p.retirementRole == input.retirementPrincipal
            && IamArnAccount(p.retirementRole) == Some(input.account) && p.account == input.account
            && p.window == input.retirementWindowDays
  {
    hide AllowError, CondsOf, IamArnAccount, Aws;
    WindowRead(p);
    CallerRead(p);
    WindowText(input.retirementWindowDays);
    var text := if p.window == 30 then U("30") else U("7");
    var conds := [Cond(NUMERIC_EQUALS, KEY_WINDOW, [text]), Cond(STRING_EQUALS, KEY_CALLER, [p.account])];
    assert WindowOf(conds) == text && |text| > 0;
    hide OperatorConds, Window, CallerAccount, IntText, WindowOf;
    TwoConds(Window(p), CallerAccount(p), conds[0], conds[1]);
    RetirementPasses(p, [SCHEDULE], Read(p)[3].condition, conds, input, target);
  }

  lemma RescuePasses(p: PolicyInput, input: Input, target: Release)
    requires ValidInput(p)
    ensures AllowError(Read(p)[4], input, target) == 0 <==>
            && input.retirementPrincipal != [] && p.retirementRole == input.retirementPrincipal
            && IamArnAccount(p.retirementRole) == Some(input.account) && p.account == input.account
  {
    hide AllowError, CondsOf, IamArnAccount, Aws;
    CallerRead(p);
    var conds := [Cond(STRING_EQUALS, KEY_CALLER, [p.account])];
    assert WindowOf(conds) == [] by {
      assert conds[1..] == [] && WindowOf([]) == [];
      assert |STRING_EQUALS| == 12 && |NUMERIC_EQUALS| == 13;
    }
    assert [U("kms:CancelKeyDeletion"), U("kms:EnableKey")] != [SCHEDULE] by {
      assert |[U("kms:CancelKeyDeletion"), U("kms:EnableKey")]| == 2;
    }
    hide OperatorConds, CallerAccount, WindowOf, U;
    OneCond(CallerAccount(p), conds[0]);
    RetirementPasses(p, [U("kms:CancelKeyDeletion"), U("kms:EnableKey")], Read(p)[4].condition, conds, input, target);
  }

  lemma RolesTell(p: PolicyInput, account: Text)
    requires ValidInput(p)
    ensures IamArnAccount(p.hostRole) == Some(account) <==> account == p.account && IsRoleName(p.hostRole[|RolesOf(p.account)|..])
    ensures IamArnAccount(p.retirementRole) == Some(account) <==> account == p.account && IsRoleName(p.retirementRole[|RolesOf(p.account)|..])
  {
    hide IamArnAccount, IsRoleName, RolesOf;
    RoleAccount(p.account, p.hostRole, account);
    RoleAccount(p.account, p.retirementRole, account);
  }

  lemma EachPasses(p: PolicyInput, input: Input, target: Release)
    ensures StatementsError(Read(p), input, target) == 0 <==> forall k :: 0 <= k < 5 ==> AllowError(Read(p)[k], input, target) == 0
  {
    hide AllowError, Read;
    FiveAllows(p);
    if StatementsError(Read(p), input, target) == 0 {
      forall k | 0 <= k < 5 ensures AllowError(Read(p)[k], input, target) == 0 { NoErrorInAny(Read(p), input, target, k); }
    }
    if forall k :: 0 <= k < 5 ==> AllowError(Read(p)[k], input, target) == 0 { AllPass(Read(p), input, target); }
  }

  /** The two statements that seal and unseal, and the two that end the key. */
  lemma GatedFit(p: PolicyInput, input: Input, target: Release)
    requires ValidInput(p) && target in input.releases
    requires p.retirementRole == input.retirementPrincipal
    ensures AllowError(Read(p)[0], input, target) == 0 && AllowError(Read(p)[1], input, target) == 0 <==>
            && IamArnAccount(p.hostRole) == Some(input.account) && p.account == input.account && p.pcr0 == target.pcr0
            && (forall k :: 0 <= k < |p.admitted| ==> OfEarlierRelease(input, target, p.admitted[k]))
  {
    hide AllowError, IamArnAccount, OfEarlierRelease, Read, U, RolesOf;
    UnsealPasses(p, input, target);
    if p.pcr0 == target.pcr0 { SealPasses(p, input, target); }
  }

  lemma RetirementFit(p: PolicyInput, input: Input, target: Release)
    requires ValidInput(p)
    ensures AllowError(Read(p)[3], input, target) == 0 && AllowError(Read(p)[4], input, target) == 0 <==>
            && p.retirementRole == input.retirementPrincipal && p.window == input.retirementWindowDays
            && IamArnAccount(p.retirementRole) == Some(input.account) && p.account == input.account
  {
    RetirePasses(p, input, target);
    RescuePasses(p, input, target);
    assert |p.retirementRole| > 0;
  }

  lemma StatementsPass(p: PolicyInput, input: Input, target: Release)
    requires ValidInput(p) && target in input.releases
    ensures StatementsError(Read(p), input, target) == 0 <==> Fits(p, input, target)
  {
    hide AllowError, IamArnAccount, U, RolesOf, IsRoleName, ValidInput, StatementsError, Aws, Texts, Image, CallerAccount, Window, SealPcr0s, VERIFY_ACTIONS;
    EachPasses(p, input, target);
    RolesTell(p, input.account);
    RetirementFit(p, input, target);
    if p.retirementRole == input.retirementPrincipal { GatedFit(p, input, target); }
    VerifyPasses(p, input, target);
  }

  lemma FiveAllows(p: PolicyInput)
    ensures |Read(p)| == 5 && forall k :: 0 <= k < 5 ==> Read(p)[k].allow
  {
  }

  /**
   * A rendered policy, printed, passes the check of a release key if and only
   * if it was rendered for the check's pins and target: the account, the
   * target's image, the images of releases numbered up to the target, the
   * retirement role and window, and role names that are well formed.
   */
  lemma RenderedPolicyPasses(p: PolicyInput, input: Input, target: Release)
    requires RenderReleaseKeyPolicy(p).Some? && target in input.releases
    ensures PolicyError(Print(RenderReleaseKeyPolicy(p).value), input, target) == 0 <==> Fits(p, input, target)
  {
    StatementsPass(p, input, target);
    hide U, Parse, Print, Printable, Policy, Read, Raw, RawStatements, ParseStatements, StatementsError, Fits, ValidInput;
    PolicyPrints(p);
    ParsePrint(Policy(p));
    PolicyShape(p);
    ReadsBack(p, input.keyArn);
  }

  // ---- the whole key ------------------------------------------------------------------------------

  /** KMS's answer to DescribeKey for such a key. */
  function KeyAnswer(input: Input): JVal {
    Obj([Member(U("KeyMetadata"), Obj([
      Member(U("AWSAccountId"), Str(input.account)),
      Member(U("Arn"), Str(input.keyArn)),
      Member(U("KeyUsage"), Str(U("ENCRYPT_DECRYPT"))),
      Member(U("KeyState"), Str(U("Enabled"))),
      Member(U("Origin"), Str(U("AWS_KMS"))),
      Member(U("KeyManager"), Str(U("CUSTOMER"))),
      Member(U("KeySpec"), Str(U("SYMMETRIC_DEFAULT"))),
      Member(U("MultiRegion"), Bool(false))]))])
  }

  function PolicyAnswer(policy: JVal): JVal {
    Obj([Member(U("Policy"), Str(Print(policy))), Member(U("PolicyName"), Str(U("default")))])
  }

  function GrantsAnswer(): JVal { Obj([Member(U("Grants"), Arr([])), Member(U("Truncated"), Bool(false))]) }

  lemma Answered(v: JVal, raw: Text)
    requires v.Obj? && Plain(v, 64) && raw == Print(v) && Utf8Length(raw) <= 64 * 1024
    ensures ParseResponse(raw) == Some(v.members)
  {
    hide Parse, Plain, Utf8Length;
    PlainIsPrintable(v);
    ParsePrint(v);
    assert Parse([], true).None? by { NothingRead(); }
  }

  lemma NothingRead()
    ensures Parse([], true).None?
  {
  }

  lemma MetadataMembers(input: Input)
    ensures var m := KeyAnswer(input).members[0].value.members;
            Plain(Obj(m), 63)
            && IsText(Get(m, U("Arn")), input.keyArn) && IsText(Get(m, U("AWSAccountId")), input.account)
            && IsText(Get(m, U("KeyState")), U("Enabled")) && IsText(Get(m, U("Origin")), U("AWS_KMS"))
            && IsText(Get(m, U("KeySpec")), U("SYMMETRIC_DEFAULT")) && IsText(Get(m, U("KeyUsage")), U("ENCRYPT_DECRYPT"))
            && IsText(Get(m, U("KeyManager")), U("CUSTOMER")) && Get(m, U("MultiRegion")) == Some(Bool(false))
            && !HasName(m, U("CustomKeyStoreId")) && !HasName(m, U("CloudHsmClusterId")) && !HasName(m, U("XksKeyConfiguration"))
  {
    MetadataNames(input);
    hide U, Get, Plain;
    var m := KeyAnswer(input).members[0].value.members;
    GetAt(m, 0);
    GetAt(m, 1);
    GetAt(m, 2);
    GetAt(m, 3);
    GetAt(m, 4);
    GetAt(m, 5);
    GetAt(m, 6);
    GetAt(m, 7);
  }

  lemma MetadataNames(input: Input)
    ensures var m := KeyAnswer(input).members[0].value.members;
            Plain(Obj(m), 63) && DistinctNames(m)
            && !HasName(m, U("CustomKeyStoreId")) && !HasName(m, U("CloudHsmClusterId")) && !HasName(m, U("XksKeyConfiguration"))
  {
    assert U("KeyUsage")[3] != U("KeyState")[3];
    hide U, Plain;
    var m := KeyAnswer(input).members[0].value.members;
    assert |U("AWSAccountId")| == 12 && |U("Arn")| == 3 && |U("KeyUsage")| == 8 && |U("KeyState")| == 8 && |U("Origin")| == 6;
    assert |U("KeyManager")| == 10 && |U("KeySpec")| == 7 && |U("MultiRegion")| == 11;
    assert |U("CustomKeyStoreId")| == 16 && |U("CloudHsmClusterId")| == 17 && |U("XksKeyConfiguration")| == 19;
    forall k | 0 <= k < |m| ensures Plain(m[k].value, 62) { PlainLeaf(m[k].value, 62); }
    PlainObj(m, 62);
  }

  lemma PlainLeaf(v: JVal, d: int)
    requires d >= 0 && (v.Str? || v.Bool?)
    ensures Plain(v, d)
  {
  }

  predicate IsRegion(t: Text) {
    1 <= |t| <= 32 && forall i :: 0 <= i < |t| ==> 0x61 <= t[i] <= 0x7A || 0x30 <= t[i] <= 0x39 || t[i] == 0x2D
  }

  /** `8-4-4-4-12` lower-case hexadecimal digits. */
  predicate IsKeyId(t: Text) {
    |t| == 36 && t[8] == t[13] == t[18] == t[23] == 0x2D
    && forall i :: 0 <= i < 36 && i != 8 && i != 13 && i != 18 && i != 23 ==> 0x30 <= t[i] <= 0x39 || 0x61 <= t[i] <= 0x66
  }

  function KeysOf(input: Input): Text { U("arn:aws:kms:") + input.region + [COLON] + input.account + U(":key/") }

  /** What KMS answers for a key with the policy, the first listed release of its number having it as its key. */
  ghost predicate IsKeyOf(input: Input, t: nat, policy: JVal) {
    && t < |input.releases| && input.releases[t].number == input.target
    && (forall i :: 0 <= i < t ==> input.releases[i].number != input.target)
    && IsRegion(input.region)
    && input.keyArn == input.releases[t].sealKey && KeysOf(input) <= input.keyArn && IsKeyId(input.keyArn[|KeysOf(input)|..])
    && input.describeKey == Print(KeyAnswer(input))
    && input.getKeyPolicy == Print(PolicyAnswer(policy))
    && input.listGrants == Print(GrantsAnswer())
    && Utf8Length(input.describeKey) <= 64 * 1024 && Utf8Length(input.getKeyPolicy) <= 64 * 1024
    && Utf8Length(input.listGrants) <= 64 * 1024
  }

  lemma {:induction false} FirstFound(rs: seq<Release>, t: nat)
    requires t < |rs| && forall i :: 0 <= i < t ==> rs[i].number != rs[t].number
    ensures FindRelease(rs, rs[t].number) == Some(rs[t])
    decreases t
  {
    if t > 0 { FirstFound(rs[1..], t - 1); }
  }

  lemma KeyArnFits(input: Input)
    requires KeysOf(input) <= input.keyArn && IsRegion(input.region)
    ensures KeyArnOk(input.keyArn, input.region, input.account) <==> IsKeyId(input.keyArn[|KeysOf(input)|..])
    ensures ValidRegion(input.region)
  {
  }

  /** A role is never the root. */
  lemma RetirementFits(p: PolicyInput, input: Input, target: Release)
    requires ValidInput(p) && Fits(p, input, target)
    ensures ValidAccount(input.account) && ValidRetirement(input)
  {
    RolesTell(p, input.account);
    hide IamArnAccount, OfEarlierRelease;
    var role, n := input.retirementPrincipal, |RolesOf(p.account)|;
    assert role == RolesOf(p.account) + role[n..];
    assert |RolesOf(p.account)| == 31 && |ROOT_SUFFIX| == 5;
    assert RolesOf(p.account)[30] == U(":role/")[5] == 0x2F;
    var at := |role| - 5;
    assert EndsWith(role, ROOT_SUFFIX) ==> role[at..][0] == role[at] && ROOT_SUFFIX[0] == COLON;
    if at >= n {
      assert NamePlace(role[n..], at - n) && role[n..][at - n] == role[at];
    } else {
      assert RolesOf(p.account)[at] == U(":role/")[at - 25];
      RoleUnits(at - 25);
    }
  }

  lemma RoleUnits(i: nat)
    requires 1 <= i < 6
    ensures U(":role/")[i] != COLON
  {
  }

  lemma MetadataPasses(input: Input)
    requires input.describeKey == Print(KeyAnswer(input)) && Utf8Length(input.describeKey) <= 64 * 1024
    ensures MetadataOk(input)
  {
    MetadataMembers(input);
    hide U, Plain, Get, Print, Utf8Length, ParseResponse, IsText;
    var md := KeyAnswer(input).members[0].value;
    PlainOne(U("KeyMetadata"), md, 63);
    Answered(KeyAnswer(input), input.describeKey);
    GetAt(KeyAnswer(input).members, 0);
  }

  lemma GrantsPass(raw: Text)
    requires raw == Print(GrantsAnswer()) && Utf8Length(raw) <= 64 * 1024
    ensures GrantsOk(raw)
  {
    hide U, Plain, Get, Print, Utf8Length, ParseResponse;
    var ms := GrantsAnswer().members;
    assert |U("Grants")| == 6 && |U("Truncated")| == 9 && |U("NextMarker")| == 10;
    PlainArr([], 62);
    PlainDeeper(Arr([]), 63, 63);
    PlainLeaf(Bool(false), 63);
    PlainObj(ms, 63);
    Answered(GrantsAnswer(), raw);
    GetAt(ms, 0);
    GetAt(ms, 1);
  }

  lemma PolicyRead(policy: JVal, raw: Text)
    requires raw == Print(PolicyAnswer(policy)) && Utf8Length(raw) <= 64 * 1024
    ensures PolicyDocument(raw) == Some(Print(policy))
  {
    hide U, Plain, Get, Print, Utf8Length, ParseResponse;
    var ms := PolicyAnswer(policy).members;
    assert |U("Policy")| == 6 && |U("PolicyName")| == 10;
    PlainLeaf(ms[0].value, 63);
    PlainLeaf(ms[1].value, 63);
    PlainObj(ms, 63);
    Answered(PolicyAnswer(policy), raw);
    GetAt(ms, 0);
    GetAt(ms, 1);
    assert OnlyMembers(ms, [U("Policy"), U("PolicyName")]) by { PolicyNames(policy); }
  }

  lemma PolicyNames(policy: JVal)
    ensures OnlyMembers(PolicyAnswer(policy).members, [U("Policy"), U("PolicyName")])
  {
    hide U;
    var names := [U("Policy"), U("PolicyName")];
    assert names[0] == PolicyAnswer(policy).members[0].name && names[1] == PolicyAnswer(policy).members[1].name;
  }

  /** The whole check passes for such a key if and only if its policy was rendered for the pins and the target. */
  lemma RenderedKeyPasses(p: PolicyInput, input: Input, t: nat)
    requires RenderReleaseKeyPolicy(p).Some? && IsKeyOf(input, t, RenderReleaseKeyPolicy(p).value)
    ensures ReleaseKeyError(input) == 0 <==> Fits(p, input, input.releases[t])
  {
    hide U, Plain, Get, Print, Utf8Length, ParseResponse, MetadataOk, GrantsOk, PolicyDocument, PolicyError, Policy, ValidInput, Fits,
      KeyAnswer, PolicyAnswer, ValidRegion, ValidRetirement, ValidAccount, KeyArnOk, KeysOf, IsKeyId, IsRegion, FindRelease;
    var target := input.releases[t];
    FirstFound(input.releases, t);
    KeyArnFits(input);
    MetadataPasses(input);
    GrantsPass(input.listGrants);
    PolicyRead(RenderReleaseKeyPolicy(p).value, input.getKeyPolicy);
    RenderedPolicyPasses(p, input, target);
    if Fits(p, input, target) { RetirementFits(p, input, target); }
  }

  // ---- what a passed check has seen --------------------------------------------------------------

  ghost predicate Says(ms: seq<Member>, name: Text, value: JVal) { Member(name, value) in ms }

  ghost predicate Silent(ms: seq<Member>, name: Text) { forall k :: 0 <= k < |ms| ==> ms[k].name != name }

  lemma GotIsSaid(ms: seq<Member>, name: Text, value: JVal)
    requires Get(ms, name) == Some(value)
    ensures Says(ms, name, value)
  {
    var k :| 0 <= k < |ms| && ms[k].name == name && ms[k].value == value;
    assert ms[k] == Member(name, value);
  }

  /** KMS has no grant for the key, and has not left any out. */
  ghost predicate NoGrants(answer: Text) {
    && Parse(answer, true).Some? && Parse(answer, true).value.Obj?
    && var ms := Parse(answer, true).value.members;
       Says(ms, U("Grants"), Arr([])) && Says(ms, U("Truncated"), Bool(false)) && Silent(ms, U("NextMarker"))
  }

  /** A key of the account made by KMS itself, enabled, for symmetric encryption, in this region only. */
  ghost predicate PlainKey(answer: Text, arn: Text, account: Text) {
    && Parse(answer, true).Some? && Parse(answer, true).value.Obj?
    && exists md: seq<Member> :: IsPlainKey(md, arn, account) && Says(Parse(answer, true).value.members, U("KeyMetadata"), Obj(md))
  }

  ghost predicate IsPlainKey(md: seq<Member>, arn: Text, account: Text) {
    && Says(md, U("Arn"), Str(arn)) && Says(md, U("AWSAccountId"), Str(account))
    && Says(md, U("KeyState"), Str(U("Enabled"))) && Says(md, U("Origin"), Str(U("AWS_KMS")))
    && Says(md, U("KeySpec"), Str(U("SYMMETRIC_DEFAULT"))) && Says(md, U("KeyUsage"), Str(U("ENCRYPT_DECRYPT")))
    && Says(md, U("KeyManager"), Str(U("CUSTOMER"))) && Says(md, U("MultiRegion"), Bool(false))
    && Silent(md, U("CustomKeyStoreId")) && Silent(md, U("CloudHsmClusterId")) && Silent(md, U("XksKeyConfiguration"))
  }

  lemma GrantsSeen(raw: Text)
    requires GrantsOk(raw)
    ensures NoGrants(raw)
  {
    hide U, Get, Utf8Length, Parse;
    var ms := ParseResponse(raw).value;
    GotIsSaid(ms, U("Grants"), Arr([]));
    GotIsSaid(ms, U("Truncated"), Bool(false));
  }

  lemma MetadataSeen(input: Input)
    requires MetadataOk(input)
    ensures PlainKey(input.describeKey, input.keyArn, input.account)
  {
    hide U, Get, Utf8Length, Parse;
    var ms := ParseResponse(input.describeKey).value;
    var md := Get(ms, U("KeyMetadata")).value.members;
    GotIsSaid(ms, U("KeyMetadata"), Obj(md));
    GotIsSaid(md, U("Arn"), Str(input.keyArn));
    GotIsSaid(md, U("AWSAccountId"), Str(input.account));
    GotIsSaid(md, U("KeyState"), Str(U("Enabled")));
    GotIsSaid(md, U("Origin"), Str(U("AWS_KMS")));
    GotIsSaid(md, U("KeySpec"), Str(U("SYMMETRIC_DEFAULT")));
    GotIsSaid(md, U("KeyUsage"), Str(U("ENCRYPT_DECRYPT")));
    GotIsSaid(md, U("KeyManager"), Str(U("CUSTOMER")));
    GotIsSaid(md, U("MultiRegion"), Bool(false));
    hide Says;
    assert IsPlainKey(md, input.keyArn, input.account);
  }

  /** A passed check has seen a plain key of the account that is the target's own, with no grant. */
  lemma PassedKeyIsPlain(input: Input)
    requires ReleaseKeyError(input) == 0
    ensures PlainKey(input.describeKey, input.keyArn, input.account) && NoGrants(input.listGrants)
    ensures exists i :: 0 <= i < |input.releases| && input.releases[i].number == input.target && input.releases[i].sealKey == input.keyArn
    ensures KeysOf(input) <= input.keyArn
  {
    hide U, MetadataOk, GrantsOk, PolicyDocument, PolicyError, ValidRegion, ValidRetirement, ValidAccount, KeyArnOk, PlainKey, NoGrants, KeysOf;
    MetadataSeen(input);
    GrantsSeen(input.listGrants);
    KeyPrefixed(input);
    var target := FindRelease(input.releases, input.target).value;
    var i :| 0 <= i < |input.releases| && input.releases[i] == target;
  }

  lemma KeyPrefixed(input: Input)
    ensures KeyArnOk(input.keyArn, input.region, input.account) ==> KeysOf(input) <= input.keyArn
  {
    hide U, IsUuid;
  }
}
