/** A policy the release-key check accepts: the one statement a release's Decrypt needs, printed and read back. */
module KeyPolicyExample {
  import opened Json
  import opened JsonTheorems
  import opened KeyPolicy
  import opened Wrappers

  /** The statement a release's Decrypt needs: its own role, image and account. */
  function DecryptStatement(arn: Text, pcr0: Text, account: Text): Statement {
    Statement(true, Some(Obj([Member(U("AWS"), Str(arn))])), [DECRYPT],
              [Member(STRING_EQUALS_IGNORE_CASE, Obj([Member(KEY_IMAGE, Str(pcr0))])),
               Member(STRING_EQUALS, Obj([Member(KEY_CALLER, Str(account))]))])
  }

  /** The check is not passed by refusing everything: such a statement passes, whatever the other pins. */
  lemma DecryptStatementPasses(arn: Text, pcr0: Text, input: Input, target: Release)
    requires IamArnAccount(arn) == Some(input.account) && arn != input.retirementPrincipal
    requires |pcr0| == 96 && IsHex(pcr0) && Lower(pcr0) == target.pcr0 && ValidAccount(input.account)
    ensures AllowError(DecryptStatement(arn, pcr0, input.account), input, target) == 0
  {
    var s := DecryptStatement(arn, pcr0, input.account);
    var c := s.condition;
    var conds := [Cond(STRING_EQUALS_IGNORE_CASE, KEY_IMAGE, [pcr0]), Cond(STRING_EQUALS, KEY_CALLER, [input.account])];
    DecryptConds(c, pcr0, input.account);
    DecryptActions(s, input);
    DecryptAttested(conds, pcr0, input, target);
    hide CondsOf, ActionsOk, IamArnAccount, IntText, Attested, GatedAttested;
    assert WindowOf(conds[1..]) == [] by {
      assert conds[1..][1..] == [] && WindowOf([]) == [];
      assert |STRING_EQUALS| == 12 && |NUMERIC_EQUALS| == 13;
    }
    assert WindowOf(conds) == [] by { assert |STRING_EQUALS_IGNORE_CASE| == 22 && |NUMERIC_EQUALS| == 13; }
    var ms := s.principal.value.members;
    assert Get(ms, U("AWS")) == Some(Str(arn));
    assert conds[1].key == KEY_CALLER;
    assert CallersOk(conds, input.account) by { assert |KEY_IMAGE| == 36 && |KEY_CALLER| == 17 && |KEY_PRINCIPAL| == 16; }
  }

  lemma DecryptConds(c: seq<Member>, pcr0: Text, account: Text)
    requires c == DecryptStatement(pcr0, pcr0, account).condition
    requires |pcr0| == 96 && IsHex(pcr0) && ValidAccount(account)
    ensures CondsOf(c) == Some([Cond(STRING_EQUALS_IGNORE_CASE, KEY_IMAGE, [pcr0]), Cond(STRING_EQUALS, KEY_CALLER, [account])])
  {
    assert |STRING_EQUALS_IGNORE_CASE| == 22 && |STRING_EQUALS| == 12 && |NUMERIC_EQUALS| == 13;
    assert |KEY_CALLER| == 17 && |KEY_IMAGE| == 36 && |KEY_PCR0| == 29 && |KEY_PCR_PREFIX| == 28 && |KEY_CONTEXT_PREFIX| == 22;
    hide IsHex, ValidAccount;
    SingleEntry(STRING_EQUALS_IGNORE_CASE, KEY_IMAGE, pcr0);
    SingleEntry(STRING_EQUALS, KEY_CALLER, account);
    var first, second := Cond(STRING_EQUALS_IGNORE_CASE, KEY_IMAGE, [pcr0]), Cond(STRING_EQUALS, KEY_CALLER, [account]);
    hide OperatorConds;
    assert c[..1] == [c[0]] && c[..1][..0] == [] && CondsOf(c[..1][..0]) == Some([]);
    assert CondsOf(c[..1]) == Some([] + [first]);
    assert [] + [first] == [first];
    assert CondsOf(c) == Some([first] + [second]);
    assert [first] + [second] == [first, second];
  }

  lemma SingleEntry(op: Text, key: Text, value: Text)
    requires op == STRING_EQUALS || op == STRING_EQUALS_IGNORE_CASE
    requires AllowedEntry(op, key, [value])
    ensures OperatorConds(op, Obj([Member(key, Str(value))])) == Some([Cond(op, key, [value])])
  {
    hide AllowedEntry;
    var ms := [Member(key, Str(value))];
    assert |STRING_EQUALS_IGNORE_CASE| == 22 && |STRING_EQUALS| == 12 && |NUMERIC_EQUALS| == 13;
    assert ms[..0] == [] && EntryConds(op, ms[..0]) == Some([]);
    assert TextsOf(Some(ms[0].value)) == Some([value]);
    assert EntryConds(op, ms) == Some([] + [Cond(op, key, [value])]);
    assert [] + [Cond(op, key, [value])] == [Cond(op, key, [value])];
  }

  lemma DecryptActions(s: Statement, input: Input)
    requires s.actions == [DECRYPT]
    ensures ActionsOk(s.actions, input) && SomeGated(s.actions) && !SomeRetires(s.actions) && !SomeReadOnly(s.actions)
    ensures SCHEDULE !in s.actions
  {
    assert |DECRYPT| == 11 && |SCHEDULE| == 23;
    assert Gated(s.actions[0]);
  }

  lemma DecryptAttested(conds: seq<Cond>, pcr0: Text, input: Input, target: Release)
    requires |conds| == 2 && conds[0].key == KEY_IMAGE && conds[0].values == [pcr0] && conds[1].key == KEY_CALLER
    requires Lower(pcr0) == target.pcr0
    ensures GatedAttested([DECRYPT], conds, input, target)
  {
    assert |KEY_CALLER| == 17 && |KEY_IMAGE| == 36 && |KEY_PCR0| == 29 && |KEY_PCR_PREFIX| == 28;
    var admitted := AdmittedFor(DECRYPT, input.releases, target);
    assert admitted[0] == target && ReleaseHas(admitted[0], KEY_IMAGE, Lower(pcr0));
    assert CondAttests(conds[0], admitted) && CondAttests(conds[1], admitted);
    assert IsPcr0Key(conds[0].key);
  }

  /** A policy of that one statement, as JSON. */
  function DecryptStatementJson(arn: Text, pcr0: Text, account: Text): JVal {
    Obj([Member(U("Effect"), Str(U("Allow"))),
         Member(U("Principal"), Obj([Member(U("AWS"), Str(arn))])),
         Member(U("Action"), Str(DECRYPT)),
         Member(U("Resource"), Str(U("*"))),
         Member(U("Condition"), Obj(DecryptStatement(arn, pcr0, account).condition))])
  }

  function DecryptPolicy(arn: Text, pcr0: Text, account: Text): JVal {
    Obj([Member(U("Version"), Str(U("2012-10-17"))), Member(U("Statement"), Arr([DecryptStatementJson(arn, pcr0, account)]))])
  }

  lemma ConditionPrintable(arn: Text, pcr0: Text, account: Text)
    ensures var v := Obj(DecryptStatement(arn, pcr0, account).condition);
            NoDuplicates(v) && ValidNumbers(v) && NestedAtMost(v, 5)
  {
    assert |STRING_EQUALS_IGNORE_CASE| == 22 && |STRING_EQUALS| == 12;
    OneStringPrintable(KEY_IMAGE, pcr0);
    OneStringPrintable(KEY_CALLER, account);
  }

  lemma OneStringPrintable(name: Text, s: Text)
    ensures var v := Obj([Member(name, Str(s))]);
            NoDuplicates(v) && ValidNumbers(v) && NestedAtMost(v, 4)
  {
  }

  lemma StatementPrintable(arn: Text, pcr0: Text, account: Text)
    ensures var v := DecryptStatementJson(arn, pcr0, account);
            NoDuplicates(v) && ValidNumbers(v) && NestedAtMost(v, 6)
  {
    ConditionPrintable(arn, pcr0, account);
    OneStringPrintable(U("AWS"), arn);
    Shallower(Obj([Member(U("AWS"), Str(arn))]), 4, 5);
    hide U;
    assert |U("Effect")| == 6 && |U("Principal")| == 9 && |U("Action")| == 6 && |U("Resource")| == 8 && |U("Condition")| == 9;
    EffectIsNotAction();
    assert NestedAtMost(Str(U("Allow")), 5) && NestedAtMost(Str(DECRYPT), 5) && NestedAtMost(Str(U("*")), 5);
  }

  lemma EffectIsNotAction()
    ensures U("Effect") != U("Action") && U("Principal") != U("Condition")
  {
    assert U("Effect")[0] != U("Action")[0] && U("Principal")[0] != U("Condition")[0];
  }

  lemma {:induction false} Shallower(v: JVal, d: int, e: int)
    requires NestedAtMost(v, d) && d <= e
    ensures NestedAtMost(v, e)
  {
    match v
    case Obj(ms) => forall k | 0 <= k < |ms| ensures NestedAtMost(ms[k].value, e - 1) { Shallower(ms[k].value, d - 1, e - 1); }
    case Arr(es) => forall k | 0 <= k < |es| ensures NestedAtMost(es[k], e - 1) { Shallower(es[k], d - 1, e - 1); }
    case _ =>
  }

  lemma PolicyPrintable(arn: Text, pcr0: Text, account: Text)
    ensures Printable(DecryptPolicy(arn, pcr0, account), 0)
  {
    StatementPrintable(arn, pcr0, account);
    hide U, DecryptStatementJson;
    var st := DecryptStatementJson(arn, pcr0, account);
    Shallower(st, 6, 62);
    assert NoDuplicates(Arr([st])) && ValidNumbers(Arr([st])) && NestedAtMost(Arr([st]), 63);
    assert |U("Version")| == 7 && |U("Statement")| == 9;
    var p := DecryptPolicy(arn, pcr0, account);
    assert p.members[0].value == Str(U("2012-10-17")) && p.members[1].value == Arr([st]);
    assert NoDuplicates(Str(U("2012-10-17"))) && ValidNumbers(Str(U("2012-10-17"))) && NestedAtMost(Str(U("2012-10-17")), 63);
    assert NoDuplicates(p) && ValidNumbers(p);
    assert NestedAtMost(p, 64);
  }

  lemma DecryptMembers(arn: Text, pcr0: Text, account: Text)
    ensures var m := DecryptStatementJson(arn, pcr0, account).members;
            && Get(m, U("Effect")) == Some(Str(U("Allow")))
            && Get(m, U("Principal")) == Some(Obj([Member(U("AWS"), Str(arn))]))
            && Get(m, U("Action")) == Some(Str(DECRYPT))
            && Get(m, U("Resource")) == Some(Str(U("*")))
            && Get(m, U("Condition")) == Some(Obj(DecryptStatement(arn, pcr0, account).condition))
            && Get(m, U("Sid")) == None
  {
    EffectIsNotAction();
    hide U, Get, DecryptStatement;
    var m := DecryptStatementJson(arn, pcr0, account).members;
    assert |U("Effect")| == 6 && |U("Principal")| == 9 && |U("Action")| == 6 && |U("Resource")| == 8 && |U("Condition")| == 9 && |U("Sid")| == 3;
    GetAt(m, 0);
    GetAt(m, 1);
    GetAt(m, 2);
    GetAt(m, 3);
    GetAt(m, 4);
    assert !HasName(m, U("Sid"));
  }

  lemma DecryptNames(arn: Text, pcr0: Text, account: Text)
    ensures OnlyMembers(DecryptStatementJson(arn, pcr0, account).members, STATEMENT_MEMBERS)
  {
    hide U, DecryptStatement;
    var m := DecryptStatementJson(arn, pcr0, account).members;
    assert STATEMENT_MEMBERS[1] == m[0].name && STATEMENT_MEMBERS[2] == m[1].name && STATEMENT_MEMBERS[3] == m[2].name;
    assert STATEMENT_MEMBERS[4] == m[3].name && STATEMENT_MEMBERS[5] == m[4].name;
  }

  lemma DecryptParses(arn: Text, pcr0: Text, account: Text, keyArn: Text)
    ensures ParseStatement(DecryptStatementJson(arn, pcr0, account), keyArn) == Some(DecryptStatement(arn, pcr0, account))
  {
    hide U, Get, OnlyMembers;
    DecryptMembers(arn, pcr0, account);
    DecryptNames(arn, pcr0, account);
    assert TextsOf(Some(Str(DECRYPT))) == Some([DECRYPT]);
    assert |U("Allow")| == 5 && |U("Deny")| == 4;
  }

  /** The first member of its name is the one that is found. */
  lemma {:induction false} GetAt(ms: seq<Member>, k: nat)
    requires k < |ms| && forall j :: 0 <= j < k ==> ms[j].name != ms[k].name
    ensures Get(ms, ms[k].name) == Some(ms[k].value)
    decreases k
  {
    if k > 0 { GetAt(ms[1..], k - 1); }
  }

  lemma DecryptRaw(arn: Text, pcr0: Text, account: Text)
    ensures RawStatements(DecryptPolicy(arn, pcr0, account)) == Some([DecryptStatementJson(arn, pcr0, account)])
  {
    hide U, Get, DecryptStatementJson;
    var p := DecryptPolicy(arn, pcr0, account);
    assert |U("Version")| == 7 && |U("Statement")| == 9 && |U("Id")| == 2;
    GetAt(p.members, 0);
    GetAt(p.members, 1);
    assert !HasName(p.members, U("Id"));
    var names := [U("Version"), U("Id"), U("Statement")];
    assert names[0] == p.members[0].name && names[2] == p.members[1].name;
  }

  lemma OneStatement(raw: JVal, s: Statement, input: Input, target: Release)
    requires ParseStatement(raw, input.keyArn) == Some(s) && AllowError(s, input, target) == 0
    ensures ParseStatements([raw], input.keyArn) == Some([s]) && StatementsError([s], input, target) == 0
  {
    hide ParseStatement, AllowError;
    assert [raw][..0] == [] && ParseStatements([raw][..0], input.keyArn) == Some([]);
    assert [] + [s] == [s];
    assert [s][..0] == [] && StatementsError([s][..0], input, target) == 0;
  }

  /** A printed policy of that one statement passes checks 4 to 8: the soundness of the check is not empty. */
  lemma DecryptPolicyPasses(arn: Text, pcr0: Text, input: Input, target: Release)
    requires IamArnAccount(arn) == Some(input.account) && arn != input.retirementPrincipal
    requires |pcr0| == 96 && IsHex(pcr0) && Lower(pcr0) == target.pcr0 && ValidAccount(input.account)
    ensures PolicyError(Print(DecryptPolicy(arn, pcr0, input.account)), input, target) == 0
  {
    hide U, Parse, Print, Printable, ParseStatement, AllowError, DecryptStatementJson, DecryptStatement, DecryptPolicy,
      IamArnAccount, IsHex, Lower, ValidAccount, RawStatements, ParseStatements, StatementsError;
    PolicyPrintable(arn, pcr0, input.account);
    ParsePrint(DecryptPolicy(arn, pcr0, input.account));
    DecryptParses(arn, pcr0, input.account, input.keyArn);
    DecryptStatementPasses(arn, pcr0, input, target);
    DecryptRaw(arn, pcr0, input.account);
    OneStatement(DecryptStatementJson(arn, pcr0, input.account), DecryptStatement(arn, pcr0, input.account), input, target);
  }
}
