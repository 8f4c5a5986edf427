/**
 * The policy check as the source runs it: loops that gather conditions and
 * actions and stop at the first failure, here the number it would throw (0
 * for none). Each is proved equal to its specification in `KeyPolicy`.
 */
module KeyPolicyCheck {
  import opened Json
  import opened KeyPolicy
  import opened StrictParser
  import opened Wrappers

  method ParseConditions(c: seq<Member>) returns (r: Option<seq<Cond>>)
    ensures r == CondsOf(c)
  {
    hide AllowedEntry, TextsOf, WindowValue;
    var out: seq<Cond> := [];
    for i := 0 to |c|
      invariant CondsOf(c[..i]) == Some(out)
    {
      assert c[..i + 1][..i] == c[..i];
      var op, raw := c[i].name, c[i].value;
      var block := ParseBlock(op, raw);
      if block.None? {
        PrefixFails(c, i + 1);
        return None;
      }
      out := out + block.value;
    }
    assert c[..|c|] == c;
    r := Some(out);
  }

  lemma {:induction false} PrefixFails(c: seq<Member>, i: nat)
    requires i <= |c| && CondsOf(c[..i]).None?
    ensures CondsOf(c).None?
    decreases |c|
  {
    hide OperatorConds;
    if i < |c| {
      assert c[..|c| - 1][..i] == c[..i];
      PrefixFails(c[..|c| - 1], i);
    } else {
      assert c[..i] == c;
    }
  }

  method ParseBlock(op: Text, raw: JVal) returns (r: Option<seq<Cond>>)
    ensures r == OperatorConds(op, raw)
  {
    hide AllowedEntry, TextsOf, WindowValue;
    if op == NUMERIC_EQUALS {
      if !raw.Obj? || |raw.members| != 1 { return None; }
      var v := WindowValue(Get(raw.members, KEY_WINDOW));
      if v.None? { return None; }
      return Some([Cond(op, KEY_WINDOW, [v.value])]);
    }
    if op != STRING_EQUALS && op != STRING_EQUALS_IGNORE_CASE && op != ARN_EQUALS { return None; }
    if !raw.Obj? || raw.members == [] { return None; }
    var inner := raw.members;
    var out: seq<Cond> := [];
    for i := 0 to |inner|
      invariant EntryConds(op, inner[..i]) == Some(out)
    {
      assert inner[..i + 1][..i] == inner[..i];
      var vals := TextsOf(Some(inner[i].value));
      if vals.None? || !AllowedEntry(op, inner[i].name, vals.value) {
        EntryPrefixFails(op, inner, i + 1);
        return None;
      }
      out := out + [Cond(op, inner[i].name, vals.value)];
    }
    assert inner[..|inner|] == inner;
    r := Some(out);
  }

  lemma {:induction false} EntryPrefixFails(op: Text, ms: seq<Member>, i: nat)
    requires i <= |ms| && EntryConds(op, ms[..i]).None?
    ensures EntryConds(op, ms).None?
    decreases |ms|
  {
    hide AllowedEntry, TextsOf;
    if i < |ms| {
      assert ms[..|ms| - 1][..i] == ms[..i];
      EntryPrefixFails(op, ms[..|ms| - 1], i);
    } else {
      assert ms[..i] == ms;
    }
  }

  /** The field of a release that a condition key is compared with; none for a key that measures nothing. */
  method CheckAttestation(conds: seq<Cond>, admitted: seq<Release>) returns (ok: bool)
    ensures ok == Attested(conds, admitted)
  {
    var found := false;
    for i := 0 to |conds|
      invariant found == exists j :: 0 <= j < i && IsPcr0Key(conds[j].key)
      invariant forall j :: 0 <= j < i ==> CondAttests(conds[j], admitted)
    {
      var c := conds[i];
      if IsPcr0Key(c.key) { found := true; }
      if !Measured(c.key) { continue; }
      for k := 0 to |c.values|
        invariant forall m :: 0 <= m < k ==> SomeReleaseHas(admitted, c.key, Lower(c.values[m]))
      {
        var lv := Lower(c.values[k]);
        var some := false;
        for n := 0 to |admitted|
          invariant some == exists m :: 0 <= m < n && ReleaseHas(admitted[m], c.key, lv)
        {
          if ReleaseHas(admitted[n], c.key, lv) { some := true; }
        }
        if !some {
          assert !CondAttests(c, admitted);
          return false;
        }
      }
      assert CondAttests(c, admitted);
    }
    return found;
  }

  /** What the loop over a statement's actions gathers. */
  method GatherActions(actions: seq<Text>, input: Input) returns (ok: bool, gated: set<Text>, retire: set<Text>, readOnlyN: nat)
    ensures ok == ActionsOk(actions, input)
    ensures ok ==> gated == set a | a in actions && Gated(a)
    ensures ok ==> retire == set a | a in actions && Retires(a)
    ensures ok ==> (readOnlyN > 0 <==> SomeReadOnly(actions))
  {
    ok, gated, retire, readOnlyN := true, {}, {}, 0;
    for i := 0 to |actions|
      invariant ok && ActionsOk(actions[..i], input)
      invariant gated == set a | a in actions[..i] && Gated(a)
      invariant retire == set a | a in actions[..i] && Retires(a)
      invariant readOnlyN > 0 <==> SomeReadOnly(actions[..i])
    {
      hide RETIREMENT, READ_ONLY, Gated;
      var a := actions[i];
      assert actions[..i + 1] == actions[..i] + [a];
      if 0x2A in a || 0x3F in a {
        assert !ActionOk(actions[i], input);
        return false, gated, retire, readOnlyN;
      }
      if Gated(a) {
        gated := gated + {a};
      } else if a in READ_ONLY {
        readOnlyN := readOnlyN + 1;
        assert actions[..i + 1][i] == a;
      } else if a in RETIREMENT && input.retirementPrincipal != [] {
        retire := retire + {a};
      } else {
        assert !ActionOk(actions[i], input);
        return false, gated, retire, readOnlyN;
      }
      assert forall k :: 0 <= k < i ==> actions[..i + 1][k] == actions[..i][k];
    }
    assert actions[..|actions|] == actions;
  }

  method CheckPrincipal(raw: Option<JVal>, account: Text) returns (ok: bool)
    ensures ok == PrincipalOk(raw, account)
  {
    if raw.None? || !raw.value.Obj? || |raw.value.members| != 1 { return false; }
    var arns := TextsOf(Get(raw.value.members, U("AWS")));
    if arns.None? { return false; }
    for k := 0 to |arns.value|
      invariant forall j :: 0 <= j < k ==> IamArnAccount(arns.value[j]) == Some(account)
    {
      if IamArnAccount(arns.value[k]) != Some(account) { return false; }
    }
    return true;
  }

  /** The caller and principal conditions: pinned to the account, and whether the caller is named at all. */
  method CheckCallers(conds: seq<Cond>, account: Text) returns (ok: bool, callerOk: bool)
    ensures ok == CallersOk(conds, account)
    ensures ok ==> callerOk == NamesCaller(conds)
  {
    hide IamArnAccount;
    callerOk := false;
    for i := 0 to |conds|
      invariant forall j :: 0 <= j < i ==> CallerOk(conds[j], account)
      invariant callerOk == exists j :: 0 <= j < i && conds[j].key == KEY_CALLER
    {
      if !CallerOk(conds[i], account) { return false, callerOk; }
      if conds[i].key == KEY_CALLER { callerOk := true; }
    }
    return true, callerOk;
  }

  method CheckGated(gated: seq<Text>, conds: seq<Cond>, input: Input, target: Release) returns (ok: bool)
    ensures ok == GatedAttested(gated, conds, input, target)
  {
    hide Attested, Gated;
    for k := 0 to |gated|
      invariant forall j :: 0 <= j < k && Gated(gated[j]) ==> Attested(conds, AdmittedFor(gated[j], input.releases, target))
    {
      if Gated(gated[k]) {
        var attested := CheckAttestation(conds, AdmittedFor(gated[k], input.releases, target));
        if !attested { return false; }
      }
    }
    return true;
  }

  method CheckAllow(s: Statement, input: Input, target: Release) returns (e: nat)
    ensures e == AllowError(s, input, target)
  {
    hide CondsOf, ActionsOk, GatedAttested, PrincipalOk, CallersOk, NamesCaller,
      WindowOf, IntText, ExactPrincipal, NamesPrincipal, Gated, Retires, SomeReadOnly;
    var conds := ParseConditions(s.condition);
    if conds.None? { return 7; }
    var ok, gated, retire, readOnlyN := GatherActions(s.actions, input);
    if !ok { return 6; }
    SetsTell(s.actions, input, gated, retire);
    if retire != {} && (gated != {} || readOnlyN > 0) { return 6; }
    ok := CheckGated(s.actions, conds.value, input, target);
    if !ok { return 6; }
    var window := WindowOf(conds.value);
    if window != [] && SCHEDULE !in retire { return 7; }
    if SCHEDULE in retire && window != IntText(input.retirementWindowDays) { return 7; }
    ok := CheckPrincipal(s.principal, input.account);
    if !ok { return 8; }
    if retire != {} && !ExactPrincipal(s.principal, input.retirementPrincipal) { return 8; }
    if gated != {} && input.retirementPrincipal != [] && NamesPrincipal(s.principal, input.retirementPrincipal) { return 8; }
    var callerOk;
    ok, callerOk := CheckCallers(conds.value, input.account);
    if !ok { return 8; }
    if (gated != {} || retire != {}) && !callerOk { return 8; }
    return 0;
  }

  lemma SetsTell(actions: seq<Text>, input: Input, gated: set<Text>, retire: set<Text>)
    requires ActionsOk(actions, input)
    requires gated == set a | a in actions && Gated(a)
    requires retire == set a | a in actions && Retires(a)
    ensures gated != {} <==> SomeGated(actions)
    ensures retire != {} <==> SomeRetires(actions)
    ensures SCHEDULE in retire <==> SCHEDULE in actions
  {
    ScheduleRetires();
    hide Gated, Retires;
    if SomeGated(actions) {
      var k :| 0 <= k < |actions| && Gated(actions[k]);
      assert actions[k] in gated;
    }
    if SomeRetires(actions) {
      var k :| 0 <= k < |actions| && Retires(actions[k]);
      assert actions[k] in retire;
    }
    if gated != {} { var a :| a in gated; }
    if retire != {} { var a :| a in retire; }
  }

  lemma ScheduleRetires()
    ensures Retires(SCHEDULE)
  {
    assert |SCHEDULE| == 23 && |DECRYPT| == 11 && |GENERATE| == 19;
    assert RETIREMENT[0] == SCHEDULE;
  }

  method ParseAll(raws: seq<JVal>, keyArn: Text) returns (r: Option<seq<Statement>>)
    ensures r == ParseStatements(raws, keyArn)
  {
    hide ParseStatement;
    var stmts: seq<Statement> := [];
    for i := 0 to |raws|
      invariant ParseStatements(raws[..i], keyArn) == Some(stmts)
    {
      assert raws[..i + 1][..i] == raws[..i];
      var s := ParseStatement(raws[i], keyArn);
      if s.None? {
        StatementPrefixFails(raws, keyArn, i + 1);
        return None;
      }
      stmts := stmts + [s.value];
    }
    assert raws[..|raws|] == raws;
    r := Some(stmts);
  }

  lemma {:induction false} StatementPrefixFails(raws: seq<JVal>, keyArn: Text, i: nat)
    requires i <= |raws| && ParseStatements(raws[..i], keyArn).None?
    ensures ParseStatements(raws, keyArn).None?
    decreases |raws|
  {
    hide ParseStatement;
    if i < |raws| {
      assert raws[..|raws| - 1][..i] == raws[..i];
      StatementPrefixFails(raws[..|raws| - 1], keyArn, i);
    } else {
      assert raws[..i] == raws;
    }
  }

  lemma {:induction false} FirstErrorStays(ss: seq<Statement>, input: Input, target: Release, i: nat)
    requires i <= |ss| && StatementsError(ss[..i], input, target) != 0
    ensures StatementsError(ss, input, target) == StatementsError(ss[..i], input, target)
    decreases |ss|
  {
    hide AllowError;
    if i < |ss| {
      assert ss[..|ss| - 1][..i] == ss[..i];
      FirstErrorStays(ss[..|ss| - 1], input, target, i);
    } else {
      assert ss[..i] == ss;
    }
  }

  method CheckStatements(ss: seq<Statement>, input: Input, target: Release) returns (e: nat)
    ensures e == StatementsError(ss, input, target)
  {
    hide AllowError;
    for i := 0 to |ss|
      invariant StatementsError(ss[..i], input, target) == 0
    {
      assert ss[..i + 1][..i] == ss[..i];
      if ss[i].allow {
        e := CheckAllow(ss[i], input, target);
        if e != 0 {
          FirstErrorStays(ss, input, target, i + 1);
          return;
        }
      }
    }
    assert ss[..|ss|] == ss;
    return 0;
  }

  /** Checks 4 to 8 on a policy document. */
  method CheckPolicy(doc: Text, input: Input, target: Release) returns (e: nat)
    ensures e == PolicyError(doc, input, target)
  {
    hide AllowError, RawStatements, Parse, ParseStatements, StatementsError;
    var p := ParseStrict(doc);
    if p.None? { return 4; }
    var raws := RawStatements(p.value);
    if raws.None? { return 4; }
    var stmts := ParseAll(raws.value, input.keyArn);
    if stmts.None? { return 4; }
    e := CheckStatements(stmts.value, input, target);
  }

  /** The whole check, in order. */
  method CheckReleaseKey(input: Input) returns (e: nat)
    ensures e == ReleaseKeyError(input)
  {
    hide PolicyError, PolicyDocument, MetadataOk, GrantsOk, KeyArnOk, ValidRetirement, ValidRegion;
    if !ValidAccount(input.account) || !ValidRegion(input.region) || !ValidRetirement(input) { return 1; }
    var target := FindRelease(input.releases, input.target);
    if target.None? { return 1; }
    if input.keyArn != target.value.sealKey || !KeyArnOk(input.keyArn, input.region, input.account) { return 1; }
    if !MetadataOk(input) { return 2; }
    if !GrantsOk(input.listGrants) { return 3; }
    var doc := PolicyDocument(input.getKeyPolicy);
    if doc.None? { return 4; }
    e := CheckPolicy(doc.value, input, target.value);
  }
}
