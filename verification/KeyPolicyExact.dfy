/**
 * What the policy check accepts and which check it fails, for every document:
 * stated on the document's own blocks, members and texts, without the entries
 * the check gathers or the order it goes in.
 */
module KeyPolicyExact {
  import opened Json
  import JsonTheorems
  import opened KeyPolicy
  import Keys = ReleaseKeyPolicy
  import opened Wrappers

  // ---- texts and members ----------------------------------------------------------------

  /** `t` is the text, or one of the list. */
  ghost predicate Mentions(v: JVal, t: Text) { v == Str(t) || (v.Arr? && Str(t) in v.elems) }

  /** A text, or a list of texts that has one. */
  ghost predicate IsTexts(v: JVal) { v.Str? || (v.Arr? && v.elems != [] && forall e :: e in v.elems ==> e.Str?) }

  lemma TextsExactly(v: Option<JVal>)
    ensures TextsOf(v).Some? <==> v.Some? && IsTexts(v.value)
    ensures TextsOf(v).Some? ==> forall t :: t in TextsOf(v).value <==> Mentions(v.value, t)
  {
    if v.Some? && v.value.Arr? && IsTexts(v.value) {
      var es, ts := v.value.elems, TextsOf(v).value;
      assert forall k :: 0 <= k < |es| ==> es[k] in es && es[k] == Str(ts[k]);
      forall t ensures t in ts <==> Str(t) in es {
        if t in ts { var k :| 0 <= k < |ts| && ts[k] == t; assert es[k] == Str(t); }
        if Str(t) in es { var k :| 0 <= k < |es| && es[k] == Str(t); assert ts[k] == t; }
      }
    }
    if TextsOf(v).Some? && v.value.Arr? { assert forall e :: e in v.value.elems ==> e.Str?; }
  }

  /** A member is found by its name, the first one if there were more. */
  lemma {:induction false} GetExactly(ms: seq<Member>, name: Text, k: nat)
    requires k < |ms| && ms[k].name == name && forall j :: 0 <= j < k ==> ms[j].name != name
    ensures Get(ms, name) == Some(ms[k].value)
    decreases k
  {
    if k > 0 {
      assert ms[0].name != name;
      GetExactly(ms[1..], name, k - 1);
    }
  }

  /** Upper-case letters become lower-case, and nothing else changes. */
  lemma LowerExactly(t: Text, p: Text)
    ensures Lower(t) == p <==>
            |p| == |t| && forall i :: 0 <= i < |t| ==> p[i] == if 0x41 <= t[i] <= 0x5A then t[i] + 0x20 else t[i]
  {
  }

  // ---- the allow-list of conditions -----------------------------------------------------

  function PcrKey(n: nat): Text
    requires n <= 8
  {
    U("kms:RecipientAttestation:PCR") + [0x30 + n]
  }

  ghost predicate IsMeasurement(key: Text) {
    key == U("kms:RecipientAttestation:ImageSha384") || exists n: nat :: n <= 8 && key == PcrKey(n)
  }

  /** 96 hexadecimal digits in either case. */
  ghost predicate IsDigest(t: Text) {
    |t| == 96 && forall i :: 0 <= i < 96 ==> 0x30 <= t[i] <= 0x39 || 0x41 <= t[i] <= 0x46 || 0x61 <= t[i] <= 0x66
  }

  ghost predicate IsAccount(t: Text) { |t| == 12 && forall i :: 0 <= i < 12 ==> 0x30 <= t[i] <= 0x39 }

  /** Measurements and encryption contexts as strings, the caller's account exactly, a principal as an identifier. */
  ghost predicate MayPair(op: Text, key: Text, v: JVal) {
    var strings := op == U("StringEquals") || op == U("StringEqualsIgnoreCase");
    || (strings && IsMeasurement(key) && forall t :: Mentions(v, t) ==> IsDigest(t))
    || (strings && U("kms:EncryptionContext:") < key)
    || (op == U("StringEquals") && key == U("kms:CallerAccount") && forall t :: Mentions(v, t) ==> IsAccount(t))
    || (op == U("ArnEquals") && key == U("aws:PrincipalArn") && forall t :: Mentions(v, t) ==> IamArnAccount(t).Some?)
  }

  lemma Units()
    ensures U("kms:RecipientAttestation:PCR")[4] == 0x52 && U("kms:RecipientAttestation:ImageSha384")[4] == 0x52
    ensures U("kms:RecipientAttestation:PCR")[25] == 0x50 && U("kms:RecipientAttestation:ImageSha384")[25] == 0x49
    ensures U("kms:EncryptionContext:")[4] == 0x45 && U("kms:CallerAccount")[4] == 0x43
    ensures U("aws:PrincipalArn")[0] == 0x61 && U("kms:CallerAccount")[0] == 0x6B
    ensures U("kms:RecipientAttestation:PCR")[0] == 0x6B && U("kms:EncryptionContext:")[0] == 0x6B
    ensures U("StringEquals") != U("ArnEquals") && U("StringEqualsIgnoreCase") != U("ArnEquals")
    ensures U("NumericEquals") !in {U("StringEquals"), U("StringEqualsIgnoreCase"), U("ArnEquals")}
    ensures |U("kms:RecipientAttestation:PCR")| == 28
  {
    assert |U("StringEquals")| == 12 && |U("ArnEquals")| == 9 && |U("StringEqualsIgnoreCase")| == 22 && |U("NumericEquals")| == 13;
  }

  lemma MeasurementKeys(key: Text)
    ensures IsMeasurement(key) <==> key == KEY_IMAGE || key == KEY_PCR0 || Pcr1To8(key)
    ensures KEY_PCR0 == PcrKey(0)
  {
    Units();
    assert KEY_PCR0 == PcrKey(0);
    hide U;
    if Pcr1To8(key) { assert key == PcrKey(key[28] - 0x30); }
    if n: nat :| n <= 8 && key == PcrKey(n) { assert n > 0 ==> Pcr1To8(key); }
  }

  lemma DigestsExactly(v: JVal, ts: seq<Text>)
    requires forall t :: t in ts <==> Mentions(v, t)
    ensures HexDigests(ts) <==> forall t :: Mentions(v, t) ==> IsDigest(t)
  {
    hide Mentions;
    if HexDigests(ts) {
      forall t | Mentions(v, t) ensures IsDigest(t) { assert t in ts; }
    } else {
      var k :| 0 <= k < |ts| && !(|ts[k]| == 96 && IsHex(ts[k]));
      assert Mentions(v, ts[k]) && !IsDigest(ts[k]);
    }
  }

  lemma OwnersExactly(v: JVal, ts: seq<Text>)
    requires forall t :: t in ts <==> Mentions(v, t)
    ensures (forall k :: 0 <= k < |ts| ==> ValidAccount(ts[k])) <==> forall t :: Mentions(v, t) ==> IsAccount(t)
    ensures (forall k :: 0 <= k < |ts| ==> IamArnAccount(ts[k]).Some?) <==> forall t :: Mentions(v, t) ==> IamArnAccount(t).Some?
  {
    hide Mentions, IamArnAccount;
    forall k | 0 <= k < |ts| ensures ts[k] in ts && (ValidAccount(ts[k]) <==> IsAccount(ts[k])) { }
    forall t | t in ts ensures exists k :: 0 <= k < |ts| && ts[k] == t { }
    if forall t :: Mentions(v, t) ==> IsAccount(t) { assert forall k :: 0 <= k < |ts| ==> ValidAccount(ts[k]); }
  }

  lemma EntryExactly(op: Text, key: Text, v: JVal)
    requires IsTexts(v)
    ensures AllowedEntry(op, key, TextsOf(Some(v)).value) <==> MayPair(op, key, v)
  {
    TextsExactly(Some(v));
    DigestsExactly(v, TextsOf(Some(v)).value);
    OwnersExactly(v, TextsOf(Some(v)).value);
    MeasurementKeys(key);
    Units();
    hide TextsOf, U, IamArnAccount, HexDigests, IsDigest, IsAccount, ValidAccount, Mentions, IsTexts, IsMeasurement;
    assert KEY_PCR0 == PcrKey(0);
    assert Pcr1To8(key) ==> KEY_PCR_PREFIX <= key && key != KEY_IMAGE && key[4] == 0x52 && key[0] == 0x6B;
  }

  // ---- the blocks of a condition ----------------------------------------------------------

  /** A number from 1 to 999 without a leading zero, as a text or a number. */
  ghost predicate IsDays(v: JVal, t: Text) {
    && (v == Str(t) || v == Num(t))
    && 1 <= |t| <= 3 && 0x31 <= t[0] <= 0x39 && forall i :: 0 <= i < |t| ==> 0x30 <= t[i] <= 0x39
  }

  ghost predicate IsWindow(v: JVal, t: Text) {
    v.Obj? && |v.members| == 1 && v.members[0].name == U("kms:ScheduleKeyDeletionPendingWindowInDays") && IsDays(v.members[0].value, t)
  }

  /** An operator of the allow-list over what it may have. */
  ghost predicate IsBlock(b: Member) {
    if b.name == U("NumericEquals") then exists t :: IsWindow(b.value, t)
    else b.value.Obj? && b.value.members != [] && forall j :: 0 <= j < |b.value.members| ==> IsPair(b.name, b.value.members[j])
  }

  ghost predicate IsPair(op: Text, m: Member) { IsTexts(m.value) && MayPair(op, m.name, m.value) }

  ghost predicate BlockSays(b: Member, key: Text, t: Text) {
    && b.name != U("NumericEquals") && b.value.Obj?
    && exists j :: 0 <= j < |b.value.members| && b.value.members[j].name == key && Mentions(b.value.members[j].value, t)
  }

  /** The condition has the text under the key, under some operator. */
  ghost predicate Says(c: seq<Member>, key: Text, t: Text) { exists i :: 0 <= i < |c| && BlockSays(c[i], key, t) }

  ghost predicate HasWindow(c: seq<Member>) { exists i :: 0 <= i < |c| && c[i].name == U("NumericEquals") }

  /** The first window is this text. */
  ghost predicate SaysWindow(c: seq<Member>, t: Text) {
    exists i :: 0 <= i < |c| && c[i].name == U("NumericEquals") && IsWindow(c[i].value, t) && !HasWindow(c[..i])
  }

  ghost predicate CondSays(conds: seq<Cond>, key: Text, t: Text) {
    exists k :: 0 <= k < |conds| && conds[k].op != NUMERIC_EQUALS && conds[k].key == key && t in conds[k].values
  }

  /** Entries have values, and a window's key is its own. */
  ghost predicate Gathered(conds: seq<Cond>) {
    forall k :: 0 <= k < |conds| ==>
      conds[k].values != [] && (conds[k].op == NUMERIC_EQUALS ==> conds[k].key == KEY_WINDOW && conds[k].values[0] != [])
  }

  lemma {:induction false} EntriesExactly(op: Text, ms: seq<Member>)
    ensures EntryConds(op, ms).Some? <==> forall j :: 0 <= j < |ms| ==> IsPair(op, ms[j])
    ensures EntryConds(op, ms).Some? ==> |EntryConds(op, ms).value| == |ms|
    ensures EntryConds(op, ms).Some? ==>
              forall j :: 0 <= j < |ms| ==> TextsOf(Some(ms[j].value)).Some? && EntryConds(op, ms).value[j] == Cond(op, ms[j].name, TextsOf(Some(ms[j].value)).value)
    decreases |ms|
  {
    hide IsTexts, MayPair, TextsOf, AllowedEntry;
    if ms != [] {
      var n := |ms| - 1;
      EntriesExactly(op, ms[..n]);
      TextsExactly(Some(ms[n].value));
      if IsTexts(ms[n].value) { EntryExactly(op, ms[n].name, ms[n].value); }
      assert forall j :: 0 <= j < n ==> ms[..n][j] == ms[j];
    }
  }

  lemma OneWindow(v: JVal)
    ensures OperatorConds(NUMERIC_EQUALS, v).Some? <==> exists t :: IsWindow(v, t)
    ensures forall t :: IsWindow(v, t) ==> OperatorConds(NUMERIC_EQUALS, v) == Some([Cond(NUMERIC_EQUALS, KEY_WINDOW, [t])]) && t != []
  {
    hide U;
    if v.Obj? && |v.members| == 1 {
      if v.members[0].name == KEY_WINDOW {
        GetExactly(v.members, KEY_WINDOW, 0);
        var d := WindowValue(Some(v.members[0].value));
        if d.Some? { assert IsWindow(v, d.value); }
      }
    }
  }

  lemma BlockExactly(b: Member)
    ensures OperatorConds(b.name, b.value).Some? <==> IsBlock(b)
    ensures OperatorConds(b.name, b.value).Some? ==> Gathered(OperatorConds(b.name, b.value).value)
    ensures OperatorConds(b.name, b.value).Some? ==>
              forall key, t :: CondSays(OperatorConds(b.name, b.value).value, key, t) <==> BlockSays(b, key, t)
  {
    hide U, Mentions, IsTexts, TextsOf;
    if b.name == NUMERIC_EQUALS {
      OneWindow(b.value);
      hide IsWindow, OperatorConds;
      if t :| IsWindow(b.value, t) { assert [t][0] == t; }
    } else if b.value.Obj? {
      var ms := b.value.members;
      EntriesExactly(b.name, ms);
      if OperatorConds(b.name, b.value).Some? {
        var conds := OperatorConds(b.name, b.value).value;
        TextsTell(ms);
        hide OperatorConds, EntryConds, MayPair;
        forall key, t ensures CondSays(conds, key, t) <==> BlockSays(b, key, t) {
          if CondSays(conds, key, t) {
            var k :| 0 <= k < |conds| && conds[k].op != NUMERIC_EQUALS && conds[k].key == key && t in conds[k].values;
            assert ms[k].name == key && Mentions(ms[k].value, t);
          }
          if BlockSays(b, key, t) {
            var j :| 0 <= j < |ms| && ms[j].name == key && Mentions(ms[j].value, t);
            assert conds[j].key == key && t in conds[j].values;
          }
        }
      }
    }
  }

  lemma TextsTell(ms: seq<Member>)
    ensures forall j :: 0 <= j < |ms| ==> forall t ::
              TextsOf(Some(ms[j].value)).Some? ==> (t in TextsOf(Some(ms[j].value)).value <==> Mentions(ms[j].value, t))
  {
    forall j | 0 <= j < |ms|
      ensures forall t :: TextsOf(Some(ms[j].value)).Some? ==> (t in TextsOf(Some(ms[j].value)).value <==> Mentions(ms[j].value, t))
    {
      TextsExactly(Some(ms[j].value));
    }
  }

  ghost predicate AllBlocks(c: seq<Member>) { forall i :: 0 <= i < |c| ==> IsBlock(c[i]) }

  lemma {:induction false} ConditionExactly(c: seq<Member>)
    ensures CondsOf(c).Some? <==> AllBlocks(c)
    ensures CondsOf(c).Some? ==> Gathered(CondsOf(c).value)
    ensures CondsOf(c).Some? ==> forall key, t :: CondSays(CondsOf(c).value, key, t) <==> Says(c, key, t)
    decreases |c|
  {
    hide IsBlock, OperatorConds, BlockSays;
    if c != [] {
      var n := |c| - 1;
      ConditionExactly(c[..n]);
      BlockExactly(c[n]);
      assert forall i :: 0 <= i < n ==> c[..n][i] == c[i];
      if CondsOf(c).Some? {
        var a, b := CondsOf(c[..n]).value, OperatorConds(c[n].name, c[n].value).value;
        Joined(a, b);
        hide CondSays, CondsOf;
        forall key, t ensures CondSays(a + b, key, t) <==> Says(c, key, t) {
          if Says(c[..n], key, t) { var i :| 0 <= i < n && BlockSays(c[..n][i], key, t); assert BlockSays(c[i], key, t); }
          if Says(c, key, t) { var i :| 0 <= i < |c| && BlockSays(c[i], key, t); assert i < n ==> BlockSays(c[..n][i], key, t); }
        }
      }
    }
  }

  lemma Joined(a: seq<Cond>, b: seq<Cond>)
    ensures forall key, t :: CondSays(a + b, key, t) <==> CondSays(a, key, t) || CondSays(b, key, t)
    ensures Gathered(a) && Gathered(b) ==> Gathered(a + b)
  {
    forall key, t ensures CondSays(a + b, key, t) <==> CondSays(a, key, t) || CondSays(b, key, t) {
      if CondSays(a, key, t) {
        var k :| 0 <= k < |a| && a[k].op != NUMERIC_EQUALS && a[k].key == key && t in a[k].values;
        assert (a + b)[k] == a[k];
      }
      if CondSays(b, key, t) {
        var k :| 0 <= k < |b| && b[k].op != NUMERIC_EQUALS && b[k].key == key && t in b[k].values;
        assert (a + b)[|a| + k] == b[k];
      }
    }
  }

  lemma {:induction false} WindowJoined(a: seq<Cond>, b: seq<Cond>)
    requires Gathered(a)
    ensures WindowOf(a + b) == if WindowOf(a) != [] then WindowOf(a) else WindowOf(b)
    decreases |a|
  {
    if a == [] {
      assert a + b == b;
    } else {
      assert (a + b)[0] == a[0] && (a + b)[1..] == a[1..] + b;
      WindowJoined(a[1..], b);
    }
  }

  lemma {:induction false} NoWindowIn(conds: seq<Cond>)
    requires forall k :: 0 <= k < |conds| ==> conds[k].op != NUMERIC_EQUALS
    ensures WindowOf(conds) == []
  {
    if conds != [] { NoWindowIn(conds[1..]); }
  }

  lemma BlockWindow(b: Member)
    requires IsBlock(b)
    ensures OperatorConds(b.name, b.value).Some?
    ensures b.name != NUMERIC_EQUALS ==> WindowOf(OperatorConds(b.name, b.value).value) == []
    ensures b.name == NUMERIC_EQUALS ==> WindowOf(OperatorConds(b.name, b.value).value) != []
    ensures b.name == NUMERIC_EQUALS ==> forall t :: IsWindow(b.value, t) <==> WindowOf(OperatorConds(b.name, b.value).value) == t
  {
    BlockExactly(b);
    hide U, IsPair;
    if b.name == NUMERIC_EQUALS {
      OneWindow(b.value);
      hide IsWindow, OperatorConds;
      forall t | IsWindow(b.value, t) ensures WindowOf([Cond(NUMERIC_EQUALS, KEY_WINDOW, [t])]) == t { assert [t][0] == t; }
    } else {
      EntriesExactly(b.name, b.value.members);
      NoWindowIn(OperatorConds(b.name, b.value).value);
    }
  }

  lemma {:induction false} WindowExactly(c: seq<Member>)
    requires AllBlocks(c)
    ensures CondsOf(c).Some?
    ensures WindowOf(CondsOf(c).value) != [] <==> HasWindow(c)
    ensures HasWindow(c) ==> forall t :: SaysWindow(c, t) <==> WindowOf(CondsOf(c).value) == t
    decreases |c|
  {
    hide IsBlock, OperatorConds, IsWindow;
    if c != [] {
      var n := |c| - 1;
      assert forall i :: 0 <= i < n ==> c[..n][i] == c[i] && c[..n][..i] == c[..i];
      ConditionExactly(c[..n]);
      WindowExactly(c[..n]);
      BlockWindow(c[n]);
      var a, b := CondsOf(c[..n]).value, OperatorConds(c[n].name, c[n].value).value;
      WindowJoined(a, b);
      hide CondsOf, WindowOf;
      assert HasWindow(c) <==> HasWindow(c[..n]) || c[n].name == U("NumericEquals");
      forall t ensures SaysWindow(c, t) <==> if HasWindow(c[..n]) then SaysWindow(c[..n], t) else c[n].name == U("NumericEquals") && IsWindow(c[n].value, t) {
        LastWindow(c, t);
      }
      hide SaysWindow, HasWindow;
    }
  }

  lemma LastWindow(c: seq<Member>, t: Text)
    requires c != []
    ensures SaysWindow(c, t) <==>
            var n := |c| - 1;
            if HasWindow(c[..n]) then SaysWindow(c[..n], t) else c[n].name == U("NumericEquals") && IsWindow(c[n].value, t)
  {
    hide IsWindow, U;
    var n := |c| - 1;
    assert forall i :: 0 <= i < n ==> c[..n][i] == c[i] && c[..n][..i] == c[..i];
    if SaysWindow(c[..n], t) {
      var i :| 0 <= i < n && c[..n][i].name == U("NumericEquals") && IsWindow(c[..n][i].value, t) && !HasWindow(c[..n][..i]);
      assert c[i].name == U("NumericEquals") && IsWindow(c[i].value, t) && !HasWindow(c[..i]);
    }
    if SaysWindow(c, t) {
      var i :| 0 <= i < |c| && c[i].name == U("NumericEquals") && IsWindow(c[i].value, t) && !HasWindow(c[..i]);
      if i < n { assert c[..n][i] == c[i] && !HasWindow(c[..n][..i]); }
    }
  }

  // ---- actions -----------------------------------------------------------------------------

  ghost predicate UsesKey(a: Text) { a == U("kms:Decrypt") || a == U("kms:GenerateDataKey") }

  ghost predicate OnlyReads(a: Text) {
    || a == U("kms:DescribeKey") || a == U("kms:GetKeyPolicy") || a == U("kms:ListGrants")
    || a == U("kms:ListKeyPolicies") || a == U("kms:GetKeyRotationStatus") || a == U("kms:ListResourceTags")
  }

  ghost predicate RetiresKey(a: Text) {
    a == U("kms:ScheduleKeyDeletion") || a == U("kms:CancelKeyDeletion") || a == U("kms:EnableKey")
  }

  lemma Kinds(a: Text)
    ensures Gated(a) <==> UsesKey(a)
    ensures a in READ_ONLY <==> OnlyReads(a)
    ensures a in RETIREMENT <==> RetiresKey(a)
    ensures RetiresKey(a) ==> !UsesKey(a) && !OnlyReads(a)
  {
    assert |DECRYPT| == 11 && |GENERATE| == 19;
    if OnlyReads(a) { assert |a| in {15, 16, 14, 19, 24, 20}; }
    if RetiresKey(a) { assert |a| in {23, 21, 13}; }
    hide U;
    assert a in READ_ONLY <==> OnlyReads(a) by {
      if OnlyReads(a) {
        assert READ_ONLY[0] == U("kms:DescribeKey") && READ_ONLY[1] == U("kms:GetKeyPolicy") && READ_ONLY[2] == U("kms:ListGrants");
        assert READ_ONLY[3] == U("kms:ListKeyPolicies") && READ_ONLY[4] == U("kms:GetKeyRotationStatus") && READ_ONLY[5] == U("kms:ListResourceTags");
      }
    }
    assert a in RETIREMENT <==> RetiresKey(a) by {
      if RetiresKey(a) { assert RETIREMENT[0] == SCHEDULE && RETIREMENT[1] == U("kms:CancelKeyDeletion") && RETIREMENT[2] == U("kms:EnableKey"); }
    }
  }

  lemma NoWildcard(s: string)
    requires '*' !in s && '?' !in s
    ensures 0x2A !in U(s) && 0x3F !in U(s)
  {
    forall i | 0 <= i < |s| ensures U(s)[i] != 0x2A && U(s)[i] != 0x3F { assert s[i] in s; }
  }

  lemma PlainUses()
    ensures forall a :: UsesKey(a) ==> 0x2A !in a && 0x3F !in a
  {
    hide U;
    NoWildcard("kms:Decrypt");
    NoWildcard("kms:GenerateDataKey");
  }

  lemma PlainDescribes(a: Text)
    requires a == U("kms:DescribeKey") || a == U("kms:GetKeyPolicy") || a == U("kms:GetKeyRotationStatus")
    ensures 0x2A !in a && 0x3F !in a
  {
    hide U;
    NoWildcard("kms:DescribeKey");
    NoWildcard("kms:GetKeyPolicy");
    NoWildcard("kms:GetKeyRotationStatus");
  }

  lemma PlainLists(a: Text)
    requires a == U("kms:ListGrants") || a == U("kms:ListKeyPolicies") || a == U("kms:ListResourceTags")
    ensures 0x2A !in a && 0x3F !in a
  {
    hide U;
    NoWildcard("kms:ListGrants");
    NoWildcard("kms:ListKeyPolicies");
    NoWildcard("kms:ListResourceTags");
  }

  lemma PlainReads()
    ensures forall a :: OnlyReads(a) ==> 0x2A !in a && 0x3F !in a
  {
    hide U;
    forall a | OnlyReads(a) ensures 0x2A !in a && 0x3F !in a {
      if a == U("kms:DescribeKey") || a == U("kms:GetKeyPolicy") || a == U("kms:GetKeyRotationStatus") {
        PlainDescribes(a);
      } else {
        PlainLists(a);
      }
    }
  }

  lemma PlainRetirements()
    ensures forall a :: RetiresKey(a) ==> 0x2A !in a && 0x3F !in a
  {
    hide U;
    NoWildcard("kms:ScheduleKeyDeletion");
    NoWildcard("kms:CancelKeyDeletion");
    NoWildcard("kms:EnableKey");
  }

  ghost predicate SomeUses(actions: seq<Text>) { exists a :: a in actions && UsesKey(a) }
  ghost predicate SomeRetire(actions: seq<Text>) { exists a :: a in actions && RetiresKey(a) }

  /** Only listed actions, the retirement ones for a key that has a retirement principal, and never beside others. */
  ghost predicate ActionsFit(actions: seq<Text>, retirement: bool) {
    && (forall a :: a in actions ==> UsesKey(a) || OnlyReads(a) || (RetiresKey(a) && retirement))
    && (forall a, b :: a in actions && b in actions && RetiresKey(a) ==> RetiresKey(b))
  }

  lemma EachAction(actions: seq<Text>, input: Input, k: nat)
    requires k < |actions|
    ensures actions[k] in actions
    ensures ActionOk(actions[k], input) <==>
            UsesKey(actions[k]) || OnlyReads(actions[k]) || (RetiresKey(actions[k]) && input.retirementPrincipal != [])
    ensures Gated(actions[k]) <==> UsesKey(actions[k])
    ensures Retires(actions[k]) <==> RetiresKey(actions[k])
    ensures actions[k] in READ_ONLY <==> OnlyReads(actions[k])
    ensures RetiresKey(actions[k]) ==> !UsesKey(actions[k]) && !OnlyReads(actions[k])
  {
    OneAction(actions[k], input);
  }

  lemma KindsExactly(actions: seq<Text>, input: Input)
    ensures SomeGated(actions) <==> SomeUses(actions)
    ensures SomeRetires(actions) <==> SomeRetire(actions)
  {
    hide ActionOk, Gated, Retires, UsesKey, OnlyReads, RetiresKey, READ_ONLY;
    if SomeGated(actions) { var k :| 0 <= k < |actions| && Gated(actions[k]); EachAction(actions, input, k); }
    if SomeRetires(actions) { var k :| 0 <= k < |actions| && Retires(actions[k]); EachAction(actions, input, k); }
    if a :| a in actions && UsesKey(a) { var k :| 0 <= k < |actions| && actions[k] == a; EachAction(actions, input, k); }
    if a :| a in actions && RetiresKey(a) { var k :| 0 <= k < |actions| && actions[k] == a; EachAction(actions, input, k); }
  }

  lemma ActionsExactly(actions: seq<Text>, input: Input)
    ensures ActionsFit(actions, input.retirementPrincipal != []) <==>
            ActionsOk(actions, input) && !(SomeRetires(actions) && (SomeGated(actions) || SomeReadOnly(actions)))
  {
    hide ActionOk, Gated, Retires, UsesKey, OnlyReads, RetiresKey, READ_ONLY;
    forall k | 0 <= k < |actions|
      ensures actions[k] in actions
      ensures ActionOk(actions[k], input) <==>
              UsesKey(actions[k]) || OnlyReads(actions[k]) || (RetiresKey(actions[k]) && input.retirementPrincipal != [])
      ensures RetiresKey(actions[k]) <==> Retires(actions[k])
      ensures RetiresKey(actions[k]) ==> !UsesKey(actions[k]) && !OnlyReads(actions[k])
      ensures !Gated(actions[k]) && actions[k] in READ_ONLY ==> OnlyReads(actions[k])
      ensures Gated(actions[k]) <==> UsesKey(actions[k])
      ensures OnlyReads(actions[k]) <==> actions[k] in READ_ONLY
    {
      EachAction(actions, input, k);
    }
    if ActionsFit(actions, input.retirementPrincipal != []) && SomeRetires(actions) {
      var k :| 0 <= k < |actions| && Retires(actions[k]);
      assert forall j :: 0 <= j < |actions| ==> RetiresKey(actions[j]);
    }
  }

  lemma OneAction(a: Text, input: Input)
    ensures ActionOk(a, input) <==> UsesKey(a) || OnlyReads(a) || (RetiresKey(a) && input.retirementPrincipal != [])
    ensures Gated(a) <==> UsesKey(a)
    ensures Retires(a) <==> RetiresKey(a)
    ensures a in READ_ONLY <==> OnlyReads(a)
    ensures RetiresKey(a) ==> !UsesKey(a) && !OnlyReads(a)
  {
    Kinds(a);
    hide UsesKey, OnlyReads, RetiresKey;
    PlainUses();
    PlainReads();
    PlainRetirements();
  }

  // ---- attestation -----------------------------------------------------------------------

  /** The releases an action is for: Decrypt the target alone, GenerateDataKey each one up to it. */
  ghost predicate IsFor(action: Text, r: Release, releases: seq<Release>, target: Release) {
    if action == U("kms:Decrypt") then r == target else r in releases && r.number <= target.number
  }

  ghost predicate SameDigest(t: Text, p: Text) {
    |p| == |t| && forall i :: 0 <= i < |t| ==> p[i] == if 0x41 <= t[i] <= 0x5A then t[i] + 0x20 else t[i]
  }

  ghost predicate IsImage(key: Text) { key == U("kms:RecipientAttestation:ImageSha384") || key == PcrKey(0) }

  /** The digest under the key is the release's. */
  ghost predicate Measures(r: Release, key: Text, t: Text) {
    && (IsImage(key) ==> SameDigest(t, r.pcr0))
    && (key == PcrKey(1) ==> r.pcr1.Some? && SameDigest(t, r.pcr1.value))
    && (key == PcrKey(2) ==> r.pcr2.Some? && SameDigest(t, r.pcr2.value))
  }

  ghost predicate MeasuresSome(action: Text, key: Text, t: Text, releases: seq<Release>, target: Release) {
    exists r :: IsFor(action, r, releases, target) && Measures(r, key, t)
  }

  ghost predicate NamesImage(c: seq<Member>) { exists key, t :: IsImage(key) && Says(c, key, t) }

  /** The image is named, and every digest named of it and of its parts 1 and 2 is of a release the action is for. */
  ghost predicate Attests(c: seq<Member>, action: Text, releases: seq<Release>, target: Release) {
    && NamesImage(c)
    && (forall key, t :: Says(c, key, t) && (IsImage(key) || key == PcrKey(1) || key == PcrKey(2)) ==>
          MeasuresSome(action, key, t, releases, target))
  }

  lemma {:induction false} UpToExactly(rs: seq<Release>, number: int, r: Release)
    ensures r in UpTo(rs, number) <==> r in rs && r.number <= number
    decreases |rs|
  {
    if rs != [] {
      UpToExactly(rs[..|rs| - 1], number, r);
      assert rs == rs[..|rs| - 1] + [rs[|rs| - 1]];
    }
  }

  lemma MeasuredExactly(r: Release, key: Text, t: Text)
    requires Measured(key)
    ensures IsImage(key) || key == PcrKey(1) || key == PcrKey(2)
    ensures ReleaseHas(r, key, Lower(t)) <==> Measures(r, key, t)
  {
    Units();
    MeasurementKeys(key);
    LowerExactly(t, r.pcr0);
    if r.pcr1.Some? { LowerExactly(t, r.pcr1.value); }
    if r.pcr2.Some? { LowerExactly(t, r.pcr2.value); }
    hide U, Lower;
    assert PcrKey(1)[28] == 0x31 && PcrKey(2)[28] == 0x32 && PcrKey(0)[28] == 0x30;
    assert PcrKey(1)[25] == 0x50 && PcrKey(2)[25] == 0x50;
  }

  lemma AdmittedExactly(action: Text, key: Text, t: Text, releases: seq<Release>, target: Release)
    requires Measured(key)
    ensures SomeReleaseHas(AdmittedFor(action, releases, target), key, Lower(t)) <==> MeasuresSome(action, key, t, releases, target)
  {
    ghost var admitted := AdmittedFor(action, releases, target);
    forall r ensures r in admitted <==> IsFor(action, r, releases, target) { UpToExactly(releases, target.number, r); }
    forall r ensures ReleaseHas(r, key, Lower(t)) <==> Measures(r, key, t) { MeasuredExactly(r, key, t); }
    hide AdmittedFor, ReleaseHas, Measures, IsFor, U, Lower, Measured;
    if SomeReleaseHas(admitted, key, Lower(t)) {
      var i :| 0 <= i < |admitted| && ReleaseHas(admitted[i], key, Lower(t));
      assert admitted[i] in admitted;
    }
    if r :| IsFor(action, r, releases, target) && Measures(r, key, t) { var i :| 0 <= i < |admitted| && admitted[i] == r; }
  }

  lemma MeasuredKeys(key: Text)
    ensures Measured(key) <==> IsImage(key) || key == PcrKey(1) || key == PcrKey(2)
    ensures IsPcr0Key(key) <==> IsImage(key)
    ensures Measured(key) ==> key != KEY_WINDOW
  {
    Units();
    MeasurementKeys(key);
    assert KEY_WINDOW[4] == 0x53;
    hide U;
    assert PcrKey(0)[4] == PcrKey(1)[4] == PcrKey(2)[4] == 0x52;
  }

  lemma ImageNamed(c: seq<Member>, conds: seq<Cond>)
    requires Gathered(conds) && forall key, t :: CondSays(conds, key, t) <==> Says(c, key, t)
    ensures (exists i :: 0 <= i < |conds| && IsPcr0Key(conds[i].key)) <==> NamesImage(c)
  {
    hide U, Says, IsPcr0Key, IsImage;
    if i :| 0 <= i < |conds| && IsPcr0Key(conds[i].key) {
      MeasuredKeys(conds[i].key);
      assert CondSays(conds, conds[i].key, conds[i].values[0]);
    }
    if key, t :| IsImage(key) && Says(c, key, t) {
      MeasuredKeys(key);
      assert CondSays(conds, key, t);
      var k :| 0 <= k < |conds| && conds[k].op != NUMERIC_EQUALS && conds[k].key == key && t in conds[k].values;
      assert IsPcr0Key(conds[k].key);
    }
  }

  lemma EveryMeasure(c: seq<Member>, conds: seq<Cond>, action: Text, releases: seq<Release>, target: Release)
    requires Gathered(conds) && forall key, t :: CondSays(conds, key, t) <==> Says(c, key, t)
    ensures (forall i :: 0 <= i < |conds| ==> CondAttests(conds[i], AdmittedFor(action, releases, target))) <==>
            forall key, t :: Says(c, key, t) && (IsImage(key) || key == PcrKey(1) || key == PcrKey(2)) ==>
              MeasuresSome(action, key, t, releases, target)
  {
    ghost var admitted := AdmittedFor(action, releases, target);
    hide U, Says, IsPcr0Key, IsImage, PcrKey, MeasuresSome, SomeReleaseHas, Measured, AdmittedFor, Lower;
    if forall i :: 0 <= i < |conds| ==> CondAttests(conds[i], admitted) {
      forall key, t | Says(c, key, t) && (IsImage(key) || key == PcrKey(1) || key == PcrKey(2))
        ensures MeasuresSome(action, key, t, releases, target)
      {
        MeasuredKeys(key);
        AdmittedExactly(action, key, t, releases, target);
        assert CondSays(conds, key, t);
        var k :| 0 <= k < |conds| && conds[k].op != NUMERIC_EQUALS && conds[k].key == key && t in conds[k].values;
        assert CondAttests(conds[k], admitted);
      }
    } else {
      var i :| 0 <= i < |conds| && !CondAttests(conds[i], admitted);
      var k :| 0 <= k < |conds[i].values| && !SomeReleaseHas(admitted, conds[i].key, Lower(conds[i].values[k]));
      MeasuredKeys(conds[i].key);
      AdmittedExactly(action, conds[i].key, conds[i].values[k], releases, target);
      assert CondSays(conds, conds[i].key, conds[i].values[k]);
    }
  }

  lemma AttestsExactly(c: seq<Member>, conds: seq<Cond>, action: Text, releases: seq<Release>, target: Release)
    requires CondsOf(c) == Some(conds)
    ensures Attested(conds, AdmittedFor(action, releases, target)) <==> Attests(c, action, releases, target)
  {
    ConditionExactly(c);
    ImageNamed(c, conds);
    EveryMeasure(c, conds, action, releases, target);
    hide NamesImage, CondAttests, CondsOf, Says, IsImage, PcrKey, MeasuresSome, AdmittedFor;
  }

  // ---- principals and callers ----------------------------------------------------------------

  /** One AWS member, of identifiers of the account. */
  ghost predicate OfAccount(p: Option<JVal>, account: Text) {
    && p.Some? && p.value.Obj? && |p.value.members| == 1 && p.value.members[0].name == U("AWS") && IsTexts(p.value.members[0].value)
    && forall t :: Mentions(p.value.members[0].value, t) ==> IamArnAccount(t) == Some(account)
  }

  lemma PrincipalExactly(p: Option<JVal>, account: Text, arn: Text)
    ensures PrincipalOk(p, account) <==> OfAccount(p, account)
    ensures OfAccount(p, account) ==> (ExactPrincipal(p, arn) <==> p.value.members[0].value == Str(arn))
    ensures OfAccount(p, account) ==> (NamesPrincipal(p, arn) <==> Mentions(p.value.members[0].value, arn))
  {
    if p.Some? && p.value.Obj? && |p.value.members| == 1 {
      var ms := p.value.members;
      if ms[0].name == U("AWS") {
        GetExactly(ms, U("AWS"), 0);
        TextsExactly(Some(ms[0].value));
        hide U, IamArnAccount, TextsOf, Get, Mentions, IsTexts;
        if PrincipalOk(p, account) {
          var ts := TextsOf(Some(ms[0].value)).value;
          forall t | Mentions(ms[0].value, t) ensures IamArnAccount(t) == Some(account) { var k :| 0 <= k < |ts| && ts[k] == t; }
        }
      } else {
        assert !HasName(ms, U("AWS"));
      }
    }
  }

  /** Every caller named is of the account. */
  ghost predicate CallersFit(c: seq<Member>, account: Text) {
    && (forall t :: Says(c, U("kms:CallerAccount"), t) ==> t == account)
    && (forall t :: Says(c, U("aws:PrincipalArn"), t) ==> IamArnAccount(t) == Some(account))
  }

  lemma CallerKeys()
    ensures KEY_CALLER != KEY_WINDOW && KEY_PRINCIPAL != KEY_WINDOW && KEY_CALLER != KEY_PRINCIPAL
  {
    assert |KEY_CALLER| == 17 && |KEY_PRINCIPAL| == 16 && |KEY_WINDOW| == 42;
  }

  lemma CallersExactly(c: seq<Member>, conds: seq<Cond>, account: Text)
    requires CondsOf(c) == Some(conds)
    ensures CallersOk(conds, account) <==> CallersFit(c, account)
    ensures NamesCaller(conds) <==> exists t :: Says(c, U("kms:CallerAccount"), t)
  {
    ConditionExactly(c);
    CallerKeys();
    hide U, IamArnAccount, Says, CondsOf;
    if NamesCaller(conds) {
      var k :| 0 <= k < |conds| && conds[k].key == KEY_CALLER;
      assert CondSays(conds, KEY_CALLER, conds[k].values[0]);
    }
    if t :| Says(c, U("kms:CallerAccount"), t) { assert CondSays(conds, KEY_CALLER, t); }
    if CallersOk(conds, account) {
      forall t | Says(c, KEY_CALLER, t) ensures t == account {
        assert CondSays(conds, KEY_CALLER, t);
        var k :| 0 <= k < |conds| && conds[k].op != NUMERIC_EQUALS && conds[k].key == KEY_CALLER && t in conds[k].values;
        assert CallerOk(conds[k], account);
      }
      forall t | Says(c, KEY_PRINCIPAL, t) ensures IamArnAccount(t) == Some(account) {
        assert CondSays(conds, KEY_PRINCIPAL, t);
        var k :| 0 <= k < |conds| && conds[k].op != NUMERIC_EQUALS && conds[k].key == KEY_PRINCIPAL && t in conds[k].values;
        assert CallerOk(conds[k], account);
      }
    } else {
      var i :| 0 <= i < |conds| && !CallerOk(conds[i], account);
      var k :| 0 <= k < |conds[i].values| && if conds[i].key == KEY_CALLER then conds[i].values[k] != account
                                             else IamArnAccount(conds[i].values[k]) != Some(account);
      assert CondSays(conds, conds[i].key, conds[i].values[k]);
    }
  }

  // ---- an Allow statement ----------------------------------------------------------------------

  ghost predicate UseFits(s: Statement, input: Input, target: Release) {
    && ActionsFit(s.actions, input.retirementPrincipal != [])
    && (U("kms:Decrypt") in s.actions ==> Attests(s.condition, U("kms:Decrypt"), input.releases, target))
    && (U("kms:GenerateDataKey") in s.actions ==> Attests(s.condition, U("kms:GenerateDataKey"), input.releases, target))
  }

  /** A window for exactly the statements that schedule a deletion, and for them the pinned one. */
  ghost predicate WindowFits(s: Statement, input: Input) {
    && (HasWindow(s.condition) ==> U("kms:ScheduleKeyDeletion") in s.actions)
    && (U("kms:ScheduleKeyDeletion") in s.actions ==> SaysWindow(s.condition, IntText(input.retirementWindowDays)))
  }

  ghost predicate PrincipalFits(s: Statement, input: Input) {
    && OfAccount(s.principal, input.account)
    && (SomeRetire(s.actions) ==> s.principal.value.members[0].value == Str(input.retirementPrincipal))
    && (SomeUses(s.actions) && input.retirementPrincipal != [] ==> !Mentions(s.principal.value.members[0].value, input.retirementPrincipal))
    && CallersFit(s.condition, input.account)
    && (SomeUses(s.actions) || SomeRetire(s.actions) ==> exists t :: Says(s.condition, U("kms:CallerAccount"), t))
  }

  lemma AttestedExactly(s: Statement, conds: seq<Cond>, input: Input, target: Release)
    requires CondsOf(s.condition) == Some(conds)
    ensures GatedAttested(s.actions, conds, input, target) <==>
            && (DECRYPT in s.actions ==> Attests(s.condition, DECRYPT, input.releases, target))
            && (GENERATE in s.actions ==> Attests(s.condition, GENERATE, input.releases, target))
  {
    AttestsExactly(s.condition, conds, DECRYPT, input.releases, target);
    AttestsExactly(s.condition, conds, GENERATE, input.releases, target);
    hide U, Attests, Attested, CondsOf, AdmittedFor;
    if DECRYPT in s.actions { var k :| 0 <= k < |s.actions| && s.actions[k] == DECRYPT; assert Gated(s.actions[k]); }
    if GENERATE in s.actions { var k :| 0 <= k < |s.actions| && s.actions[k] == GENERATE; assert Gated(s.actions[k]); }
  }

  lemma UseExactly(s: Statement, conds: seq<Cond>, input: Input, target: Release)
    requires CondsOf(s.condition) == Some(conds)
    ensures UseFits(s, input, target) <==>
            && ActionsOk(s.actions, input) && !(SomeRetires(s.actions) && (SomeGated(s.actions) || SomeReadOnly(s.actions)))
            && GatedAttested(s.actions, conds, input, target)
  {
    ActionsExactly(s.actions, input);
    AttestedExactly(s, conds, input, target);
    hide U, ActionsFit, ActionsOk, SomeRetires, SomeGated, SomeReadOnly, Attests, GatedAttested, CondsOf;
  }

  lemma WindowFitsExactly(s: Statement, conds: seq<Cond>, input: Input)
    requires CondsOf(s.condition) == Some(conds)
    ensures WindowFits(s, input) <==>
            && (WindowOf(conds) != [] ==> SCHEDULE in s.actions)
            && (SCHEDULE in s.actions ==> WindowOf(conds) == IntText(input.retirementWindowDays))
  {
    ConditionExactly(s.condition);
    WindowExactly(s.condition);
    assert IntText(input.retirementWindowDays) != [];
    hide U, IntText, CondsOf, WindowOf, AllBlocks, HasWindow;
    if SaysWindow(s.condition, IntText(input.retirementWindowDays)) {
      var i :| 0 <= i < |s.condition| && s.condition[i].name == U("NumericEquals");
      assert HasWindow(s.condition) by { WindowThere(s.condition, i); }
    }
  }

  lemma WindowThere(c: seq<Member>, i: nat)
    requires i < |c| && c[i].name == U("NumericEquals")
    ensures HasWindow(c)
  {
  }

  /**
   * Which check an Allow statement fails, 0 for none: 7 for a condition that is
   * not listed, then 6 for its actions and attestation, 7 for its window, 8 for
   * its principals and callers.
   */
  lemma AllowExactly(s: Statement, input: Input, target: Release)
    ensures AllowError(s, input, target) ==
            if !AllBlocks(s.condition) then 7
            else if !UseFits(s, input, target) then 6
            else if !WindowFits(s, input) then 7
            else if !PrincipalFits(s, input) then 8
            else 0
  {
    ConditionExactly(s.condition);
    if AllBlocks(s.condition) {
      var conds := CondsOf(s.condition).value;
      UseExactly(s, conds, input, target);
      WindowFitsExactly(s, conds, input);
      KindsExactly(s.actions, input);
      PrincipalExactly(s.principal, input.account, input.retirementPrincipal);
      CallersExactly(s.condition, conds, input.account);
      hide U, UseFits, WindowFits, ActionsOk, SomeRetires, SomeGated, SomeReadOnly, GatedAttested, CondsOf, AllBlocks, IntText, WindowOf,
        PrincipalOk, ExactPrincipal, NamesPrincipal, OfAccount, CallersOk, CallersFit, NamesCaller, Says, SomeUses, SomeRetire, Mentions;
    }
  }

  // ---- a document -------------------------------------------------------------------------------

  ghost predicate TextOrNone(v: Option<JVal>) { v.Some? ==> v.value.Str? }

  ghost predicate Allows(raw: JVal) { raw.Obj? && Get(raw.members, U("Effect")) == Some(Str(U("Allow"))) }

  ghost predicate Denies(raw: JVal) { raw.Obj? && Get(raw.members, U("Effect")) == Some(Str(U("Deny"))) }

  /** A statement of the allowed shape. */
  ghost predicate IsStatement(raw: JVal, arn: Text) {
    && raw.Obj?
    && (forall k :: 0 <= k < |raw.members| ==>
          var name := raw.members[k].name;
          || name == U("Sid") || name == U("Effect") || name == U("Principal")
          || name == U("Action") || name == U("Resource") || name == U("Condition"))
    && (Allows(raw) || Denies(raw))
    && TextOrNone(Get(raw.members, U("Sid")))
    && Get(raw.members, U("Action")).Some? && IsTexts(Get(raw.members, U("Action")).value)
    && (Get(raw.members, U("Resource")) == Some(Str(U("*"))) || Get(raw.members, U("Resource")) == Some(Str(arn)))
    && (Get(raw.members, U("Condition")).Some? ==> Get(raw.members, U("Condition")).value.Obj?)
  }

  /** A statement that is read has the raw one's effect, principal, actions and condition. */
  lemma StatementExactly(raw: JVal, arn: Text)
    ensures ParseStatement(raw, arn).Some? <==> IsStatement(raw, arn)
    ensures IsStatement(raw, arn) ==>
              var s := ParseStatement(raw, arn).value;
              && (s.allow <==> Allows(raw)) && s.principal == Get(raw.members, U("Principal"))
              && (forall a :: a in s.actions <==> Mentions(Get(raw.members, U("Action")).value, a))
              && s.condition == if Get(raw.members, U("Condition")).Some? then Get(raw.members, U("Condition")).value.members else []
  {
    if raw.Obj? { TextsExactly(Get(raw.members, U("Action"))); }
    hide U, Get, TextsOf, Mentions, IsTexts;
    if raw.Obj? {
      assert OnlyMembers(raw.members, STATEMENT_MEMBERS) <==>
             forall k :: 0 <= k < |raw.members| ==>
               var name := raw.members[k].name;
               || name == U("Sid") || name == U("Effect") || name == U("Principal")
               || name == U("Action") || name == U("Resource") || name == U("Condition")
      by { StatementNames(raw.members); }
    }
  }

  lemma StatementNames(ms: seq<Member>)
    ensures OnlyMembers(ms, STATEMENT_MEMBERS) <==>
            forall k :: 0 <= k < |ms| ==>
              var name := ms[k].name;
              || name == U("Sid") || name == U("Effect") || name == U("Principal")
              || name == U("Action") || name == U("Resource") || name == U("Condition")
  {
    hide U;
    var names := STATEMENT_MEMBERS;
    assert names[0] == U("Sid") && names[1] == U("Effect") && names[2] == U("Principal");
    assert names[3] == U("Action") && names[4] == U("Resource") && names[5] == U("Condition");
  }

  /** The statements of a document that has them, one or a list. */
  function Statements(doc: JVal): seq<JVal>
    requires doc.Obj?
  {
    match Get(doc.members, U("Statement"))
    case Some(Arr(es)) => es
    case Some(v) => [v]
    case None => []
  }

  ghost predicate HasStatements(v: Option<JVal>) { v.Some? && (v.value.Obj? || v.value.Arr?) }

  ghost predicate IsDocument(doc: JVal) {
    && doc.Obj?
    && (forall k :: 0 <= k < |doc.members| ==>
          doc.members[k].name == U("Version") || doc.members[k].name == U("Id") || doc.members[k].name == U("Statement"))
    && Get(doc.members, U("Version")) == Some(Str(U("2012-10-17")))
    && TextOrNone(Get(doc.members, U("Id")))
    && HasStatements(Get(doc.members, U("Statement")))
  }

  /** A document of the allowed shape, with statements of it. */
  ghost predicate IsPolicy(doc: JVal, arn: Text) {
    IsDocument(doc) && forall k :: 0 <= k < |Statements(doc)| ==> IsStatement(Statements(doc)[k], arn)
  }

  lemma DocumentExactly(doc: JVal)
    ensures RawStatements(doc).Some? <==> IsDocument(doc)
    ensures IsDocument(doc) ==> RawStatements(doc).value == Statements(doc)
  {
    hide U, Get;
    if doc.Obj? {
      var names := [U("Version"), U("Id"), U("Statement")];
      assert names[0] == U("Version") && names[1] == U("Id") && names[2] == U("Statement");
    }
  }

  lemma {:induction false} StatementsExactly(raws: seq<JVal>, arn: Text)
    ensures ParseStatements(raws, arn).Some? <==> forall k :: 0 <= k < |raws| ==> IsStatement(raws[k], arn)
    ensures ParseStatements(raws, arn).Some? ==> |ParseStatements(raws, arn).value| == |raws|
    ensures ParseStatements(raws, arn).Some? ==>
              forall k :: 0 <= k < |raws| ==> Some(ParseStatements(raws, arn).value[k]) == ParseStatement(raws[k], arn)
    decreases |raws|
  {
    hide IsStatement, ParseStatement;
    if raws != [] {
      var n := |raws| - 1;
      StatementsExactly(raws[..n], arn);
      StatementExactly(raws[n], arn);
      assert forall k :: 0 <= k < n ==> raws[..n][k] == raws[k];
    }
  }

  /** The statement is passed over, or passes. */
  ghost predicate Clear(s: Statement, input: Input, target: Release) { s.allow ==> AllowError(s, input, target) == 0 }

  lemma {:induction false} AllClear(ss: seq<Statement>, input: Input, target: Release)
    ensures StatementsError(ss, input, target) == 0 <==> forall k :: 0 <= k < |ss| ==> Clear(ss[k], input, target)
    decreases |ss|
  {
    hide AllowError;
    if ss != [] {
      var n := |ss| - 1;
      AllClear(ss[..n], input, target);
      assert forall k :: 0 <= k < n ==> ss[..n][k] == ss[k];
    }
  }

  /** The `k`-th statement is the first that fails, with `e`. */
  ghost predicate FailsFirst(ss: seq<Statement>, k: nat, input: Input, target: Release, e: nat) {
    k < |ss| && ss[k].allow && AllowError(ss[k], input, target) == e && StatementsError(ss[..k], input, target) == 0
  }

  lemma {:induction false} FirstErrorExactly(ss: seq<Statement>, input: Input, target: Release, e: nat)
    requires e != 0
    ensures StatementsError(ss, input, target) == e <==> exists k: nat :: FailsFirst(ss, k, input, target, e)
    decreases |ss|
  {
    hide AllowError;
    if ss != [] {
      var n := |ss| - 1;
      var before := ss[..n];
      FirstErrorExactly(before, input, target, e);
      if k: nat :| FailsFirst(before, k, input, target, e) {
        assert before[k] == ss[k] && before[..k] == ss[..k];
        assert FailsFirst(ss, k, input, target, e);
      }
      if StatementsError(before, input, target) == 0 && StatementsError(ss, input, target) == e {
        assert FailsFirst(ss, n, input, target, e);
      }
      if k: nat :| FailsFirst(ss, k, input, target, e) {
        if k < n {
          assert before[k] == ss[k] && before[..k] == ss[..k];
          assert FailsFirst(before, k, input, target, e);
        }
      }
    }
  }

  /** A statement of the shape that allows nothing, or passes. */
  ghost predicate Passes(raw: JVal, input: Input, target: Release) {
    var s := ParseStatement(raw, input.keyArn);
    s.Some? && (Allows(raw) ==> AllowError(s.value, input, target) == 0)
  }

  lemma AllowedExactly(raws: seq<JVal>, ss: seq<Statement>, input: Input, target: Release)
    requires ParseStatements(raws, input.keyArn) == Some(ss)
    ensures StatementsError(ss, input, target) == 0 <==> forall k :: 0 <= k < |raws| ==> Passes(raws[k], input, target)
    ensures StatementsError(ss, input, target) != 4
  {
    hide U, Get, AllowError, IsStatement, ParseStatement, Allows;
    StatementsExactly(raws, input.keyArn);
    AllClear(ss, input, target);
    FirstErrorExactly(ss, input, target, 4);
    forall k | 0 <= k < |raws| ensures ss[k].allow <==> Allows(raws[k]) { StatementExactly(raws[k], input.keyArn); }
    forall k | 0 <= k < |raws| ensures AllowError(ss[k], input, target) != 4 { AllowExactly(ss[k], input, target); }
    assert forall k :: 0 <= k < |raws| ==> (Clear(ss[k], input, target) <==> Passes(raws[k], input, target));
    assert forall k: nat :: !FailsFirst(ss, k, input, target, 4);
  }

  /**
   * The check of a document fails with 4 exactly for a text that is not a
   * policy of the allowed shape, and accepts exactly one whose Allow statements
   * all pass, whatever its Deny statements are.
   */
  lemma PolicyExactly(text: Text, input: Input, target: Release)
    ensures PolicyError(text, input, target) == 4 <==> !(Parse(text, true).Some? && IsPolicy(Parse(text, true).value, input.keyArn))
    ensures PolicyError(text, input, target) == 0 <==>
            && Parse(text, true).Some? && IsPolicy(Parse(text, true).value, input.keyArn)
            && forall k :: 0 <= k < |Statements(Parse(text, true).value)| ==> Passes(Statements(Parse(text, true).value)[k], input, target)
  {
    if Parse(text, true).Some? {
      var doc := Parse(text, true).value;
      hide Parse, U, Get, AllowError, IsStatement, ParseStatement, Allows;
      DocumentExactly(doc);
      if IsDocument(doc) {
        var raws := Statements(doc);
        StatementsExactly(raws, input.keyArn);
        if ParseStatements(raws, input.keyArn).Some? {
          AllowedExactly(raws, ParseStatements(raws, input.keyArn).value, input, target);
        }
        hide IsDocument, Statements, ParseStatements, StatementsError, Passes;
      }
    }
  }

  // ---- the length of an answer ------------------------------------------------------------------------

  predicate IsHigh(u: CodeUnit) { 0xD800 <= u <= 0xDBFF }
  predicate IsLow(u: CodeUnit) { 0xDC00 <= u <= 0xDFFF }

  /** Bytes a unit adds, by itself and its neighbours: each half of a surrogate pair two, a lone one three. */
  function BytesAt(t: Text, i: nat): nat
    requires i < |t|
  {
    if t[i] <= 0x7F then 1
    else if t[i] <= 0x7FF then 2
    else if (IsHigh(t[i]) && i + 1 < |t| && IsLow(t[i + 1])) || (IsLow(t[i]) && i > 0 && IsHigh(t[i - 1])) then 2
    else 3
  }

  function BytesFrom(t: Text, i: nat): nat
    requires i <= |t|
    decreases |t| - i
  {
    if i == |t| then 0 else BytesAt(t, i) + BytesFrom(t, i + 1)
  }

  /** The length in UTF-8 is the sum over the units. */
  lemma {:induction false} LengthExactly(t: Text, i: nat)
    requires i <= |t| && (0 < i < |t| && IsHigh(t[i - 1]) ==> !IsLow(t[i]))
    ensures Utf8Length(t[i..]) == BytesFrom(t, i)
    decreases |t| - i
  {
    if i < |t| {
      assert t[i..][0] == t[i] && t[i..][1..] == t[i + 1..];
      if IsHigh(t[i]) && i + 1 < |t| && IsLow(t[i + 1]) {
        assert t[i..][1] == t[i + 1] && t[i..][2..] == t[i + 2..];
        LengthExactly(t, i + 2);
        assert BytesFrom(t, i + 1) == BytesAt(t, i + 1) + BytesFrom(t, i + 2);
      } else {
        assert i + 1 < |t| ==> t[i..][1] == t[i + 1];
        LengthExactly(t, i + 1);
      }
    }
  }

  // ---- the whole check -----------------------------------------------------------------------------

  /** The release the check is for is the first of its number, and the key is its key, in the account and region. */
  ghost predicate IsKeyOf(input: Input, t: nat) {
    && t < |input.releases| && input.releases[t].number == input.target
    && (forall i :: 0 <= i < t ==> input.releases[i].number != input.target)
    && input.keyArn == input.releases[t].sealKey
    && Keys.IsRegion(input.region) && IsAccount(input.account)
    && Keys.KeysOf(input) <= input.keyArn && Keys.IsKeyId(input.keyArn[|Keys.KeysOf(input)|..])
  }

  /** Nothing is pinned for retirement, or a role of the account and a window KMS allows. */
  ghost predicate RetirementPinned(input: Input) {
    if input.retirementPrincipal == [] then input.retirementWindowDays == 0
    else
      && IamArnAccount(input.retirementPrincipal) == Some(input.account)
      && !(|input.retirementPrincipal| >= 5 && input.retirementPrincipal[|input.retirementPrincipal| - 5..] == U(":root"))
      && 7 <= input.retirementWindowDays <= 30
  }

  ghost predicate Short(answer: Text) { Utf8Length(answer) <= 64 * 1024 }

  /** The answer has the document as its policy, and no other member but the default policy's name. */
  ghost predicate AnswersPolicy(answer: Text, doc: Text) {
    && Parse(answer, true).Some? && Parse(answer, true).value.Obj?
    && var ms := Parse(answer, true).value.members;
       && Member(U("Policy"), Str(doc)) in ms
       && forall k :: 0 <= k < |ms| ==> ms[k].name == U("Policy") || ms[k] == Member(U("PolicyName"), Str(U("default")))
  }

  /** A read object has no name twice, so that its members are found wherever they are. */
  lemma ReadOnce(text: Text, v: JVal)
    requires Parse(text, true) == Some(v)
    ensures NoDuplicates(v)
  {
    JsonTheorems.StrictRefusesExactlyDuplicates(text);
  }

  lemma Found(ms: seq<Member>, name: Text, v: JVal)
    requires DistinctNames(ms)
    ensures Get(ms, name) == Some(v) <==> Member(name, v) in ms
  {
    if Member(name, v) in ms {
      var k :| 0 <= k < |ms| && ms[k] == Member(name, v);
      GetExactly(ms, name, k);
    }
  }

  lemma ResponseExactly(raw: Text)
    ensures ParseResponse(raw).Some? <==> Short(raw) && Parse(raw, true).Some? && Parse(raw, true).value.Obj?
    ensures ParseResponse(raw).Some? ==> Obj(ParseResponse(raw).value) == Parse(raw, true).value && DistinctNames(ParseResponse(raw).value)
  {
    Keys.NothingRead();
    hide Utf8Length, Parse;
    if Parse(raw, true).Some? { ReadOnce(raw, Parse(raw, true).value); }
  }

  lemma GrantsExactly(raw: Text)
    ensures GrantsOk(raw) <==> Short(raw) && Keys.NoGrants(raw)
  {
    ResponseExactly(raw);
    hide ParseResponse, Parse, U, Get, DistinctNames, Short;
    if ParseResponse(raw).Some? {
      var ms := ParseResponse(raw).value;
      Found(ms, U("Grants"), Arr([]));
      Found(ms, U("Truncated"), Bool(false));
    }
  }

  lemma PolicyDocumentExactly(raw: Text, doc: Text)
    ensures PolicyDocument(raw) == Some(doc) <==> Short(raw) && AnswersPolicy(raw, doc)
  {
    ResponseExactly(raw);
    if ParseResponse(raw).Some? {
      var ms := ParseResponse(raw).value;
      AnswerNames(ms);
      Found(ms, U("Policy"), Str(doc));
      Found(ms, U("PolicyName"), Str(U("default")));
      OneName(ms, U("PolicyName"), Str(U("default")));
    }
    hide ParseResponse, Parse, U, Get, DistinctNames, Short, OnlyMembers;
  }

  lemma OneName(ms: seq<Member>, name: Text, v: JVal)
    requires DistinctNames(ms)
    ensures (HasName(ms, name) ==> Get(ms, name) == Some(v)) <==> forall k :: 0 <= k < |ms| && ms[k].name == name ==> ms[k] == Member(name, v)
  {
    if k :| 0 <= k < |ms| && ms[k].name == name { GetExactly(ms, name, k); }
  }

  lemma AnswerNames(ms: seq<Member>)
    ensures OnlyMembers(ms, [U("Policy"), U("PolicyName")]) <==>
            forall k :: 0 <= k < |ms| ==> ms[k].name == U("Policy") || ms[k].name == U("PolicyName")
    ensures U("Policy") != U("PolicyName")
  {
    assert |U("Policy")| == 6 && |U("PolicyName")| == 10;
    hide U;
    assert [U("Policy"), U("PolicyName")][0] == U("Policy") && [U("Policy"), U("PolicyName")][1] == U("PolicyName");
  }

  lemma PlainExactly(m: seq<Member>, arn: Text, account: Text)
    requires DistinctNames(m)
    ensures Keys.IsPlainKey(m, arn, account) <==>
            && IsText(Get(m, U("Arn")), arn) && IsText(Get(m, U("AWSAccountId")), account)
            && IsText(Get(m, U("KeyState")), U("Enabled")) && IsText(Get(m, U("Origin")), U("AWS_KMS"))
            && IsText(Get(m, U("KeySpec")), U("SYMMETRIC_DEFAULT")) && IsText(Get(m, U("KeyUsage")), U("ENCRYPT_DECRYPT"))
            && IsText(Get(m, U("KeyManager")), U("CUSTOMER")) && Get(m, U("MultiRegion")) == Some(Bool(false))
            && !HasName(m, U("CustomKeyStoreId")) && !HasName(m, U("CloudHsmClusterId")) && !HasName(m, U("XksKeyConfiguration"))
  {
    hide U, Get, DistinctNames;
    Found(m, U("Arn"), Str(arn));
    Found(m, U("AWSAccountId"), Str(account));
    Found(m, U("KeyState"), Str(U("Enabled")));
    Found(m, U("Origin"), Str(U("AWS_KMS")));
    Found(m, U("KeySpec"), Str(U("SYMMETRIC_DEFAULT")));
    Found(m, U("KeyUsage"), Str(U("ENCRYPT_DECRYPT")));
    Found(m, U("KeyManager"), Str(U("CUSTOMER")));
    Found(m, U("MultiRegion"), Bool(false));
    Unsaid(m, U("CustomKeyStoreId"));
    Unsaid(m, U("CloudHsmClusterId"));
    Unsaid(m, U("XksKeyConfiguration"));
    hide HasName, Keys.Silent;
  }

  lemma Unsaid(ms: seq<Member>, name: Text)
    ensures Keys.Silent(ms, name) <==> !HasName(ms, name)
  {
  }

  lemma MetadataExactly(input: Input)
    ensures MetadataOk(input) <==> Short(input.describeKey) && Keys.PlainKey(input.describeKey, input.keyArn, input.account)
  {
    ResponseExactly(input.describeKey);
    if ParseResponse(input.describeKey).Some? {
      var ms := ParseResponse(input.describeKey).value;
      var md := Get(ms, U("KeyMetadata"));
      ReadOnce(input.describeKey, Obj(ms));
      if md.Some? && md.value.Obj? {
        var k :| 0 <= k < |ms| && ms[k].name == U("KeyMetadata") && ms[k].value == md.value;
        assert NoDuplicates(ms[k].value);
        PlainExactly(md.value.members, input.keyArn, input.account);
      }
      hide ParseResponse, Parse, U, Get, DistinctNames, Short, HasName, Keys.IsPlainKey, NoDuplicates;
      forall m: seq<Member> ensures Keys.Says(ms, U("KeyMetadata"), Obj(m)) <==> md == Some(Obj(m)) { Found(ms, U("KeyMetadata"), Obj(m)); }
    }
  }

  ghost predicate PolicyPasses(input: Input, t: nat, doc: Text) {
    t < |input.releases| && AnswersPolicy(input.getKeyPolicy, doc) && PolicyError(doc, input, input.releases[t]) == 0
  }

  /**
   * The whole check passes exactly for the key of the first release of the
   * target's number, in the account and region, with a fitting retirement pin:
   * a plain key without grants whose one policy passes, no answer over 64 KiB.
   */
  lemma KeyExactly(input: Input)
    ensures ReleaseKeyError(input) == 0 <==>
            && RetirementPinned(input)
            && Short(input.describeKey) && Keys.PlainKey(input.describeKey, input.keyArn, input.account)
            && Short(input.listGrants) && Keys.NoGrants(input.listGrants)
            && Short(input.getKeyPolicy)
            && exists t: nat, doc: Text :: IsKeyOf(input, t) && PolicyPasses(input, t, doc)
  {
    MetadataExactly(input);
    GrantsExactly(input.listGrants);
    IdentityExactly(input);
    var doc := PolicyDocument(input.getKeyPolicy);
    forall text ensures doc == Some(text) <==> Short(input.getKeyPolicy) && AnswersPolicy(input.getKeyPolicy, text) {
      PolicyDocumentExactly(input.getKeyPolicy, text);
    }
    hide MetadataOk, GrantsOk, PolicyDocument, PolicyError, Short, AnswersPolicy, Keys.PlainKey, Keys.NoGrants, IsKeyOf, RetirementPinned,
      ValidAccount, ValidRegion, ValidRetirement, KeyArnOk, FindRelease;
    if ReleaseKeyError(input) == 0 {
      var t: nat :| IsKeyOf(input, t) && FindRelease(input.releases, input.target) == Some(input.releases[t]);
      assert PolicyPasses(input, t, doc.value);
    }
  }

  ghost predicate Identified(input: Input) {
    var target := FindRelease(input.releases, input.target);
    && ValidAccount(input.account) && ValidRegion(input.region) && target.Some?
    && input.keyArn == target.value.sealKey && KeyArnOk(input.keyArn, input.region, input.account)
  }

  lemma IdentityExactly(input: Input)
    ensures ValidRetirement(input) <==> RetirementPinned(input)
    ensures forall t: nat :: IsKeyOf(input, t) ==> Identified(input) && FindRelease(input.releases, input.target) == Some(input.releases[t])
    ensures Identified(input) ==> exists t: nat :: IsKeyOf(input, t) && FindRelease(input.releases, input.target) == Some(input.releases[t])
  {
    assert |ROOT_SUFFIX| == 5;
    hide U, IamArnAccount;
    forall t: nat | IsKeyOf(input, t) ensures Identified(input) && FindRelease(input.releases, input.target) == Some(input.releases[t]) {
      Keys.FirstFound(input.releases, t);
      Keys.KeyArnFits(input);
    }
    if Identified(input) {
      var t := FirstOf(input.releases, input.target);
      Keys.KeyArnFits(input);
      assert IsKeyOf(input, t);
    }
  }

  lemma {:induction false} FirstOf(rs: seq<Release>, number: int) returns (t: nat)
    requires FindRelease(rs, number).Some?
    ensures t < |rs| && FindRelease(rs, number) == Some(rs[t]) && rs[t].number == number
    ensures forall i :: 0 <= i < t ==> rs[i].number != number
  {
    if rs[0].number == number {
      t := 0;
    } else {
      t := FirstOf(rs[1..], number);
      t := t + 1;
      assert forall i :: 0 < i < t ==> rs[i] == rs[1..][i - 1];
    }
  }
}
