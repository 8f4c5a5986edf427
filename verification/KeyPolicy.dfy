/**
 * The release-key policy check of lambda/shared/keypolicy.ts, as functions: for
 * every step the number of the check that fails, 0 for none. The methods of
 * `KeyPolicyCheck` run it as the source does.
 */
module KeyPolicy {
  import opened Json
  import opened Wrappers

  /** An ASCII string as code units. */
  function U(s: string): (t: Text)
    ensures |t| == |s|
  {
    seq(|s|, i requires 0 <= i < |s| => if s[i] as int < 0x1_0000 then s[i] as int else 0)
  }

  const DECRYPT := U("kms:Decrypt")
  const GENERATE := U("kms:GenerateDataKey")
  const SCHEDULE := U("kms:ScheduleKeyDeletion")
  const RETIREMENT := [SCHEDULE, U("kms:CancelKeyDeletion"), U("kms:EnableKey")]
  const READ_ONLY := [U("kms:DescribeKey"), U("kms:GetKeyPolicy"), U("kms:ListGrants"),
                      U("kms:ListKeyPolicies"), U("kms:GetKeyRotationStatus"), U("kms:ListResourceTags")]
  const STRING_EQUALS := U("StringEquals")
  const STRING_EQUALS_IGNORE_CASE := U("StringEqualsIgnoreCase")
  const ARN_EQUALS := U("ArnEquals")
  const NUMERIC_EQUALS := U("NumericEquals")
  const KEY_WINDOW := U("kms:ScheduleKeyDeletionPendingWindowInDays")
  const KEY_IMAGE := U("kms:RecipientAttestation:ImageSha384")
  const KEY_PCR0 := U("kms:RecipientAttestation:PCR0")
  const KEY_PCR_PREFIX := U("kms:RecipientAttestation:PCR")
  const KEY_CALLER := U("kms:CallerAccount")
  const KEY_CONTEXT_PREFIX := U("kms:EncryptionContext:")
  const KEY_PRINCIPAL := U("aws:PrincipalArn")
  const IAM_PREFIX := U("arn:aws:iam::")
  const ROOT_SUFFIX := U(":root")
  const ROLE_PREFIX := U("role/")
  const MAX_RESPONSE := 64 * 1024

  // ---- texts ----------------------------------------------------------------------

  function LowerUnit(u: CodeUnit): CodeUnit { if 0x41 <= u <= 0x5A then u + 0x20 else u }

  function Lower(t: Text): (r: Text)
    ensures |r| == |t|
  {
    seq(|t|, i requires 0 <= i < |t| => LowerUnit(t[i]))
  }

  predicate EndsWith(t: Text, s: Text) { |s| <= |t| && t[|t| - |s|..] == s }

  predicate AllDigits(t: Text) { forall i :: 0 <= i < |t| ==> IsDigit(t[i]) }

  predicate IsLowerHex(u: CodeUnit) { IsDigit(u) || 0x61 <= u <= 0x66 }

  predicate IsHex(t: Text) { forall i :: 0 <= i < |t| ==> HexValue(t[i]).Some? }

  /** Bytes of the UTF-8 form; a lone surrogate becomes the three-byte replacement character. */
  function Utf8Length(t: Text): nat {
    if t == [] then 0
    else if t[0] < 0x80 then 1 + Utf8Length(t[1..])
    else if t[0] < 0x800 then 2 + Utf8Length(t[1..])
    else if 0xD800 <= t[0] < 0xDC00 && |t| > 1 && 0xDC00 <= t[1] < 0xE000 then 4 + Utf8Length(t[2..])
    else 3 + Utf8Length(t[1..])
  }

  // ---- members ------------------------------------------------------------------------

  function Get(ms: seq<Member>, name: Text): (r: Option<JVal>)
    ensures r.Some? <==> HasName(ms, name)
    ensures r.Some? ==> exists k :: 0 <= k < |ms| && ms[k].name == name && ms[k].value == r.value
  {
    if ms == [] then None
    else if ms[0].name == name then
      assert HasName(ms, name);
      Some(ms[0].value)
    else
      var r := Get(ms[1..], name);
      assert HasName(ms[1..], name) ==> HasName(ms, name);
      r
  }

  predicate OnlyMembers(ms: seq<Member>, names: seq<Text>) {
    forall k :: 0 <= k < |ms| ==> ms[k].name in names
  }

  predicate IsText(v: Option<JVal>, t: Text) { v == Some(Str(t)) }

  predicate AbsentOrText(v: Option<JVal>) { v.None? || v.value.Str? }

  /** A JSON string or a non-empty array of strings. */
  function TextsOf(v: Option<JVal>): (r: Option<seq<Text>>)
    ensures r.Some? ==> r.value != []
  {
    match v
    case None => None
    case Some(Str(s)) => Some([s])
    case Some(Arr(es)) =>
      if es != [] && forall k :: 0 <= k < |es| ==> es[k].Str?
      then Some(seq(|es|, k requires 0 <= k < |es| => if es[k].Str? then es[k].s else []))
      else None
    case _ => None
  }

  // ---- identifiers ----------------------------------------------------------------------

  predicate ValidAccount(a: Text) { |a| == 12 && AllDigits(a) }

  predicate ValidRegion(r: Text) {
    0 < |r| <= 32 && forall i :: 0 <= i < |r| ==> 0x61 <= r[i] <= 0x7A || IsDigit(r[i]) || r[i] == 0x2D
  }

  /** 8-4-4-4-12 lower-case hexadecimal digits. */
  predicate IsUuid(t: Text) {
    |t| == 36
    && forall i :: 0 <= i < 36 ==> if i == 8 || i == 13 || i == 18 || i == 23 then t[i] == 0x2D else IsLowerHex(t[i])
  }

  predicate KeyArnOk(arn: Text, region: Text, account: Text) {
    var prefix := U("arn:aws:kms:") + region + [COLON] + account + U(":key/");
    prefix <= arn && IsUuid(arn[|prefix|..])
  }

  predicate RoleNameOk(name: Text) {
    && 0 < |name| <= 512 && name[0] != 0x2F && name[|name| - 1] != 0x2F
    && (forall i :: 0 <= i < |name| - 1 ==> !(name[i] == 0x2F && name[i + 1] == 0x2F))
    && (forall i :: 0 <= i < |name| ==> RoleUnit(name[i]))
  }

  predicate RoleUnit(u: CodeUnit) {
    0x41 <= u <= 0x5A || 0x61 <= u <= 0x7A || IsDigit(u)
    || u == 0x2B || u == 0x3D || u == 0x2C || u == 0x2E || u == 0x40 || u == 0x5F || u == 0x2D || u == 0x2F
  }

  /** The account of `arn:aws:iam::<account>:root` or `arn:aws:iam::<account>:role/<path/name>`. */
  function IamArnAccount(s: Text): Option<Text> {
    if !(IAM_PREFIX <= s) || |s| < |IAM_PREFIX| + 13 then None
    else
      var account := s[|IAM_PREFIX|..|IAM_PREFIX| + 12];
      var rest := s[|IAM_PREFIX| + 12..];
      if !ValidAccount(account) || rest[0] != COLON then None
      else if rest[1..] == U("root") then Some(account)
      else if !(ROLE_PREFIX <= rest[1..]) then None
      else if RoleNameOk(rest[1..][|ROLE_PREFIX|..]) then Some(account) else None
  }

  // ---- the policy ---------------------------------------------------------------------

  datatype Release = Release(number: int, pcr0: Text, pcr1: Option<Text>, pcr2: Option<Text>, sealKey: Text)

  datatype Input = Input(
    keyArn: Text, account: Text, region: Text, releases: seq<Release>, target: int,
    retirementPrincipal: Text, retirementWindowDays: int,
    describeKey: Text, getKeyPolicy: Text, listGrants: Text)

  datatype Statement = Statement(
    allow: bool, principal: Option<JVal>, actions: seq<Text>, condition: seq<Member>)

  const STATEMENT_MEMBERS := [U("Sid"), U("Effect"), U("Principal"), U("Action"), U("Resource"), U("Condition")]

  /** A statement of the allowed shape; a missing `Condition` is an empty one. */
  function ParseStatement(raw: JVal, keyArn: Text): Option<Statement> {
    if !raw.Obj? || !OnlyMembers(raw.members, STATEMENT_MEMBERS) then None
    else
      var m := raw.members;
      var effect, actions := Get(m, U("Effect")), TextsOf(Get(m, U("Action")));
      var resource, condition := Get(m, U("Resource")), Get(m, U("Condition"));
      if !AbsentOrText(Get(m, U("Sid"))) then None
      else if !IsText(effect, U("Allow")) && !IsText(effect, U("Deny")) then None
      else if actions.None? then None
      else if !IsText(resource, U("*")) && !IsText(resource, keyArn) then None
      else if condition.Some? && !condition.value.Obj? then None
      else Some(Statement(IsText(effect, U("Allow")), Get(m, U("Principal")), actions.value,
                          if condition.Some? then condition.value.members else []))
  }

  datatype Cond = Cond(op: Text, key: Text, values: seq<Text>)

  /** One JSON string or number, in canonical decimal from 1 to 999. */
  function WindowValue(v: Option<JVal>): Option<Text> {
    match v
    case Some(Str(s)) => if CanonicalWindow(s) then Some(s) else None
    case Some(Num(raw)) => if CanonicalWindow(raw) then Some(raw) else None
    case _ => None
  }

  predicate CanonicalWindow(s: Text) { 1 <= |s| <= 3 && 0x31 <= s[0] <= 0x39 && AllDigits(s) }

  predicate Pcr1To8(key: Text) {
    KEY_PCR_PREFIX <= key && |key| == |KEY_PCR_PREFIX| + 1 && 0x31 <= key[|KEY_PCR_PREFIX|] <= 0x38
  }

  predicate HexDigests(vals: seq<Text>) { forall k :: 0 <= k < |vals| ==> |vals[k]| == 96 && IsHex(vals[k]) }

  /** Whether the allow-list of check 7 has this operator, key and values. */
  predicate AllowedEntry(op: Text, key: Text, vals: seq<Text>) {
    var str := op == STRING_EQUALS || op == STRING_EQUALS_IGNORE_CASE;
    if key == KEY_IMAGE || key == KEY_PCR0 then str && HexDigests(vals)
    else if KEY_PCR_PREFIX <= key then str && Pcr1To8(key) && HexDigests(vals)
    else if KEY_CONTEXT_PREFIX <= key then str && |key| != |KEY_CONTEXT_PREFIX|
    else if key == KEY_CALLER then op == STRING_EQUALS && forall k :: 0 <= k < |vals| ==> ValidAccount(vals[k])
    else key == KEY_PRINCIPAL && op == ARN_EQUALS && forall k :: 0 <= k < |vals| ==> IamArnAccount(vals[k]).Some?
  }

  /** The entries of one operator's block, in order. */
  function EntryConds(op: Text, ms: seq<Member>): Option<seq<Cond>> {
    if ms == [] then Some([])
    else
      var n := |ms| - 1;
      var before, vals := EntryConds(op, ms[..n]), TextsOf(Some(ms[n].value));
      if before.None? || vals.None? || !AllowedEntry(op, ms[n].name, vals.value) then None
      else Some(before.value + [Cond(op, ms[n].name, vals.value)])
  }

  function OperatorConds(op: Text, raw: JVal): Option<seq<Cond>> {
    if op == NUMERIC_EQUALS then
      if !raw.Obj? || |raw.members| != 1 then None
      else
        var v := WindowValue(Get(raw.members, KEY_WINDOW));
        if v.None? then None else Some([Cond(op, KEY_WINDOW, [v.value])])
    else if op != STRING_EQUALS && op != STRING_EQUALS_IGNORE_CASE && op != ARN_EQUALS then None
    else if !raw.Obj? || raw.members == [] then None
    else EntryConds(op, raw.members)
  }

  function CondsOf(c: seq<Member>): Option<seq<Cond>> {
    if c == [] then Some([])
    else
      var n := |c| - 1;
      var before, block := CondsOf(c[..n]), OperatorConds(c[n].name, c[n].value);
      if before.None? || block.None? then None else Some(before.value + block.value)
  }

  // ---- one Allow statement --------------------------------------------------------------

  predicate Gated(a: Text) { a == DECRYPT || a == GENERATE }

  predicate ActionOk(a: Text, input: Input) {
    0x2A !in a && 0x3F !in a
    && (Gated(a) || a in READ_ONLY || (a in RETIREMENT && input.retirementPrincipal != []))
  }

  /** Retirement actions; the read-only ones are none of them. */
  predicate Retires(a: Text) { !Gated(a) && a !in READ_ONLY && a in RETIREMENT }

  predicate IsPcr0Key(key: Text) { key == KEY_IMAGE || key == KEY_PCR0 }

  predicate ReleaseHas(r: Release, key: Text, value: Text) {
    if IsPcr0Key(key) then r.pcr0 == value
    else if key == KEY_PCR_PREFIX + [0x31] then r.pcr1 == Some(value)
    else r.pcr2 == Some(value)
  }

  predicate Measured(key: Text) {
    IsPcr0Key(key) || key == KEY_PCR_PREFIX + [0x31] || key == KEY_PCR_PREFIX + [0x32]
  }

  predicate SomeReleaseHas(rs: seq<Release>, key: Text, value: Text) {
    exists i :: 0 <= i < |rs| && ReleaseHas(rs[i], key, value)
  }

  predicate CondAttests(c: Cond, admitted: seq<Release>) {
    Measured(c.key) ==> forall k :: 0 <= k < |c.values| ==> SomeReleaseHas(admitted, c.key, Lower(c.values[k]))
  }

  /** An attestation condition, and only measurements of the admitted releases. */
  predicate Attested(conds: seq<Cond>, admitted: seq<Release>) {
    && (exists i :: 0 <= i < |conds| && IsPcr0Key(conds[i].key))
    && (forall i :: 0 <= i < |conds| ==> CondAttests(conds[i], admitted))
  }

  function UpTo(rs: seq<Release>, number: int): (r: seq<Release>)
    ensures forall k :: 0 <= k < |r| ==> r[k] in rs && r[k].number <= number
  {
    if rs == [] then []
    else
      var before, last := UpTo(rs[..|rs| - 1], number), rs[|rs| - 1];
      if last.number <= number then before + [last] else before
  }

  /** Decrypt only for the target; GenerateDataKey for every release up to it. */
  function AdmittedFor(action: Text, releases: seq<Release>, target: Release): seq<Release> {
    if action == DECRYPT then [target] else UpTo(releases, target.number)
  }

  /** The first NumericEquals value, or the empty text. */
  function WindowOf(conds: seq<Cond>): Text {
    if conds == [] then []
    else if conds[0].op == NUMERIC_EQUALS then (if conds[0].values == [] then [] else conds[0].values[0])
    else WindowOf(conds[1..])
  }

  function DecimalText(n: nat): Text {
    if n < 10 then [0x30 + n] else DecimalText(n / 10) + [0x30 + n % 10]
  }

  function IntText(n: int): Text { if n < 0 then [0x2D] + DecimalText(-n) else DecimalText(n) }

  predicate PrincipalOk(raw: Option<JVal>, account: Text) {
    && raw.Some? && raw.value.Obj? && |raw.value.members| == 1
    && var arns := TextsOf(Get(raw.value.members, U("AWS")));
       arns.Some? && forall k :: 0 <= k < |arns.value| ==> IamArnAccount(arns.value[k]) == Some(account)
  }

  predicate ExactPrincipal(raw: Option<JVal>, arn: Text) {
    raw.Some? && raw.value.Obj? && |raw.value.members| == 1 && IsText(Get(raw.value.members, U("AWS")), arn)
  }

  predicate NamesPrincipal(raw: Option<JVal>, arn: Text) {
    raw.Some? && raw.value.Obj?
    && var arns := TextsOf(Get(raw.value.members, U("AWS")));
       arns.Some? && arn in arns.value
  }

  predicate CallerOk(c: Cond, account: Text) {
    if c.key == KEY_CALLER then forall k :: 0 <= k < |c.values| ==> c.values[k] == account
    else c.key == KEY_PRINCIPAL ==> forall k :: 0 <= k < |c.values| ==> IamArnAccount(c.values[k]) == Some(account)
  }

  predicate SomeGated(actions: seq<Text>) { exists k :: 0 <= k < |actions| && Gated(actions[k]) }
  predicate SomeReadOnly(actions: seq<Text>) { exists k :: 0 <= k < |actions| && !Gated(actions[k]) && actions[k] in READ_ONLY }
  predicate SomeRetires(actions: seq<Text>) { exists k :: 0 <= k < |actions| && Retires(actions[k]) }

  predicate ActionsOk(actions: seq<Text>, input: Input) { forall k :: 0 <= k < |actions| ==> ActionOk(actions[k], input) }

  predicate GatedAttested(actions: seq<Text>, conds: seq<Cond>, input: Input, target: Release) {
    forall k :: 0 <= k < |actions| && Gated(actions[k]) ==> Attested(conds, AdmittedFor(actions[k], input.releases, target))
  }

  predicate CallersOk(conds: seq<Cond>, account: Text) { forall i :: 0 <= i < |conds| ==> CallerOk(conds[i], account) }
  predicate NamesCaller(conds: seq<Cond>) { exists i :: 0 <= i < |conds| && conds[i].key == KEY_CALLER }

  /** Checks 6 to 8 of an Allow statement, in the source's order. */
  function AllowError(s: Statement, input: Input, target: Release): nat {
    var conds := CondsOf(s.condition);
    if conds.None? then 7
    else
      var gated, retire := SomeGated(s.actions), SomeRetires(s.actions);
      var window := WindowOf(conds.value);
      if !ActionsOk(s.actions, input) then 6
      else if retire && (gated || SomeReadOnly(s.actions)) then 6
      else if !GatedAttested(s.actions, conds.value, input, target) then 6
      else if window != [] && SCHEDULE !in s.actions then 7
      else if SCHEDULE in s.actions && window != IntText(input.retirementWindowDays) then 7
      else if !PrincipalOk(s.principal, input.account) then 8
      else if retire && !ExactPrincipal(s.principal, input.retirementPrincipal) then 8
      else if gated && input.retirementPrincipal != [] && NamesPrincipal(s.principal, input.retirementPrincipal) then 8
      else if !CallersOk(conds.value, input.account) then 8
      else if (gated || retire) && !NamesCaller(conds.value) then 8
      else 0
  }

  /** The statements of a policy document, or none if its shape is not allowed. */
  function RawStatements(p: JVal): Option<seq<JVal>> {
    if !p.Obj? || !OnlyMembers(p.members, [U("Version"), U("Id"), U("Statement")]) then None
    else if !IsText(Get(p.members, U("Version")), U("2012-10-17")) then None
    else if !AbsentOrText(Get(p.members, U("Id"))) then None
    else
      match Get(p.members, U("Statement"))
      case Some(Obj(ms)) => Some([Obj(ms)])
      case Some(Arr(es)) => Some(es)
      case _ => None
  }

  function ParseStatements(raws: seq<JVal>, keyArn: Text): Option<seq<Statement>> {
    if raws == [] then Some([])
    else
      var n := |raws| - 1;
      var before, last := ParseStatements(raws[..n], keyArn), ParseStatement(raws[n], keyArn);
      if before.None? || last.None? then None else Some(before.value + [last.value])
  }

  /** The error of the first Allow statement that has one; Deny statements only remove access. */
  function StatementsError(ss: seq<Statement>, input: Input, target: Release): nat {
    if ss == [] then 0
    else
      var n := |ss| - 1;
      var before := StatementsError(ss[..n], input, target);
      if before != 0 then before else if ss[n].allow then AllowError(ss[n], input, target) else 0
  }

  /** Checks 4 to 8 on a policy document. */
  function PolicyError(doc: Text, input: Input, target: Release): nat {
    var p := Parse(doc, true);
    if p.None? then 4
    else
      var raws := RawStatements(p.value);
      if raws.None? then 4
      else
        var ss := ParseStatements(raws.value, input.keyArn);
        if ss.None? then 4 else StatementsError(ss.value, input, target)
  }

  // ---- the whole check ------------------------------------------------------------------

  predicate ValidRetirement(input: Input) {
    if input.retirementPrincipal == [] then input.retirementWindowDays == 0
    else
      && IamArnAccount(input.retirementPrincipal) == Some(input.account)
      && !EndsWith(input.retirementPrincipal, ROOT_SUFFIX)
      && 7 <= input.retirementWindowDays <= 30
  }

  function FindRelease(rs: seq<Release>, number: int): (r: Option<Release>)
    ensures r.Some? ==> r.value in rs && r.value.number == number
  {
    if rs == [] then None else if rs[0].number == number then Some(rs[0]) else FindRelease(rs[1..], number)
  }

  /** A KMS answer as the members of one object. */
  function ParseResponse(raw: Text): Option<seq<Member>> {
    if raw == [] || Utf8Length(raw) > MAX_RESPONSE then None
    else
      var v := Parse(raw, true);
      if v.Some? && v.value.Obj? then Some(v.value.members) else None
  }

  predicate MetadataOk(input: Input) {
    var o := ParseResponse(input.describeKey);
    o.Some?
    && var md := Get(o.value, U("KeyMetadata"));
       md.Some? && md.value.Obj?
       && var m := md.value.members;
          && IsText(Get(m, U("Arn")), input.keyArn)
          && IsText(Get(m, U("AWSAccountId")), input.account)
          && IsText(Get(m, U("KeyState")), U("Enabled"))
          && IsText(Get(m, U("Origin")), U("AWS_KMS"))
          && IsText(Get(m, U("KeySpec")), U("SYMMETRIC_DEFAULT"))
          && IsText(Get(m, U("KeyUsage")), U("ENCRYPT_DECRYPT"))
          && IsText(Get(m, U("KeyManager")), U("CUSTOMER"))
          && Get(m, U("MultiRegion")) == Some(Bool(false))
          && !HasName(m, U("CustomKeyStoreId")) && !HasName(m, U("CloudHsmClusterId")) && !HasName(m, U("XksKeyConfiguration"))
  }

  predicate GrantsOk(raw: Text) {
    var o := ParseResponse(raw);
    && o.Some?
    && Get(o.value, U("Grants")) == Some(Arr([]))
    && Get(o.value, U("Truncated")) == Some(Bool(false))
    && !HasName(o.value, U("NextMarker"))
  }

  /** The policy document in a GetKeyPolicy answer. */
  function PolicyDocument(raw: Text): Option<Text> {
    var o := ParseResponse(raw);
    if o.None? || !OnlyMembers(o.value, [U("Policy"), U("PolicyName")]) then None
    else if HasName(o.value, U("PolicyName")) && !IsText(Get(o.value, U("PolicyName")), U("default")) then None
    else
      match Get(o.value, U("Policy"))
      case Some(Str(doc)) => Some(doc)
      case _ => None
  }

  /** The whole check: the number of the check that fails, 0 for none. */
  function ReleaseKeyError(input: Input): nat {
    var target := FindRelease(input.releases, input.target);
    if !ValidAccount(input.account) || !ValidRegion(input.region) || !ValidRetirement(input) then 1
    else if target.None? then 1
    else if input.keyArn != target.value.sealKey || !KeyArnOk(input.keyArn, input.region, input.account) then 1
    else if !MetadataOk(input) then 2
    else if !GrantsOk(input.listGrants) then 3
    else
      var doc := PolicyDocument(input.getKeyPolicy);
      if doc.None? then 4 else PolicyError(doc.value, input, target.value)
  }
}
