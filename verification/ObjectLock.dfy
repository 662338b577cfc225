/** Object lock: who may change a retention, and what protects one object. */
module ObjectLock {
  import opened Text
  import opened Policy
  import opened Access

  datatype Mode = NoMode | Governance | Compliance | OtherMode

  datatype BypassMode = BypassNone | BypassRequested | BypassOverwrite

  /** A stored retention; either part may be missing from the stored document. */
  datatype Retention = Retention(mode: Mode, until: Option<int>)

  /** What be.GetObjectRetention answers for one object. */
  datatype RetentionRead = NoSuchKey | DeleteMarker | NoRetention | ReadError | Stored(retention: Retention)

  /** What be.GetObjectLegalHold answers for one object. */
  datatype HoldRead = HoldNoSuchKey | NoHoldConfig | HoldError | Hold(on: bool)

  const BYPASS_ACTION := "s3:BypassGovernanceRetention"

  // ---------- permission to override GOVERNANCE ----------

  /** verifyBypassGovernancePermission; None means granted. */
  function BypassDenial(env: Env, o: Opts, key: string, mode: BypassMode, isPublic: bool): (r: Option<Denial>) {
    if mode == BypassRequested && o.isAdmin then None
    else if isPublic then
      match o.policy
      case NoPolicy => Some(ObjectLocked)
      case ReadFailed => Some(BackendError)
      case Document(None) => Some(ObjectLocked)
      case Document(Some(bp)) =>
        var q := Query("", BYPASS_ACTION, MakeResource(env, o.bucket, key));
        if Decide(env, bp, q, true) == Allow then None else Some(ObjectLocked)
    else
      var arn := Arn(env, o.bucket, key);
      match BypassResource(env, o, key)
      case None => Some(BackendError)
      case Some(Deny) => Some(ExplicitByResource(o.access, BYPASS_ACTION, arn))
      case Some(resource) =>
        if o.evaluator.None? || o.isAdmin then
          if resource == Allow then None else Some(ObjectLocked)
        else
          var e := o.evaluator.value;
          if e.fails then Some(BackendError)
          else
            var principal := if e.principalArn == "" then o.access else e.principalArn;
            var own := RowVerdict(e.identity, [BYPASS_ACTION], arn).decision;
            var session := if e.session.None? then Allow
                           else RowVerdict(e.session.value, [BYPASS_ACTION], arn).decision;
            if own == Deny || session == Deny then Some(ExplicitByIdentity(principal, BYPASS_ACTION, arn))
            else if session == Allow && (resource == Allow || own == Allow) then None
            else Some(Implicit(principal, BYPASS_ACTION, arn))
  }

  /** The bucket policy's say on the bypass; unlike VerifyAccess, no ACL stands in for it. */
  function BypassResource(env: Env, o: Opts, key: string): (r: Option<Decision>) {
    match o.policy
    case NoPolicy => Some(NoMatch)
    case ReadFailed => None
    case Document(doc) =>
      match PolicyVerdict(env, doc, o.access, o.bucket, key, [BYPASS_ACTION])
      case None => None
      case Some(v) => Some(v.decision)
  }

  /** For an ordinary caller the bypass permission is decided exactly like any other
      action on that one key in a bucket whose ACL grants nothing. */
  lemma BypassIsAccess(env: Env, o: Opts, key: string, mode: BypassMode)
    requires !o.isAdmin
    ensures var plain := o.(aclAllows := false);
      BypassDenial(env, o, key, mode, false).None? <==>
      !BatchFails(env, plain, [BYPASS_ACTION], [key]) && EntryPasses(env, plain, [BYPASS_ACTION], [key], 0)
    ensures o.policy.Document? ==>
      (BypassDenial(env, o, key, mode, false).None? <==>
       !BatchFails(env, o, [BYPASS_ACTION], [key]) && EntryPasses(env, o, [BYPASS_ACTION], [key], 0))
  {
    OneKey(env, o, [BYPASS_ACTION], key);
    OneKey(env, o.(aclAllows := false), [BYPASS_ACTION], key);
    hide BatchFails, EntryPasses, PolicyVerdict, RowVerdict, Arn;
  }

  /** An anonymous caller may bypass exactly with a public grant, which leaves no named
      caller unmatched. */
  lemma PublicBypass(env: Env, o: Opts, key: string, mode: BypassMode, access: string)
    requires !(mode == BypassRequested && o.isAdmin)
    ensures BypassDenial(env, o, key, mode, true).None? <==>
      o.policy.Document? && o.policy.doc.Some? &&
      Decide(env, o.policy.doc.value, Query(access, BYPASS_ACTION, MakeResource(env, o.bucket, key)), true) == Allow
    ensures BypassDenial(env, o, key, mode, true).None? ==>
      Decide(env, o.policy.doc.value, Query(access, BYPASS_ACTION, MakeResource(env, o.bucket, key)), false) != NoMatch
  {
    hide Decide, RowVerdict, BypassResource, Arn;
    if o.policy.Document? && o.policy.doc.Some? {
      var bp, resource := o.policy.doc.value, MakeResource(env, o.bucket, key);
      PublicIgnoresPrincipal(env, bp, Query("", BYPASS_ACTION, resource), access);
      PublicBindsEveryone(env, bp, Query(access, BYPASS_ACTION, resource));
    }
  }

  /** Root needs an explicit bucket-policy grant to overwrite: its blanket bypass
      covers only requests that asked for one. */
  lemma AdminBypass(env: Env, o: Opts, key: string)
    requires o.isAdmin
    ensures BypassDenial(env, o, key, BypassRequested, false).None?
    ensures BypassDenial(env, o, key, BypassOverwrite, false).None? <==>
      o.policy.Document? && o.policy.doc.Some? &&
      Decide(env, o.policy.doc.value, Query(o.access, BYPASS_ACTION, MakeResource(env, o.bucket, key)), false) == Allow
  {
    if o.policy.Document? && o.policy.doc.Some? {
      ResourceMeans(env, o, [BYPASS_ACTION], key);
      assert [BYPASS_ACTION][0] == BYPASS_ACTION;
      hide PolicyVerdict, Decide;
    }
  }

  // ---------- changing a retention ----------

  /** The new date and mode can only strengthen the stored retention. */
  predicate IsExtension(stored: Retention, input: Retention) {
    stored.mode == input.mode && stored.until.Some? && input.until.Some? && input.until.value >= stored.until.value
  }

  /** ParseObjectLockRetentionInput: a date that is not past, in one of the two modes. */
  predicate ValidRetentionInput(now: int, input: Retention) {
    input.until.Some? && input.until.value >= now && (input.mode.Governance? || input.mode.Compliance?)
  }

  /** IsObjectLockRetentionPutAllowed; None means allowed. */
  function RetentionPutDenial(env: Env, o: Opts, key: string, read: RetentionRead, input: Retention,
                              bypass: bool): (r: Option<Denial>)
  {
    match read
    case NoRetention => None
    case Stored(stored) =>
      if IsExtension(stored, input) then None
      else if stored.mode.Compliance? then Some(ObjectLocked)
      else if !bypass then Some(ObjectLocked)
      else BypassDenial(env, o, key, BypassRequested, false)
    case _ => Some(BackendError)
  }

  /** Which changes are allowed: a first retention, a date in the same mode that is not
      earlier, or any other change of a retention that is not COMPLIANCE by a caller who
      asks for the bypass and is granted it. */
  lemma RetentionPutMeans(env: Env, o: Opts, key: string, read: RetentionRead, mode: Mode, date: int, bypass: bool)
    ensures RetentionPutDenial(env, o, key, read, Retention(mode, Some(date)), bypass).None? <==>
      || read == NoRetention
      || (&& read.Stored?
          && (|| (read.retention.mode == mode && read.retention.until.Some? && read.retention.until.value <= date)
              || (read.retention.mode != Compliance && bypass &&
                  BypassDenial(env, o, key, BypassRequested, false).None?)))
  {
    hide BypassDenial;
  }

  // ---------- one object ----------

  /** The bucket-level part of a lock check; `default` is the bucket's default
      retention mode while that is in force. */
  datatype LockState = LockState(applies: bool, default: Option<Mode>, versioningEnabled: bool)

  /** checkRetentionMode; None means the mode does not block. */
  function ModeDenial(env: Env, o: Opts, key: string, mode: Mode, bypass: BypassMode,
                      isPublic: bool): (r: Option<Denial>)
  {
    match mode
    case Governance =>
      if bypass == BypassNone then Some(ObjectLocked)
      else BypassDenial(env, o, key, bypass, isPublic)
    case Compliance => Some(ObjectLocked)
    case _ => None
  }

  /** One request against one object: what the backend says about it. */
  datatype Target = Target(key: string, versionId: string, retention: RetentionRead, hold: HoldRead)

  predicate Dated(read: RetentionRead) {
    read.Stored? && !read.retention.mode.NoMode? && read.retention.until.Some?
  }

  /** checkObject; None means the object is writable. */
  function ObjectDenial(env: Env, o: Opts, s: LockState, now: int, t: Target, bypass: BypassMode,
                        isPublic: bool): (r: Option<Denial>)
  {
    if s.versioningEnabled && t.versionId == "" then None
    else if t.retention.NoSuchKey? || t.retention.DeleteMarker? then None
    else if t.retention.ReadError? then Some(BackendError)
    else if Dated(t.retention) && t.retention.retention.until.value < now then None
    else
      var own := if !Dated(t.retention) then None
                 else ModeDenial(env, o, t.key, t.retention.retention.mode, bypass, isPublic);
      if own.Some? then own
      else match t.hold
        case HoldNoSuchKey => None
        case HoldError => Some(BackendError)
        case _ =>
          if t.hold.Hold? && t.hold.on then Some(ObjectLocked)
          else if s.default.Some? then ModeDenial(env, o, t.key, s.default.value, bypass, isPublic)
          else None
  }

  /** The request may override mode `m`: nothing to override, or GOVERNANCE with the
      request asking for it and permitted to. */
  predicate Overridable(env: Env, o: Opts, key: string, m: Mode, bypass: BypassMode, isPublic: bool) {
    !m.Compliance? &&
    (m.Governance? ==> bypass != BypassNone && BypassDenial(env, o, key, bypass, isPublic).None?)
  }

  /** The object exists and was read without error, and the request addresses it. */
  predicate Addressed(s: LockState, t: Target) {
    && !(s.versioningEnabled && t.versionId == "")
    && (t.retention.NoRetention? || t.retention.Stored?)
    && (t.hold.NoHoldConfig? || t.hold.Hold?)
  }

  /** What protects an object: an expired retention of its own frees it altogether;
      otherwise its retention, a legal hold and the bucket default must all give way. */
  lemma ObjectWritableIff(env: Env, o: Opts, s: LockState, now: int, t: Target, bypass: BypassMode, isPublic: bool)
    requires Addressed(s, t)
    ensures ObjectDenial(env, o, s, now, t, bypass, isPublic).None? <==>
      || (Dated(t.retention) && t.retention.retention.until.value < now)
      || (&& (Dated(t.retention) ==> Overridable(env, o, t.key, t.retention.retention.mode, bypass, isPublic))
          && !(t.hold.Hold? && t.hold.on)
          && (s.default.Some? ==> Overridable(env, o, t.key, s.default.value, bypass, isPublic)))
  {
  }

  /** A legal hold protects an object exactly until a dated retention of its own
      has expired: that check comes first and ends the examination. */
  lemma LegalHoldHolds(env: Env, o: Opts, s: LockState, now: int, t: Target, bypass: BypassMode, isPublic: bool)
    requires Addressed(s, t) && t.hold == Hold(true)
    ensures ObjectDenial(env, o, s, now, t, bypass, isPublic).Some? <==>
            !(Dated(t.retention) && t.retention.retention.until.value < now)
  {
  }

  /** Outside those cases: a request that adds a version, or that addresses nothing, is not
      held up, and what cannot be read protects the object. */
  lemma UnaddressedObject(env: Env, o: Opts, s: LockState, now: int, t: Target, bypass: BypassMode, isPublic: bool)
    ensures s.versioningEnabled && t.versionId == "" ==> ObjectDenial(env, o, s, now, t, bypass, isPublic).None?
    ensures t.retention.NoSuchKey? || t.retention.DeleteMarker? ==>
      ObjectDenial(env, o, s, now, t, bypass, isPublic).None?
    ensures !(s.versioningEnabled && t.versionId == "") && t.retention.ReadError? ==>
      ObjectDenial(env, o, s, now, t, bypass, isPublic) == Some(BackendError)
    ensures !(s.versioningEnabled && t.versionId == "") && t.retention.NoRetention? && t.hold.HoldError? ==>
      ObjectDenial(env, o, s, now, t, bypass, isPublic) == Some(BackendError)
    ensures t.retention.NoRetention? && t.hold.HoldNoSuchKey? ==>
      ObjectDenial(env, o, s, now, t, bypass, isPublic).None?
  {
  }

  // ---------- the bucket ----------

  /** A default retention rule as PutObjectLockConfiguration receives it. */
  datatype Rule = Rule(mode: Mode, days: Option<int>, years: Option<int>)

  datatype BucketLockConfig = BucketLockConfig(enabled: bool, rule: Option<Rule>, createdAt: int)

  /** Calendar arithmetic of the standard library: when a rule created at an instant expires. */
  type Calendar = (int, Rule) -> int

  const MAX_DAYS := 36500
  const MAX_YEARS := 100

  predicate InRange(n: Option<int>, max: int) {
    n.Some? ==> 0 < n.value <= max
  }

  predicate ValidRule(d: Rule) {
    && (d.mode.Compliance? || d.mode.Governance?)
    && !(d.years.Some? && d.days.Some?)
    && InRange(d.days, MAX_DAYS) && InRange(d.years, MAX_YEARS)
  }

  /** ParseBucketLockConfigurationInput; None is a rejected document. */
  function ParseConfig(enabledElement: bool, rule: Option<Rule>, now: int): (r: Option<BucketLockConfig>)
    ensures r.Some? <==> (enabledElement && (rule.Some? ==> ValidRule(rule.value)))
    ensures r.Some? ==> r.value == BucketLockConfig(true, rule, now)
  {
    if !enabledElement then None
    else match rule
      case None => Some(BucketLockConfig(true, None, now))
      case Some(d) =>
        if !d.mode.Compliance? && !d.mode.Governance? then None
        else if d.years.Some? && d.days.Some? then None
        else if d.days.Some? && d.days.value <= 0 then None
        else if d.days.Some? && d.days.value > MAX_DAYS then None
        else if d.years.Some? && d.years.value <= 0 then None
        else if d.years.Some? && d.years.value > MAX_YEARS then None
        else Some(BucketLockConfig(true, rule, now))
  }

  /** Which default rules are accepted: one of the two modes, and a period of at most 36500
      days or 100 years but not both. */
  lemma ValidRuleMeans(mode: Mode, n: int)
    ensures ValidRule(Rule(mode, Some(n), None)) <==> (mode == Compliance || mode == Governance) && 1 <= n <= 36500
    ensures ValidRule(Rule(mode, None, Some(n))) <==> (mode == Compliance || mode == Governance) && 1 <= n <= 100
    ensures !ValidRule(Rule(mode, Some(n), Some(n)))
  {
  }

  /** loadObjectLockState, for a bucket whose configuration could be read. */
  function LoadLockState(cal: Calendar, config: Option<BucketLockConfig>, versioning: bool, now: int,
                         isOverwrite: bool): (r: LockState)
  {
    if isOverwrite && versioning then LockState(false, None, false)
    else match config
      case None => LockState(false, None, false)
      case Some(c) =>
        if !c.enabled then LockState(false, None, false)
        else
          var default := if c.rule.Some? && cal(c.createdAt, c.rule.value) > now then Some(c.rule.value.mode) else None;
          LockState(true, default, versioning)
  }

  /** CheckObjectAccess: passes exactly when every object passes, and otherwise reports
      the first object that does not. */
  method CheckObjectAccess(env: Env, o: Opts, s: LockState, now: int, objects: seq<Target>, bypass: BypassMode,
                           isPublic: bool)
    returns (err: Option<Denial>)
    ensures err.None? <==>
      !s.applies ||
      forall i :: 0 <= i < |objects| ==> ObjectDenial(env, o, s, now, objects[i], bypass, isPublic).None?
    ensures err.Some? ==>
      exists i :: 0 <= i < |objects| && err == ObjectDenial(env, o, s, now, objects[i], bypass, isPublic) &&
                  (forall j :: 0 <= j < i ==> ObjectDenial(env, o, s, now, objects[j], bypass, isPublic).None?)
  {
    hide ObjectDenial;
    if !s.applies {
      return None;
    }
    for i := 0 to |objects|
      invariant forall j :: 0 <= j < i ==> ObjectDenial(env, o, s, now, objects[j], bypass, isPublic).None?
    {
      err := ObjectDenial(env, o, s, now, objects[i], bypass, isPublic);
      if err.Some? {
        return;
      }
    }
    err := None;
  }
}
