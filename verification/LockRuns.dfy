/** A bucket with object lock over time: every request that can touch a version,
    gated by the checks of `ObjectLock`, and what no sequence of them can do. */
module LockRuns {
  import opened Text
  import opened Policy
  import opened Access
  import opened ObjectLock

  /** One stored version, or a delete marker. */
  datatype Version = Version(mode: Mode, until: Option<int>, hold: Option<bool>, marker: bool)

  /** Key and version id.  Buckets without versioning store one version, "null". */
  type Id = (string, string)

  datatype State = State(
    now: int,
    config: Option<BucketLockConfig>,
    versioning: bool,
    versions: map<Id, Version>,
    current: map<string, string>)

  datatype Op =
    | Tick(elapsed: nat)
    | PutRetention(caller: Opts, key: string, vid: string, input: Retention, bypassHeader: bool)
    | PutLegalHold(key: string, vid: string, on: bool)
    | PutLockConfig(enabledElement: bool, rule: Option<Rule>)
    | EnableVersioning
    | Delete(caller: Opts, key: string, vid: string, bypass: BypassMode, isPublic: bool, markerId: string, next: string)
    | Overwrite(caller: Opts, key: string, isPublic: bool, newId: string, content: Version)

  /** What never changes during a run: the environment of the policy engine and the calendar. */
  datatype World = World(env: Env, cal: Calendar)

  predicate Enabled(s: State) {
    s.config.Some? && s.config.value.enabled
  }

  /** The version a request without version id addresses. */
  function AddressOf(s: State, key: string, vid: string): Id {
    (key, if vid != "" then vid
          else if s.versioning && key in s.current then s.current[key]
          else "null")
  }

  function ReadRetention(s: State, id: Id): RetentionRead {
    if id !in s.versions then NoSuchKey
    else
      var v := s.versions[id];
      if v.marker then DeleteMarker
      else if v.mode.NoMode? && v.until.None? then NoRetention
      else Stored(Retention(v.mode, v.until))
  }

  function ReadHold(s: State, id: Id): HoldRead {
    if id !in s.versions then HoldNoSuchKey
    else match s.versions[id].hold
      case None => NoHoldConfig
      case Some(on) => Hold(on)
  }

  predicate Writable(s: State, id: Id) {
    Enabled(s) && id in s.versions && !s.versions[id].marker
  }

  /** The lock gate of a delete or an overwrite lets the request through. */
  predicate GateOpen(w: World, s: State, o: Opts, key: string, vid: string, bypass: BypassMode, isPublic: bool,
                     isOverwrite: bool)
  {
    var lock := LoadLockState(w.cal, s.config, s.versioning, s.now, isOverwrite);
    var id := AddressOf(s, key, vid);
    var t := Target(key, vid, ReadRetention(s, id), ReadHold(s, id));
    !lock.applies || ObjectDenial(w.env, o, lock, s.now, t, bypass, isPublic).None?
  }

  /** One request or the passing of time; a rejected request leaves the bucket as it was. */
  function Apply(w: World, s: State, op: Op): (r: State) {
    match op
    case Tick(elapsed) => s.(now := s.now + elapsed)
    case PutRetention(o, key, vid, input, bypassHeader) =>
      var id := AddressOf(s, key, vid);
      if Writable(s, id) && ValidRetentionInput(s.now, input) &&
         RetentionPutDenial(w.env, o, key, ReadRetention(s, id), input, bypassHeader).None?
      then s.(versions := s.versions[id := s.versions[id].(mode := input.mode, until := input.until)])
      else s
    case PutLegalHold(key, vid, on) =>
      var id := AddressOf(s, key, vid);
      if Writable(s, id) then s.(versions := s.versions[id := s.versions[id].(hold := Some(on))]) else s
    case PutLockConfig(enabledElement, rule) =>
      var parsed := ParseConfig(enabledElement, rule, s.now);
      if parsed.Some? then s.(config := parsed) else s
    case EnableVersioning => s.(versioning := true)
    case Delete(o, key, vid, bypass, isPublic, markerId, next) =>
      if !GateOpen(w, s, o, key, vid, bypass, isPublic, false) then s
      else if s.versioning && vid == "" then AddVersion(s, key, markerId, Version(NoMode, None, None, true))
      else s.(versions := s.versions - {AddressOf(s, key, vid)}, current := s.current[key := next])
    case Overwrite(o, key, isPublic, newId, content) =>
      if !GateOpen(w, s, o, key, "", BypassOverwrite, isPublic, true) then s
      else if s.versioning then AddVersion(s, key, newId, content)
      else s.(versions := s.versions[AddressOf(s, key, "") := content])
  }

  /** Version ids are fresh: an existing version is never replaced by a new one. */
  function AddVersion(s: State, key: string, vid: string, v: Version): State {
    if (key, vid) in s.versions then s
    else s.(versions := s.versions[(key, vid) := v], current := s.current[key := vid])
  }

  function Run(w: World, s: State, ops: seq<Op>): (r: State)
    decreases |ops|
  {
    if ops == [] then s else Run(w, Apply(w, s, ops[0]), ops[1..])
  }

  /** Version `id` is locked in `mode` at least until `t`. */
  predicate Locked(s: State, id: Id, mode: Mode, t: int) {
    && Writable(s, id)
    && s.versions[id].mode == mode
    && s.versions[id].until.Some? && s.versions[id].until.value >= t
  }

  /** A step at which verifyBypassGovernancePermission is consulted and grants. */
  predicate BypassGranted(w: World, op: Op) {
    match op
    case PutRetention(o, key, _, _, bypassHeader) =>
      bypassHeader && BypassDenial(w.env, o, key, BypassRequested, false).None?
    case Delete(o, key, _, bypass, isPublic, _, _) =>
      bypass != BypassNone && BypassDenial(w.env, o, key, bypass, isPublic).None?
    case Overwrite(o, key, isPublic, _, _) =>
      BypassDenial(w.env, o, key, BypassOverwrite, isPublic).None?
    case _ => false
  }

  /** Requests that can take a version away. */
  predicate Removes(op: Op) {
    op.Delete? || op.Overwrite?
  }

  /** The version a request is about. */
  predicate Addresses(s: State, op: Op, id: Id) {
    match op
    case PutRetention(_, key, vid, _, _) => AddressOf(s, key, vid) == id
    case Delete(_, key, vid, _, _, _, _) => AddressOf(s, key, vid) == id
    case Overwrite(_, key, _, _, _) => AddressOf(s, key, "") == id
    case _ => false
  }

  /** The step removes the version after its own date has passed. */
  predicate LateRemoval(s: State, op: Op, id: Id)
    requires id in s.versions && s.versions[id].until.Some?
  {
    Removes(op) && Addresses(s, op, id) && s.now > s.versions[id].until.value
  }

  // ---------- steps ----------

  lemma TimeAndLockPersist(w: World, s: State, op: Op)
    ensures Apply(w, s, op).now >= s.now
    ensures Enabled(s) ==> Enabled(Apply(w, s, op))
    ensures op.Tick? ==> Apply(w, s, op) == s.(now := s.now + op.elapsed)
    ensures !op.Tick? ==> Apply(w, s, op).now == s.now
    ensures Apply(w, s, op).versioning <==> s.versioning || op.EnableVersioning?
  {
  }

  /** The gate stays shut for a version whose dated retention has not expired. */
  lemma GateShut(w: World, s: State, o: Opts, key: string, vid: string, bypass: BypassMode, isPublic: bool,
                 isOverwrite: bool, t: int)
    requires s.now <= t && !(s.versioning && (vid == "" || isOverwrite))
    requires Locked(s, AddressOf(s, key, vid), Compliance, t) ||
             (Locked(s, AddressOf(s, key, vid), Governance, t) &&
              !(bypass != BypassNone && BypassDenial(w.env, o, key, bypass, isPublic).None?))
    ensures !GateOpen(w, s, o, key, vid, bypass, isPublic, isOverwrite)
  {
  }

  /** A bucket default in force protects versions that carry no dated retention of their
      own: COMPLIANCE always, GOVERNANCE unless the bypass is asked for and granted. */
  lemma DefaultGateShut(w: World, s: State, o: Opts, key: string, vid: string, bypass: BypassMode, isPublic: bool,
                        isOverwrite: bool)
    requires !(s.versioning && (vid == "" || isOverwrite)) && Writable(s, AddressOf(s, key, vid))
    requires !Dated(ReadRetention(s, AddressOf(s, key, vid)))
    requires s.config.value.rule.Some? && w.cal(s.config.value.createdAt, s.config.value.rule.value) > s.now
    requires var m := s.config.value.rule.value.mode;
      m.Compliance? || (m.Governance? && !(bypass != BypassNone && BypassDenial(w.env, o, key, bypass, isPublic).None?))
    ensures !GateOpen(w, s, o, key, vid, bypass, isPublic, isOverwrite)
  {
  }

  /** One step ends a COMPLIANCE lock only by removing that very version after its date,
      whoever asks and however. */
  lemma ComplianceStep(w: World, s: State, op: Op, id: Id, t: int)
    requires Locked(s, id, Compliance, t)
    ensures Locked(Apply(w, s, op), id, Compliance, t) || LateRemoval(s, op, id)
  {
  }

  /** One step ends a GOVERNANCE lock only if it is about that very version and either
      its caller was granted the bypass or it removes the version after its date. */
  lemma GovernanceStep(w: World, s: State, op: Op, id: Id, t: int)
    requires Locked(s, id, Governance, t)
    ensures Locked(Apply(w, s, op), id, Governance, t) || LateRemoval(s, op, id) ||
            (Addresses(s, op, id) && BypassGranted(w, op))
  {
  }

  // ---------- what requests achieve ----------

  /** Nothing protects version `id` from this request: its own date has passed, or its
      retention, its legal hold and the bucket default all give way. */
  predicate Freed(w: World, s: State, o: Opts, key: string, id: Id, bypass: BypassMode, isPublic: bool)
    requires Writable(s, id)
  {
    var v := s.versions[id];
    var dated := v.mode != NoMode && v.until.Some?;
    || (dated && v.until.value < s.now)
    || (&& (dated ==> MayOverride(w, o, key, v.mode, bypass, isPublic))
        && v.hold != Some(true)
        && (DefaultInForce(w, s) ==> MayOverride(w, o, key, s.config.value.rule.value.mode, bypass, isPublic)))
  }

  predicate MayOverride(w: World, o: Opts, key: string, mode: Mode, bypass: BypassMode, isPublic: bool) {
    && mode != Compliance
    && (mode == Governance ==> bypass != BypassNone && BypassDenial(w.env, o, key, bypass, isPublic).None?)
  }

  /** The bucket's default rule has not expired yet. */
  predicate DefaultInForce(w: World, s: State) {
    s.config.Some? && s.config.value.rule.Some? && s.now < w.cal(s.config.value.createdAt, s.config.value.rule.value)
  }

  /** The gate is open exactly for versions that nothing protects. */
  lemma GateMeans(w: World, s: State, o: Opts, key: string, vid: string, bypass: BypassMode, isPublic: bool,
                  isOverwrite: bool)
    requires Writable(s, AddressOf(s, key, vid)) && !(s.versioning && (vid == "" || isOverwrite))
    ensures GateOpen(w, s, o, key, vid, bypass, isPublic, isOverwrite) <==>
            Freed(w, s, o, key, AddressOf(s, key, vid), bypass, isPublic)
  {
    hide BypassDenial;
  }

  /** A delete that addresses a version removes it exactly if nothing protects it, and
      touches no other. */
  lemma DeleteAchieves(w: World, s: State, op: Op)
    requires op.Delete? && !(s.versioning && op.vid == "") && Writable(s, AddressOf(s, op.key, op.vid))
    ensures var id := AddressOf(s, op.key, op.vid);
      && (id !in Apply(w, s, op).versions <==> Freed(w, s, op.caller, op.key, id, op.bypass, op.isPublic))
      && (forall x :: x in s.versions && x != id ==>
            x in Apply(w, s, op).versions && Apply(w, s, op).versions[x] == s.versions[x])
  {
    GateMeans(w, s, op.caller, op.key, op.vid, op.bypass, op.isPublic, false);
    hide GateOpen, Freed;
  }

  /** A delete marker, and a version that does not exist, is not protected by anything. */
  lemma MarkerRemoved(w: World, s: State, op: Op)
    requires op.Delete? && !(s.versioning && op.vid == "")
    requires var id := AddressOf(s, op.key, op.vid); id !in s.versions || s.versions[id].marker
    ensures AddressOf(s, op.key, op.vid) !in Apply(w, s, op).versions
  {
    hide BypassDenial;
  }

  /** Without versioning an overwrite replaces the object exactly if nothing protects it. */
  lemma OverwriteAchieves(w: World, s: State, op: Op)
    requires op.Overwrite? && !s.versioning && Writable(s, (op.key, "null"))
    ensures Apply(w, s, op).versions ==
      if Freed(w, s, op.caller, op.key, (op.key, "null"), BypassOverwrite, op.isPublic)
      then s.versions[(op.key, "null") := op.content] else s.versions
  {
    GateMeans(w, s, op.caller, op.key, "", BypassOverwrite, op.isPublic, true);
    hide GateOpen, Freed;
  }

  /** With versioning, deletes without a version id and overwrites always go through, keep
      every version and add one under its new id. */
  lemma VersionsAdded(w: World, s: State, op: Op)
    requires s.versioning && ((op.Delete? && op.vid == "") || op.Overwrite?)
    ensures var id := (op.key, if op.Delete? then op.markerId else op.newId);
      var added := if op.Delete? then Version(NoMode, None, None, true) else op.content;
      id !in s.versions ==> Apply(w, s, op).versions == s.versions[id := added]
    ensures forall x :: x in s.versions ==>
      x in Apply(w, s, op).versions && Apply(w, s, op).versions[x] == s.versions[x]
  {
  }

  /** A request with a version id addresses that version; one without addresses the version
      added last or, before versioning, the only one. */
  lemma Addressing(w: World, s: State, op: Op, vid: string)
    requires s.versioning && ((op.Delete? && op.vid == "") || op.Overwrite?)
    requires (op.key, if op.Delete? then op.markerId else op.newId) !in s.versions
    ensures AddressOf(Apply(w, s, op), op.key, "") == (op.key, if op.Delete? then op.markerId else op.newId)
    ensures vid != "" ==> AddressOf(s, op.key, vid) == (op.key, vid)
    ensures AddressOf(s.(versioning := false), op.key, "") == (op.key, "null")
  {
  }

  /** The retention an accepted request leaves, and which requests are accepted: a first
      retention, an extension in the same mode, or a change of a retention that is not
      COMPLIANCE with a granted bypass. */
  lemma PutRetentionAchieves(w: World, s: State, op: Op)
    requires op.PutRetention? && Writable(s, AddressOf(s, op.key, op.vid))
    ensures var id := AddressOf(s, op.key, op.vid); var v := s.versions[id];
      var valid := op.input.until.Some? && op.input.until.value >= s.now &&
                   (op.input.mode == Governance || op.input.mode == Compliance);
      var allowed :=
        || (v.mode == NoMode && v.until == None)
        || (v.mode == op.input.mode && v.until.Some? && op.input.until.Some? && op.input.until.value >= v.until.value)
        || (v.mode != Compliance && op.bypassHeader &&
            BypassDenial(w.env, op.caller, op.key, BypassRequested, false).None?);
      var after := v.(mode := op.input.mode, until := op.input.until);
      Apply(w, s, op) == if valid && allowed then s.(versions := s.versions[id := after]) else s
  {
    hide BypassDenial;
  }

  /** A legal hold, once placed, protects the version from every caller unless a dated
      retention of its own has passed. */
  lemma HoldAchieves(w: World, s: State, key: string, vid: string, o: Opts, bypass: BypassMode, isPublic: bool)
    requires Writable(s, AddressOf(s, key, vid))
    ensures var id, s' := AddressOf(s, key, vid), Apply(w, s, PutLegalHold(key, vid, true));
      var v := s.versions[id];
      && Writable(s', id) && s'.versions[id] == v.(hold := Some(true))
      && (Freed(w, s', o, key, id, bypass, isPublic) <==>
          v.mode != NoMode && v.until.Some? && v.until.value < s.now)
  {
    hide BypassDenial;
  }

  lemma {:induction false} ConfigKept(w: World, s: State, ops: seq<Op>)
    requires forall i :: 0 <= i < |ops| ==> !ops[i].PutLockConfig?
    ensures Run(w, s, ops).config == s.config
    decreases |ops|
  {
    if ops != [] {
      ConfigKept(w, Apply(w, s, ops[0]), ops[1..]);
    }
  }

  lemma DefaultMeans(w: World, e: State, rule: Option<Rule>, t: int, o: Opts, key: string, id: Id, bypass: BypassMode,
                     isPublic: bool)
    requires Writable(e, id) && e.config == Some(BucketLockConfig(true, rule, t))
    requires (rule.Some? ==> ValidRule(rule.value)) && (e.versions[id].mode == NoMode || e.versions[id].until == None)
    ensures Freed(w, e, o, key, id, bypass, isPublic) <==>
      && e.versions[id].hold != Some(true)
      && !(rule.Some? && e.now < w.cal(t, rule.value) &&
           (rule.value.mode == Compliance ||
            !(bypass != BypassNone && BypassDenial(w.env, o, key, bypass, isPublic).None?)))
  {
    hide BypassDenial;
  }

  /** A default rule, once accepted, protects every version without a dated retention of
      its own through every run that does not change the configuration, until it expires:
      COMPLIANCE always, GOVERNANCE unless the bypass is asked for and granted.  From then
      on, and without a rule, only a legal hold protects such a version. */
  lemma DefaultProtects(w: World, s: State, rule: Option<Rule>, ops: seq<Op>, o: Opts, key: string, vid: string,
                        bypass: BypassMode, isPublic: bool, isOverwrite: bool)
    requires (rule.Some? ==> ValidRule(rule.value)) && forall i :: 0 <= i < |ops| ==> !ops[i].PutLockConfig?
    requires var e := Run(w, Apply(w, s, PutLockConfig(true, rule)), ops);
      && Writable(e, AddressOf(e, key, vid)) && !(e.versioning && (vid == "" || isOverwrite))
      && (e.versions[AddressOf(e, key, vid)].mode == NoMode || e.versions[AddressOf(e, key, vid)].until == None)
    ensures var e := Run(w, Apply(w, s, PutLockConfig(true, rule)), ops);
      GateOpen(w, e, o, key, vid, bypass, isPublic, isOverwrite) <==>
      && e.versions[AddressOf(e, key, vid)].hold != Some(true)
      && !(rule.Some? && e.now < w.cal(s.now, rule.value) &&
           (rule.value.mode == Compliance ||
            !(bypass != BypassNone && BypassDenial(w.env, o, key, bypass, isPublic).None?)))
  {
    var s1 := Apply(w, s, PutLockConfig(true, rule));
    assert s1.config == Some(BucketLockConfig(true, rule, s.now));
    hide *;
    ConfigKept(w, s1, ops);
    DefaultMeans(w, Run(w, s1, ops), rule, s.now, o, key, AddressOf(Run(w, s1, ops), key, vid), bypass, isPublic);
    GateMeans(w, Run(w, s1, ops), o, key, vid, bypass, isPublic, isOverwrite);
  }

  // ---------- whole runs ----------

  /** After its first step, a run goes on like the run of the other steps. */
  lemma RunCons(w: World, s: State, ops: seq<Op>, i: nat)
    requires i < |ops|
    ensures Run(w, s, ops[..i + 1]) == Run(w, Apply(w, s, ops[0]), ops[1..][..i])
    ensures ops[1..][..i] == ops[1..i + 1]
  {
    assert ops[..i + 1][1..] == ops[1..][..i];
  }

  /** The step ends the lock, and had the right to. */
  ghost predicate Ends(w: World, s: State, op: Op, id: Id, mode: Mode, t: int) {
    && Locked(s, id, mode, t) && !Locked(Apply(w, s, op), id, mode, t)
    && (LateRemoval(s, op, id) || (mode.Governance? && Addresses(s, op, id) && BypassGranted(w, op)))
  }

  /** In every run a lock lasts, or ends at a step that had the right to end it. */
  lemma {:induction false} LockSafe(w: World, s: State, ops: seq<Op>, id: Id, mode: Mode, t: int)
    requires Locked(s, id, mode, t) && (mode.Compliance? || mode.Governance?)
    ensures Locked(Run(w, s, ops), id, mode, t) ||
            exists i :: 0 <= i < |ops| && Ends(w, Run(w, s, ops[..i]), ops[i], id, mode, t)
    decreases |ops|
  {
    if ops != [] {
      var next := Apply(w, s, ops[0]);
      if mode.Compliance? {
        ComplianceStep(w, s, ops[0], id, t);
      } else {
        GovernanceStep(w, s, ops[0], id, t);
      }
      hide Locked, Apply;
      if Locked(next, id, mode, t) {
        LockSafe(w, next, ops[1..], id, mode, t);
        if i :| 0 <= i < |ops[1..]| && Ends(w, Run(w, next, ops[1..][..i]), ops[1..][i], id, mode, t) {
          RunCons(w, s, ops, i);
          assert ops[i + 1] == ops[1..][i];
        }
      } else {
        assert Run(w, s, ops[..0]) == s && Ends(w, s, ops[0], id, mode, t);
      }
    }
  }

  /** COMPLIANCE is absolute: in every run, by any callers with any bypass mode, a version
      locked until t stays so, or was removed at a step when its date, still at least t,
      had passed. */
  lemma ComplianceSafe(w: World, s: State, ops: seq<Op>, id: Id, t: int)
    requires Locked(s, id, Compliance, t)
    ensures Locked(Run(w, s, ops), id, Compliance, t) ||
      exists i :: 0 <= i < |ops| && var before := Run(w, s, ops[..i]);
        Locked(before, id, Compliance, t) && LateRemoval(before, ops[i], id) && before.now > t
  {
    LockSafe(w, s, ops, id, Compliance, t);
    hide Run, Apply;
  }

  /** GOVERNANCE gives way only to a granted bypass: in every run a version locked until t
      stays so, or the lock ended at a step about that version, at which the bypass was
      granted to its caller or the version's date had passed. */
  lemma GovernanceSafe(w: World, s: State, ops: seq<Op>, id: Id, t: int)
    requires Locked(s, id, Governance, t)
    ensures Locked(Run(w, s, ops), id, Governance, t) ||
      exists i :: 0 <= i < |ops| && var before := Run(w, s, ops[..i]);
        Locked(before, id, Governance, t) && !Locked(Apply(w, before, ops[i]), id, Governance, t) &&
        (LateRemoval(before, ops[i], id) || (Addresses(before, ops[i], id) && BypassGranted(w, ops[i])))
  {
    LockSafe(w, s, ops, id, Governance, t);
    hide Run, Apply;
  }
}
