/** DeleteObjects: authorizing and lock-checking many objects in one request. */
module BatchDelete {
  import opened Text
  import Glob
  import opened Policy
  import opened Access
  import opened ObjectLock

  predicate Versioned(t: Target) {
    t.versionId != ""
  }

  /** A versioned delete needs its own permission. */
  function ActionFor(versioned: bool): string {
    if versioned then "s3:DeleteObjectVersion" else "s3:DeleteObject"
  }

  /** Indices of the objects of one kind, in order. */
  function Group(ts: seq<Target>, versioned: bool): (g: seq<nat>)
    ensures forall j :: 0 <= j < |g| ==> g[j] < |ts| && Versioned(ts[g[j]]) == versioned
    ensures forall j, k :: 0 <= j < k < |g| ==> g[j] < g[k]
    ensures forall i :: 0 <= i < |ts| && Versioned(ts[i]) == versioned ==> i in g
    decreases |ts|
  {
    if ts == [] then []
    else
      var n := |ts| - 1;
      var g := Group(ts[..n], versioned);
      if Versioned(ts[n]) == versioned then g + [n] else g
  }

  function KeysOf(ts: seq<Target>, idx: seq<nat>): (r: seq<string>)
    requires forall j :: 0 <= j < |idx| ==> idx[j] < |ts|
    ensures |r| == |idx| && forall j :: 0 <= j < |r| ==> r[j] == ts[idx[j]].key
  {
    seq(|idx|, j requires 0 <= j < |idx| => ts[idx[j]].key)
  }

  /** An object of this kind that the bucket policy explicitly denies. */
  predicate DeniedObject(env: Env, o: Opts, t: Target, versioned: bool) {
    Versioned(t) == versioned && Denied(env, o, [ActionFor(versioned)], t.key)
  }

  /** First object of a kind that the bucket policy denies, or the number of objects. */
  function FirstDeniedObject(env: Env, o: Opts, ts: seq<Target>, versioned: bool): (r: nat)
    ensures r <= |ts| && (r < |ts| ==> DeniedObject(env, o, ts[r], versioned))
    ensures forall j :: 0 <= j < r ==> !DeniedObject(env, o, ts[j], versioned)
  {
    First(ts, t => DeniedObject(env, o, t, versioned))
  }

  /** What policy says about deleting this one object. */
  predicate Permitted(env: Env, o: Opts, t: Target) {
    Grants(env, o, [ActionFor(Versioned(t))], t.key)
  }

  /** What the batch says about object i: an explicit deny is recorded for the first
      denied object of each kind only, and then decides that whole kind. */
  predicate PassesPolicy(env: Env, o: Opts, ts: seq<Target>, i: nat)
    requires i < |ts|
  {
    var d := FirstDeniedObject(env, o, ts, Versioned(ts[i]));
    if d < |ts| then i != d else Permitted(env, o, ts[i])
  }

  /** The bucket policy's denials are recorded in full as far as object i is concerned:
      it denies no object of that kind, or i is the first. */
  predicate Recorded(env: Env, o: Opts, ts: seq<Target>, i: nat)
    requires i < |ts|
  {
    var d := FirstDeniedObject(env, o, ts, Versioned(ts[i]));
    d == |ts| || i == d
  }

  lemma RecordedIsExact(env: Env, o: Opts, ts: seq<Target>, i: nat)
    requires i < |ts| && Recorded(env, o, ts, i)
    ensures PassesPolicy(env, o, ts, i) <==> Permitted(env, o, ts[i])
  {
  }

  lemma FirstDeniedObjectIs(env: Env, o: Opts, ts: seq<Target>, versioned: bool, i: nat)
    requires i <= |ts| && (i < |ts| ==> DeniedObject(env, o, ts[i], versioned))
    requires forall j :: 0 <= j < i ==> !DeniedObject(env, o, ts[j], versioned)
    ensures FirstDeniedObject(env, o, ts, versioned) == i
  {
  }

  /** The first denied key of a group is the first denied object of its kind. */
  lemma GroupFirst(env: Env, o: Opts, ts: seq<Target>, versioned: bool)
    ensures var g := Group(ts, versioned);
      var d := FirstDenied(env, o, [ActionFor(versioned)], KeysOf(ts, g));
      FirstDeniedObject(env, o, ts, versioned) == if d < |g| then g[d] else |ts|
  {
    hide Group, FirstDenied, FirstDeniedObject, Denied;
    var g := Group(ts, versioned);
    var d := FirstDenied(env, o, [ActionFor(versioned)], KeysOf(ts, g));
    var i := if d < |g| then g[d] else |ts|;
    forall j | 0 <= j < i ensures !DeniedObject(env, o, ts[j], versioned) {
      if Versioned(ts[j]) == versioned {
        var k :| 0 <= k < |g| && g[k] == j;
        assert k < d;
      }
    }
    FirstDeniedObjectIs(env, o, ts, versioned, i);
  }

  /** Positions in a group and positions in the request tell the same story. */
  lemma GroupEntry(env: Env, o: Opts, ts: seq<Target>, versioned: bool, j: nat)
    requires j < |Group(ts, versioned)|
    ensures EntryPasses(env, o, [ActionFor(versioned)], KeysOf(ts, Group(ts, versioned)), j) <==>
            PassesPolicy(env, o, ts, Group(ts, versioned)[j])
  {
    hide Group, FirstDenied, FirstDeniedObject, Grants;
    GroupFirst(env, o, ts, versioned);
  }

  /** authorizeObjectSubset: one call for one action, scattered back to the objects'
      own positions; false when the whole batch fails. */
  method AuthorizeObjectSubset(env: Env, o: Opts, ts: seq<Target>, versioned: bool, idx: seq<nat>,
                               errs: array<Option<Denial>>)
    returns (ok: bool)
    requires idx == Group(ts, versioned) && errs.Length == |ts|
    modifies errs
    ensures ok <==> idx == [] || !BatchFails(env, o, [ActionFor(versioned)], KeysOf(ts, idx))
    ensures ok ==> forall i :: 0 <= i < |ts| && Versioned(ts[i]) == versioned ==>
      (errs[i].None? <==> PassesPolicy(env, o, ts, i))
    ensures forall i :: 0 <= i < |ts| && Versioned(ts[i]) != versioned ==> errs[i] == old(errs[i])
  {
    hide EntryPasses, PassesPolicy, BatchFails, Group, FirstDenied, BatchEntry, FirstDeniedObject;
    hide ResourceVerdict, Denied;
    if idx == [] {
      return true;
    }
    var keys := KeysOf(ts, idx);
    var sub := ObjectsAccessErrors(env, o, [ActionFor(versioned)], keys);
    if sub.None? {
      return false;
    }
    for j := 0 to |idx|
      invariant forall k :: 0 <= k < j ==> (errs[idx[k]].None? <==> PassesPolicy(env, o, ts, idx[k]))
      invariant forall i :: 0 <= i < |ts| && Versioned(ts[i]) != versioned ==> errs[i] == old(errs[i])
    {
      GroupEntry(env, o, ts, versioned, j);
      errs[idx[j]] := sub.value[j];
    }
    forall i | 0 <= i < |ts| && Versioned(ts[i]) == versioned
      ensures errs[i].None? <==> PassesPolicy(env, o, ts, i)
    {
      var k :| 0 <= k < |idx| && idx[k] == i;
    }
    return true;
  }

  /** One of the two action groups cannot be decided. */
  ghost predicate GroupFails(env: Env, o: Opts, ts: seq<Target>) {
    exists v: bool :: Group(ts, v) != [] && BatchFails(env, o, [ActionFor(v)], KeysOf(ts, Group(ts, v)))
  }

  /** A failure that is about no single object. */
  ghost predicate WholeBatchFails(env: Env, o: Opts, ts: seq<Target>, lock: Option<LockState>) {
    || (o.readonly && o.isWrite)
    || (ts != [] && !Exempt(o) && GroupFails(env, o, ts))
    || (ts != [] && lock.None?)
  }

  /** Anonymous requests to public buckets, root and admin are not authorized here. */
  predicate Exempt(o: Opts) {
    o.isPublicRequest || o.isRoot || o.isAdmin
  }

  /** A group that cannot be decided: the policy cannot be consulted, or the IAM service
      fails and is asked because the bucket policy denies no object of the group. */
  lemma GroupFailsMeans(env: Env, o: Opts, ts: seq<Target>)
    requires ts != []
    ensures GroupFails(env, o, ts) <==>
      !Consultable(o) ||
      (o.evaluator.Some? && o.evaluator.value.fails &&
       exists v: bool, i :: 0 <= i < |ts| && Versioned(ts[i]) == v && FirstDeniedObject(env, o, ts, v) == |ts|)
  {
    forall v: bool ensures BatchFails(env, o, [ActionFor(v)], KeysOf(ts, Group(ts, v))) && Group(ts, v) != [] <==>
      Group(ts, v) != [] && (!Consultable(o) ||
      (o.evaluator.Some? && o.evaluator.value.fails && FirstDeniedObject(env, o, ts, v) == |ts|))
    {
      if Group(ts, v) != [] {
        BatchFailsMeans(env, o, ts, v);
      }
    }
    hide BatchFails, FirstDeniedObject, Group;
    assert 0 in Group(ts, Versioned(ts[0]));
    forall v: bool ensures Group(ts, v) != [] <==> exists i :: 0 <= i < |ts| && Versioned(ts[i]) == v {
      if Group(ts, v) != [] {
        assert Versioned(ts[Group(ts, v)[0]]) == v;
      }
      if i :| 0 <= i < |ts| && Versioned(ts[i]) == v {
        assert i in Group(ts, v);
      }
    }
  }

  lemma BatchFailsMeans(env: Env, o: Opts, ts: seq<Target>, v: bool)
    requires Group(ts, v) != []
    ensures BatchFails(env, o, [ActionFor(v)], KeysOf(ts, Group(ts, v))) <==>
      !Consultable(o) || (o.evaluator.Some? && o.evaluator.value.fails && FirstDeniedObject(env, o, ts, v) == |ts|)
  {
    GroupFirst(env, o, ts, v);
    var keys := KeysOf(ts, Group(ts, v));
    forall i | 0 <= i < |keys| ensures ResourceVerdict(env, o, [ActionFor(v)], keys[i]).Some? <==> Consultable(o) {
      ResourceMeans(env, o, [ActionFor(v)], keys[i]);
    }
    hide ResourceVerdict, FirstDenied, FirstDeniedObject, Group;
    assert keys[0] == keys[0];
  }

  /** Which permission a delete needs. */
  lemma PermittedMeans(env: Env, o: Opts, t: Target)
    ensures t.versionId == "" ==> (Permitted(env, o, t) <==> Grants(env, o, ["s3:DeleteObject"], t.key))
    ensures t.versionId != "" ==> (Permitted(env, o, t) <==> Grants(env, o, ["s3:DeleteObjectVersion"], t.key))
  {
  }

  /** The lock's say on one object; None means it does not object. */
  function LockDenial(env: Env, o: Opts, t: Target, s: LockState, now: int, bypass: BypassMode): Option<Denial> {
    if s.applies then ObjectDenial(env, o, s, now, t, bypass, o.isPublicRequest) else None
  }

  /** VerifyObjectsAccess; `lock` is None when the lock configuration cannot be read. */
  method VerifyObjectsAccess(env: Env, o: Opts, ts: seq<Target>, lock: Option<LockState>, now: int, bypass: BypassMode)
    returns (r: Option<seq<Option<Denial>>>)
    ensures r.None? <==> WholeBatchFails(env, o, ts, lock)
    ensures r.Some? ==> |r.value| == |ts|
    ensures r.Some? ==> forall i :: 0 <= i < |ts| ==>
      if !Exempt(o) && !PassesPolicy(env, o, ts, i) then r.value[i].Some?
      else r.value[i] == LockDenial(env, o, ts[i], lock.value, now, bypass)
    ensures r.Some? ==>
      forall i :: 0 <= i < |ts| && (o.isPublicRequest || o.isRoot || o.isAdmin || Recorded(env, o, ts, i)) ==>
        (r.value[i].None? <==>
         && (o.isPublicRequest || o.isRoot || o.isAdmin || Permitted(env, o, ts[i]))
         && (lock.value.applies ==>
               ObjectDenial(env, o, lock.value, now, ts[i], bypass, o.isPublicRequest).None?))
  {
    hide *;
    WholeBatchUnfolds(env, o, ts, lock);
    if o.readonly && o.isWrite {
      return None;
    }
    if ts == [] {
      return Some([]);
    }
    forall i | 0 <= i < |ts| && Recorded(env, o, ts, i)
      ensures PassesPolicy(env, o, ts, i) <==> Permitted(env, o, ts[i])
    {
      RecordedIsExact(env, o, ts, i);
    }
    var errs := new Option<Denial>[|ts|](_ => None);
    if AuthorizationApplies(o) {
      var ok := AuthorizeObjects(env, o, ts, errs);
      if !ok {
        return None;
      }
    }
    if lock.None? {
      return None;
    }
    LockLoop(env, o, ts, lock.value, now, bypass, errs);
    forall i | 0 <= i < |ts| ensures LockDenial(env, o, ts[i], lock.value, now, bypass) ==
      if lock.value.applies then ObjectDenial(env, o, lock.value, now, ts[i], bypass, o.isPublicRequest) else None
    {
      LockDenialIs(env, o, ts[i], lock.value, now, bypass);
    }
    r := Some(errs[..]);
  }

  lemma LockDenialIs(env: Env, o: Opts, t: Target, s: LockState, now: int, bypass: BypassMode)
    ensures LockDenial(env, o, t, s, now, bypass) ==
      if s.applies then ObjectDenial(env, o, s, now, t, bypass, o.isPublicRequest) else None
  {
  }

  /** What a whole-batch failure consists of. */
  lemma WholeBatchUnfolds(env: Env, o: Opts, ts: seq<Target>, lock: Option<LockState>)
    ensures WholeBatchFails(env, o, ts, lock) <==>
      (o.readonly && o.isWrite) || (ts != [] && ((!Exempt(o) && GroupFails(env, o, ts)) || lock.None?))
    ensures AuthorizationApplies(o) <==> !Exempt(o)
    ensures Exempt(o) <==> o.isPublicRequest || o.isRoot || o.isAdmin
  {
  }

  /** Both action groups, one after the other. */
  method AuthorizeObjects(env: Env, o: Opts, ts: seq<Target>, errs: array<Option<Denial>>) returns (ok: bool)
    requires errs.Length == |ts|
    modifies errs
    ensures ok <==> !GroupFails(env, o, ts)
    ensures ok ==> forall i :: 0 <= i < |ts| ==> (errs[i].None? <==> PassesPolicy(env, o, ts, i))
  {
    hide PassesPolicy, BatchFails, Group, KeysOf;
    var plain, versioned := SplitByKind(ts);
    ok := AuthorizeObjectSubset(env, o, ts, false, plain, errs);
    if ok {
      ok := AuthorizeObjectSubset(env, o, ts, true, versioned, errs);
    }
  }

  /** The loop that splits the request into its two action groups. */
  method SplitByKind(ts: seq<Target>) returns (plain: seq<nat>, versioned: seq<nat>)
    ensures plain == Group(ts, false) && versioned == Group(ts, true)
  {
    plain, versioned := [], [];
    for i := 0 to |ts|
      invariant plain == Group(ts[..i], false) && versioned == Group(ts[..i], true)
    {
      assert ts[..i + 1][..i] == ts[..i];
      if Versioned(ts[i]) {
        versioned := versioned + [i];
      } else {
        plain := plain + [i];
      }
    }
    assert ts[..|ts|] == ts;
  }

  /** Lock checks fill only the entries policy left empty, each from its own object. */
  method LockLoop(env: Env, o: Opts, ts: seq<Target>, s: LockState, now: int, bypass: BypassMode,
                  errs: array<Option<Denial>>)
    requires errs.Length == |ts|
    modifies errs
    ensures forall i :: 0 <= i < |ts| ==>
      errs[i] == if old(errs[i]).Some? then old(errs[i]) else LockDenial(env, o, ts[i], s, now, bypass)
  {
    hide ObjectDenial;
    if !s.applies {
      return;
    }
    for i := 0 to |ts|
      invariant forall j :: 0 <= j < i ==>
        errs[j] == if old(errs[j]).Some? then old(errs[j]) else LockDenial(env, o, ts[j], s, now, bypass)
      invariant forall j :: i <= j < |ts| ==> errs[j] == old(errs[j])
    {
      if errs[i].Some? {
        continue;
      }
      errs[i] := ObjectDenial(env, o, s, now, ts[i], bypass, o.isPublicRequest);
    }
  }

  /** Every object belongs to exactly one of the two groups, once. */
  lemma GroupsPartition(ts: seq<Target>, i: nat, v: bool)
    requires i < |ts|
    ensures i in Group(ts, v) <==> i !in Group(ts, !v)
    ensures forall j, k :: 0 <= j < k < |Group(ts, v)| ==> Group(ts, v)[j] != Group(ts, v)[k]
  {
  }

  ghost predicate DecidesAlike(env: Env, o: Opts, ts: seq<Target>) {
    forall i :: 0 <= i < |ts| ==> (PassesPolicy(env, o, ts, i) <==> Permitted(env, o, ts[i]))
  }

  /** Whatever the caller's own policies say, the batch answers for every object what a
      request for it alone would, exactly when every kind of object that has one the
      bucket policy denies consists of that one. */
  lemma BatchIsPerObject(env: Env, o: Opts, ts: seq<Target>)
    ensures (forall e: Option<Evaluator> :: DecidesAlike(env, o.(evaluator := e), ts)) <==>
            forall i :: 0 <= i < |ts| ==> Recorded(env, o, ts, i)
  {
    forall e: Option<Evaluator>, v
      ensures FirstDeniedObject(env, o.(evaluator := e), ts, v) == FirstDeniedObject(env, o, ts, v)
    {
      FirstDeniedObjectIs(env, o.(evaluator := e), ts, v, FirstDeniedObject(env, o, ts, v));
    }
    hide FirstDeniedObject, Grants;
    forall e: Option<Evaluator>, i | 0 <= i < |ts| && Recorded(env, o, ts, i)
      ensures PassesPolicy(env, o.(evaluator := e), ts, i) <==> Permitted(env, o.(evaluator := e), ts[i])
    {
      RecordedIsExact(env, o.(evaluator := e), ts, i);
    }
    if i :| 0 <= i < |ts| && !Recorded(env, o, ts, i) {
      DenyAllDenies(env, o, [ActionFor(Versioned(ts[i]))], ts[i].key);
      assert !DecidesAlike(env, o.(evaluator := Some(DenyAll())), ts);
    }
  }

  /** A policy that denies everything to everyone. */
  function DenyEverything(): BucketPolicy {
    BucketPolicy("", [Statement(EffectDeny, {"*"}, {ALL_ACTIONS}, {"*"}, "")])
  }

  lemma EverythingForbidden(env: Env, q: Query)
    requires env.evaluate("", "") == Holds && '*' !in q.resource
    ensures Decide(env, DenyEverything(), q, false) == Deny
  {
    hide Glob.Greedy, Glob.Matches;
    var st := DenyEverything().statements[0];
    assert NormalizeResource(env, "*") == "*";
    Glob.AllMatch("*", q.resource, true);
    Glob.GreedyExact("*", q.resource, true);
    assert "*" in st.resources && st in DenyEverything().statements;
    assert Forbids(env, "", st, q, false);
  }

  lemma DenyEverythingDenies(env: Env, o: Opts, action: string, key: string)
    requires o.policy == Document(Some(DenyEverything())) && env.evaluate("", "") == Holds
    requires '*' !in MakeResource(env, o.bucket, key)
    ensures Denied(env, o, [action], key)
  {
    hide Decide, Aggregate, DenyEverything;
    var resource := MakeResource(env, o.bucket, key);
    EverythingForbidden(env, Query(o.access, action, resource));
    var ds := Decisions(env, DenyEverything(), o.access, resource, [action]);
    assert ds[0] == Deny;
    AggregateMeaning(ds, [action]);
  }

  /** Two objects the bucket policy denies: the batch lets the second through. */
  lemma SecondDeniedPasses(o: Opts)
    requires o.bucket == "b" && o.policy == Document(Some(DenyEverything()))
    ensures var env := Env((_, _) => Holds, (_, key) => key);
      var ts := [Target("x", "", NoRetention, NoHoldConfig), Target("y", "", NoRetention, NoHoldConfig)];
      && !Permitted(env, o, ts[0]) && !PassesPolicy(env, o, ts, 0)
      && !Permitted(env, o, ts[1]) && PassesPolicy(env, o, ts, 1)
  {
    var env := Env((_, _) => Holds, (_, key) => key);
    var ts := [Target("x", "", NoRetention, NoHoldConfig), Target("y", "", NoRetention, NoHoldConfig)];
    assert MakeResource(env, "b", "x") == "b/x" && MakeResource(env, "b", "y") == "b/y";
    DenyEverythingDenies(env, o, "s3:DeleteObject", "x");
    DenyEverythingDenies(env, o, "s3:DeleteObject", "y");
    FirstDeniedObjectIs(env, o, ts, false, 0);
  }
}
