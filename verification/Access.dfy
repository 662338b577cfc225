/** Combining the bucket's own decision with the caller's identity and session
    policies, for one key and for a batch of keys. */
module Access {
  import opened Text
  import opened Policy

  /** An IAM backend with identity policies.  Cell by cell, the matrices it returns
      hold its decision for one action on one resource.  `fails` means that the call
      returned an error or a matrix that does not fit the request. */
  datatype Evaluator = Evaluator(
    identity: (string, string) -> Decision,
    session: Option<(string, string) -> Decision>,
    principalArn: string,
    fails: bool)

  /** What reading the bucket policy gave: none stored, an error, or a document. */
  datatype PolicyRead = NoPolicy | ReadFailed | Document(doc: Option<BucketPolicy>)

  /** One caller and one bucket.  `aclAllows` is the verdict of verifyACL, and
      `evaluator` is None for IAM backends without identity policies. */
  datatype Opts = Opts(
    readonly: bool,
    isWrite: bool,
    isPublicRequest: bool,
    isRoot: bool,
    isAdmin: bool,
    access: string,
    bucket: string,
    aclAllows: bool,
    policy: PolicyRead,
    evaluator: Option<Evaluator>)

  datatype Denial =
    | AccessDenied
    | ObjectLocked
    | BackendError
    | ExplicitByResource(principal: string, action: string, arn: string)
    | ExplicitByIdentity(principal: string, action: string, arn: string)
    | Implicit(principal: string, action: string, arn: string)

  function Arn(env: Env, bucket: string, key: string): string {
    "arn:aws:s3:::" + MakeResource(env, bucket, key)
  }

  // ---------- one key ----------

  /** The bucket's decision: its policy or, absent one, its ACL.  None is a backend error. */
  function ResourceVerdict(env: Env, o: Opts, actions: seq<string>, key: string): (r: Option<Verdict>) {
    match o.policy
    case NoPolicy => Some(Verdict(if o.aclAllows then Allow else NoMatch, ""))
    case ReadFailed => None
    case Document(doc) => PolicyVerdict(env, doc, o.access, o.bucket, key, actions)
  }

  function Row(f: (string, string) -> Decision, actions: seq<string>, resource: string): (r: seq<Decision>)
    ensures |r| == |actions|
  {
    seq(|actions|, j requires 0 <= j < |actions| => f(actions[j], resource))
  }

  function RowVerdict(f: (string, string) -> Decision, actions: seq<string>, resource: string): Verdict {
    Aggregate(Row(f, actions, resource), actions)
  }

  /** The caller's identity decision; a backend without identity policies has no say. */
  function IdentityDecision(env: Env, o: Opts, actions: seq<string>, key: string): Decision {
    match o.evaluator
    case None => NoMatch
    case Some(e) => RowVerdict(e.identity, actions, Arn(env, o.bucket, key)).decision
  }

  /** The session policy's decision; without one nothing is taken away. */
  function SessionDecision(env: Env, o: Opts, actions: seq<string>, key: string): Decision {
    if o.evaluator.Some? && o.evaluator.value.session.Some?
    then RowVerdict(o.evaluator.value.session.value, actions, Arn(env, o.bucket, key)).decision
    else Allow
  }

  /** What the design asks: no source denies, the bucket or the identity allows, and
      the session policy, if any, allows. */
  predicate Grants(env: Env, o: Opts, actions: seq<string>, key: string) {
    var r := ResourceVerdict(env, o, actions, key);
    && r.Some? && r.value.decision != Deny
    && IdentityDecision(env, o, actions, key) != Deny
    && (r.value.decision == Allow || IdentityDecision(env, o, actions, key) == Allow)
    && SessionDecision(env, o, actions, key) == Allow
  }

  predicate Denied(env: Env, o: Opts, actions: seq<string>, key: string) {
    ResourceVerdict(env, o, actions, key).Some? && ResourceVerdict(env, o, actions, key).value.decision == Deny
  }

  // ---------- a batch of keys ----------

  method VerifyResourceAccess(env: Env, o: Opts, actions: seq<string>, keys: seq<string>)
    returns (r: Option<seq<Verdict>>)
    ensures r.None? <==>
      o.policy.ReadFailed? || exists i :: 0 <= i < |keys| && ResourceVerdict(env, o, actions, keys[i]).None?
    ensures r.Some? ==> |r.value| == |keys|
    ensures r.Some? ==> forall i :: 0 <= i < |keys| ==> ResourceVerdict(env, o, actions, keys[i]) == Some(r.value[i])
  {
    hide PolicyVerdict;
    match o.policy
    case ReadFailed => return None;
    case NoPolicy =>
      var v := Verdict(if o.aclAllows then Allow else NoMatch, "");
      return Some(seq(|keys|, _ => v));
    case Document(doc) =>
      var decisions := [];
      for i := 0 to |keys|
        invariant |decisions| == i
        invariant forall k :: 0 <= k < i ==> ResourceVerdict(env, o, actions, keys[k]) == Some(decisions[k])
      {
        var v := VerifyBucketPolicy(env, doc, o.access, o.bucket, keys[i], actions);
        if v.None? {
          assert ResourceVerdict(env, o, actions, keys[i]).None?;
          return None;
        }
        decisions := decisions + [v.value];
      }
      return Some(decisions);
  }

  /** identityPolicyDecisions for one of the two matrices. */
  method MatrixVerdicts(env: Env, o: Opts, f: (string, string) -> Decision, actions: seq<string>, keys: seq<string>)
    returns (r: seq<Verdict>)
    ensures |r| == |keys| && forall i :: 0 <= i < |keys| ==> r[i] == RowVerdict(f, actions, Arn(env, o.bucket, keys[i]))
  {
    var matrix := seq(|keys|, i requires 0 <= i < |keys| => Row(f, actions, Arn(env, o.bucket, keys[i])));
    var v := AggregateActionDecisions(matrix, |keys|, actions);
    r := v.value;
  }

  /** First key the bucket policy explicitly denies, or the number of keys. */
  function FirstDenied(env: Env, o: Opts, actions: seq<string>, keys: seq<string>): (r: nat)
    ensures r <= |keys| && (r < |keys| ==> Denied(env, o, actions, keys[r]))
    ensures forall j :: 0 <= j < r ==> !Denied(env, o, actions, keys[j])
  {
    First(keys, k => Denied(env, o, actions, k))
  }

  /** The batch as a whole fails: the policy cannot be read or parsed, or the IAM
      service fails when it is asked. */
  ghost predicate BatchFails(env: Env, o: Opts, actions: seq<string>, keys: seq<string>) {
    || o.policy.ReadFailed?
    || (exists i :: 0 <= i < |keys| && ResourceVerdict(env, o, actions, keys[i]).None?)
    || (FirstDenied(env, o, actions, keys) == |keys| && o.evaluator.Some? && o.evaluator.value.fails)
  }

  /** Entry i of the batch is nil: only the first key the bucket policy denies is
      recorded; without one, every key gets its own decision. */
  predicate EntryPasses(env: Env, o: Opts, actions: seq<string>, keys: seq<string>, i: nat)
    requires i < |keys|
  {
    var d := FirstDenied(env, o, actions, keys);
    if d < |keys| then i != d else Grants(env, o, actions, keys[i])
  }

  /** The body of the loop over the keys: one key's three verdicts. */
  function CombineDecisions(principal: string, arn: string, resource: Verdict, identity: Verdict, session: Verdict,
                            hasSession: bool): (r: Option<Denial>)
    requires resource.decision != Deny && (!hasSession ==> session.decision == Allow)
    ensures r.None? <==>
      identity.decision != Deny && session.decision == Allow &&
      (resource.decision == Allow || identity.decision == Allow)
  {
    if identity.decision == Deny then Some(ExplicitByIdentity(principal, identity.action, arn))
    else if hasSession && session.decision == Deny then Some(ExplicitByIdentity(principal, session.action, arn))
    else
      var granted := (resource.decision == Allow || identity.decision == Allow) &&
                     !(hasSession && session.decision != Allow);
      if granted then None
      else
        var blamed := if resource.action == "" then identity.action else resource.action;
        Some(Implicit(principal, if blamed == "" && hasSession then session.action else blamed, arn))
  }

  /** The denial a key draws when the bucket policy denies no key of the batch. */
  function KeyDenial(env: Env, o: Opts, actions: seq<string>, key: string): (r: Option<Denial>)
    requires ResourceVerdict(env, o, actions, key).Some? && !Denied(env, o, actions, key)
    ensures r.None? <==> Grants(env, o, actions, key)
  {
    var resource := ResourceVerdict(env, o, actions, key).value;
    match o.evaluator
    case None => if resource.decision == Allow then None else Some(AccessDenied)
    case Some(e) =>
      var arn := Arn(env, o.bucket, key);
      var session := if e.session.Some? then RowVerdict(e.session.value, actions, arn) else Verdict(Allow, "");
      CombineDecisions(if e.principalArn == "" then o.access else e.principalArn, arn, resource,
                       RowVerdict(e.identity, actions, arn), session, e.session.Some?)
  }

  /** Entry i of the batch. */
  function BatchEntry(env: Env, o: Opts, actions: seq<string>, keys: seq<string>, i: nat): (r: Option<Denial>)
    requires i < |keys| && forall j :: 0 <= j < |keys| ==> ResourceVerdict(env, o, actions, keys[j]).Some?
    ensures r.None? <==> EntryPasses(env, o, actions, keys, i)
  {
    var d := FirstDenied(env, o, actions, keys);
    if d == |keys| then KeyDenial(env, o, actions, keys[i])
    else if i == d then
      var v := ResourceVerdict(env, o, actions, keys[d]).value;
      Some(ExplicitByResource(o.access, v.action, Arn(env, o.bucket, keys[d])))
    else None
  }

  method ObjectsAccessErrors(env: Env, o: Opts, actions: seq<string>, keys: seq<string>)
    returns (r: Option<seq<Option<Denial>>>)
    ensures r.None? <==> BatchFails(env, o, actions, keys)
    ensures r.Some? ==> |r.value| == |keys|
    ensures r.Some? ==> forall i :: 0 <= i < |keys| ==> r.value[i] == BatchEntry(env, o, actions, keys, i)
  {
    hide ResourceVerdict, IdentityDecision, SessionDecision, RowVerdict, FirstDenied, Arn, CombineDecisions;
    hide Grants, EntryPasses;
    var rds := VerifyResourceAccess(env, o, actions, keys);
    if rds.None? {
      return None;
    }
    var decisions := rds.value;
    var errs := new Option<Denial>[|keys|](_ => None);
    for i := 0 to |keys|
      invariant forall j :: 0 <= j < |keys| ==> errs[j] == None
      invariant forall j :: 0 <= j < i ==> !Denied(env, o, actions, keys[j])
    {
      if decisions[i].decision == Deny {
        FirstDeniedIs(env, o, actions, keys, i);
        errs[i] := Some(ExplicitByResource(o.access, decisions[i].action, Arn(env, o.bucket, keys[i])));
        return Some(errs[..]);
      }
    }
    FirstDeniedIs(env, o, actions, keys, |keys|);
    match o.evaluator {
      case None =>
        for i := 0 to |keys|
          invariant forall j :: 0 <= j < i ==> errs[j] == KeyDenial(env, o, actions, keys[j])
          invariant forall j :: i <= j < |keys| ==> errs[j] == None
        {
          if decisions[i].decision != Allow {
            errs[i] := Some(AccessDenied);
          }
        }
        return Some(errs[..]);
      case Some(e) =>
        if e.fails {
          return None;
        }
        var identity := MatrixVerdicts(env, o, e.identity, actions, keys);
        var session: seq<Verdict> := seq(|keys|, _ => Verdict(Allow, ""));
        if e.session.Some? {
          session := MatrixVerdicts(env, o, e.session.value, actions, keys);
        }
        var principal := if e.principalArn == "" then o.access else e.principalArn;
        for i := 0 to |keys|
          invariant forall j :: 0 <= j < i ==> errs[j] == KeyDenial(env, o, actions, keys[j])
          invariant forall j :: i <= j < |keys| ==> errs[j] == None
        {
          var arn := Arn(env, o.bucket, keys[i]);
          errs[i] := CombineDecisions(principal, arn, decisions[i], identity[i], session[i], e.session.Some?);
        }
        return Some(errs[..]);
    }
  }

  lemma FirstDeniedIs(env: Env, o: Opts, actions: seq<string>, keys: seq<string>, i: nat)
    requires i <= |keys| && (i < |keys| ==> Denied(env, o, actions, keys[i]))
    requires forall j :: 0 <= j < i ==> !Denied(env, o, actions, keys[j])
    ensures FirstDenied(env, o, actions, keys) == i
  {
  }

  // ---------- VerifyAccess ----------

  predicate AuthorizationApplies(o: Opts) {
    !o.isPublicRequest && !o.isRoot && !o.isAdmin
  }

  /** The request fails before any decision: no document, or no IAM answer. */
  predicate CannotDecide(env: Env, o: Opts, actions: seq<string>, key: string) {
    || ResourceVerdict(env, o, actions, key).None?
    || (!Denied(env, o, actions, key) && o.evaluator.Some? && o.evaluator.value.fails)
  }

  method VerifyAccess(env: Env, o: Opts, actions: seq<string>, key: string) returns (err: Option<Denial>)
    ensures err.None? <==>
      !(o.readonly && o.isWrite) &&
      (o.isPublicRequest || o.isRoot || o.isAdmin ||
       (Grants(env, o, actions, key) && !(o.evaluator.Some? && o.evaluator.value.fails)))
  {
    if o.readonly && o.isWrite {
      return Some(AccessDenied);
    }
    if !AuthorizationApplies(o) {
      return None;
    }
    assert [key][0] == key;
    var errs := ObjectsAccessErrors(env, o, actions, [key]);
    OneKey(env, o, actions, key);
    if errs.None? {
      return Some(BackendError);
    }
    assert errs.value[0] == BatchEntry(env, o, actions, [key], 0);
    err := errs.value[0];
  }

  lemma OneKey(env: Env, o: Opts, actions: seq<string>, key: string)
    ensures BatchFails(env, o, actions, [key]) <==> CannotDecide(env, o, actions, key)
    ensures !BatchFails(env, o, actions, [key]) ==>
      (EntryPasses(env, o, actions, [key], 0) <==> Grants(env, o, actions, key))
  {
  }

  // ---------- what a grant means ----------

  /** What the bucket says about one action: its policy or, absent one, its ACL. */
  function BucketSays(env: Env, o: Opts, action: string, key: string): Decision
    requires Consultable(o)
  {
    match o.policy
    case NoPolicy => if o.aclAllows then Allow else NoMatch
    case Document(doc) => Decide(env, doc.value, Query(o.access, action, MakeResource(env, o.bucket, key)), false)
  }

  /** What the caller's identity policies say about one action. */
  function CallerSays(env: Env, o: Opts, action: string, key: string): Decision {
    if o.evaluator.None? then NoMatch
    else o.evaluator.value.identity(action, "arn:aws:s3:::" + MakeResource(env, o.bucket, key))
  }

  /** What the session policy says about one action, if there is one. */
  function SessionSays(env: Env, o: Opts, action: string, key: string): Decision {
    if o.evaluator.None? || o.evaluator.value.session.None? then Allow
    else o.evaluator.value.session.value(action, "arn:aws:s3:::" + MakeResource(env, o.bucket, key))
  }

  lemma ResourceMeans(env: Env, o: Opts, actions: seq<string>, key: string)
    requires actions != []
    ensures var r := ResourceVerdict(env, o, actions, key);
      && (r.Some? <==> o.policy.NoPolicy? || (o.policy.Document? && o.policy.doc.Some?))
      && (r.Some? ==> (r.value.decision == Deny <==> exists a :: a in actions && BucketSays(env, o, a, key) == Deny))
      && (r.Some? ==> (r.value.decision == Allow <==> forall a :: a in actions ==> BucketSays(env, o, a, key) == Allow))
  {
    assert actions[0] in actions;
    if o.policy.Document? && o.policy.doc.Some? {
      var bp, resource := o.policy.doc.value, MakeResource(env, o.bucket, key);
      AggregateMeaning(Decisions(env, bp, o.access, resource, actions), actions);
      DecisionsMembers(env, bp, o.access, resource, actions);
      hide Decide, Aggregate;
    }
  }

  lemma RowMeans(f: (string, string) -> Decision, actions: seq<string>, resource: string)
    ensures var d := RowVerdict(f, actions, resource).decision;
      && (d == Deny <==> exists a :: a in actions && f(a, resource) == Deny)
      && (d == Allow <==> forall a :: a in actions ==> f(a, resource) == Allow)
  {
    var row := Row(f, actions, resource);
    AggregateMeaning(row, actions);
    hide Aggregate;
    assert forall j :: 0 <= j < |actions| ==> row[j] == f(actions[j], resource) && actions[j] in actions;
    if a :| a in actions && f(a, resource) == Deny {
      var j :| 0 <= j < |actions| && actions[j] == a;
      assert row[j] == Deny;
    }
  }

  lemma CallerMeans(env: Env, o: Opts, actions: seq<string>, key: string)
    requires actions != []
    ensures IdentityDecision(env, o, actions, key) == Deny <==>
            exists a :: a in actions && CallerSays(env, o, a, key) == Deny
    ensures IdentityDecision(env, o, actions, key) == Allow <==>
            forall a :: a in actions ==> CallerSays(env, o, a, key) == Allow
    ensures SessionDecision(env, o, actions, key) == Allow <==>
            forall a :: a in actions ==> SessionSays(env, o, a, key) == Allow
  {
    assert actions[0] in actions;
    hide RowVerdict;
    if o.evaluator.Some? {
      var e, arn := o.evaluator.value, "arn:aws:s3:::" + MakeResource(env, o.bucket, key);
      RowMeans(e.identity, actions, arn);
      if e.session.Some? {
        RowMeans(e.session.value, actions, arn);
      }
    }
  }

  /** A grant, action by action: the bucket can be consulted, neither bucket nor caller
      denies any action, the session policy allows every one, and the bucket allows them
      all or the caller's identity policies do. */
  lemma GrantsMeaning(env: Env, o: Opts, actions: seq<string>, key: string)
    requires actions != []
    ensures Grants(env, o, actions, key) <==>
      && (o.policy.NoPolicy? || (o.policy.Document? && o.policy.doc.Some?))
      && (forall a :: a in actions ==>
            BucketSays(env, o, a, key) != Deny && CallerSays(env, o, a, key) != Deny &&
            SessionSays(env, o, a, key) == Allow)
      && ((forall a :: a in actions ==> BucketSays(env, o, a, key) == Allow) ||
          (forall a :: a in actions ==> CallerSays(env, o, a, key) == Allow))
  {
    ResourceMeans(env, o, actions, key);
    CallerMeans(env, o, actions, key);
    hide ResourceVerdict, IdentityDecision, SessionDecision, BucketSays, CallerSays, SessionSays;
  }

  /** The bucket has a policy that can be read, or none. */
  predicate Consultable(o: Opts) {
    o.policy.NoPolicy? || (o.policy.Document? && o.policy.doc.Some?)
  }

  function BucketVoice(env: Env, o: Opts, key: string): string -> Decision
    requires Consultable(o)
  {
    a => BucketSays(env, o, a, key)
  }

  function CallerVoice(env: Env, o: Opts, key: string): string -> Decision {
    a => CallerSays(env, o, a, key)
  }

  function SessionVoice(env: Env, o: Opts, key: string): string -> Decision {
    a => SessionSays(env, o, a, key)
  }

  /** `a` is the first action that gets answer d. */
  ghost predicate Blames(says: string -> Decision, actions: seq<string>, a: string, d: Decision) {
    exists i :: 0 <= i < |actions| && actions[i] == a && says(a) == d &&
                forall j :: 0 <= j < i ==> says(actions[j]) != d
  }

  /** Whom a denial by the caller's own policies names. */
  function PrincipalOf(o: Opts): string {
    if o.evaluator.None? || o.evaluator.value.principalArn == "" then o.access else o.evaluator.value.principalArn
  }

  /** A denial names the caller, the resource and the action that is to blame: for an
      explicit denial the first that the bucket policy, else the identity policies, else
      the session policy deny; for an implicit one the first that the bucket policy, else
      the identity policies, else the session policy have nothing to say about. */
  ghost predicate Truthful(env: Env, o: Opts, actions: seq<string>, key: string, denial: Option<Denial>)
    requires Consultable(o)
  {
    var arn := "arn:aws:s3:::" + MakeResource(env, o.bucket, key);
    var bucket, caller, session := BucketVoice(env, o, key), CallerVoice(env, o, key), SessionVoice(env, o, key);
    match denial
    case Some(ExplicitByResource(p, a, r)) => p == o.access && r == arn && Blames(bucket, actions, a, Deny)
    case Some(ExplicitByIdentity(p, a, r)) =>
      p == PrincipalOf(o) && r == arn &&
      Blames(if exists b :: b in actions && caller(b) == Deny then caller else session, actions, a, Deny)
    case Some(Implicit(p, a, r)) =>
      p == PrincipalOf(o) && r == arn &&
      Blames(if o.policy.Document? && (exists b :: b in actions && bucket(b) == NoMatch) then bucket
             else if exists b :: b in actions && caller(b) == NoMatch then caller
             else session, actions, a, NoMatch)
    case _ => true
  }

  /** A verdict on some actions, told by what is said about each. */
  ghost predicate Speaks(says: string -> Decision, actions: seq<string>, v: Verdict) {
    && (if v.decision == Allow then v.action == "" else Blames(says, actions, v.action, v.decision))
    && (v.decision == Deny <==> exists b :: b in actions && says(b) == Deny)
    && (v.decision == NoMatch ==> exists b :: b in actions && says(b) == NoMatch)
    && (v.decision == Allow ==> forall b :: b in actions ==> says(b) == Allow)
  }

  /** The action an aggregate names is the first that got its decision. */
  lemma VerdictBlames(says: string -> Decision, ds: seq<Decision>, actions: seq<string>)
    requires |ds| == |actions| && forall i :: 0 <= i < |ds| ==> ds[i] == says(actions[i])
    ensures Speaks(says, actions, Aggregate(ds, actions))
  {
    AggregateMeaning(ds, actions);
    hide Aggregate;
    var v := Aggregate(ds, actions);
    forall b | b in actions ensures says(b) in ds {
      var i :| 0 <= i < |actions| && actions[i] == b;
      assert ds[i] == says(b);
    }
    if v.decision != Allow {
      var i :| 0 <= i < |ds| && ds[i] == v.decision && v.action == actions[i] &&
               forall j :: 0 <= j < i ==> ds[j] != v.decision;
      assert actions[i] in actions;
    }
  }

  lemma ResourceSpeaks(env: Env, o: Opts, actions: seq<string>, key: string)
    requires actions != [] && o.policy.Document? && o.policy.doc.Some?
    ensures Speaks(BucketVoice(env, o, key), actions, ResourceVerdict(env, o, actions, key).value)
  {
    var ds := Decisions(env, o.policy.doc.value, o.access, MakeResource(env, o.bucket, key), actions);
    VerdictBlames(BucketVoice(env, o, key), ds, actions);
    hide Decide, Aggregate, Blames;
  }

  lemma CallerSpeaks(env: Env, o: Opts, e: Evaluator, actions: seq<string>, key: string)
    requires o.evaluator == Some(e)
    ensures Speaks(CallerVoice(env, o, key), actions, RowVerdict(e.identity, actions, Arn(env, o.bucket, key)))
    ensures e.session.Some? ==>
      Speaks(SessionVoice(env, o, key), actions, RowVerdict(e.session.value, actions, Arn(env, o.bucket, key)))
  {
    var arn := Arn(env, o.bucket, key);
    VerdictBlames(CallerVoice(env, o, key), Row(e.identity, actions, arn), actions);
    if e.session.Some? {
      VerdictBlames(SessionVoice(env, o, key), Row(e.session.value, actions, arn), actions);
    }
    hide Aggregate, Blames;
  }

  lemma CombineBlames(principal: string, arn: string, resource: Verdict, identity: Verdict, session: Verdict,
                      hasSession: bool)
    requires resource.decision != Deny && (!hasSession ==> session == Verdict(Allow, ""))
    ensures match CombineDecisions(principal, arn, resource, identity, session, hasSession)
      case None => true
      case Some(ExplicitByIdentity(p, a, r)) =>
        p == principal && r == arn &&
        (if identity.decision == Deny then a == identity.action else session == Verdict(Deny, a))
      case Some(Implicit(p, a, r)) =>
        p == principal && r == arn && identity.decision != Deny && session.decision != Deny &&
        ((resource.decision != Allow && identity.decision != Allow) || session.decision == NoMatch) &&
        a == (if resource.action != "" then resource.action
              else if identity.action != "" then identity.action
              else session.action)
      case Some(_) => false
  {
  }

  /** What the three verdicts blame, their combination blames. */
  lemma CombinedTruthful(env: Env, o: Opts, actions: seq<string>, key: string, resource: Verdict, identity: Verdict,
                         session: Verdict, hasSession: bool)
    requires Consultable(o) && "" !in actions && resource.decision != Deny
    requires if o.policy.Document? then Speaks(BucketVoice(env, o, key), actions, resource) else resource.action == ""
    requires Speaks(CallerVoice(env, o, key), actions, identity)
    requires if hasSession then Speaks(SessionVoice(env, o, key), actions, session) else session == Verdict(Allow, "")
    ensures Truthful(env, o, actions, key,
              CombineDecisions(PrincipalOf(o), Arn(env, o.bucket, key), resource, identity, session, hasSession))
  {
    CombineBlames(PrincipalOf(o), Arn(env, o.bucket, key), resource, identity, session, hasSession);
    hide BucketVoice, CallerVoice, SessionVoice, CombineDecisions, PrincipalOf, MakeResource;
    if identity.decision == NoMatch {
      assert identity.action in actions;
    }
    if o.policy.Document? && resource.decision == NoMatch {
      assert resource.action in actions;
    }
  }

  lemma KeyDenialBlames(env: Env, o: Opts, actions: seq<string>, key: string)
    requires actions != [] && "" !in actions && Consultable(o) && ResourceVerdict(env, o, actions, key).Some?
    requires !Denied(env, o, actions, key)
    ensures Truthful(env, o, actions, key, KeyDenial(env, o, actions, key))
  {
    assert o.policy.NoPolicy? ==> ResourceVerdict(env, o, actions, key).value.action == "";
    if o.policy.Document? {
      ResourceSpeaks(env, o, actions, key);
    }
    hide ResourceVerdict, RowVerdict, Speaks, Grants, CombineDecisions, Arn, Row;
    if o.evaluator.Some? {
      var e, arn := o.evaluator.value, Arn(env, o.bucket, key);
      CallerSpeaks(env, o, e, actions, key);
      var session := if e.session.Some? then RowVerdict(e.session.value, actions, arn) else Verdict(Allow, "");
      CombinedTruthful(env, o, actions, key, ResourceVerdict(env, o, actions, key).value,
                       RowVerdict(e.identity, actions, arn), session, e.session.Some?);
      hide Truthful;
    }
  }

  /** Every denial of a batch is truthful. */
  lemma DenialBlames(env: Env, o: Opts, actions: seq<string>, keys: seq<string>, i: nat)
    requires actions != [] && "" !in actions && i < |keys| && Consultable(o)
    requires forall j :: 0 <= j < |keys| ==> ResourceVerdict(env, o, actions, keys[j]).Some?
    ensures Truthful(env, o, actions, keys[i], BatchEntry(env, o, actions, keys, i))
  {
    if FirstDenied(env, o, actions, keys) == |keys| {
      KeyDenialBlames(env, o, actions, keys[i]);
      hide Truthful, KeyDenial;
    } else if i == FirstDenied(env, o, actions, keys) {
      ResourceSpeaks(env, o, actions, keys[i]);
      hide ResourceVerdict, BucketSays, Grants, EntryPasses, KeyDenial;
    }
  }

  /** A session policy only takes away: dropping it never loses a grant. */
  lemma SessionNarrows(env: Env, o: Opts, e: Evaluator, actions: seq<string>, key: string)
    requires o.evaluator == Some(e) && Grants(env, o, actions, key)
    ensures Grants(env, o.(evaluator := Some(e.(session := None))), actions, key)
  {
  }

  /** The batch decides every key like a request for that key alone. */
  ghost predicate DecidesAlike(env: Env, o: Opts, actions: seq<string>, keys: seq<string>) {
    forall i :: 0 <= i < |keys| ==> (EntryPasses(env, o, actions, keys, i) <==> Grants(env, o, actions, keys[i]))
  }

  /** A caller without a single identity grant: every action is denied. */
  function DenyAll(): Evaluator {
    Evaluator((_, _) => Deny, None, "", false)
  }

  lemma {:induction false} DenyAllDenies(env: Env, o: Opts, actions: seq<string>, key: string)
    requires actions != []
    ensures !Grants(env, o.(evaluator := Some(DenyAll())), actions, key)
  {
    var row := Row(DenyAll().identity, actions, Arn(env, o.bucket, key));
    assert row[0] == Deny;
    AggregateMeaning(row, actions);
  }

  /** Whatever the caller's own policies say, a batch decides every key like a request for
      that key alone exactly when the bucket policy denies none of several keys. */
  lemma BatchEqualsSingle(env: Env, o: Opts, actions: seq<string>, keys: seq<string>)
    ensures (forall e: Option<Evaluator> :: DecidesAlike(env, o.(evaluator := e), actions, keys)) <==>
            |keys| == 1 || FirstDenied(env, o, actions, keys) == |keys|
  {
    var d := FirstDenied(env, o, actions, keys);
    forall e: Option<Evaluator> ensures FirstDenied(env, o.(evaluator := e), actions, keys) == d {
      FirstDeniedIs(env, o.(evaluator := e), actions, keys, d);
    }
    if |keys| != 1 && d < |keys| {
      var i := if d == 0 then 1 else 0;
      DenyAllDenies(env, o, actions, keys[i]);
      assert !DecidesAlike(env, o.(evaluator := Some(DenyAll())), actions, keys);
    }
  }

  /** verifyIdentityOnlyAccess: requests that name no existing bucket are decided like
      requests on a bucket whose policy and ACL say nothing. */
  function IdentityOnlyDenial(env: Env, o: Opts, e: Evaluator, action: string, resource: string): (r: Option<Denial>)
    requires o.evaluator == Some(e)
    ensures r.None? <==>
      !e.fails && Grants(env, o.(bucket := resource, policy := NoPolicy, aclAllows := false), [action], "")
  {
    if e.fails then Some(BackendError)
    else
      var arn := "arn:aws:s3:::" + resource;
      var principal := if e.principalArn == "" then o.access else e.principalArn;
      var own := RowVerdict(e.identity, [action], arn).decision;
      var session := if e.session.Some? then RowVerdict(e.session.value, [action], arn).decision else Allow;
      var decision := if session == Deny then Deny
                      else if session != Allow && own == Allow then NoMatch
                      else own;
      match decision
      case Deny => Some(ExplicitByIdentity(principal, action, arn))
      case Allow => None
      case NoMatch => Some(Implicit(principal, action, arn))
  }
}
