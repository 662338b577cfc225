/** Bucket policies: which statements cover a request and what they decide. */
module Policy {
  import opened Text
  import Glob

  datatype Decision = NoMatch | Allow | Deny

  /** A stored document may hold an effect that is neither "Allow" nor "Deny". */
  datatype Effect = EffectAllow | EffectDeny | EffectOther

  /** Outcome of condition.Evaluate for one statement. */
  datatype Condition = Holds | DoesNotHold | Unevaluable

  datatype Statement = Statement(
    effect: Effect,
    principals: set<string>,
    actions: set<string>,
    resources: set<string>,
    condition: string)

  datatype BucketPolicy = BucketPolicy(version: string, statements: seq<Statement>)

  /** Code outside the model: condition evaluation against the request's context,
      and the backend's object key normaliser. */
  datatype Env = Env(
    evaluate: (string, string) -> Condition,
    normalize: (string, string) -> string)

  /** One request for one action on one resource. */
  datatype Query = Query(principal: string, action: string, resource: string)

  const ALL_ACTIONS := "s3:*"

  // ---------- the three parts of a statement ----------

  predicate Contains(principals: set<string>, access: string) {
    "*" in principals || access in principals
  }

  predicate IsPublic(principals: set<string>) {
    "*" in principals
  }

  /** Actions.FindMatch: two shortcuts, then a search with the greedy matcher. */
  predicate FindAction(actions: set<string>, action: string) {
    ALL_ACTIONS in actions || action in actions ||
    exists p :: p in actions && Glob.Greedy(p, action, true)
  }

  function MakeResource(env: Env, bucket: string, key: string): string {
    if key == "" then bucket else bucket + "/" + env.normalize(bucket, key)
  }

  /** normalizePolicyResource: the pattern's key part is normalised like a key. */
  function NormalizeResource(env: Env, resource: string): string {
    var i := Index(resource, "/");
    if i < 0 then resource
    else
      var bucket, key := resource[..i], resource[i + 1..];
      bucket + "/" + if key == "" then key else env.normalize(bucket, key)
  }

  predicate FindResource(env: Env, resources: set<string>, resource: string) {
    exists p :: p in resources && Glob.Greedy(NormalizeResource(env, p), resource, true)
  }

  /** Some pattern means the action. */
  ghost predicate SomePattern(actions: set<string>, action: string) {
    exists p :: p in actions && Glob.Matches(p, action, true)
  }

  lemma AllActionsMatches(action: string)
    ensures Glob.Matches(ALL_ACTIONS, action, true) <==> "s3:" <= action
  {
    assert ALL_ACTIONS == "s3:" + "*";
    if "s3:" <= action {
      Glob.AllMatch("*", action[3..], true);
      assert action == "s3:" + action[3..];
      Glob.LiteralPrefixMatches("s3:", "*", action[3..], true);
    }
    if Glob.Matches(ALL_ACTIONS, action, true) {
      LiteralPrefixNeeded("s3:", "*", action);
    }
  }

  lemma LiteralPrefixNeeded(a: string, p: string, s: string)
    requires '*' !in a && '?' !in a && Glob.Matches(a + p, s, true)
    ensures a <= s
    decreases |a|
  {
    if a != "" {
      assert (a + p)[1..] == a[1..] + p;
      LiteralPrefixNeeded(a[1..], p, s[1..]);
      assert s == [s[0]] + s[1..] && a == [a[0]] + a[1..];
    }
  }

  /** FindMatch never finds an s3 action that no pattern means. */
  lemma FindActionSound(actions: set<string>, action: string)
    requires "s3:" <= action && FindAction(actions, action)
    ensures SomePattern(actions, action)
  {
    if ALL_ACTIONS in actions {
      AllActionsMatches(action);
    } else if action in actions {
      Glob.SelfMatches(action, true);
    } else {
      var p :| p in actions && Glob.Greedy(p, action, true);
      Glob.GreedySound(p, action, true);
    }
  }

  /** The shortcuts agree with "some pattern means the action" for every action set,
      on exactly the actions that begin `s3:` and hold no star byte. */
  lemma FindActionExactIff(action: string)
    ensures (forall actions :: FindAction(actions, action) <==> SomePattern(actions, action)) <==>
            "s3:" <= action && '*' !in action
  {
    if '*' in action {
      var p := Glob.StarInputMissed(action);
      assert p != ALL_ACTIONS && p != action by {
        assert p[|action|] == '?';
      }
      assert p in {p} && SomePattern({p}, action);
      assert !FindAction({p}, action);
    } else if !("s3:" <= action) {
      AllActionsMatches(action);
      assert FindAction({ALL_ACTIONS}, action) && !SomePattern({ALL_ACTIONS}, action);
    } else {
      forall actions ensures FindAction(actions, action) <==> SomePattern(actions, action) {
        if FindAction(actions, action) {
          FindActionSound(actions, action);
        }
        if SomePattern(actions, action) {
          var p :| p in actions && Glob.Matches(p, action, true);
          Glob.GreedyExact(p, action, true);
        }
      }
    }
  }

  // ---------- decisions ----------

  /** findMatch / isPublicFor: a statement that covers the request is judged by its
      condition; one that does not is never evaluated. */
  function Judge(env: Env, version: string, st: Statement, covers: bool): Condition {
    if !covers then DoesNotHold else env.evaluate(st.condition, version)
  }

  predicate Covers(env: Env, st: Statement, q: Query) {
    Contains(st.principals, q.principal) && CoversAnyone(env, st, q)
  }

  predicate CoversAnyone(env: Env, st: Statement, q: Query) {
    FindAction(st.actions, q.action) && FindResource(env, st.resources, q.resource)
  }

  predicate CoversPublic(env: Env, st: Statement, q: Query) {
    IsPublic(st.principals) && CoversAnyone(env, st, q)
  }

  function FindMatch(env: Env, version: string, st: Statement, q: Query, public: bool): Condition {
    Judge(env, version, st, if public then CoversPublic(env, st, q) else Covers(env, st, q))
  }

  /** A statement that forces Deny: it matches with effect Deny, or cannot be evaluated. */
  predicate Forbids(env: Env, version: string, st: Statement, q: Query, public: bool) {
    var m := FindMatch(env, version, st, q, public);
    m.Unevaluable? || (m.Holds? && st.effect.EffectDeny?)
  }

  predicate Permits(env: Env, version: string, st: Statement, q: Query, public: bool) {
    FindMatch(env, version, st, q, public).Holds? && st.effect.EffectAllow?
  }

  /** The decision of a policy, whatever the order of its statements. */
  function Decide(env: Env, bp: BucketPolicy, q: Query, public: bool): (r: Decision) {
    if exists st :: st in bp.statements && Forbids(env, bp.version, st, q, public) then Deny
    else if exists st :: st in bp.statements && Permits(env, bp.version, st, q, public) then Allow
    else NoMatch
  }

  /** decisionFor and publicDecisionFor: one pass with early return. */
  method DecisionFor(env: Env, bp: BucketPolicy, q: Query, public: bool) returns (d: Decision)
    ensures d == Decide(env, bp, q, public)
  {
    hide FindMatch;
    var isAllowed := false;
    for i := 0 to |bp.statements|
      invariant forall j :: 0 <= j < i ==> !Forbids(env, bp.version, bp.statements[j], q, public)
      invariant isAllowed <==> exists j :: 0 <= j < i && Permits(env, bp.version, bp.statements[j], q, public)
    {
      var st := bp.statements[i];
      assert st in bp.statements;
      var m := FindMatch(env, bp.version, st, q, public);
      if m.Unevaluable? {
        return Deny;
      }
      if !m.Holds? {
        continue;
      }
      match st.effect
      case EffectAllow => isAllowed := true;
      case EffectDeny => return Deny;
      case EffectOther =>
    }
    d := if isAllowed then Allow else NoMatch;
  }

  /** Statement order does not matter. */
  lemma DecideOrderFree(env: Env, a: BucketPolicy, b: BucketPolicy, q: Query, public: bool)
    requires a.version == b.version && multiset(a.statements) == multiset(b.statements)
    ensures Decide(env, a, q, public) == Decide(env, b, q, public)
  {
    assert forall st :: st in a.statements <==> st in multiset(a.statements);
    assert forall st :: st in b.statements <==> st in multiset(b.statements);
  }

  /** Whom a statement is written for aside, a principal is never looked at. */
  lemma SameCover(env: Env, st: Statement, q: Query, access: string)
    ensures CoversAnyone(env, st, q) == CoversAnyone(env, st, q.(principal := access))
  {
  }

  /** A public decision depends on action, resource and conditions only. */
  lemma PublicIgnoresPrincipal(env: Env, bp: BucketPolicy, q: Query, access: string)
    ensures Decide(env, bp, q, true) == Decide(env, bp, q.(principal := access), true)
  {
    hide CoversAnyone;
    forall st ensures CoversAnyone(env, st, q) == CoversAnyone(env, st, q.(principal := access)) {
      SameCover(env, st, q, access);
    }
    forall st
      ensures Forbids(env, bp.version, st, q, true) == Forbids(env, bp.version, st, q.(principal := access), true)
      ensures Permits(env, bp.version, st, q, true) == Permits(env, bp.version, st, q.(principal := access), true)
    {
    }
  }

  /** A public Deny binds every principal, and a public Allow leaves no principal
      without a match. */
  lemma PublicBindsEveryone(env: Env, bp: BucketPolicy, q: Query)
    ensures Decide(env, bp, q, true).Deny? ==> Decide(env, bp, q, false).Deny?
    ensures Decide(env, bp, q, true).Allow? ==> !Decide(env, bp, q, false).NoMatch?
  {
  }

  // ---------- what a decision means ----------

  /** The statement speaks to this caller about this action and resource. */
  ghost predicate Concerns(env: Env, st: Statement, q: Query, public: bool) {
    && ("*" in st.principals || (!public && q.principal in st.principals))
    && (exists p :: p in st.actions && Glob.Matches(p, q.action, true))
    && (exists p :: p in st.resources && Glob.Matches(NormalizeResource(env, p), q.resource, true))
  }

  /** On actions and resources without star bytes, the matchers find what patterns mean. */
  lemma CoversMeans(env: Env, st: Statement, q: Query, public: bool)
    requires "s3:" <= q.action && '*' !in q.action && '*' !in q.resource
    ensures (if public then CoversPublic(env, st, q) else Covers(env, st, q)) <==> Concerns(env, st, q, public)
  {
    FindActionExactIff(q.action);
    assert FindAction(st.actions, q.action) <==> SomePattern(st.actions, q.action);
    hide FindAction, NormalizeResource;
    assert FindResource(env, st.resources, q.resource) <==>
           exists p :: p in st.resources && Glob.Matches(NormalizeResource(env, p), q.resource, true) by {
      forall p ensures Glob.Greedy(NormalizeResource(env, p), q.resource, true) <==>
                       Glob.Matches(NormalizeResource(env, p), q.resource, true) {
        Glob.GreedyExact(NormalizeResource(env, p), q.resource, true);
      }
    }
  }

  /** A decision in terms of principals, patterns and conditions: Deny exactly if some
      statement that concerns the request cannot be evaluated or denies, otherwise Allow
      exactly if some such statement allows. */
  lemma DecideMeaning(env: Env, bp: BucketPolicy, q: Query, public: bool)
    requires "s3:" <= q.action && '*' !in q.action && '*' !in q.resource
    ensures Decide(env, bp, q, public) == Deny <==>
      exists st :: st in bp.statements && Concerns(env, st, q, public) &&
        (env.evaluate(st.condition, bp.version) == Unevaluable ||
         (env.evaluate(st.condition, bp.version) == Holds && st.effect == EffectDeny))
    ensures Decide(env, bp, q, public) == Allow <==>
      Decide(env, bp, q, public) != Deny &&
      exists st :: st in bp.statements && Concerns(env, st, q, public) &&
        env.evaluate(st.condition, bp.version) == Holds && st.effect == EffectAllow
  {
    forall st ensures FindMatch(env, bp.version, st, q, public) ==
      if Concerns(env, st, q, public) then env.evaluate(st.condition, bp.version) else DoesNotHold
    {
      CoversMeans(env, st, q, public);
      hide Concerns, Covers, CoversPublic;
    }
    hide FindMatch, Concerns;
  }

  /** A policy says nothing to a caller whom no statement names. */
  lemma StrangerUnmatched(env: Env, bp: BucketPolicy, q: Query)
    requires forall st :: st in bp.statements ==> "*" !in st.principals && q.principal !in st.principals
    ensures Decide(env, bp, q, false) == NoMatch
  {
    forall st | st in bp.statements ensures FindMatch(env, bp.version, st, q, false) == DoesNotHold {
      assert !Covers(env, st, q);
    }
    hide FindMatch;
  }

  /** The name under which policies know an object, and the bucket itself. */
  lemma ResourceNames(env: Env, bucket: string, key: string)
    requires '/' !in bucket
    ensures MakeResource(env, bucket, "") == bucket == NormalizeResource(env, bucket)
    ensures key != "" ==>
      MakeResource(env, bucket, key) == bucket + "/" + env.normalize(bucket, key) ==
      NormalizeResource(env, bucket + "/" + key)
    ensures NormalizeResource(env, bucket + "/") == bucket + "/"
  {
    NoSlash(bucket);
    SlashAt(bucket, key);
    SlashAt(bucket, "");
    assert bucket + "/" + "" == bucket + "/";
  }

  lemma NoSlash(s: string)
    requires '/' !in s
    ensures Index(s, "/") == -1
  {
    forall j | 0 <= j < |s| ensures !OccursAt(s, "/", j) {
      assert s[j..j + 1][0] == s[j] && s[j] in s;
    }
  }

  lemma SlashAt(a: string, b: string)
    requires '/' !in a
    ensures var s := a + "/" + b; Index(s, "/") == |a| && s[..|a|] == a && s[|a| + 1..] == b
  {
    var s := a + "/" + b;
    forall j | 0 <= j < |a| ensures !OccursAt(s, "/", j) {
      assert s[j..j + 1][0] == a[j] && a[j] in a;
    }
    assert s[|a|..|a| + 1] == "/";
    assert OccursAt(s, "/", |a|);
  }

  // ---------- several actions ----------

  /** A decision and, unless it is Allow, the action it is blamed on. */
  datatype Verdict = Verdict(decision: Decision, action: string)

  function FirstOf(ds: seq<Decision>, x: Decision): (i: nat)
    ensures i <= |ds| && (i < |ds| ==> ds[i] == x)
    ensures forall j :: 0 <= j < i ==> ds[j] != x
  {
    First(ds, d => d == x)
  }

  /** Deny on any action wins, blamed on the first; else the first action without a
      match is blamed; else Allow. */
  function Aggregate(ds: seq<Decision>, actions: seq<string>): (r: Verdict)
    requires |ds| == |actions|
  {
    var deny, none := FirstOf(ds, Deny), FirstOf(ds, NoMatch);
    if deny < |ds| then Verdict(Deny, actions[deny])
    else if none < |ds| then Verdict(NoMatch, actions[none])
    else Verdict(Allow, "")
  }

  lemma FirstOfIs(ds: seq<Decision>, x: Decision, i: nat)
    requires i <= |ds| && (i < |ds| ==> ds[i] == x) && forall j :: 0 <= j < i ==> ds[j] != x
    ensures FirstOf(ds, x) == i
  {
  }

  lemma NothingAggregated()
    ensures Aggregate([], []) == Verdict(Allow, "")
  {
  }

  /** How one more action changes an aggregate that holds no Deny yet. */
  lemma AggregateStep(ds: seq<Decision>, actions: seq<string>, i: nat)
    requires i < |ds| == |actions| && Aggregate(ds[..i], actions[..i]).decision != Deny
    ensures var v := Aggregate(ds[..i], actions[..i]);
      if ds[i] == Deny then Aggregate(ds, actions) == Verdict(Deny, actions[i])
      else Aggregate(ds[..i + 1], actions[..i + 1]) ==
           if ds[i] == NoMatch && v.decision != NoMatch then Verdict(NoMatch, actions[i]) else v
  {
    var a, b := ds[..i], ds[..i + 1];
    assert b == a + [ds[i]] && forall j :: 0 <= j < i ==> a[j] == ds[j];
    FirstOfIs(b, Deny, if ds[i] == Deny then i else i + 1);
    var n := FirstOf(a, NoMatch);
    FirstOfIs(b, NoMatch, if n < i || ds[i] == NoMatch then n else i + 1);
    if ds[i] == Deny {
      FirstOfIs(ds, Deny, i);
    }
  }

  function Decisions(env: Env, bp: BucketPolicy, access: string, resource: string,
                     actions: seq<string>): (r: seq<Decision>)
    ensures |r| == |actions|
    ensures forall j :: 0 <= j < |r| ==> r[j] == Decide(env, bp, Query(access, actions[j], resource), false)
  {
    seq(|actions|, j requires 0 <= j < |actions| => Decide(env, bp, Query(access, actions[j], resource), false))
  }

  /** What verifyBucketPolicy returns: None when the stored document cannot be parsed. */
  function PolicyVerdict(env: Env, doc: Option<BucketPolicy>, access: string, bucket: string, key: string,
                         actions: seq<string>): (r: Option<Verdict>)
  {
    if actions == [] then Some(Verdict(NoMatch, ""))
    else match doc
      case None => None
      case Some(bp) => Some(Aggregate(Decisions(env, bp, access, MakeResource(env, bucket, key), actions), actions))
  }

  method VerifyBucketPolicy(env: Env, doc: Option<BucketPolicy>, access: string, bucket: string, key: string,
                            actions: seq<string>)
    returns (r: Option<Verdict>)
    ensures r == PolicyVerdict(env, doc, access, bucket, key, actions)
    ensures actions == [] ==> r == Some(Verdict(NoMatch, ""))
    ensures r.None? <==> actions != [] && doc.None?
  {
    if |actions| == 0 {
      return Some(Verdict(NoMatch, ""));
    }
    if doc.None? {
      return None;
    }
    var bp := doc.value;
    var resource := MakeResource(env, bucket, key);
    ghost var ds := Decisions(env, bp, access, resource, actions);
    hide Decide, Aggregate;
    NothingAggregated();
    var result, blamed := Allow, "";
    for i := 0 to |actions|
      invariant Verdict(result, blamed) == Aggregate(ds[..i], actions[..i]) && result != Deny
    {
      AggregateStep(ds, actions, i);
      var d := DecisionFor(env, bp, Query(access, actions[i], resource), false);
      match d
      case Deny =>
        return Some(Verdict(Deny, actions[i]));
      case NoMatch =>
        if result != NoMatch {
          result, blamed := NoMatch, actions[i];
        }
      case Allow =>
    }
    assert ds[..|actions|] == ds && actions[..|actions|] == actions;
    r := Some(Verdict(result, blamed));
  }

  /** aggregateActionDecisions: a matrix with one row per resource; None when its
      shape does not fit the request. */
  method AggregateActionDecisions(matrix: seq<seq<Decision>>, resources: nat, actions: seq<string>)
    returns (r: Option<seq<Verdict>>)
    ensures r.Some? <==> |matrix| == resources && forall i :: 0 <= i < |matrix| ==> |matrix[i]| == |actions|
    ensures r.Some? ==> |r.value| == resources
    ensures r.Some? ==> forall i :: 0 <= i < resources ==> r.value[i] == Aggregate(matrix[i], actions)
  {
    if |matrix| != resources {
      return None;
    }
    var results := [];
    for i := 0 to |matrix|
      invariant |results| == i
      invariant forall k :: 0 <= k < i ==> |matrix[k]| == |actions| && results[k] == Aggregate(matrix[k], actions)
    {
      if |matrix[i]| != |actions| {
        return None;
      }
      var v := AggregateRow(matrix[i], actions);
      results := results + [v];
    }
    r := Some(results);
  }

  method AggregateRow(row: seq<Decision>, actions: seq<string>) returns (v: Verdict)
    requires |row| == |actions|
    ensures v == Aggregate(row, actions)
  {
    hide Aggregate;
    NothingAggregated();
    v := Verdict(Allow, "");
    for j := 0 to |row|
      invariant v == Aggregate(row[..j], actions[..j]) && v.decision != Deny
    {
      AggregateStep(row, actions, j);
      if row[j] == Deny {
        return Verdict(Deny, actions[j]);
      }
      if row[j] == NoMatch && v.decision != NoMatch {
        v := Verdict(NoMatch, actions[j]);
      }
    }
    assert row[..|row|] == row && actions[..|row|] == actions;
  }

  /** The two aggregating loops side by side: fed with the same decisions they name the
      same decision and the same action on every non-empty action list, and only there. */
  method AggregationsAgree(env: Env, bp: BucketPolicy, access: string, bucket: string, key: string,
                           actions: seq<string>)
    returns (bucketVerdict: Option<Verdict>, rowVerdict: Verdict)
    ensures bucketVerdict == Some(rowVerdict) <==> actions != []
    ensures bucketVerdict.Some? && (bucketVerdict.value.decision == Deny <==>
      exists a :: a in actions && Decide(env, bp, Query(access, a, MakeResource(env, bucket, key)), false) == Deny)
    ensures rowVerdict.decision == Allow <==>
      forall a :: a in actions ==> Decide(env, bp, Query(access, a, MakeResource(env, bucket, key)), false) == Allow
  {
    hide Decide, Aggregate;
    NothingAggregated();
    var resource := MakeResource(env, bucket, key);
    bucketVerdict := VerifyBucketPolicy(env, Some(bp), access, bucket, key, actions);
    var row := [];
    for i := 0 to |actions|
      invariant row == Decisions(env, bp, access, resource, actions[..i])
    {
      var d := DecisionFor(env, bp, Query(access, actions[i], resource), false);
      row := row + [d];
    }
    assert actions[..|actions|] == actions;
    rowVerdict := AggregateRow(row, actions);
    AggregateMeaning(row, actions);
    DecisionsMembers(env, bp, access, resource, actions);
  }

  lemma DecisionsMembers(env: Env, bp: BucketPolicy, access: string, resource: string, actions: seq<string>)
    ensures var ds := Decisions(env, bp, access, resource, actions);
      && (Deny in ds <==> exists a :: a in actions && Decide(env, bp, Query(access, a, resource), false) == Deny)
      && ((forall j :: 0 <= j < |ds| ==> ds[j] == Allow) <==>
          forall a :: a in actions ==> Decide(env, bp, Query(access, a, resource), false) == Allow)
  {
    hide Decide;
    var ds := Decisions(env, bp, access, resource, actions);
    if a :| a in actions && Decide(env, bp, Query(access, a, resource), false) == Deny {
      var j :| 0 <= j < |actions| && actions[j] == a;
      assert ds[j] == Deny;
    }
    assert forall j :: 0 <= j < |actions| ==> actions[j] in actions;
  }

  /** What an aggregated decision says about the single actions. */
  lemma AggregateMeaning(ds: seq<Decision>, actions: seq<string>)
    requires |ds| == |actions|
    ensures Aggregate(ds, actions).decision == Deny <==> Deny in ds
    ensures Aggregate(ds, actions).decision == Allow <==> forall j :: 0 <= j < |ds| ==> ds[j] == Allow
    ensures Aggregate(ds, actions).decision == NoMatch <==> Deny !in ds && NoMatch in ds
    ensures var v := Aggregate(ds, actions);
      if v.decision == Allow then v.action == ""
      else exists i :: 0 <= i < |ds| && ds[i] == v.decision && v.action == actions[i] &&
                       forall j :: 0 <= j < i ==> ds[j] != v.decision
  {
    forall j | 0 <= j < |ds| ensures ds[j] == Allow || ds[j] == Deny || ds[j] == NoMatch {
    }
  }
}
