/** The account cache in front of the internal IAM service. */
module IamCache {
  import opened Text

  datatype Account = Account(access: string, secret: string, role: string, userID: int, groupID: int, projectID: int)

  datatype MutableProps = MutableProps(
    secret: Option<string>,
    role: string,
    userID: Option<int>,
    groupID: Option<int>,
    projectID: Option<int>)

  datatype Item = Item(value: Account, exp: int)

  function Pick<T>(o: Option<T>, old': T): T {
    if o.Some? then o.value else old'
  }

  function UpdateAcc(acc: Account, props: MutableProps): Account {
    acc.(secret := Pick(props.secret, acc.secret),
         groupID := Pick(props.groupID, acc.groupID),
         userID := Pick(props.userID, acc.userID),
         projectID := Pick(props.projectID, acc.projectID),
         role := if props.role != "" then props.role else acc.role)
  }

  /** An update sets exactly the fields it names, and never changes the key. */
  lemma UpdateFields(acc: Account, p: MutableProps)
    ensures var r := UpdateAcc(acc, p);
      && r.access == acc.access
      && (p.secret.Some? ==> r.secret == p.secret.value) && (p.secret.None? ==> r.secret == acc.secret)
      && (p.role != "" ==> r.role == p.role) && (p.role == "" ==> r.role == acc.role)
      && (p.userID.Some? ==> r.userID == p.userID.value) && (p.userID.None? ==> r.userID == acc.userID)
      && (p.groupID.Some? ==> r.groupID == p.groupID.value) && (p.groupID.None? ==> r.groupID == acc.groupID)
      && (p.projectID.Some? ==> r.projectID == p.projectID.value)
      && (p.projectID.None? ==> r.projectID == acc.projectID)
    ensures UpdateAcc(UpdateAcc(acc, p), p) == UpdateAcc(acc, p)
  {
  }

  // ---------- what a call does, on values ----------

  /** Stored accounts and cached items. */
  datatype State = State(accounts: map<string, Account>, items: map<string, Item>)

  /** What the uncached service answers. */
  function Lookup(root: Account, accounts: map<string, Account>, access: string): (r: Option<Account>) {
    if access == root.access then Some(root)
    else if access in accounts then Some(accounts[access])
    else None
  }

  predicate Live(items: map<string, Item>, k: string, now: int) {
    k in items && items[k].exp > now
  }

  function CachedGet(items: map<string, Item>, k: string, now: int): Option<Account> {
    if Live(items, k, now) then Some(items[k].value) else None
  }

  function Prune(items: map<string, Item>, now: int): map<string, Item> {
    map k | k in items && !(now > items[k].exp) :: items[k]
  }

  datatype Op =
    | Create(account: Account)
    | Get(access: string)
    | Update(access: string, props: MutableProps)
    | Delete(access: string)
    | Collect

  predicate Creatable(root: Account, accounts: map<string, Account>, account: Account) {
    account.access != root.access && account.access !in accounts
  }

  /** CreateAccount caches only these three fields. */
  function Stub(a: Account): Account {
    Account(a.access, a.secret, a.role, 0, 0, 0)
  }

  function Next(root: Account, expire: int, s: State, op: Op, now: int): (r: State) {
    match op
    case Create(a) =>
      if !Creatable(root, s.accounts, a) then s
      else State(s.accounts[a.access := a], s.items[a.access := Item(Stub(a), now + expire)])
    case Get(k) =>
      if Live(s.items, k, now) || Lookup(root, s.accounts, k).None? then s
      else s.(items := s.items[k := Item(Lookup(root, s.accounts, k).value, now + expire)])
    case Update(k, props) =>
      if k !in s.accounts then s
      else State(s.accounts[k := UpdateAcc(s.accounts[k], props)],
                 if k in s.items then s.items[k := Item(UpdateAcc(s.items[k].value, props), now + expire)] else s.items)
    case Delete(k) => State(s.accounts - {k}, s.items - {k})
    case Collect => s.(items := Prune(s.items, now))
  }

  /** A run of calls, each with the time at which it happens. */
  function Run(root: Account, expire: int, s: State, ops: seq<(Op, int)>): (r: State)
    decreases |ops|
  {
    if ops == [] then s else Run(root, expire, Next(root, expire, s, ops[0].0, ops[0].1), ops[1..])
  }

  lemma RunCons(root: Account, expire: int, s: State, first: (Op, int), ops: seq<(Op, int)>)
    ensures Run(root, expire, s, [first] + ops) == Run(root, expire, Next(root, expire, s, first.0, first.1), ops)
  {
    assert ([first] + ops)[1..] == ops;
  }

  /** The answer of the cached GetUserAccount. */
  function Answer(root: Account, s: State, k: string, now: int): Option<Account> {
    if Live(s.items, k, now) then Some(s.items[k].value) else Lookup(root, s.accounts, k)
  }

  // ---------- coherence ----------

  predicate Agree(a: Account, b: Account) {
    a.access == b.access && a.secret == b.secret && a.role == b.role
  }

  /** Every cached entry, expired or not, agrees with the service. */
  ghost predicate Coherent(root: Account, s: State) {
    forall k :: k in s.items ==>
      Lookup(root, s.accounts, k).Some? && Agree(s.items[k].value, Lookup(root, s.accounts, k).value)
  }

  lemma NextCoherent(root: Account, expire: int, s: State, op: Op, now: int)
    requires Coherent(root, s) && root.access !in s.accounts
    ensures Coherent(root, Next(root, expire, s, op, now)) && root.access !in Next(root, expire, s, op, now).accounts
  {
  }

  /** Coherence lasts through every run of calls and prunings. */
  lemma {:induction false} RunCoherent(root: Account, expire: int, s: State, ops: seq<(Op, int)>)
    requires Coherent(root, s) && root.access !in s.accounts
    ensures Coherent(root, Run(root, expire, s, ops)) && root.access !in Run(root, expire, s, ops).accounts
    decreases |ops|
  {
    if ops != [] {
      NextCoherent(root, expire, s, ops[0].0, ops[0].1);
      RunCoherent(root, expire, Next(root, expire, s, ops[0].0, ops[0].1), ops[1..]);
    }
  }

  ghost predicate AlwaysCoherent(root: Account, expire: int, s: State) {
    forall ops :: Coherent(root, Run(root, expire, s, ops))
  }

  /** Starting with an empty cache, every run stays coherent exactly when the stored
      accounts do not contain the root account's own key. */
  lemma CoherentIff(root: Account, expire: int, accounts: map<string, Account>)
    ensures AlwaysCoherent(root, expire, State(accounts, map[])) <==> root.access !in accounts
  {
    var s := State(accounts, map[]);
    if root.access in accounts {
      var rename := MutableProps(Some(root.secret + "x"), "", None, None, None);
      var ops: seq<(Op, int)> := [(Get(root.access), 0), (Update(root.access, rename), 0)];
      var s1 := Next(root, expire, s, Get(root.access), 0);
      var s2 := Next(root, expire, s1, Update(root.access, rename), 0);
      var rest := ops[1..];
      assert rest[0] == ops[1];
      assert Run(root, expire, s, ops) == Run(root, expire, s1, rest) == Run(root, expire, s2, rest[1..]) == s2;
      assert s2.items[root.access].value.secret == root.secret + "x";
      assert |root.secret + "x"| != |root.secret|;
      assert !Coherent(root, Run(root, expire, s, ops));
    } else {
      forall ops: seq<(Op, int)> ensures Coherent(root, Run(root, expire, s, ops)) {
        RunCoherent(root, expire, s, ops);
      }
    }
  }

  /** In every reachable state the cached answer agrees with the uncached one on
      access key, secret and role, and on whether the account exists. */
  lemma AnswerAgrees(root: Account, expire: int, accounts: map<string, Account>, ops: seq<(Op, int)>, k: string,
                     now: int)
    requires root.access !in accounts
    ensures var s := Run(root, expire, State(accounts, map[]), ops);
      var cached, stored := Answer(root, s, k, now), Lookup(root, s.accounts, k);
      (cached.Some? <==> stored.Some?) && (cached.Some? ==> Agree(cached.value, stored.value))
  {
    RunCoherent(root, expire, State(accounts, map[]), ops);
  }

  /** A created account is answered without its ids until the entry expires, and from that
      very moment on as it was created. */
  lemma StubShows(root: Account, expire: int, s: State, a: Account, now: int, later: int)
    requires Creatable(root, s.accounts, a)
    ensures var s' := Next(root, expire, s, Create(a), now);
      && Answer(root, s', a.access, later) ==
         Some(if later < now + expire then Account(a.access, a.secret, a.role, 0, 0, 0) else a)
      && Lookup(root, s'.accounts, a.access) == Some(a)
  {
  }

  /** An account looked up past the cache is answered from it for as long as entries live,
      whatever becomes of the stored account, and not a moment longer. */
  lemma LookupLives(root: Account, expire: int, s: State, k: string, now: int, later: int,
                    changed: map<string, Account>)
    requires (k == root.access || k in s.accounts) && (k in s.items ==> s.items[k].exp <= now)
    ensures var s' := Next(root, expire, s, Get(k), now).(accounts := changed);
      Answer(root, s', k, later) ==
      if later < now + expire then Some(if k == root.access then root else s.accounts[k])
      else Lookup(root, changed, k)
  {
  }

  // ---------- the store under the cache ----------

  /** What the service's own contracts make of its accounts, call by call. */
  function Store(root: Account, accounts: map<string, Account>, ops: seq<(Op, int)>): (r: map<string, Account>)
    decreases |ops|
  {
    if ops == [] then accounts
    else
      var next :=
        match ops[0].0
        case Create(a) =>
          if a.access == root.access || a.access in accounts then accounts else accounts[a.access := a]
        case Update(k, p) => if k in accounts then accounts[k := UpdateAcc(accounts[k], p)] else accounts
        case Delete(k) => accounts - {k}
        case _ => accounts;
      Store(root, next, ops[1..])
  }

  /** Whatever is cached, every run leaves the accounts that the same creates, updates and
      deletes leave in a service without a cache. */
  lemma {:induction false} StoreRefined(root: Account, expire: int, s: State, ops: seq<(Op, int)>)
    ensures Run(root, expire, s, ops).accounts == Store(root, s.accounts, ops)
    decreases |ops|
  {
    if ops != [] {
      StoreRefined(root, expire, Next(root, expire, s, ops[0].0, ops[0].1), ops[1..]);
    }
  }

  lemma {:induction false} AbsentStays(root: Account, expire: int, s: State, k: string, ops: seq<(Op, int)>)
    requires k != root.access && k !in s.accounts && k !in s.items
    requires forall i :: 0 <= i < |ops| && ops[i].0.Create? ==> ops[i].0.account.access != k
    ensures k !in Run(root, expire, s, ops).accounts && k !in Run(root, expire, s, ops).items
    decreases |ops|
  {
    if ops != [] {
      AbsentStays(root, expire, Next(root, expire, s, ops[0].0, ops[0].1), k, ops[1..]);
    }
  }

  /** A deleted account is gone at once and until it is created again. */
  lemma DeletedStays(root: Account, expire: int, s: State, k: string, now: int, ops: seq<(Op, int)>, later: int)
    requires k != root.access
    requires forall i :: 0 <= i < |ops| && ops[i].0.Create? ==> ops[i].0.account.access != k
    ensures Answer(root, Run(root, expire, Next(root, expire, s, Delete(k), now), ops), k, later) == None
  {
    AbsentStays(root, expire, Next(root, expire, s, Delete(k), now), k, ops);
  }

  /** The entry holds the whole account the service would answer. */
  predicate Exact(root: Account, s: State, k: string) {
    k in s.items ==> Lookup(root, s.accounts, k) == Some(s.items[k].value)
  }

  ghost predicate AllExact(root: Account, s: State) {
    root.access !in s.accounts && forall k :: Exact(root, s, k)
  }

  lemma ExactStep(root: Account, expire: int, s: State, op: Op, now: int)
    requires AllExact(root, s) && (op.Create? ==> Stub(op.account) == op.account)
    ensures AllExact(root, Next(root, expire, s, op, now))
  {
    forall k ensures Exact(root, Next(root, expire, s, op, now), k) {
      assert Exact(root, s, k);
    }
  }

  /** As long as accounts are created without ids the cache cannot be noticed: every run
      answers every lookup like the service itself. */
  lemma {:induction false} CacheTransparent(root: Account, expire: int, s: State, ops: seq<(Op, int)>, k: string,
                                            now: int)
    requires AllExact(root, s)
    requires forall i :: 0 <= i < |ops| && ops[i].0.Create? ==> Stub(ops[i].0.account) == ops[i].0.account
    ensures var end := Run(root, expire, s, ops); Answer(root, end, k, now) == Lookup(root, end.accounts, k)
    decreases |ops|
  {
    if ops == [] {
      assert Exact(root, s, k);
    } else {
      ExactStep(root, expire, s, ops[0].0, ops[0].1);
      CacheTransparent(root, expire, Next(root, expire, s, ops[0].0, ops[0].1), ops[1..], k, now);
    }
  }

  // ---------- pruning ----------

  /** A lookup that follows a pruning directly cannot tell that it happened. */
  lemma PruneInvisible(items: map<string, Item>, k: string, now: int, later: int)
    requires now <= later
    ensures CachedGet(Prune(items, now), k, later) == CachedGet(items, k, later)
  {
  }

  function WithoutCollects(ops: seq<(Op, int)>): (r: seq<(Op, int)>) {
    if ops == [] then []
    else if ops[0].0.Collect? then WithoutCollects(ops[1..])
    else [ops[0]] + WithoutCollects(ops[1..])
  }

  /** What a call stores does not depend on what is cached. */
  lemma {:induction false} StoreIgnoresCache(root: Account, expire: int, s: State, s': State, ops: seq<(Op, int)>)
    requires s.accounts == s'.accounts
    ensures Run(root, expire, s, ops).accounts == Run(root, expire, s', WithoutCollects(ops)).accounts
    decreases |ops|
  {
    if ops != [] {
      var next := Next(root, expire, s, ops[0].0, ops[0].1);
      if ops[0].0.Collect? {
        StoreIgnoresCache(root, expire, next, s', ops[1..]);
      } else {
        var rest := WithoutCollects(ops[1..]);
        assert ([ops[0]] + rest)[1..] == rest;
        StoreIgnoresCache(root, expire, next, Next(root, expire, s', ops[0].0, ops[0].1), ops[1..]);
      }
    }
  }

  /** Whenever and however often entries are pruned, every answer agrees on existence,
      access key, secret and role. */
  lemma PruningAgrees(root: Account, expire: int, accounts: map<string, Account>,
                      a: seq<(Op, int)>, b: seq<(Op, int)>, k: string, now: int)
    requires root.access !in accounts && WithoutCollects(a) == WithoutCollects(b)
    ensures var s := State(accounts, map[]);
      var x := Answer(root, Run(root, expire, s, a), k, now);
      var y := Answer(root, Run(root, expire, s, b), k, now);
      (x.Some? <==> y.Some?) && (x.Some? ==> Agree(x.value, y.value))
  {
    var s := State(accounts, map[]);
    StoreIgnoresCache(root, expire, s, s, a);
    StoreIgnoresCache(root, expire, s, s, b);
    AnswerAgrees(root, expire, accounts, a, k, now);
    AnswerAgrees(root, expire, accounts, b, k, now);
  }

  /** The calls happen at or after `from`, none before the one it follows, and the last
      at or before `to`. */
  predicate Timed(ops: seq<(Op, int)>, from: int, to: int)
    decreases |ops|
  {
    if ops == [] then from <= to else from <= ops[0].1 && Timed(ops[1..], ops[0].1, to)
  }

  /** Nothing asked after `now` is answered differently once expired entries are pruned. */
  ghost predicate NeverTold(root: Account, expire: int, s: State, now: int) {
    forall ops, k, later :: Timed(ops, now, later) ==>
      Answer(root, Run(root, expire, Next(root, expire, s, Collect, now), ops), k, later) ==
      Answer(root, Run(root, expire, s, ops), k, later)
  }

  /** An expired entry that an update would bring back although it is not the stored account. */
  predicate Revivable(s: State, k: string, now: int) {
    k in s.items && k in s.accounts && now > s.items[k].exp && s.items[k].value != s.accounts[k]
  }

  /** From time `now` on nobody can tell the two caches apart by asking for key k. */
  predicate Alike(root: Account, expire: int, s: State, p: State, k: string, now: int) {
    || ((k in s.items <==> k in p.items) && (k in s.items ==> s.items[k] == p.items[k]))
    || (Exact(root, s, k) && Exact(root, p, k))
    || (k in s.items && k !in p.items && s.items[k].exp <= now && (expire <= 0 || k == root.access))
  }

  ghost predicate AllAlike(root: Account, expire: int, s: State, p: State, now: int) {
    s.accounts == p.accounts && root.access !in s.accounts && forall k :: Alike(root, expire, s, p, k, now)
  }

  lemma AlikeStep(root: Account, expire: int, s: State, p: State, op: Op, now: int, at: int)
    requires AllAlike(root, expire, s, p, now) && now <= at
    ensures AllAlike(root, expire, Next(root, expire, s, op, at), Next(root, expire, p, op, at), at)
  {
    var s', p' := Next(root, expire, s, op, at), Next(root, expire, p, op, at);
    forall k ensures Alike(root, expire, s', p', k, at) {
      assert Alike(root, expire, s, p, k, now);
    }
  }

  lemma {:induction false} AlikeRun(root: Account, expire: int, s: State, p: State, ops: seq<(Op, int)>, now: int,
                                    k: string, later: int)
    requires AllAlike(root, expire, s, p, now) && Timed(ops, now, later)
    ensures Answer(root, Run(root, expire, p, ops), k, later) == Answer(root, Run(root, expire, s, ops), k, later)
    decreases |ops|
  {
    if ops == [] {
      assert Alike(root, expire, s, p, k, now);
    } else {
      AlikeStep(root, expire, s, p, ops[0].0, now, ops[0].1);
      AlikeRun(root, expire, Next(root, expire, s, ops[0].0, ops[0].1), Next(root, expire, p, ops[0].0, ops[0].1),
               ops[1..], ops[0].1, k, later);
    }
  }

  /** In a coherent state pruning stays unseen through every continuation exactly if no
      expired entry differs from the stored account, or entries never live at all. */
  lemma PruningUnseenIff(root: Account, expire: int, s: State, now: int)
    requires Coherent(root, s) && root.access !in s.accounts
    ensures NeverTold(root, expire, s, now) <==> expire <= 0 || forall k :: !Revivable(s, k, now)
  {
    var p := Next(root, expire, s, Collect, now);
    if k :| expire > 0 && Revivable(s, k, now) {
      var nothing := MutableProps(None, "", None, None, None);
      var ops: seq<(Op, int)> := [(Update(k, nothing), now)];
      assert ops[1..] == [];
      assert Timed(ops, now, now);
      assert Answer(root, Run(root, expire, s, ops), k, now) == Some(s.items[k].value);
      assert Answer(root, Run(root, expire, p, ops), k, now) == Some(s.accounts[k]);
    } else {
      forall k ensures Alike(root, expire, s, p, k, now) {
        assert !Revivable(s, k, now) || expire <= 0;
      }
      forall ops, k, later | Timed(ops, now, later)
        ensures Answer(root, Run(root, expire, p, ops), k, later) == Answer(root, Run(root, expire, s, ops), k, later)
      {
        AlikeRun(root, expire, s, p, ops, now, k, later);
      }
    }
  }

  /** An account with a nonzero id, created, left to expire and then updated: whether the
      entry was pruned in between decides which id a lookup shows. */
  lemma PruningShows(root: Account)
    requires root.access != "k"
    ensures var s := State(map[], map[]);
      var create := (Create(Account("k", "old", "user", 5, 0, 0)), 0);
      var update := (Update("k", MutableProps(Some("new"), "", None, None, None)), 20);
      Answer(root, Run(root, 10, s, [create, update]), "k", 21) == Some(Account("k", "new", "user", 0, 0, 0)) &&
      Answer(root, Run(root, 10, s, [create, (Collect, 20), update]), "k", 21) ==
      Some(Account("k", "new", "user", 5, 0, 0))
  {
    var s := State(map[], map[]);
    var a := Account("k", "old", "user", 5, 0, 0);
    var props := MutableProps(Some("new"), "", None, None, None);
    var create, update := (Create(a), 0), (Update("k", props), 20);
    var s1 := Next(root, 10, s, Create(a), 0);
    RunCons(root, 10, s, create, [update]);
    RunCons(root, 10, s1, update, []);
    assert [create] + [update] == [create, update] && [update] + [] == [update];
    RunCons(root, 10, s, create, [(Collect, 20), update]);
    RunCons(root, 10, s1, (Collect, 20), [update]);
    RunCons(root, 10, Next(root, 10, s1, Collect, 20), update, []);
    assert [create] + [(Collect, 20), update] == [create, (Collect, 20), update];
    assert [(Collect, 20)] + [update] == [(Collect, 20), update];
  }

  // ---------- the service and the cache as objects ----------

  /** IAMServiceInternal over a store that always reads and writes successfully. */
  class Service {
    const root: Account
    var accounts: map<string, Account>

    constructor (root: Account)
      ensures this.root == root && accounts == map[]
    {
      this.root := root;
      accounts := map[];
    }

    method CreateAccount(account: Account) returns (ok: bool)
      modifies this
      ensures ok <==> Creatable(root, old(accounts), account)
      ensures accounts == if ok then old(accounts)[account.access := account] else old(accounts)
    {
      if account.access == root.access || account.access in accounts {
        return false;
      }
      accounts := accounts[account.access := account];
      return true;
    }

    method GetUserAccount(access: string) returns (r: Option<Account>)
      ensures r == Lookup(root, accounts, access)
    {
      if access == root.access {
        return Some(root);
      }
      if access !in accounts {
        return None;
      }
      return Some(accounts[access]);
    }

    method UpdateUserAccount(access: string, props: MutableProps) returns (ok: bool)
      modifies this
      ensures ok <==> access in old(accounts)
      ensures accounts == if ok then old(accounts)[access := UpdateAcc(old(accounts)[access], props)] else old(accounts)
    {
      if access !in accounts {
        return false;
      }
      accounts := accounts[access := UpdateAcc(accounts[access], props)];
      return true;
    }

    method DeleteUserAccount(access: string)
      modifies this
      ensures accounts == old(accounts) - {access}
    {
      accounts := accounts - {access};
    }
  }

  class Cache {
    const service: Service
    const expire: int
    var items: map<string, Item>

    ghost function View(): State
      reads this, service
    {
      State(service.accounts, items)
    }

    constructor (service: Service, expire: int)
      ensures this.service == service && this.expire == expire && items == map[]
    {
      this.service := service;
      this.expire := expire;
      items := map[];
    }

    method CreateAccount(account: Account, now: int) returns (ok: bool)
      modifies this, service
      ensures ok <==> Creatable(service.root, old(service.accounts), account)
      ensures View() == Next(service.root, expire, old(View()), Create(account), now)
    {
      ok := service.CreateAccount(account);
      if ok {
        var acct := Account(account.access, account.secret, account.role, 0, 0, 0);
        items := items[acct.access := Item(acct, now + expire)];
      }
    }

    method GetUserAccount(access: string, now: int) returns (r: Option<Account>)
      modifies this
      ensures r == Answer(service.root, old(View()), access, now)
      ensures View() == Next(service.root, expire, old(View()), Get(access), now)
    {
      if access in items && items[access].exp > now {
        return Some(items[access].value);
      }
      r := service.GetUserAccount(access);
      if r.Some? {
        items := items[access := Item(r.value, now + expire)];
      }
    }

    method UpdateUserAccount(access: string, props: MutableProps, now: int) returns (ok: bool)
      modifies this, service
      ensures ok <==> access in old(service.accounts)
      ensures View() == Next(service.root, expire, old(View()), Update(access, props), now)
    {
      ok := service.UpdateUserAccount(access, props);
      if ok && access in items {
        items := items[access := Item(UpdateAcc(items[access].value, props), now + expire)];
      }
    }

    method DeleteUserAccount(access: string, now: int)
      modifies this, service
      ensures View() == Next(service.root, expire, old(View()), Delete(access), now)
      ensures service.accounts == old(service.accounts) - {access} && items == old(items) - {access}
    {
      service.DeleteUserAccount(access);
      items := items - {access};
    }

    method CollectExpired(now: int)
      modifies this
      ensures View() == Next(service.root, expire, old(View()), Collect, now)
      ensures forall k :: k in items <==> k in old(items) && old(items)[k].exp >= now
      ensures forall k :: k in items ==> items[k] == old(items)[k]
    {
      var todo := items.Keys;
      while todo != {}
        invariant todo <= old(items).Keys
        invariant forall k :: k in items <==> k in old(items) && (k in todo || !(now > old(items)[k].exp))
        invariant forall k :: k in items ==> items[k] == old(items)[k]
        decreases |todo|
      {
        var k :| k in todo;
        if now > items[k].exp {
          items := items - {k};
        }
        todo := todo - {k};
      }
      assert items == Prune(old(items), now);
    }

    /** ResolveAccounts through the cache finds exactly the accounts the service lacks. */
    method ResolveAccounts(accessKeyIDs: seq<string>, now: int) returns (missing: seq<string>)
      requires Coherent(service.root, View()) && service.root.access !in service.accounts
      modifies this
      ensures missing == Missing(service.root, service.accounts, accessKeyIDs)
      ensures Coherent(service.root, View())
    {
      missing := [];
      for i := 0 to |accessKeyIDs|
        invariant Coherent(service.root, View())
        invariant missing == Missing(service.root, service.accounts, accessKeyIDs[..i])
      {
        NextCoherent(service.root, expire, View(), Get(accessKeyIDs[i]), now);
        var acc := GetUserAccount(accessKeyIDs[i], now);
        assert accessKeyIDs[..i + 1][..i] == accessKeyIDs[..i];
        if acc.None? {
          missing := missing + [accessKeyIDs[i]];
        }
      }
      assert accessKeyIDs[..|accessKeyIDs|] == accessKeyIDs;
    }
  }

  /** The keys, in order, for which the uncached service has no account. */
  function Missing(root: Account, accounts: map<string, Account>, keys: seq<string>): (r: seq<string>)
    decreases |keys|
  {
    if keys == [] then []
    else
      var n := |keys| - 1;
      var rest := Missing(root, accounts, keys[..n]);
      if Lookup(root, accounts, keys[n]).None? then rest + [keys[n]] else rest
  }

  lemma {:induction false} MissingConcat(root: Account, accounts: map<string, Account>, a: seq<string>, b: seq<string>)
    ensures Missing(root, accounts, a + b) == Missing(root, accounts, a) + Missing(root, accounts, b)
    decreases |b|
  {
    if b == [] {
      assert a + b == a;
    } else {
      var n := |b| - 1;
      assert (a + b)[..|a + b| - 1] == a + b[..n];
      MissingConcat(root, accounts, a, b[..n]);
    }
  }

  /** Exactly the unknown keys, each in its place. */
  lemma MissingMeans(root: Account, accounts: map<string, Account>, k: string, rest: seq<string>)
    ensures Missing(root, accounts, [k] + rest) ==
      if k != root.access && k !in accounts then [k] + Missing(root, accounts, rest) else Missing(root, accounts, rest)
    ensures Missing(root, accounts, []) == []
  {
    MissingConcat(root, accounts, [k], rest);
    assert [k][..0] == [];
  }
}
