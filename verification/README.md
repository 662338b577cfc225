# Verified model of the gateway core

A Dafny model of the parts of the S3 gateway whose answers depend on order, on several
policies at once, or on everything that happened before: the directory walk behind
ListObjects, the multipart upload lister, bucket and identity policies, object lock, the
IAM account cache, the RDMA transfers with their token format, and range headers.

Strings are byte strings: one `char` is one byte and `Text.Less` is byte order.  Integers
are unbounded unless a width matters; then the limit is written out (`UINT64`,
`ADDRESS_SPACE`, `MAX_INT64`).  Time is an integer.  Code outside the model comes in as a
function or as data: condition evaluation and key normalisation (`Policy.Env`), the IAM
service's policy evaluation (`Access.Evaluator`), what a backend read returned
(`PolicyRead`, `RetentionRead`, `HoldRead`), `getObj` (`Listing.GetResult`), calendar
arithmetic (`ObjectLock.Calendar`), `uuid.Parse`, and how each RDMA operation went.

## How the pieces fit

* **Walk.** `Tree` holds directories as fs.ReadDir returns them and the order in which the
  look-ahead of `processDir` visits siblings.  `Listing` says what one key contributes to
  a listing.  `Walk` is the mutable walk itself, proved against offering the keys of the
  tree one after the other (`EmitAll`).  `Pages` adds the short cut into the prefix
  directory and the paging protocol.  `WalkDir` is the second traversal, which sorts.
* **Authorization.** `Glob` (two greedy matchers), `Policy` (statements and decisions),
  `Access` (bucket, identity and session decisions combined), `ObjectLock`, `BatchDelete`
  (DeleteObjects), `LockRuns` (object lock over whole runs).
* **The rest.** `IamCache`, `Uploads`, `Rdma`, `Token`, `ByteRange`.

## Where the code does less, or more, than its comments say

* The greedy matchers test for a literal byte before they test for a star, so they agree
  with the meaning of every pattern exactly on inputs without a `*` byte, or for the
  matcher without `?` on inputs with none before the last byte (`Glob.GreedyExactIff`);
  the action search likewise (`Policy.FindActionExactIff`).
* A batch with an explicit bucket-policy deny records only the first denied key of its
  action group and lets the others through, narrower than the comment on
  `VerifyObjectsAccess` (`BatchDelete.SecondDeniedPasses`).  `BatchDelete.BatchIsPerObject`
  says exactly which requests are answered like one request per object.
* The short cut into the prefix directory looks only at that directory's own name in
  skipdirs, and a prefix starting with `./` jumps to the root.  `Pages.ShortCutSound`
  gives the listing from the root in both cases.
* A negative `max` behaves like 1, because the limit is tested after an item was added.
* `IsTruncated` of the upload lister can be true on the last page when an upload-id marker
  applies (`Uploads.TruncationExactIff`).  Resuming at NextKeyMarker loses uploads of the
  last key and lists a last common prefix again (`Uploads.ResumeByKeyIff`); resuming with
  both markers is refused after an upload (`Uploads.BothMarkersRejected`).
* An expired retention of an object's own also frees it from a legal hold
  (`ObjectLock.LegalHoldHolds`).
* Creating an account caches it without its user, group and project ids
  (`IamCache.StubShows`), an update revives an expired entry, so whether entries were
  pruned can show (`IamCache.PruningUnseenIff`), and the cache stays coherent only if the
  account file does not hold the root account's key (`IamCache.CoherentIff`).
* An open-ended copy range is one byte too long (`ByteRange.CopyRangeInsideIff`), and a
  range with a number above 2^63-1 is ignored (`ByteRange.HeaderMeaning`).

## Model

| member | source | states |
|---|---|---|
| Tree.VisitOrdered | backend/walk.go:409-465 | the look-ahead visits siblings sorted by bare name in strictly increasing order of their keys, directories counting with their slash |
| Tree.VisitedMember | backend/walk.go:362-407 | every sibling is visited unless skipdirs names it, and no skipped one is |
| Tree.KeysSorted | backend/walk.go:409-511 | the whole traversal reaches full keys in strictly increasing byte order |
| Tree.KeysAreKeys | backend/walk.go:362-511 | the traversal reaches exactly the keys of the tree, defined without any order |
| Listing.CollapseExtend | backend/walk.go:533-546 | everything below a key that rolls up rolls up into the same common prefix, which is a leading part of the key |
| Listing.CollapseIdempotent | backend/walk.go:533-546 | a common prefix lies between prefix and key and rolls up into itself |
| Listing.CommonPrefixIsShortest | backend/walk.go:533-546 | the common prefix is the shortest leading part of the key that goes past the prefix and ends with the delimiter, and there is none exactly if no leading part does |
| Listing.ItemMeaning | backend/walk.go:520-567 | what a key contributes: its shortest part up to a delimiter past the prefix or, without one, itself unless getObj skips it |
| Listing.ItemsOrdered | backend/walk.go:520-549 | for any prefix and delimiter, collapsing keeps the order of keys; only equal common prefixes can coincide |
| Listing.EmitAllExact | backend/walk.go:520-591 | offering sorted keys yields each item past the marker exactly once, in strictly increasing order, and nothing else |
| Walk.NumberingBijective | backend/walk.go:67-93 | cpMap's numbers are a bijection onto 0..n-1 |
| Walk.CpArray | backend/walk.go:82-93 | spreading the map over an array gives back the prefixes, all of them, in the order of insertion |
| Walk.PruneCollapsed | backend/walk.go:477-483 | not descending into a rolled-up directory loses nothing |
| Walk.PruneMismatch | backend/walk.go:477-483 | not descending into a directory that neither matches nor leads to the prefix loses nothing |
| Walk.PruneBeforeMarker | backend/walk.go:495-504 | not descending into a directory before the marker loses nothing unless the marker lies below it |
| Walk.WalkState.AddObject | backend/walk.go:569-579 | the object is appended, the limit noticed exactly when max items are there, the marker set; result lists and counters keep matching the page |
| Walk.WalkState.AddCommonPrefix | backend/walk.go:581-591 | a prefix is added once, the limit noticed exactly when max items are there; result lists and counters keep matching the page |
| Walk.WalkState.CheckAndMaybeAddCommonPrefix | backend/walk.go:520-549 | says whether the key is done with, and if so has given the page what the key contributes |
| Walk.WalkState.AddContentEntry | backend/walk.go:555-567 | adds the object unless getObj skips it, and records a getObj failure |
| Walk.WalkState.ReadDirEntries | backend/walk.go:362-407 | the page becomes a leading part of what all keys below the directory give, all of it unless marked truncated |
| Walk.WalkState.ProcessDir | backend/walk.go:409-465 | the same for a directory together with the siblings that precede it, and returns the first sibling after them |
| Walk.WalkState.ProcessDirItself | backend/walk.go:467-511 | the same for the directory itself, pruning included |
| Pages.KeysBelow | backend/walk.go:598-611 | below a path that resolves, the keys seen from the root are those seen from the path, unless a path element is skipped |
| Pages.ShortCutSound | backend/walk.go:593-644 | walking from the root gives the same listing as the short cut, or nothing when a directory above it is skipped or it is `.`; equal exactly when not so hidden, or no offered key contributes |
| Pages.ShortCutShowsSkipped | backend/walk.go:598-617 | a failing input: with `a` skipped, listing `a/b/` shows a file the walk from the root does not |
| Pages.ShortCutShowsDot | backend/walk.go:598-617 | in every non-empty tree the prefix `./` lists `./` itself, which the walk from the root never does |
| Pages.FullListingExact | backend/walk.go:593-644 | the unlimited listing is strictly increasing and shows exactly what the offered keys contribute past the marker |
| Pages.ListingMeaning | backend/walk.go:95-128 | the unlimited listing, stated with no walk in sight: the items contributed by keys of the tree past the marker, sorted, once each |
| Pages.ListingPlain | backend/walk.go:520-567 | the same down to bytes: the keys that match the prefix and are not skipped, and the shortest leading parts up to a delimiter of those that hold one |
| Pages.QuickWalk | backend/walk.go:593-652 | the walk fills a correct page, or getObj fails on a key that belongs on it; the marker is cleared when nothing was cut off |
| Pages.WalkCall | backend/walk.go:97-128 | one call returns the first items of the listing, at most max of them; truncated only with exactly max and NextMarker the greatest, and whenever the listing has more; no page exactly if getObj fails on one of the first max items |
| Pages.PageSize | backend/walk.go:569-591 | the number of items on a page, told by max |
| Pages.ObjectsMembers | backend/walk.go:555-579 | the objects of a page are what getObj found for its items that are no prefixes |
| Pages.PageWithoutFailure | backend/walk.go:555-567 | a page that was returned contains no key getObj failed on |
| Pages.ListingResumes | backend/walk.go:476-504 | listing again from any item's key gives exactly what came after that item |
| Pages.PagingLossless | backend/walk.go:97-128 | following NextMarker until a page is not truncated adds up to the unlimited listing, for every tree, prefix, delimiter and max |
| Pages.PagesFull | backend/walk.go:569-591 | every page but the last holds exactly max items (one if max is negative), and the number of pages is bounded |
| Pages.ListAll | backend/walk.go:97-128 | a client that pages until not truncated stops with a complete run, or with an error exactly if getObj fails on some item of the listing |
| WalkDir.LookAheadIsSort | backend/walker.go:85-97 | any correct sort on name plus slash gives exactly the look-ahead's order of siblings |
| WalkDir.SortSiblings | backend/walker.go:85-97 | the siblings, permuted and sorted by key |
| WalkDir.WalkChildren | backend/walker.go:73-109 | for any callback: visited is, in order, every key that no key visited before rules out |
| WalkDir.WalkEntry | backend/walker.go:64-71 | the same for one entry; SkipDir on a directory ends nothing outside it, on a file it ends the directory the file is in |
| WalkDir.SeenMeaning | backend/walker.go:73-109 | for any callback the visited keys strictly increase and are keys of the tree; a callback that always continues sees exactly the look-ahead's keys |
| WalkDir.SkipOnlyBelow | backend/walker.go:64-71 | SkipDir on one directory takes away exactly the keys below it |
| WalkDir.SkipRestOfDirectory | backend/walker.go:99-108 | SkipDir on a file takes away exactly what comes after it in its directory |
| WalkDir.StopAt | backend/walker.go:99-108 | any other answer ends the walk after that key |
| Glob.MatchPattern | auth/bucket_policy.go:377-406 | accepts only what the pattern means, and on input without a star byte exactly that |
| Glob.WildcardMatch | auth/bucket_cors.go:343-373 | with `?` an ordinary byte: accepts only what the pattern means, and exactly that on input with no star byte before its last byte |
| Glob.GreedySound | auth/bucket_policy.go:380-406 | soundness for every pattern and input |
| Glob.GreedyExact | auth/bucket_policy.go:380-406 | completeness of both matchers on such input: giving up all but the last star loses no match |
| Glob.GreedyExactIff | auth/bucket_policy.go:385-392 | an input is decided right for all patterns exactly if it holds no star byte or, where `?` is an ordinary byte, none before its last |
| Glob.WildcardExact | auth/bucket_cors.go:343-373 | patterns without `?` mean the same to both matchers and are decided the same |
| Glob.LiteralMeans | auth/bucket_policy.go:377-379 | a pattern without wildcards means itself only |
| Glob.AnyMeans | auth/bucket_policy.go:377-379 | `?` means exactly one byte |
| Glob.MatchesConcat | auth/bucket_policy.go:377-379 | patterns are matched piece by piece, so these laws say what every pattern means |
| Policy.FindActionSound | auth/bucket_policy_actions.go:314-334 | the shortcuts never find an s3 action that no pattern means |
| Policy.FindActionExactIff | auth/bucket_policy_actions.go:314-334 | the shortcuts agree with "some pattern means the action" for all action sets exactly on actions beginning s3: without a star byte |
| Policy.DecisionFor | auth/bucket_policy.go:124-173 | Deny if some statement forbids or cannot be evaluated, else Allow if some permits, else NoMatch |
| Policy.DecideMeaning | auth/bucket_policy.go:124-173 | Deny exactly if a statement naming the caller or `*`, with an action and a resource pattern that mean the request, cannot be evaluated or denies; otherwise Allow exactly if such a statement allows |
| Policy.StrangerUnmatched | auth/bucket_policy_principals.go:114-124 | a policy says nothing to a caller no statement names |
| Policy.ResourceNames | auth/bucket_policy_resources.go:118-125 | the resource of a request and the pattern that names it agree, object key normalised alike |
| Policy.DecideOrderFree | auth/bucket_policy.go:124-146 | the order of statements does not matter |
| Policy.PublicBindsEveryone | auth/bucket_policy.go:148-173 | a public Deny denies every principal; a public Allow leaves no principal without a match |
| Policy.PublicIgnoresPrincipal | auth/bucket_policy.go:148-173 | a public decision is the same whoever asks |
| Policy.VerifyBucketPolicy | auth/bucket_policy.go:306-340 | over several actions: the first Deny wins and is blamed, else the first NoMatch, else Allow; no action at all is NoMatch; an error exactly if there are actions and the document is unreadable |
| Policy.AggregateActionDecisions | auth/access-control.go:451-483 | the same aggregation per resource, or an error exactly when the matrix does not fit |
| Policy.AggregateRow | auth/access-control.go:469-480 | one row of the matrix |
| Policy.AggregationsAgree | auth/bucket_policy.go:306-340 | run on the same decisions, the two loops name the same decision and action on every non-empty action list, and only there; what Deny and Allow then mean |
| Policy.AggregateMeaning | auth/bucket_policy.go:306-340 | aggregated Deny means some action is denied, Allow that all are allowed, and the action named is the first with that decision |
| Access.VerifyResourceAccess | auth/access-control.go:369-401 | one bucket decision per key, from the policy or, absent one, the ACL |
| Access.MatrixVerdicts | auth/access-control.go:403-439 | one identity or session decision per key |
| Access.ObjectsAccessErrors | auth/access-control.go:267-359 | fails exactly when the policy or the IAM service cannot be consulted; otherwise names for every key its denial, or only the first key the bucket policy denies |
| Access.CombineDecisions | auth/access-control.go:320-356 | no denial exactly if identity does not deny, the session allows, and the bucket or the identity allows |
| Access.KeyDenial | auth/access-control.go:297-356 | a key passes exactly if no source denies, bucket or identity allows, and any session policy allows |
| Access.GrantsMeaning | auth/access-control.go:297-356 | a grant action by action: neither bucket nor caller denies any, the session allows all, and the bucket (policy, else ACL) or the caller allows all |
| Access.DenialBlames | auth/access-control.go:283-356 | a denial names the caller, the resource and the first action to blame at the source it blames |
| Access.BatchEntry | auth/access-control.go:283-295 | with an explicit deny in the batch only its first key fails; otherwise each key has its own verdict |
| Access.VerifyAccess | auth/access-control.go:105-124 | refused when readonly blocks a write; otherwise public, root and admin callers are granted, any other exactly if the three decisions grant and the IAM service answers |
| Access.SessionNarrows | auth/access-control.go:335-343 | a session policy never turns a denial into a grant |
| Access.BatchEqualsSingle | auth/access-control.go:285-295 | whatever the caller's own policies, a batch decides every key like a request for it alone exactly when there is one key or the bucket policy denies none |
| Access.IdentityOnlyDenial | auth/access-control.go:580-619 | requests naming no bucket are decided like requests on a bucket whose policy and ACL say nothing |
| ObjectLock.BypassIsAccess | auth/object_lock.go:286-357 | for an ordinary caller the bypass permission grants exactly when the one-key batch for that action does |
| ObjectLock.AdminBypass | auth/object_lock.go:258-322 | admin bypasses on request, but overwrites exactly with an explicit bucket-policy grant |
| ObjectLock.PublicBypass | auth/object_lock.go:272-284 | an anonymous caller may bypass exactly with a public grant |
| ObjectLock.RetentionPutMeans | auth/object_lock.go:182-243 | allowed exactly: a first retention, a date not earlier in the same mode, or any other change of a retention that is not COMPLIANCE with a granted bypass |
| ObjectLock.ObjectWritableIff | auth/object_lock.go:476-575 | an existing object is writable exactly if its dated retention expired, or its retention, legal hold and the bucket default all give way |
| ObjectLock.UnaddressedObject | auth/object_lock.go:488-512 | requests that add a version or address nothing are not held up; what cannot be read protects the object |
| ObjectLock.LegalHoldHolds | auth/object_lock.go:517-551 | a legal hold protects exactly until the object's own dated retention has expired |
| ObjectLock.ParseConfig | auth/object_lock.go:86-129 | which lock configurations are accepted, and that an accepted one is stored enabled with its rule and date |
| ObjectLock.ValidRuleMeans | auth/object_lock.go:100-121 | the two modes, and up to 36500 days or 100 years but not both |
| ObjectLock.CheckObjectAccess | auth/object_lock.go:385-404 | passes exactly if every object passes, else reports the first that does not |
| LockRuns.ComplianceStep | auth/object_lock.go:201-224 | one request ends a COMPLIANCE lock only by removing that very version after its own date |
| LockRuns.ComplianceSafe | auth/object_lock.go:182-243 | in every run, by any callers with any bypass mode, a version locked in COMPLIANCE until t stays so, or was removed at a step about that version when its date, still at least t, had passed |
| LockRuns.GovernanceStep | auth/object_lock.go:208-243 | one request ends a GOVERNANCE lock only if it is about that version and its caller was granted the bypass, or it removes the version after its date |
| LockRuns.GovernanceSafe | auth/object_lock.go:226-243 | in every run a version locked in GOVERNANCE until t stays so, or the lock ended at a step about that version at which the bypass was granted or the date had passed |
| LockRuns.GateShut | auth/object_lock.go:476-575 | the delete and overwrite gates stay shut for a version whose retention is in force |
| LockRuns.DefaultGateShut | auth/object_lock.go:553-575 | a bucket default in force shuts the gates for versions with no dated retention of their own, GOVERNANCE unless a bypass was asked for and granted |
| LockRuns.DefaultProtects | auth/object_lock.go:449-466 | after a default rule is accepted, through every run that does not change it: versions without a dated retention are protected until it expires, COMPLIANCE always, GOVERNANCE unless the bypass is granted, and afterwards by a legal hold only |
| LockRuns.GateMeans | auth/object_lock.go:476-575 | the gate is open exactly if the own date has passed, or retention, legal hold and default all give way |
| LockRuns.DeleteAchieves | auth/object_lock.go:476-575 | a delete removes the version it addresses exactly if nothing protects it, and no other |
| LockRuns.MarkerRemoved | auth/object_lock.go:494-503 | a delete marker or a missing version is protected by nothing |
| LockRuns.OverwriteAchieves | auth/object_lock.go:476-575 | without versioning an overwrite replaces the object exactly if nothing protects it |
| LockRuns.VersionsAdded | auth/object_lock.go:488-490 | with versioning, deletes without id and overwrites keep every version and add one |
| LockRuns.Addressing | auth/object_lock.go:480-486 | which version a request with and without version id is about |
| LockRuns.PutRetentionAchieves | auth/object_lock.go:182-243 | which retention requests change the version, and to what |
| LockRuns.HoldAchieves | auth/object_lock.go:517-551 | a legal hold placed by request protects from every caller until an own dated retention has passed |
| LockRuns.TimeAndLockPersist | auth/object_lock.go:86-98 | no request turns the bucket's lock off; only time moves the clock and only one request switches versioning on |
| BatchDelete.SplitByKind | auth/access-control.go:181-188 | the two index lists, complete and in order |
| BatchDelete.GroupsPartition | auth/access-control.go:181-188 | every object is in exactly one action group, once |
| BatchDelete.AuthorizeObjectSubset | auth/access-control.go:219-245 | fills the entries of its own group, at their original places, and no others |
| BatchDelete.LockLoop | auth/access-control.go:202-214 | an entry policy left empty gets its own object's lock verdict; no other entry changes |
| BatchDelete.VerifyObjectsAccess | auth/access-control.go:126-217 | which failures are the whole request's; for every object: denied by policy, or its own lock verdict; for public, root and admin callers, and where the policy's denials are recorded in full, nil exactly if the object alone is permitted and its lock does not object |
| BatchDelete.GroupFailsMeans | auth/access-control.go:267-359 | an action group cannot be decided exactly if the policy cannot be consulted, or the IAM service fails and no object of the group is denied |
| BatchDelete.PermittedMeans | auth/access-control.go:181-200 | which permission a delete with and without version id needs |
| BatchDelete.BatchIsPerObject | auth/access-control.go:126-217 | whatever the caller's own policies, the batch equals per-object authorization exactly when every action group with a denied object consists of that object |
| BatchDelete.SecondDeniedPasses | auth/access-control.go:285-295 | the failing input: of two objects the bucket policy denies, the batch lets the second through |
| IamCache.NextCoherent | auth/iam_cache.go:49-114 | every call and every pruning keeps all cached entries, expired ones included, in agreement with the store |
| IamCache.RunCoherent | auth/iam_cache.go:135-199 | so does every run of them |
| IamCache.CoherentIff | auth/iam_internal.go:104-159 | all runs stay coherent exactly if the stored accounts do not contain the root key |
| IamCache.AnswerAgrees | auth/iam_cache.go:155-171 | in every reachable state the cached answer agrees with the store on existence, access key, secret and role |
| IamCache.StubShows | auth/iam_cache.go:135-153 | a created account is answered without ids until the entry expires, and from then on in full |
| IamCache.LookupLives | auth/iam_cache.go:59-67 | a lookup past the cache is answered from it for as long as entries live, and not longer |
| IamCache.StoreRefined | auth/iam_cache.go:135-199 | whatever is cached, a run leaves the accounts the same creates, updates and deletes leave in the bare service |
| IamCache.DeletedStays | auth/iam_cache.go:180-189 | a deleted account is gone at once, through every run that does not create it again |
| IamCache.UpdateFields | auth/iam.go:120-136 | an update sets exactly what it names and never the key |
| IamCache.PruneInvisible | auth/iam_cache.go:59-67 | a lookup that follows a pruning directly cannot tell that it happened |
| IamCache.PruningAgrees | auth/iam_cache.go:90-110 | two runs that differ only in prunings answer every lookup with the same existence, access key, secret and role |
| IamCache.PruningUnseenIff | auth/iam_cache.go:69-105 | no continuation shows that entries were pruned, exactly if no expired entry differs from the stored account (or entries never live) |
| IamCache.PruningShows | auth/iam_cache.go:69-80 | the failing input: an update revives an expired entry that pruning would have dropped, and the ids differ |
| IamCache.CacheTransparent | auth/iam_cache.go:135-199 | if no account is created with ids, every run answers every lookup like the uncached service |
| IamCache.Service.CreateAccount | auth/iam_internal.go:73-102 | refuses the root key and existing keys, otherwise stores |
| IamCache.Service.GetUserAccount | auth/iam_internal.go:104-125 | root first, then the stored accounts |
| IamCache.Service.UpdateUserAccount | auth/iam_internal.go:132-159 | updates a stored account or refuses |
| IamCache.Service.DeleteUserAccount | auth/iam_internal.go:161-182 | removes the key whether or not it exists |
| IamCache.Cache.CreateAccount | auth/iam_cache.go:135-153 | new store and cache contents, as a function of the old ones |
| IamCache.Cache.GetUserAccount | auth/iam_cache.go:155-171 | the answer, and new cache contents |
| IamCache.Cache.UpdateUserAccount | auth/iam_cache.go:191-199 | new contents; a cached entry is updated and refreshed even if it had expired |
| IamCache.Cache.DeleteUserAccount | auth/iam_cache.go:180-189 | gone from store and cache |
| IamCache.Cache.CollectExpired | auth/iam_cache.go:90-105 | exactly the expired entries are dropped |
| IamCache.Cache.ResolveAccounts | auth/iam.go:26-45 | through the cache, exactly the keys the uncached service does not know, in order |
| IamCache.MissingMeans | auth/iam.go:26-45 | exactly the unknown keys, each in its place |
| Uploads.ItemsMembers | backend/mp-lister.go:115-145 | the listing shows exactly the uploads that do not roll up and the common prefixes of those that do |
| Uploads.PrefixesUnique | backend/mp-lister.go:94-134 | no common prefix is listed twice |
| Uploads.RollUpIsShortest | backend/mp-lister.go:115-124 | the common prefix is the shortest leading part that goes past the prefix and ends with the delimiter, and there is none without one |
| Uploads.FindUploadIdMarkerIndex | backend/mp-lister.go:150-176 | the place after the marker within the first key's uploads, or none |
| Uploads.HasMoreAfter | backend/mp-lister.go:178-205 | whether any row is left from an index on |
| Uploads.RunFrom | backend/mp-lister.go:94-148 | the page is the first MaxUploads rows of the collapsed list; where the flag looks from, and both next markers, for pages ending in an upload and in a common prefix |
| Uploads.ListPage | backend/mp-lister.go:64-148 | the marker error exactly when both markers are given and the id is no UUID or names no upload of the first key's group; otherwise the page after it, or from the start |
| Uploads.TruncationExactIff | backend/mp-lister.go:115-144 | for every request IsTruncated is right unless the page shows the last row and an upload between the place the flag looks from and the page's end would be a row |
| Uploads.TruncationSound | backend/mp-lister.go:115-148 | not truncated always means nothing is left; without an upload-id marker truncated means something is |
| Uploads.PlainTruncationIff | backend/mp-lister.go:178-188 | without a delimiter the flag is wrong exactly on the last full page after an upload-id marker |
| Uploads.DelimiterTruncationWrong | backend/mp-lister.go:190-205 | a failing input with a delimiter |
| Uploads.ResumeByKeyIff | backend/posix/posix.go:3226-3229 | NextKeyMarker alone continues a page without loss or repetition exactly if no later upload has the last upload's key, or every upload below the last common prefix has it as its key |
| Uploads.PrefixListedAgain | backend/posix/posix.go:3226-3229 | with a common prefix as key marker and an upload properly below it, the first row is that prefix again |
| Uploads.NeverAdvances | backend/mp-lister.go:115-131 | with one row per page a client that sends such a prefix back gets the same page and marker every time |
| Uploads.BothMarkersRejected | backend/mp-lister.go:76-92 | sending back both markers of a page ending in an upload is always refused when ids are unique |
| Uploads.BothMarkersAfterPrefix | backend/mp-lister.go:150-176 | both markers of a page ending in a common prefix: refused if its first upload has the prefix as key, otherwise right exactly if no later upload belongs to the prefix |
| Rdma.ChunkSize | cubackend/cuserver.go:348-359 | never more than the buffer or the rest, and one of the two |
| Rdma.TilesInside | cubackend/cuserver.go:158-190 | if the region does not wrap around the address space, chunks lie inside it and do not overlap |
| Rdma.PutTransfer | cubackend/cuserver.go:122-196 | success delivers exactly the client's region; a failure delivered a leading part of it; chunks tile the region; failure has one of the listed causes |
| Rdma.Remote.GetTransfer | cubackend/cuserver.go:249-325 | success puts the whole object into the client's region; nothing outside the region changes even on failure |
| Token.HexRoundTrip | cuwrapper/rdma_host_client_wrapper.cpp:211-229 | printing and reading hex are inverse for every value and padding |
| Token.HexWidth | cuwrapper/rdma_host_client_wrapper.cpp:187-204 | a value that fits its field fills it exactly |
| Token.TokenFits | cuwrapper/rdma_host_client_wrapper.cpp:211-229 | with every field within its type the token is 81 bytes long |
| Token.TokenFields | cuwrapper/rdma_host_client_wrapper.cpp:187-229 | all seven fields, in the order of the format |
| Token.HexBytesRoundTrip | cuwrapper/rdma_host_client_wrapper.cpp:211-216 | the bytes of the GID in order, two digits each |
| Token.HexLower | cuwrapper/rdma_host_client_wrapper.cpp:187-190 | only lower-case digits are printed |
| Token.CaseFree | cumiddleware/cuobj.go:193-218 | upper and lower case are read alike |
| Token.Alloc | cuwrapper/rdma_host_client_wrapper.cpp:399-431 | a region is handed out exactly for a size the token can carry when memory was allocated and registered |
| Token.ParseBaseAddr | cumiddleware/cuobj.go:220-235 | the first field as a 64-bit number, or an error |
| Token.IsRCTokenScheme | cumiddleware/cuobj.go:193-218 | a first field of more than sixteen hex digits |
| Token.TokenRoundTrip | cumiddleware/cuobj.go:220-250 | every 64-bit address and positive 32-bit size printed by the client is read back, and the first field is never too long |
| Token.ClientToGateway | cuwrapper/rdma_host_client_wrapper.cpp:211-229 | from allocation to the gateway: same address, same size, never taken for an RC token; nothing allocated, nothing addressed |
| ByteRange.ParseObjectRange | backend/common.go:95-176 | a valid range lies within the object and is not empty; an ignored one means the whole object |
| ByteRange.ClosedRangesAgree | backend/common.go:178-228 | a closed copy range means the same to both parsers |
| ByteRange.CopyRangeInsideIff | backend/common.go:206-227 | an accepted copy range stays within the object exactly if it has an end |
| ByteRange.CopyHeaderMeaning | backend/common.go:178-228 | which printed ranges a copy accepts and what it makes of them |
| ByteRange.EndsIff | backend/common.go:105-119 | which headers have the shape of a range, and their two ends |
| ByteRange.NotARange | backend/common.go:95-119 | a header of another shape is ignored when reading, refused when copying; none means the whole object |
| ByteRange.NumbersOnly | backend/common.go:119-146 | a sign is read; anything else that is no digit is not a number |
| ByteRange.HeaderMeaning | backend/common.go:105-175 | every range of section 14.1.2 of RFC 9110 with numbers up to 2^63-1, printed as a header, selects exactly its bytes, and is refused or ignored only if it selects none; with a larger number it is always ignored |
| ByteRange.LargeEndIgnored | backend/common.go:140-146 | a failing input: an end above 2^63-1 loses a range that selects bytes |

## Left out

- Walk under a cancelled context, directories that fail to read or change during the walk, and `fs.Stat` errors on the prefix directory.
- WalkVersions: its result depends on a version callback that is not part of this model.
- Walk.WalkState.AddContentEntry: a getObj error is recorded as a flag; the error value is not modelled.
- slices.SortFunc: the library sort is replaced by insertion; `WalkDir.LookAheadIsSort` holds for any correct sort.
- CORS rules beyond the matcher, ACL evaluation, post policies, tag parsing: branch checks that would add only easy members.
- Parsing of JSON, XML and base64 documents, condition evaluation, key normalisation, signatures.
- The authorization of retention, legal hold and lock-configuration requests in `LockRuns`: every caller is let through, which only widens what the safety results cover.
- LockRuns.ComplianceSafe: versions are removed only through the gated requests; a backend that removes data by itself is not part of the model.
- Suspended versioning: a bucket with object lock refuses it, so versioning is only ever switched on in a run.
- IamCache.RunCoherent: calls do not overlap, and the store always reads and writes successfully.
- Uploads.BothMarkersRejected: an id that occurs on two uploads is not covered; upload ids are random UUIDs.
- Access.MatrixVerdicts: an answer of the IAM service whose matrix does not fit the request counts as a failed call (`Evaluator.fails`); `Policy.AggregateActionDecisions` states when a matrix fits.
- Rdma.PutTransfer: the backend at the other end of the pipe, channels and the buffer pool are not modelled; int64 cannot overflow because sizes are checked first.
- Rdma.Remote.GetTransfer: one RDMA operation is a copy of a chunk or a failure that may have copied part of it.
- LDAP, Vault, IPA, S3-object and standalone IAM clients, routers, controllers, metrics and logging.
