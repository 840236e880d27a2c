# Verified model of the CSPM backend

A Dafny 4.11 model of the stateful parts of a cloud-security-posture-management service, with proofs of
what those parts promise. Check everything with `dafny verify dfyconfig.toml`.

| file | models |
|---|---|
| `Json.dfy` | JSON values and the order-insensitive comparison behind drift detection |
| `DriftDetector.dfy` | the snapshot diff, its classification of changes, and the patch an approval applies |
| `DriftStore.dfy` | the baseline and event tables: drift checks, approvals, rejections, whole runs |
| `Audit.dfy` | the hash-chained audit log: recording, verification, tampering, deletion, retention purge |
| `AuditRace.dfy` | interleaved recordings, with the read and the append as separate steps |
| `AuditPurge.dfy` | interleaved recordings and retention purges |
| `AuditForest.dfy` | deletions from the log of any interleaving |
| `Subscription.dfy` | one subscription: trials, lazy expiry, plan changes, gateway events, the billing pages |
| `Billing.dfy` | the subscription table with its requests and webhooks |
| `ScanQuota.dfy` | the monthly scan quota on the eager, ingest and queued paths |
| `RateLimiter.dfy` | the sliding-window rate limiter |
| `Base64Url.dfy`, `Envelope.dfy` | the ciphertext token format, legacy tokens, key providers, root-key rotation |
| `Findings.dfy` | the dedup key and deduplicated persistence |
| `ApiKeys.dfy` | API-key creation and lookup |
| `Compliance.dfy` | compliance scores and the evidence report |
| `Seqs.dfy`, `Wrappers.dfy` | filtering and ordering of query results; Option and Result |

Tables are `seq` or `map` fields of classes whose methods reassign them; each method is proved against a
specification that the lemmas beside it are about. What the environment decides is a parameter: clocks,
random values, the cloud snapshot, the verdict on a webhook signature, whether a write commits, and the
order in which the database returns rows that its ORDER BY leaves open. The order in which Python iterates
a set is an arbitrary choice.

## Assumptions

- DeepDiff with `ignore_order=True` compares lists by the sets of their items' hashes, ignoring order and
  repetition at every depth, and always tells values of different types apart. Two of its defaults are not
  modelled: it skips dict keys that start with `__`, and in later versions it may report a dict as changed as a
  whole when two dicts share few keys, which names no root key. No configuration is taken to meet either.
- SHA-256 of a JSON dump (audit log) or of a string (API keys) is a function parameter. A digest of the
  audit log has 64 characters, and no two of the entries a lemma speaks of collide (`Audit.Sound`);
  `AuditRace.HonestLogExists` and `OverlappedRunExists` give an honest log and an overlapping run that meet
  this. A presented API token collides with no issued one. The dedup hash needs no law.
- AES-GCM opens what it sealed, and a ciphertext it opens is 16 bytes longer than the text
  (`Envelope.LawfulCipherExists` shows that the laws agree). A key provider unwraps what it wrapped.
- A JSON float is its printed form. Strings that are encrypted or name a key are their UTF-8 encodings.
- Times are integers or exact reals, and the clock does not go back where a lemma says so.

## Properties that fail, and the exact conditions

- "Any edit/deletion of a historical row breaks the chain" (`cspm/shared/audit.py:4`): deleting the end of
  the log goes unnoticed (`DeletionIsDetected`), and so do a change of `ts`, which is not hashed, moving the
  last row to another org, and a rewrite of the last row that keeps its link, carries its own hash and still
  comes last. `ReplacedRow` gives the exact condition for any replacement of one row. An edit without
  rehashing is noticed by the org the row is then in; the org it was moved away from notices it unless it
  was that org's last row (`EditIsDetected`).
- The retention purge deletes from the front of the same chain, so it makes an org's log unverifiable unless
  it removes none or all of the org's rows (`PurgeBreaksChain`). The log then stays unverifiable until a purge
  removes its last row, through all recordings and purges in between (`BrokenUntilEmptied`). The one exception
  is a request that had read the log before it had any row and writes after the purge (`RevivableIff`).
- Two overlapping recordings of one org make its log unverifiable, and no recording repairs it
  (`VerifiesIffSequential`, `OverlapIsPermanent`). A deletion does exactly when the rows it leaves form one path
  of rows each recorded after reading the one before (`SurvivorsFormPath`, `SomeRowVerifies`).
- "Legacy v1 ciphertext is still decryptable" (`cspm/security/crypto.py:8`) fails, under every provider and
  for every text, exactly for the nonces whose first byte is 2 (`LegacyReadableIff`).
- A plan read writes an expired trial back, and the billing pages show the stored plan and status, so reads and
  lazy expiry are not invisible: `GET /billing/plans` shows any unwritten expiry, `GET /billing/subscription`
  that of any plan but `free` after a failed payment, and `invoice.paid` brings a paid plan back.
  `ReadInvisibleIff` gives for each set of pages exactly which reads some future notices, and `LazyIsEagerIff`
  from which rows expiring on time would ever look different.
- Rotation without re-encryption (`cspm/security/crypto.py:6`) holds for the remote providers (`RootKeyRotates`).
  For the environment key it would need the new key to open what the old one sealed (`EnvKeyReplaced`);
  `cspm/security/keyprovider.py:42` asks for re-encryption.
- "First run establishes the baseline" (`cspm/service.py:233`): a check adopts its snapshot exactly while no
  decision has left the account a baseline entry, so also after empty first snapshots and after approved
  removals of everything (`AdoptsIffUndecided`); it then records no event (`CheckRewritesBaselineIff`,
  with `EmptiedAccountAdoptsSilently` as the review scenario).
- The queued scan path does not keep the monthly quota: waiting runs are not counted, so a burst is accepted
  whole (`QueueingIsUnchecked`, `BurstIsAccepted`). A month is sure to end within a number of runs exactly
  when its stored, waiting and newly accepted runs fit, less those started in another month (`QueuedPathBound`).
- With 2000 or more applicable checks a score can read 100.0 despite a failure (`PerfectScoreIff`).

## Model

| member | source | states |
|---|---|---|
| Json.DigestDecidesEquiv | cspm/drift/detector.py:95 | comparing sets of item digests, as the diff library does, decides the pairwise reference comparison of nested values |
| Json.EquivIsEquivalence | cspm/drift/detector.py:95 | the order-insensitive comparison is reflexive, symmetric and transitive |
| Json.ReorderedIsEquiv | cspm/drift/detector.py:3-4 | values that differ only by reordering lists at any depth compare as the same |
| DriftDetector.ClassifyChange | cspm/drift/detector.py:43-52 | a change is a permission change exactly when the type is sensitive or some differing top-level key contains a permission word |
| DriftDetector.JoinContains | cspm/drift/detector.py:47-48 | searching the space-joined key string finds a word exactly when one of the keys contains it |
| DriftDetector.CaseDoesNotMatter | cspm/drift/detector.py:47-48 | capital letters in a key do not hide a permission word |
| DriftDetector.LowerKeyContains | cspm/drift/detector.py:47-48 | in a key without capitals the search is plain containment |
| DriftDetector.DiffSnapshots | cspm/drift/detector.py:69-103 | exactly one event per resource that is on one side only or differs; "created" exactly without a before side, "deleted" exactly without an after side, and both configurations as they are |
| DriftDetector.EventIff | cspm/drift/detector.py:76-96 | a resource has an event, and one only, exactly when it is on one side only or the library's digests of its configurations differ |
| DriftDetector.EventTellsDrift | cspm/drift/detector.py:75-101 | the type of an event is that of the current side, else of the baseline, else unknown; a change is a permission change exactly for the sensitive types or a differing key with a permission word |
| DriftDetector.NoDriftIffSame | cspm/drift/detector.py:93-103 | the diff is empty exactly when both sides have the same resources with the same configurations |
| DriftDetector.ReorderingYieldsNoEvent | cspm/drift/detector.py:3-4 | ordering never triggers a false positive |
| DriftDetector.SwappedApprovals | cspm/api/router.py:500-520 | approvals of distinct resources commute, wherever they stand in a sequence |
| DriftDetector.ApprovedSubset | cspm/api/router.py:500-520 | after approving any events of a diff, in any order and with repeats, exactly the unapproved drifted resources still drift |
| DriftDetector.ApprovingAllClearsDrift | cspm/api/router.py:500-520 | approving every event gives the baseline the current keys and the same configurations, so a second diff is empty |
| DriftStore.Tables.RunDriftCheck | cspm/service.py:228-269 | gives an account without rows one row per resource of the snapshot and no event; else leaves the baseline alone and appends pending events of the org and account that show the snapshot's side |
| DriftStore.Tables.ApproveDrift | cspm/api/router.py:485-520 | marks the event approved; afterwards the resource has a row exactly when the event has an after-state, which it holds, and all other rows are as before; not found, duplicate rows and rollback included |
| DriftStore.Tables.RejectDrift | cspm/api/router.py:533-566 | marks a violation and records its finding once; a second rejection fails and changes nothing |
| DriftStore.BaselineIsLastDecision | cspm/service.py:238-268 | over every run the baseline has one row per resource, holding the after-state of its last approved event or what an adoption by a rowless account put there |
| DriftStore.ReviewedCheckIsQuiet | cspm/api/router.py:492-520 | after approving every event of a check in any order, a check of the same snapshot records nothing |
| DriftStore.AdoptsIffUndecided | cspm/service.py:238-252 | over every run, a check finds no baseline exactly when no last decision left any resource of the account one |
| DriftStore.CheckRewritesBaselineIff | cspm/service.py:233-252 | a check changes the baseline exactly when its snapshot is not empty and no resource has a decided entry; it then records no event |
| DriftStore.EmptiedAccountAdoptsSilently | cspm/service.py:238-252 | after the approved removal of all resources the next check adopts any snapshot without an event |
| Audit.AuditLog.RecordAction | cspm/shared/audit.py:40-75 | appends one row with exactly the given org, user, action, resource, meta, ip and time, numbered and linked after the row that was read and hashed over all this; nothing when the write fails |
| Audit.AuditLog.VerifyChain | cspm/shared/audit.py:78-93 | true exactly when every entry carries its own hash and names its predecessor's |
| Audit.AuditLog.RetentionPurge | cspm/tasks.py:87-93 | keeps exactly the rows at or after the cutoff and counts the others |
| Audit.PrevHashesDistinct | cspm/shared/audit.py:82-92 | in a verified log no two entries name the same predecessor |
| Audit.SameTipSameLog | cspm/shared/audit.py:22-37 | two verified logs ending in the same entry hash have the same length and agree on every hashed field |
| Audit.ReplacedRow | cspm/shared/audit.py:78-93 | exactly which replacements of one row of the table, its org, number and hashes included, verification of the org does not notice |
| Audit.EditIsDetected | cspm/shared/audit.py:4-5 | changed content without rehashing fails the verification of the org the row is then in; the org it left notices unless it was the last row |
| Audit.SurvivorsFormPrefix | cspm/shared/audit.py:82-92 | whatever positions are left, the chain verifies exactly when they are a prefix |
| Audit.DeletionIsDetected | cspm/shared/audit.py:78-93 | deleting any rows of the table goes unnoticed exactly when no deleted row of the org comes before a kept one |
| Audit.PurgeBreaksChain | cspm/tasks.py:87-91 | the purge keeps an honestly built log verifiable exactly when it removes none or all of the org's rows |
| AuditRace.RowTellsItsRecording | cspm/shared/audit.py:51-72 | in every interleaving each row holds the content of the append that wrote it and is numbered and linked after the row its own read returned |
| AuditRace.RecordExtendsHonest | cspm/shared/audit.py:51-72 | an undisturbed recording extends its org's honest log by one entry and leaves other orgs alone |
| AuditRace.VerifiesIffSequential | cspm/shared/audit.py:51-72 | in every interleaving an org's log verifies exactly when no two of its committed windows overlapped, and then it is numbered 1..n |
| AuditRace.OverlapIsPermanent | cspm/shared/audit.py:51-72 | nothing recorded later restores a log whose windows overlapped |
| AuditPurge.BeheadedIff | cspm/tasks.py:87-91 | a purge leaves an honest log without a chain start exactly when it removes the oldest row and keeps another |
| AuditPurge.BrokenUntilEmptied | cspm/tasks.py:87-91 | after such a purge, with no request pending that found no row, and over every interleaving of recordings and purges, the org verifies again only when its last row is gone |
| AuditPurge.RevivableIff | cspm/shared/audit.py:51-72 | such a log can verify again without being emptied exactly when a request that found no row is still to write |
| AuditForest.SurvivorsFormPath | cspm/shared/audit.py:51-92 | after any interleaving and the deletion of any rows, an org's log verifies exactly when the rows left can be arranged so that the first was recorded on an empty log and each next one after reading the one before |
| AuditForest.SomeRowVerifies | cspm/shared/audit.py:78-93 | some row of any recorded log verifies when it alone is left |
| Subscription.OneTrialPerOrg | cspm/billing/entitlements.py:42-73 | over every run one trial at most is entered, a used trial stays used, and a paid effective plan means active or an unexpired trial |
| Subscription.ReadAnswers | cspm/billing/entitlements.py:42-55 | after any run a read answers the stored plan for an active row and for a trial that has not passed its end, and free in every other case |
| Subscription.TrialEntitles | cspm/billing/entitlements.py:58-73 | a trial that starts entitles to its plan for 14 days and to nothing after them, whatever reads and refused requests come between |
| Subscription.PlanLookup | cspm/billing/plans.py:118-119 | every plan is found under its own id and any other id means the free plan |
| Subscription.DaysLeftRoundsUp | cspm/api/billing_router.py:48-54 | the page rounds the time left of a trial up to whole days |
| Subscription.ReadsAreInvisible | cspm/billing/entitlements.py:42-55 | without invoice.paid, extra plan reads anywhere change no decision, limit or later effective plan, and of the billing pages at most the stored plan and the status on the plans page |
| Subscription.LazyExpiryIsEager | cspm/billing/entitlements.py:44-51 | without invoice.paid and up to the same columns, expiring a trial lazily shows what expiring it on time would show |
| Subscription.ReadInvisibleIff | cspm/api/billing_router.py:24-64 | all events considered, a read is invisible to every future exactly when it does not expire a trial of a plan the futures can notice: a paid one, any but free with the subscription page, any with the plans page |
| Subscription.LazyIsEagerIff | cspm/api/billing_router.py:24-64 | lazy and on-time expiry look alike in every future exactly when the trial was used and none is in progress whose end those futures can notice |
| Billing.Gateway.PlanOf | cspm/billing/entitlements.py:42-55 | answers the row's plan when it is active or in a trial that has not passed its end, else free; only a lapsed trial is written, as canceled and free |
| Billing.Gateway.ShowPlans | cspm/api/billing_router.py:24-35 | shows the stored plan and status and changes neither |
| Billing.Gateway.ShowSubscription | cspm/api/billing_router.py:38-64 | resolves the plan first, then shows the row, the days left and the plan that limits usage |
| Billing.Gateway.StartTrial | cspm/billing/entitlements.py:58-73 | refuses a used trial and a paid active plan and leaves the row; else sets plan, status, the used mark and an end 14 days on |
| Billing.Gateway.ChangePlan | cspm/billing/stripe_gateway.py:55-63 | sets plan and status; an unknown plan touches nothing |
| Billing.Gateway.ManualCheckout | cspm/billing/stripe_gateway.py:79-86 | sets plan, status and stamp for starter, pro, business and mssp, and refuses all others |
| Billing.Gateway.StripeWebhook | cspm/billing/stripe_gateway.py:144-189 | the table changes as the webhook of that name and content says; an unknown plan in a checkout is refused |
| Billing.Gateway.RazorpayWebhook | cspm/billing/razorpay_gateway.py:112-136 | the same for Razorpay, where only a bad signature is refused |
| Billing.HookEffect | cspm/billing/stripe_gateway.py:155-186 | by event name, exactly which columns a webhook of either gateway leaves in the row of the org it names, and that no other row changes; an unknown name, no org or a bad signature changes nothing |
| Billing.OrgsAreIsolated | cspm/billing/stripe_gateway.py:155-186 | an org's row depends on the verified webhooks that name it alone |
| Billing.LastWriterWins | cspm/billing/razorpay_gateway.py:126-133 | after any sequence of named webhooks of both gateways, plan and status are those the last webhook to write them says by its name |
| Billing.ReplaysAreHarmless | cspm/billing/stripe_gateway.py:155-186 | replaying each webhook of any sequence right away changes nothing but updated_at |
| ScanQuota.ScanService.TriggerScan | cspm/api/router.py:211-237 | checks ownership, then the quota, then stores the run, failed or queued ones included; succeeds exactly when both pass and the scan does not fail |
| ScanQuota.ScanService.IngestProwler | cspm/api/router.py:269-297 | refuses for plan, ownership, quota and payload, each exactly when those before it pass; stores a completed run only if all pass |
| ScanQuota.ScanService.WorkerRun | cspm/service.py:108-145 | completes a stored run in place and gives it its start time |
| ScanQuota.QuotaVerdict | cspm/billing/plans.py:58-113 | the check refuses exactly at 10, 100, 1000 and 5000 runs for the four limited plans and never for the other two |
| ScanQuota.CountedRuns | cspm/billing/entitlements.py:103-112 | the count grows exactly by started runs of the org's own accounts from the start of the month on |
| ScanQuota.StoredRunsWithinQuota | cspm/billing/entitlements.py:103-122 | over every run of all paths, the runs stored in a month exceed those started by workers by no more than the quota seen by a successful check for that month |
| ScanQuota.PlanLimits | cspm/billing/entitlements.py:115-122 | an org that stays on one plan and uses no workers never stores more runs in a month than the plan allows |
| ScanQuota.QueueTrafficConserves | cspm/service.py:99-126 | an accepted trigger waits until a worker starts it and is stored at the worker's time, whatever the interleaving |
| ScanQuota.QueueingIsUnchecked | cspm/billing/entitlements.py:103-122 | the verdict of the check depends on the runs started in the month and never on the waiting ones |
| ScanQuota.BurstIsAccepted | cspm/api/router.py:218-236 | when the quota admits one trigger, all of a burst are accepted |
| ScanQuota.WorkersStayWithinIff | cspm/service.py:122-126 | every way the workers may go on keeps the month within a number of runs exactly when its stored and the waiting runs fit |
| ScanQuota.QueuedPathBound | cspm/billing/entitlements.py:103-122 | the same after any interleaving of triggers and workers, starts in other months discounted |
| RateLimiter.RateLimitMiddleware.Dispatch | cspm/api/middleware.py:58-74 | prunes the key's deque, then admits and appends or refuses; probes bypass |
| RateLimiter.ExemptIff | cspm/api/middleware.py:59-60 | exactly the paths ending in /health, /ready or /metrics bypass the limiter |
| RateLimiter.PrunedDequeIsRecentHistory | cspm/api/middleware.py:62-66 | each deque is sorted and, pruned, equals all accepted times of the closed last 60 seconds |
| RateLimiter.RefusedIffWindowFull | cspm/api/middleware.py:65-72 | a request is refused exactly when the limit of accepted ones lie in the last 60 seconds |
| RateLimiter.AtMostLimitPerWindow | cspm/api/middleware.py:46-51 | every closed 60-second interval holds at most the limit |
| RateLimiter.QuietKeyIsAdmitted | cspm/api/middleware.py:65-74 | a key with no accept for more than 60 seconds is admitted |
| RateLimiter.KeysAreIndependent | cspm/api/middleware.py:62-64 | a key's window and history are those of its own requests |
| Base64Url.RoundTrip | cspm/security/crypto.py:49-53 | decoding an encoded token gives the bytes back |
| Base64Url.EncodedBits | cspm/security/crypto.py:49 | one, two or three bytes are encoded as the base-64 digits of their bits in the alphabet of section 5 of RFC 4648, padded to four characters |
| Base64Url.EncodedInGroups | cspm/security/crypto.py:49 | longer strings are encoded three bytes at a time |
| Envelope.ValidUtf8Iff | cspm/security/crypto.py:60 | the strict UTF-8 test accepts exactly the encodings of sequences of characters |
| Envelope.FormatLayout | cspm/security/crypto.py:3-4 | the offsets of all fields of a blob, the two-byte length with its high byte first |
| Envelope.ParseBlob | cspm/security/crypto.py:57-67 | the cursor reads the four fields at the offsets the length bytes announce, with clamped slices; it fails without a length byte and on a reference that is not UTF-8 |
| Envelope.ParseOfFormat | cspm/security/crypto.py:40-67 | the parser recovers exactly the four formatted fields |
| Envelope.FormatOfParse | cspm/security/crypto.py:57-67 | a parsed blob re-encodes to itself, with a full nonce, exactly when the parser did not run short |
| Envelope.DecryptUndoesEncrypt | cspm/security/crypto.py:33-70 | decrypt after encrypt is the identity; encryption refuses exactly what does not fit the length fields |
| Envelope.DecryptAnswers | cspm/security/crypto.py:52-70 | the answer for every blob in the v2 layout, sealed here or not: the opened text or the first failure |
| Envelope.LegacyAnswers | cspm/security/crypto.py:73-77 | the answer for every blob on the legacy path |
| Envelope.ShortTokensFail | cspm/security/crypto.py:52-77 | how every token too short to hold a text fails |
| Envelope.LegacyDispatch | cspm/security/crypto.py:54-77 | the first nonce byte alone decides whether a v1 blob takes the legacy path or the v2 parser |
| Envelope.LegacyReadableIff | cspm/security/crypto.py:54-77 | under every provider and for every text, a v1 token decrypts to its text exactly when its nonce does not start with 2; a text under four bytes then gives an error |
| Envelope.LegacyTextShrinks | cspm/security/crypto.py:57-70 | a v1 token taken for v2 never decrypts to more than its text less four bytes |
| Envelope.TokensStayReadable | cspm/security/crypto.py:6-9 | over any run of rotations that still unwrap old references, every token ever issued decrypts without being rewritten |
| Envelope.RootKeyRotates | cspm/security/crypto.py:6-9 | changing a remote provider's key id keeps every readable token readable, as long as the service decrypts under both ids |
| Envelope.EnvKeyReplaced | cspm/security/keyprovider.py:41-55 | a token issued under one environment key decrypts under another exactly when that key opens the sealed text |
| Findings.KeyIsInjective | cspm/auditors/findings.py:33-36 | the dedup key is injective when account and check ids have no bar |
| Findings.KeyIsUniqueIff | cspm/auditors/findings.py:33-36 | among all triples a key determines its triple exactly when no part has a bar |
| Findings.FindingTable.PersistFindings | cspm/service.py:64-96 | appends rows of the batch that name the account and scan run and carry the hash of their own account, check and resource; afterwards each finding of the batch has a row of its account, check and resource |
| Findings.EachFindingIsStored | cspm/service.py:64-96 | after persisting, every finding of the batch has exactly one row with its account, check and resource |
| Findings.NewRowsHashes | cspm/service.py:73-96 | the new rows have exactly the unknown hashes of the batch, each once |
| Findings.NewRowsAreFirst | cspm/service.py:75-95 | each new row is made of the first finding with its hash |
| Findings.PersistedTable | cspm/service.py:73-96 | the stored hash set becomes the union and stays duplicate-free |
| Findings.AddsNothingIff | cspm/service.py:67-85 | a batch adds no row exactly when the table has all its dedup hashes |
| Findings.RescanAddsNothing | cspm/service.py:67-85 | a rescan with no new dedup key adds no row, also when the findings' other fields changed |
| ApiKeys.SplitRecoversPrefix | cspm/auth/apikeys.py:47-50 | splitting a token recovers its prefix for every secret, underscores included |
| ApiKeys.KeyTable.CreateApiKey | cspm/auth/apikeys.py:25-42 | stores the hash of the returned token, and not the token |
| ApiKeys.KeyTable.VerifyApiKey | cspm/auth/apikeys.py:45-60 | returns what the lookup finds and stamps that key alone |
| ApiKeys.LookupFailsIff | cspm/auth/apikeys.py:51-53 | the lookup fails exactly when two unrevoked keys share the prefix |
| ApiKeys.LookupAgreesWithScan | cspm/auth/apikeys.py:45-60 | otherwise it finds a key exactly when a scan of all unrevoked keys by hash does, and the same one |
| ApiKeys.NewKeyVerifies | cspm/auth/apikeys.py:25-60 | a fresh key whose prefix is not in use verifies, to itself |
| Compliance.ComputeScores | cspm/compliance/engine.py:19-40 | scores exactly the frameworks some check maps to; the failed checks are the mapped ones among the failures, and the score is the percentage of the others to the nearest tenth |
| Compliance.MoreFailuresNeverHelp | cspm/compliance/engine.py:30-32 | adding failures never raises a score |
| Compliance.PerfectScoreIff | cspm/compliance/engine.py:32 | a score reads 100.0 exactly when at most one check in 2000 failed |
| Compliance.EvidenceReport | cspm/compliance/engine.py:64-97 | the score of all finding ids, and for each check mapped to the framework exactly its control rows |
| Compliance.ReportTells | cspm/compliance/engine.py:73-90 | the rows of each mapped check are one per control in order, failed exactly when the check has a finding, with the resources of its findings in order; no other check has rows |

## Left out

- Cloud auditors, connectors, `fakes.py`, the attack-path, CIEM, inventory and AI modules: remote calls or
  constant data.
- HTTP, ORM, Celery and the web front end: a request is one step, except for the two-step audit append.
- Rollback command text, alerts, compliance snapshots and invoices: string templates and projections.
- `check_account_limit`, `check_api_key_limit`: the same count-below-limit shape as the scan quota.
- `dev/seed`, which scans without a quota check outside production: excluded from the quota bound.
- ScanQuota.ScanService.WorkerRun: each queued message is delivered once, while its row exists.
- Cascading deletion is modelled for scan runs only. The purge of resolved findings is not modelled.
- `remediation_priority`, `controls_for_check`, the defaults a finding fills in for itself, and the way the
  limiter builds its key from host and org: one-line computations.
- Strings with lone surrogates, which have no UTF-8 encoding. Lower-casing is ASCII.
- Base64Url.RoundTrip: decoding text that is not canonical base64 is not modelled; Python skips foreign
  characters, the model rejects them.
- Compliance.ComputeScores: scores are exact tenths rounded half to even, without floating-point error, and
  the sorted order of frameworks and checks is left open.
- DriftDetector.ClassifyChange: a resource type that is not a string counts as not sensitive, where Python
  may raise an error for an unhashable one.
- DriftStore.Tables.RunDriftCheck: `resource_type` of a baseline row is not kept, because nothing reads it.
- Findings.FindingTable.PersistFindings: two scans committing at the same time are not interleaved.
- RateLimiter.RateLimitMiddleware.Dispatch: the counter text and headers of the 429 reply are left out.
- Subscription.OneTrialPerOrg: the gateway checkout, which changes external ids only, is not an event.
