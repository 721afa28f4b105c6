# Verified model of the site-management server's core

This project models the parts of a building-site management server whose correctness is hardest to see by reading one
function, and proves what they promise.

- **Call-forward programmes.** A job's programme is a set of rows with parent links. A stack-driven walk turns any such
  set, cyclic or not, into a parent-first list (`TreeWalk`, specified by `Forest`). The list is renumbered into a
  template and checked (`Templates`), captured, written out and captured again (`RoundTrip`), and applied to a job that
  may already hold rows (`ApplyTemplate`). `CallForwardService` and `CallForwardItem` are the operations that build
  programmes, `CallForwardEffects` what each of them does, row by row; `TemplateRuns` adds saving and applying templates
  to their runs, and `TemplateEffects` says what comes of saving, applying and saving again.
- **Weather.** A per-user rate limiter and a reading cache share one shape, a map of timestamped entries kept below a
  size (`BoundedMap`). Each is proved against the unbounded thing it stands in for, over whole timed histories
  (`RateLimiter`, `WeatherCache`), and it is told from the calls alone when either gives up something still valid
  (`LimiterEvictions`, `CacheEvictions`).
- **Refresh tokens.** Rotation, reuse detection, logout and password reset over one token table (`RefreshTokens`).
- **The deletion worker.** One pass over the queue and its drain measure (`Sweeper`); several workers interleaved, each
  stoppable between any two operations (`SweeperProtocol`).
- **Photo attachment.** Checking a batch of uploaded objects before any row is written, and cleaning up when it fails
  (`Photos`).
- **Billing.** Which Stripe customer and subscription is recorded against which company, what a checkout sells, and who
  gets a free month (`Billing`, `FreeMonth`); `CheckoutEffects` tells each call from Stripe's own records.
- **Text and arithmetic.** Redaction of internal reasons from notes (`Redaction`), delay buckets (`DelaySeverity`),
  month windows and the claim horizon (`Calendar`).

`Base` and `Text` hold what the others share. Operations that change state are methods of classes, each proved equal to
a specification function on the state before; what the system promises is then proved of that function, over single
steps and over whole runs. Outside services become parameters: clocks are one `now` per call that never goes back, ids
and hashes handed out are new, and each call says which outside operations fail.

## What the proofs found

- Validation of a captured programme accepts exactly the acyclic ones (with titles, known types and at most 2000 rows).
- No run of create, bulk create and update ever makes a cycle, even when an update changes an item's type, and saving
  and applying templates in between makes none either. Of the first three, exactly one thing breaks the rule that only
  headers have children: an update that retypes a header that has children.
- Saving a programme that has rows, applying it to any job and saving that job gives back what was saved, after the
  job's own items if they were kept; other jobs' programmes are untouched.
- A limiter or cache at its size limit makes room even when the caller's own key is already in it. A user whose window
  is used up can so lose it and get an eleventh call through, and a location can lose a valid reading to one that was
  already there; both are exhibited. The first eviction comes exactly when 10,000 users have a window running, or 500
  locations a valid reading; while fewer users called in the last minute, or fewer locations were stored in the last ten
  minutes, nothing is ever given up.
- A note that repeats the internal heading below the resume heading is sent out with it. One pass is enough exactly when
  the kept text has no further internal heading; for notes with a banner before the first such heading, repeating the
  redaction always ends with none.
- Of the lines that fit the documented banner pattern, some are not recognised, for exactly three reasons: something
  other than a space follows `ETO`, nothing visible stands before the first dash, or the first dash is not the one before
  the order heading, as in a job number with a dash in it.
- The comment on checkouts says that cancelling and subscribing again cannot earn another free month. A company can earn
  another exactly as long as no subscription of it is recorded or a checkout that carries a free month is still open:
  confirming one checkout does not close an older one.
- Confirming a checkout compares customers and never the company the session was opened for; in every reachable state
  the two come to the same.
- The title and trade limits are worded in characters and count UTF-8 bytes. They do as worded exactly if the text is
  over the limit in characters too, or within it in bytes, which plain ASCII always is.
- The month parameter is documented as `YYYY-MM`. What is read is any two unsigned numbers, each perhaps after a plus,
  with a dash between them, that name a month the calendar goes on after.
- A batch that fails discards the objects it had accepted, and with them the object of a row saved earlier if the batch
  names it again. Whatever goes wrong during a request, saved rows keep their objects exactly if it is refused before
  storage is looked at, or names no saved object among the uploads before the first one that storage would refuse, nor
  as that one if it would be looked at and rejected.
- A password reset is spent before the user's tokens are revoked. If the revocation works, none of the tokens the user
  had is accepted in any later run, whoever logs in again; if it fails, every one that was live still can be, and no
  reset the user held can be claimed to try again.
- Applying a template with no items leaves the job alone even when asked to replace its programme.

## Model

| member | source | states |
|---|---|---|
| TreeWalk.GroupByParent | crates/pmk-domain/src/call_forward/templates.rs:119-127 | the children map holds, for every parent and for none, the rows with that effective parent sorted by sort order and id |
| TreeWalk.Walk | crates/pmk-domain/src/call_forward/templates.rs:131-148 | the stack loop ends on every parent graph and emits the recursive preorder of the forest |
| TreeWalk.InTreeOrder | crates/pmk-domain/src/call_forward/templates.rs:116-160 | the walk is the recursive preorder followed by the unreachable rows in input order |
| Forest.SortSpec | crates/pmk-domain/src/call_forward/templates.rs:125-127 | siblings end up strictly ordered by sort order and id, none lost |
| Forest.ChildrenSpec | crates/pmk-domain/src/call_forward/templates.rs:119-127 | a row is listed under its parent exactly if that parent is present, and as a root otherwise |
| Forest.ChildrenAre | crates/pmk-domain/src/call_forward/templates.rs:119-127 | row by row: listed under the present row its parent id names, else as a root; by sort order, and of two with the same the smaller id first |
| Forest.PreorderSpec | crates/pmk-domain/src/call_forward/templates.rs:129-148 | the preorder holds exactly the rows whose parent chain ends at a root, each once |
| Forest.TreeOrderIsPermutation | crates/pmk-domain/src/call_forward/templates.rs:150-160 | capture is lossless: the order is a permutation of the rows for every parent graph |
| Forest.RootedIffAcyclic | crates/pmk-domain/src/call_forward/templates.rs:129-152 | every chain of present parents ends at a root exactly if no row is its own ancestor |
| Forest.ArrivalOrderIrrelevant | crates/pmk-domain/src/call_forward/templates.rs:122-127 | the order does not depend on the order the rows arrive in, if there is no cycle |
| RoundTrip.SubtreeIsContiguous | crates/pmk-domain/src/call_forward/templates.rs:138-148 | a row and its descendants, and nothing else, form one block of the order, the row first |
| Templates.ValidateItems | crates/pmk-domain/src/call_forward/templates.rs:43-88 | the one-pass checker reports the size limit or else the first faulty item's first fault |
| Templates.VerdictFromSpec | crates/pmk-domain/src/call_forward/templates.rs:51-87 | a template passes exactly if no item of it has a fault |
| Templates.AcceptedIff | crates/pmk-domain/src/call_forward/templates.rs:43-88 | exactly which templates are accepted: at most 2000 items, each titled, of a known type, with a local id of its own and a parent, if any, that came before |
| Templates.Capture | crates/pmk-domain/src/call_forward/templates.rs:162-191 | capture renumbers the tree order |
| Templates.CaptureSpec | crates/pmk-domain/src/call_forward/templates.rs:176-190 | item i describes row i of the order; its parent is the position of that row's parent, or none if absent |
| Templates.FirstLeftoverRefersForward | crates/pmk-domain/src/call_forward/templates.rs:150-157 | the first row no root reaches refers to itself or to a later item |
| Templates.RootedItemFault | crates/pmk-domain/src/call_forward/templates.rs:65-84 | rows the walk reached are never faulted on ids or parents |
| Templates.ValidationDecidesAcyclicity | crates/pmk-domain/src/call_forward/templates.rs:43-191 | a captured programme is accepted exactly if it is small enough, labelled, and free of cycles |
| Templates.CycleIsReported | crates/pmk-domain/src/call_forward/templates.rs:150-152 | on a labelled programme of acceptable size a cycle is what gets reported |
| RoundTrip.CaptureRoundTrip | crates/pmk-domain/src/call_forward/templates.rs:116-191 | writing a capture out under any new ids and capturing again gives the same items, cycles included |
| ApplyTemplate.Apply | crates/pmk-infra/src/repo/cf_template.rs:184-237 | appending keeps every row there was, replacing keeps none, and a template without items changes nothing; every item gets its row, with the next new id, its own labels, a place behind everything kept, and the new id of the item its parent names, if that came before |
| ApplyTemplate.ValidTemplateAppliesWhole | crates/pmk-infra/src/repo/cf_template.rs:211-218 | for a validated template one pass resolves every parent link |
| ApplyTemplate.OrdersSideBySide | crates/pmk-infra/src/repo/cf_template.rs:201-209 | a template applied after a programme does not interleave with it |
| ApplyTemplate.AppendThenCapture | crates/pmk-infra/src/repo/cf_template.rs:167-238 | writing a capture out behind an acyclic programme and capturing again gives the old items followed by the template's, renumbered |
| ApplyTemplate.ApplyThenCapture | crates/pmk-infra/src/repo/cf_template.rs:167-238 | the same of the rows `Apply` leaves when it appends an accepted capture |
| ApplyTemplate.ReplaceThenCapture | crates/pmk-infra/src/repo/cf_template.rs:193-199 | of the rows it leaves when it replaces, the capture is the one that was applied, whatever was there |
| CallForwardService.Service.Create | crates/pmk-app/src/call_forward/service.rs:145-162 | stores exactly one item, under the next id, that says what the input says, after everything on the job if no place is given; or changes nothing and reports the first fault |
| CallForwardService.Service.CreateBulk | crates/pmk-app/src/call_forward/service.rs:169-222 | checks every entry, then stores all of them in order under consecutive ids with local parents resolved, or none; no other item changes |
| CallForwardService.Service.InsertEntries | crates/pmk-infra/src/repo/call_forward.rs:199-226 | inserts in order, so a local parent index always names a row that exists |
| CallForwardService.Service.Update | crates/pmk-app/src/call_forward/service.rs:224-247 | rewrites the one item to what the input says, parent link included, keeping its job, and its type and sort order where none is given; no other item changes |
| CallForwardService.Service.CreateTemplate | crates/pmk-app/src/call_forward/service.rs:306-332 | returns the validated capture of the job's programme, or the first reason not to |
| CallForwardService.MaxSort | crates/pmk-infra/src/repo/call_forward.rs:97-98 | is the largest sort order in use on the job, if it has any items; an item without one of its own goes after it |
| CallForwardService.BulkVerdictSpec | crates/pmk-app/src/call_forward/service.rs:189-212 | a batch passes exactly if every entry does |
| CallForwardService.ProgrammeSpec | crates/pmk-infra/src/repo/cf_template.rs:83-106 | the programme read for capture is the job's rows and no others, each once, by sort order and id |
| CallForwardService.CreateKeepsSound | crates/pmk-app/src/call_forward/service.rs:145-162 | an accepted create keeps links on the job, off headers, and without cycles |
| CallForwardService.BulkKeepsSound | crates/pmk-app/src/call_forward/service.rs:164-222 | so does an accepted batch, at every point of its insertion |
| CallForwardService.UpdateKeepsSound | crates/pmk-app/src/call_forward/service.rs:224-247 | so does an accepted update, even one that changes the item's type |
| CallForwardService.RunsKeepSound | crates/pmk-app/src/call_forward/service.rs:126-247 | every run of the three keeps every programme sound and every item titled |
| CallForwardService.UpdateKeepsHeadersIff | crates/pmk-domain/src/call_forward/item.rs:38-43 | an update leaves a non-header with children exactly if it retypes a header that has some |
| CallForwardService.RunsKeepHeadersIff | crates/pmk-domain/src/call_forward/item.rs:151-185 | over any run only headers have children throughout exactly if no step retypes one that has some |
| CallForwardService.RetypingBreaksHeaders | crates/pmk-app/src/call_forward/service.rs:232-240 | a run of two creates from nothing, and an accepted update after which a task has a child |
| CallForwardService.TwoLevels | crates/pmk-domain/src/call_forward/item.rs:178-183 | with only headers having children a programme is two levels deep at most |
| CallForwardService.SoundProgrammesCapture | crates/pmk-app/src/call_forward/service.rs:321-326 | a sound programme is acyclic and its capture passes validation, unless it is too large |
| CallForwardService.EveryProgrammeCaptures | crates/pmk-app/src/call_forward/service.rs:126-332 | after any run of create, bulk create and update from nothing, saving a template fails on size alone, never on a parent reference |
| CallForwardEffects.InputAcceptedIff | crates/pmk-domain/src/call_forward/item.rs:104-146 | exactly which inputs are accepted |
| CallForwardEffects.CreateAcceptedIff | crates/pmk-app/src/call_forward/service.rs:145-156 | exactly which creations: a fit input on a visible job, and a parent that is a header on that job for anything but a header |
| CallForwardEffects.UpdateAcceptedIff | crates/pmk-app/src/call_forward/service.rs:224-240 | exactly which updates: those, and no item its own parent |
| CallForwardEffects.BulkAcceptedIff | crates/pmk-app/src/call_forward/service.rs:174-212 | exactly which bulk requests: one to 500 fit entries, each under an earlier header entry or a stored header, or at the top |
| CallForwardEffects.CreateShows | crates/pmk-infra/src/repo/call_forward.rs:87-118 | an accepted creation adds one row, shown below the parent named and, if no place is given, one after the last; all other rows of all jobs stay |
| CallForwardEffects.BulkShows | crates/pmk-infra/src/repo/call_forward.rs:199-226 | an accepted bulk request adds a row for every entry, shown below the row its parent index or parent id names; all other rows stay |
| CallForwardEffects.UpdateShows | crates/pmk-infra/src/repo/call_forward.rs:228-262 | an accepted update leaves one row with the id, saying what was asked, shown below the parent named or at the top; all other rows stay |
| CallForwardService.TitleLimitCountsBytes | crates/pmk-domain/src/call_forward/item.rs:105-114 | a title is refused as too long exactly if it takes more than 500 bytes; when that is and is not what the wording says |
| CallForwardService.TradeLimitCountsBytes | crates/pmk-domain/src/call_forward/item.rs:115-122 | the same for a trade and 150 bytes |
| CallForwardService.ShortTitleIsRefused | crates/pmk-domain/src/call_forward/item.rs:109-114 | a title of 251 characters that is refused as longer than 500 |
| TemplateRuns.CapturedIsGood | crates/pmk-app/src/call_forward/service.rs:321-331 | a template saved from a sound programme gives no header a parent |
| TemplateRuns.ApplyKeepsSound | crates/pmk-infra/src/repo/cf_template.rs:191-237 | applying such a template, replacing or appending, keeps every programme sound |
| TemplateRuns.RunsKeepInv | crates/pmk-app/src/call_forward/service.rs:145-395 | so does every run of creating, updating, saving templates and applying them |
| TemplateRuns.EveryProgrammeStillCaptures | crates/pmk-app/src/call_forward/service.rs:301-395 | after any such run from nothing, saving a template fails on size alone |
| TemplateEffects.ApplyIsOnTheRows | crates/pmk-infra/src/repo/cf_template.rs:191-237 | the programme a run shows after an application has exactly the rows that applying the template to the rows before gives |
| TemplateEffects.ApplySparesOtherJobs | crates/pmk-infra/src/repo/cf_template.rs:193-199 | and every other job's programme is what it was |
| TemplateEffects.SaveApplySave | crates/pmk-app/src/call_forward/service.rs:306-395 | saving one job's programme that has rows, applying that to a job and saving that job gives what was saved, behind the job's own items if it was not replaced |
| BoundedMap.MakeRoom | crates/pmk-app/src/weather/service.rs:85-96 | a full map drops what has expired and, only if still full, one entry with the oldest timestamp |
| BoundedMap.RoomThenInsert | crates/pmk-infra/src/weather.rs:87-107 | after making room an insertion stays within the cap |
| BoundedMap.OnlyFullMapsForget | crates/pmk-infra/src/weather.rs:88-100 | an unexpired entry goes only from a map full of unexpired entries, and it is an oldest one |
| BoundedMap.EvictsIff | crates/pmk-app/src/weather/service.rs:85-96 | an unexpired entry is given up exactly by a map that is full and holds nothing expired |
| RateLimiter.CountCall | crates/pmk-app/src/weather/service.rs:98-112 | counts a call against a window, restarting one that has run out |
| RateLimiter.WeatherLimiter.CheckRate | crates/pmk-app/src/weather/service.rs:80-113 | appends the call and its answer to a valid history; a poisoned lock admits and changes nothing |
| RateLimiter.MapStaysBounded | crates/pmk-app/src/weather/service.rs:21-25 | on no run does the map exceed 10,000 users |
| RateLimiter.AnswersAreTheCounters | crates/pmk-app/src/weather/service.rs:80-113 | call for call the map answers as the user's own counter, wiped where that user was evicted |
| RateLimiter.BoundIsUnobservable | crates/pmk-app/src/weather/service.rs:85-87 | for users never evicted the answers are those of an unbounded counter per user |
| RateLimiter.CountIsAdmissions | crates/pmk-app/src/weather/service.rs:98-111 | for a user never evicted, a window's count is exactly the calls admitted since it started, at most ten |
| RateLimiter.AtMostTwoWindowsFull | crates/pmk-app/src/weather/service.rs:13-19 | for a user never evicted, at most twenty calls get through in any half-open sixty seconds |
| RateLimiter.RefusedOnlyAfterTen | crates/pmk-app/src/weather/service.rs:106-110 | for a user never evicted, a refusal means the running window has admitted exactly ten |
| LimiterEvictions.EvictionIff | crates/pmk-app/src/weather/service.rs:85-96 | a call evicts exactly if the map is full and every window in it is running |
| LimiterEvictions.FirstEvictionIff | crates/pmk-app/src/weather/service.rs:85-96 | the first eviction of a run comes exactly when 10,000 users have windows of their own running, told from the calls |
| LimiterEvictions.FewCallersNoEvictions | crates/pmk-app/src/weather/service.rs:21-25 | with fewer than 10,000 callers in the sixty seconds before each call nobody is ever evicted |
| LimiterEvictions.FewCallersAreCountedApart | crates/pmk-app/src/weather/service.rs:80-113 | and every answer is that of an unbounded counter per user |
| LimiterEvictions.OwnWindowIsLost | crates/pmk-app/src/weather/service.rs:85-101 | a reachable full map from which a caller already in it loses a used-up window, so that an eleventh call gets through |
| LimiterEvictions.AdmittedInAnyStretch | crates/pmk-app/src/weather/service.rs:98-112 | for every user at most twenty calls get through in any half-open sixty seconds, and ten more for each eviction of that user in it |
| LimiterEvictions.RefusedAfterTen | crates/pmk-app/src/weather/service.rs:106-110 | whoever is refused, evicted before or not, has had at least ten calls admitted within the last sixty seconds |
| WeatherCache.Cache.Cached | crates/pmk-infra/src/weather.rs:71-81 | appends the lookup and what it found to a valid history; a poisoned lock finds nothing |
| WeatherCache.Cache.Store | crates/pmk-infra/src/weather.rs:83-108 | appends the store and whom it evicted to a valid history; a poisoned lock keeps nothing |
| WeatherCache.HitsAreLatestStores | crates/pmk-infra/src/weather.rs:71-81 | a lookup hits exactly if the latest reading stored under its key is younger than the TTL and was not given up, and returns it |
| WeatherCache.LatestIsAStore | crates/pmk-infra/src/weather.rs:101-107 | that reading was stored under that key with nothing stored under it since |
| WeatherCache.CacheStaysBounded | crates/pmk-infra/src/weather.rs:27-28 | on no run does the cache exceed 500 readings |
| WeatherCache.StoreForgetsOnlyWhenFull | crates/pmk-infra/src/weather.rs:87-100 | a store forgets another valid reading only when all 500 are valid, and then an oldest |
| CacheEvictions.EvictionIff | crates/pmk-infra/src/weather.rs:87-100 | a store evicts exactly if the cache is full and every reading in it is valid |
| CacheEvictions.FirstEvictionIff | crates/pmk-infra/src/weather.rs:87-100 | the first eviction of a run comes exactly when 500 locations have a valid latest reading, told from the stores |
| CacheEvictions.FewKeysForgetNothing | crates/pmk-infra/src/weather.rs:71-108 | with fewer than 500 locations stored in the ten minutes before each call, every lookup finds the latest valid reading |
| CacheEvictions.ValidReadingIsLost | crates/pmk-infra/src/weather.rs:87-107 | a reachable full cache in which storing a location already there drops another one's valid reading |
| RefreshTokens.AuthService.IssueInFamily | crates/pmk-app/src/identity/service.rs:409-422 | stores one live token in the family, or nothing if signing or storing fails |
| RefreshTokens.AuthService.Login | crates/pmk-app/src/identity/service.rs:274-318 | starts a new family for good credentials; every failure looks alike and changes nothing |
| RefreshTokens.AuthService.Rotate | crates/pmk-app/src/identity/service.rs:324-355 | answers with a session exactly if the writes work and the stored record is unspent, not revoked, unexpired and an active user's; it then spends that token and stores a live successor; else revokes the family or the user, as the record decides, or nothing |
| RefreshTokens.AuthService.EndSession | crates/pmk-app/src/identity/service.rs:357-365 | revokes the presented token's family unless that write fails; unknown tokens change nothing |
| RefreshTokens.AuthService.KeepReset | migrations/0013_bootstrap_and_recovery.sql:138-153 | stores a new reset and spends the older ones of its user |
| RefreshTokens.AuthService.FinishReset | crates/pmk-app/src/identity/service.rs:242-266 | claims an unspent, unexpired reset and spends all the user holds, then revokes the user's tokens; the revocation may fail |
| RefreshTokens.ReachableStatesAreIntact | crates/pmk-app/src/identity/service.rs:324-422 | every run keeps families with one owner, revoked as a whole, and with at most one live token |
| RefreshTokens.IntactFromEmpty | crates/pmk-app/src/identity/service.rs:324-422 | so it is in every state reached from an empty table |
| RefreshTokens.DeadFamiliesStayDead | crates/pmk-app/src/identity/service.rs:330-340 | no run brings a dead family back to life |
| RefreshTokens.ReuseKillsFamily | crates/pmk-app/src/identity/service.rs:320-340 | presenting a spent token kills its family in every later run, exactly if the revocation works or nothing lived in it |
| RefreshTokens.LogoutKillsFamily | crates/pmk-app/src/identity/service.rs:357-365 | logging out kills the family in every later run, exactly under the same condition |
| RefreshTokens.SignedOutUntilLogin | crates/pmk-app/src/identity/service.rs:260-263 | a user without live tokens has none until the next login |
| RefreshTokens.ResetSignsOut | crates/pmk-app/src/identity/service.rs:260-263 | a reset whose revocation works, or a refresh by a deactivated user, leaves the user no live token until the next login |
| RefreshTokens.EverAcceptedIffLive | crates/pmk-app/src/identity/service.rs:330-354 | a stored token is accepted in some later run exactly if it is neither used nor revoked |
| RefreshTokens.ClaimedAtMostOnce | crates/pmk-app/src/identity/service.rs:252-259 | once a reset is claimed, neither it nor any other its user held is claimed in any later run |
| RefreshTokens.OneResetAtATime | migrations/0013_bootstrap_and_recovery.sql:134-153 | over every run a user holds at most one unspent reset |
| RefreshTokens.ResetRetiresTokensIff | crates/pmk-app/src/identity/service.rs:260-263 | of the tokens stored when a reset is claimed, its user's can be accepted in some later run, logins included, exactly if live and the revocation failed; others' exactly if they could before |
| RefreshTokens.FailedResetIsFinal | crates/pmk-app/src/identity/service.rs:249-266 | after a failed revocation nothing the user held can be claimed in any later run, while exactly the live tokens can still be accepted |
| RefreshTokens.AcceptedAtMostOnce | crates/pmk-app/src/identity/service.rs:333-353 | no token is accepted twice in any run |
| RefreshTokens.RotationHandsOver | crates/pmk-app/src/identity/service.rs:353-354 | after a refresh the returned token is the family's only live one; if issuing failed the family is dead |
| RefreshTokens.TokenFate | crates/pmk-infra/src/repo/refresh_token.rs:78-125 | what any step does to any stored token: gone exactly by a purge more than a week after expiry, spent exactly by its own exchange, revoked exactly with its family or its user; owner, family and expiry never change |
| RefreshTokens.TokenOrigin | crates/pmk-app/src/identity/service.rs:409-422 | a token appears exactly by a login or by an exchange, live and with their terms |
| RefreshTokens.NothingStaleIsExchanged | crates/pmk-app/src/identity/service.rs:341-351 | over any run no token is exchanged at or after its expiry, nor while its owner is not an active user |
| RefreshTokens.ResetFate | migrations/0013_bootstrap_and_recovery.sql:138-217 | a reset is spent exactly by its user's next one being stored or one of its user's being claimed; its user and expiry never change |
| Sweeper.Worker.Sweep | crates/pmk-worker/src/main.rs:145-183 | a pass deletes and marks the offered keys in order; a queue failure stops it with every earlier key settled |
| Sweeper.OfferableSpec | crates/pmk-infra/src/repo/media.rs:303-316 | exactly the queued keys with fewer than ten attempts are offered, each once |
| Sweeper.PendingSpec | crates/pmk-infra/src/repo/media.rs:303-316 | a batch is the fifty oldest keys on offer in the order they were queued, or all of them if there are fewer |
| Sweeper.PassAccounts | crates/pmk-worker/src/main.rs:156-178 | each offered key is settled exactly once: dropped if deleted, one attempt dearer if not; others stay |
| Sweeper.SweptSpec | crates/pmk-worker/src/main.rs:155-168 | what a pass reports is the offered keys whose deletion worked, each once |
| Sweeper.PassCosts | crates/pmk-worker/src/main.rs:170-176 | every key of a batch uses up at least one of the attempts left |
| Sweeper.PassesDrain | crates/pmk-worker/src/main.rs:170-176 | however deletions go, passes together offer no more keys than there were attempts left |
| Sweeper.EnoughPassesEmptyTheOffer | crates/pmk-worker/src/main.rs:170-174 | after enough passes nothing is offered any more |
| Sweeper.DeletableKeysLeave | crates/pmk-worker/src/main.rs:172-174 | an undeletable object does not block the rest: every deletable key leaves the queue |
| SweeperProtocol.CrashSafe | crates/pmk-worker/src/main.rs:144-183 | over any interleaving of workers stopped anywhere, a key once queued is still queued or its object is gone |
| SweeperProtocol.CrashSafeFromStart | crates/pmk-worker/src/main.rs:144-183 | so it is after every run from an empty queue and empty storage |
| SweeperProtocol.UnqueuedObjectsStay | crates/pmk-worker/src/main.rs:156-168 | no object is removed that nobody queued |
| SweeperProtocol.SweepersOnlySpend | crates/pmk-worker/src/main.rs:170-176 | no step but a new request adds to the attempts left |
| SweeperProtocol.RunsSpend | crates/pmk-worker/src/main.rs:170-176 | over any interleaving, marks on keys queued with attempts left are at most the attempts left at the start and ten per request |
| SweeperProtocol.OfferRunsOut | crates/pmk-worker/src/main.rs:170-176 | without further requests there are no more such marks than attempts left, and after that many nothing is on offer |
| SweeperProtocol.NextPassSpends | crates/pmk-worker/src/main.rs:150-178 | while something is on offer, an idle worker's next pass makes such a mark at its first key |
| SweeperProtocol.PassIsARun | crates/pmk-worker/src/main.rs:145-183 | the sequential pass is one run of the interleaved protocol |
| Photos.ProbeIsEnough | crates/pmk-domain/src/media.rs:147-238 | the sixteen-byte probe settles the type as surely as the whole object |
| Photos.ProbedContentIsGenuine | crates/pmk-domain/src/media.rs:147-238 | and accepts exactly content that begins as its type does |
| Photos.KindsAre | crates/pmk-domain/src/media.rs:70-138 | the accepted types are seven kinds of photo and five of film, and nothing else |
| Photos.AttachService.Discard | crates/pmk-app/src/media/upload.rs:75-81 | removes the one object unless deleting it fails |
| Photos.AttachService.Verify | crates/pmk-app/src/media/upload.rs:28-73 | accepts exactly an upload of a known type whose object is there, not empty, within 20 MB or for films 500 MB, and begins with its type's bytes; removes the object exactly if it was looked at and refused |
| Photos.AttachService.VerifyPhoto | crates/pmk-app/src/forms/service.rs:296-320 | refusing an upload takes the objects accepted before it along |
| Photos.AttachService.VerifyAll | crates/pmk-app/src/forms/service.rs:293-338 | stops at the first bad upload; if all are fit, yields one row per upload in order, with that upload's names and type, the item's key, and the object's own key and size |
| Photos.AttachService.AttachPhotos | crates/pmk-app/src/forms/service.rs:271-368 | exactly when it succeeds; it then appends one row per upload, with that upload's names and type, the item's key, and the object's own key and size, and keeps all objects; else it saves none and cleans up, on every exit |
| Photos.FirstBad | crates/pmk-app/src/forms/service.rs:295-320 | all uploads before it pass and it fails |
| Photos.AcceptedBatchIsPhotos | crates/pmk-app/src/forms/service.rs:311-319 | every upload of an accepted batch is a present, non-empty, in-limit photo whose whole content matches its type |
| Photos.FailedBatchLeavesNothing | crates/pmk-app/src/forms/service.rs:302-320 | a failed batch leaves no object accepted before the fault, unless deleting it failed, and touches nothing outside the batch |
| Photos.RefusedUnseen | crates/pmk-app/src/media/upload.rs:34-60 | a refused upload is left in storage exactly if it was never looked at |
| Photos.AlwaysBackedIffNotExposed | crates/pmk-app/src/forms/service.rs:295-366 | whatever fails during a request, saved rows keep their objects exactly if none of its uploads that are at risk names one, told before the call |
| Photos.DiscardsAreAtRisk | crates/pmk-app/src/forms/service.rs:295-366 | a call discards nothing but uploads before the first that storage would refuse, or that one if it is looked at and rejected |
| Photos.RunsKeepBackedIff | crates/pmk-app/src/forms/service.rs:271-368 | over any run of uploads and requests saved rows are sure to keep their objects exactly if no request is exposed when it is made |
| Photos.SavedObjectIsLost | crates/pmk-app/src/forms/service.rs:302-309 | a failing batch that names an attached object again takes it away |
| Billing.BandsPartitionSeats | crates/pmk-domain/src/billing.rs:30-70 | a positive seat count lies in exactly the band sold for it; any other count in none |
| Billing.CheckoutSellsTheBand | crates/pmk-domain/src/billing.rs:149-177 | a checkout is accepted exactly if the plan named is the band of a seat count that is positive and enough for the active users |
| Billing.SavedSeatsKeepTheBand | crates/pmk-infra/src/repo/billing.rs:132-137 | recorded plan and recorded seats agree exactly if the count does not underflow 32 bits |
| Billing.BillingService.FetchStatus | crates/pmk-app/src/billing/service.rs:101-165 | reads the recorded subscription, else the customer's latest; failing to ask Stripe counts as having none |
| Billing.BillingService.StartCheckout | crates/pmk-app/src/billing/service.rs:168-228 | checks, then creates and records the customer once, then opens a session; what each failure leaves behind |
| Billing.BillingService.ConfirmCheckout | crates/pmk-app/src/billing/service.rs:235-289 | records the subscription of a completed session of the recorded customer, or changes nothing |
| Billing.StepKeepsInv | crates/pmk-app/src/billing/service.rs:168-289 | every step keeps customers unshared, subscriptions with their recorded customer, and recorded plans the band of the recorded seats, or the lowest for none |
| Billing.RunsKeepInv | crates/pmk-app/src/billing/service.rs:168-289 | so does every run, whatever Stripe does in between |
| Billing.NothingIsShared | crates/pmk-app/src/billing/service.rs:266-274 | no run records one customer or one subscription against two companies |
| Billing.LinksAreKept | crates/pmk-app/src/billing/service.rs:192-203 | over any run a recorded customer never changes and a subscribed company stays subscribed |
| Billing.ConfirmsOwnSessionsOnly | crates/pmk-app/src/billing/service.rs:266-274 | a confirmation goes through exactly for a completed session of the caller's own company with a live subscription |
| Billing.ForeignSessionChangesNothing | crates/pmk-app/src/billing/service.rs:230-234 | confirming another company's session changes nothing, whatever fails |
| CheckoutEffects.StatusIsItsName | crates/pmk-domain/src/billing.rs:91-125 | a status is read as the one of the name Stripe reports, and as unknown if it has none |
| CheckoutEffects.FoundIff | crates/pmk-app/src/billing/service.rs:137-165 | the subscription found is the recorded one if Stripe still knows it, else the customer's latest; a failure ends the search |
| CheckoutEffects.OpensIff | crates/pmk-app/src/billing/service.rs:168-228 | exactly when a session is opened, active subscriptions standing in the way; it carries the seats and plan ordered, the company's customer, and thirty free days if nothing is recorded, and nothing else is written but a new customer |
| CheckoutEffects.ActiveIsTurnedAway | crates/pmk-domain/src/billing.rs:139-145 | an order that could otherwise be sold is refused as already active, and nothing written, if the subscription found reads active |
| CheckoutEffects.UnopenedLeavesAtMostACustomer | crates/pmk-app/src/billing/service.rs:190-203 | a failed start leaves at most a new customer, recorded if that worked |
| CheckoutEffects.ConfirmsIff | crates/pmk-app/src/billing/service.rs:240-274 | exactly when a confirmation goes through, whatever fails |
| CheckoutEffects.ConfirmationRecords | crates/pmk-app/src/billing/service.rs:276-286 | it records the subscription, the seats Stripe counts and the key of the band they lie in, and changes nothing else |
| FreeMonth.TrialIffNothingRecorded | crates/pmk-app/src/billing/service.rs:205-210 | a checkout carries the free month exactly if no subscription is recorded |
| FreeMonth.NoTrialAfterConfirmation | crates/pmk-app/src/billing/service.rs:205-210 | after a company's first confirmation no checkout is opened that carries one |
| FreeMonth.AnotherFreeMonthIff | crates/pmk-app/src/billing/service.rs:205-210 | some run earns the company another free month exactly if no subscription is recorded or a checkout carrying one is open |
| FreeMonth.NoMoreTrialsForGood | crates/pmk-app/src/billing/service.rs:205-210 | with a subscription recorded and no such checkout open, no run ever does |
| FreeMonth.AnotherFreeMonth | crates/pmk-app/src/billing/service.rs:205-206 | a run that cancels and subscribes again without confirming and earns a second free month |
| FreeMonth.FreeMonthAfterConfirmation | crates/pmk-app/src/billing/service.rs:205-206 | a run that earns a second free month after the first subscription was confirmed and cancelled |
| Redaction.RedactInternalReason | crates/pmk-domain/src/email.rs:93-116 | removes from the first internal heading up to the next resume heading, or to the end |
| Redaction.FindFrom | crates/pmk-domain/src/email.rs:98-108 | finds the first occurrence, or there is none |
| Redaction.RedactionCuts | crates/pmk-domain/src/email.rs:98-115 | the note is opening, internal heading, dropped text and tail; the tail begins at the first resume heading behind the internal one, or is empty if there is none; opening and tail are all that is left |
| Redaction.EtoNoteIff | crates/pmk-domain/src/email.rs:121-129 | a note is an ETO note exactly if a banner stands at the start of one of its lines |
| Redaction.NumberedIff | crates/pmk-domain/src/email.rs:121-129 | exactly which lines are banners |
| Redaction.RedactedIs | crates/pmk-domain/src/email.rs:110-115 | the result is the trimmed opening and the trimmed kept text, with a blank line between if both have text |
| Redaction.HeadingSurvivesIff | crates/pmk-domain/src/email.rs:98-115 | the internal heading survives a pass exactly if it stands in the kept text |
| Redaction.RedactionShortens | crates/pmk-domain/src/email.rs:102-115 | a pass that redacts makes the note strictly shorter |
| Redaction.IdempotentIff | crates/pmk-domain/src/email.rs:93-116 | a second pass changes nothing exactly if the result is no ETO note or the kept text is clean |
| Redaction.RedactedFully | crates/pmk-domain/src/email.rs:93-116 | repeating the pass ends, with a note that is no ETO note or has no internal heading |
| Redaction.FullyRedactedIsClean | crates/pmk-domain/src/email.rs:84-91 | with a banner before the first internal heading it ends with no internal heading at all |
| Redaction.OnePassIsEnoughIff | crates/pmk-domain/src/email.rs:93-116 | for such a note one pass is enough exactly if the kept text has no internal heading |
| Redaction.RepeatedHeadingIsSent | crates/pmk-domain/src/email.rs:105-108 | a family of notes that one pass sends out with the internal heading |
| Redaction.SampleIsSent | crates/pmk-domain/src/email.rs:105-108 | one such note |
| Redaction.BannersAreLegacyBanners | crates/pmk-domain/src/email.rs:118-129 | what is recognised as a banner also fits the documented pattern |
| Redaction.LegacyBannerIsRecognisedIff | crates/pmk-domain/src/email.rs:118-129 | of the lines that fit the documented pattern, exactly which are recognised |
| Redaction.TabIsMissed | crates/pmk-domain/src/email.rs:118-129 | a line that fits and is missed because a tab follows ETO |
| Redaction.BlankNumberIsMissed | crates/pmk-domain/src/email.rs:118-129 | a line that fits and is missed because the number is blank |
| Redaction.DashedNumberIsMissed | crates/pmk-domain/src/email.rs:118-129 | a line that fits and is missed because of a dash in the number |
| DelaySeverity.Tally | crates/pmk-domain/src/dashboard/mod.rs:91-105 | the running totals are each bucket's item count, sum and maximum |
| DelaySeverity.Chart | crates/pmk-domain/src/dashboard/mod.rs:90-123 | four labelled rows in chart order, each describing the items of its own bucket |
| DelaySeverity.CountsAddUp | crates/pmk-domain/src/dashboard/mod.rs:64-74 | every item is counted in one bucket |
| DelaySeverity.CountIsHowMany | crates/pmk-domain/src/dashboard/mod.rs:64-74 | a row counts the items up to 7, 14, 28 or more days late that its band holds |
| DelaySeverity.RoundDivIsNearestIff | crates/pmk-domain/src/dashboard/mod.rs:125-129 | the rounded average is within half a day of the true one, exactly when; always for sums that are not negative |
| DelaySeverity.SeverityIsSound | crates/pmk-domain/src/dashboard/mod.rs:107-122 | for late items the average lies in its own bucket, within half a day of the mean, and at most the true maximum |
| DelaySeverity.OrderIsIrrelevant | crates/pmk-domain/src/dashboard/mod.rs:95-105 | the chart does not depend on the order of the items |
| Calendar.SuccIsTomorrow | crates/pmk-app/src/dashboard/service.rs:318-320 | stepping forward moves by exactly one day, across months, years and leap days |
| Calendar.PredIsYesterday | crates/pmk-domain/src/dashboard/calendar.rs:78-81 | stepping back moves by exactly one day |
| Calendar.DayNumberInjective | crates/pmk-domain/src/dashboard/calendar.rs:51-56 | different dates are different days |
| Calendar.DayNumberIs | crates/pmk-domain/src/dashboard/calendar.rs:51-56 | day numbers in closed form, from the table of month lengths and the leap-year rule |
| Calendar.CalendarEnds | crates/pmk-domain/src/dashboard/calendar.rs:84-99 | only the calendar's last day has none after it, and only its first none before it |
| Calendar.WindowIsTheMonth | crates/pmk-domain/src/dashboard/calendar.rs:84-99 | a day's window covers exactly the days of its month; in the calendar's very last month, those up to that day |
| Calendar.WindowsTile | crates/pmk-domain/src/dashboard/calendar.rs:84-99 | windows that share a day are the same window |
| Calendar.NoGapBetweenWindows | crates/pmk-domain/src/dashboard/calendar.rs:84-99 | the day after a window's last day is the first of the next month's window |
| Calendar.ParseFormat | crates/pmk-domain/src/dashboard/calendar.rs:59-82 | a month written as YYYY-MM, spaced or not, parses to the window of its days, except beyond the calendar |
| Calendar.ParsedWindowIsAMonth | crates/pmk-domain/src/dashboard/calendar.rs:71-81 | whatever parses is the window of one of its own days |
| Calendar.ParseIff | crates/pmk-domain/src/dashboard/calendar.rs:63-82 | exactly which inputs are read as a month |
| Calendar.MonthIsRead | crates/pmk-domain/src/dashboard/calendar.rs:63-82 | and as which |
| Calendar.LooseFormIsRead | crates/pmk-domain/src/dashboard/calendar.rs:59-67 | a month not in the documented form that is read all the same |
| Calendar.HorizonIs | crates/pmk-app/src/dashboard/service.rs:309-321 | the horizon is the 7th of the month after next, and fails only in the calendar's last two months |
| Calendar.HorizonIsAWeekAfterNextMonth | crates/pmk-app/src/dashboard/service.rs:304-312 | it is a week after the last day of next month's window |
| Calendar.HorizonIsAhead | crates/pmk-app/src/dashboard/service.rs:21-23 | it is 35 to 68 days ahead |
| Calendar.HorizonBoundsAreMet | crates/pmk-app/src/dashboard/service.rs:309-321 | both bounds are reached |
| Calendar.HorizonIsMonotone | crates/pmk-app/src/dashboard/service.rs:304-321 | it never moves back as days go by |

## Left out

- Row ids in captures are distinct, as primary keys are, and there are fewer than 2^31 of them; beyond that the position
  counter would overflow.
- `reorder`, and what the database does to children when an item or a job is deleted.
- Listing, renaming and deleting templates, and the encoding of their items; the stored template is the item list
  itself, and stored templates are those saved from programmes.
- Inputs' notes, status and delay information, which no property here depends on.
- Sort orders, counts and sums are unbounded integers; the 32-bit and 64-bit limits of the columns are modelled for
  template positions and recorded seats only.
- RateLimiter.BoundIsUnobservable: says nothing of a user who was evicted; for those the answers are given by
  `RateLimiter.AnswersAreTheCounters`, with the counter wiped at each eviction, and bounded by
  `LimiterEvictions.AdmittedInAnyStretch`.
- LimiterEvictions.FirstEvictionIff: after a first eviction, which of several equally old windows goes next is left open,
  as it is in the hash map, so later evictions are told from the map and not from the calls.
- Rounding of coordinates before a reading is looked up, and the weather provider's own answers.
- Calls of the limiter and the cache hold their lock from start to end and read one time.
- Interleavings inside one refresh, checkout or confirmation: each service call is one step.
- Password hashing, access tokens, sessions' permissions, and looking up resets; hashes identify tokens, and the reset
  the lookup found is a parameter.
- RefreshTokens.AuthService.Rotate: a lookup that fails, of the token or of the user, changes nothing and is not a step
  of its own.
- Sweeper.Worker.Sweep: a queue failure is counted in marks rather than tied to a network model.
- Object keys are never used again once uploaded and queued, which `SweeperProtocol` assumes of uploads.
- Photos.AcceptedBatchIsPhotos: speaks of storage at the time of the call; nothing is said of clients overwriting an
  object during it.
- Photo rows' positions on the form and the transaction inside the repository, whose answer is all or nothing.
- Prices at Stripe, invoices, the billing portal, readiness checks and webhooks; a session carries the plan it was
  priced for.
- Photos.RunsKeepBackedIff: deleting a photo, which removes the row and queues its object, is not a step of these runs.
- Billing.RunsKeepInv: assumes that Stripe's ids are new and that its seat counts are not negative;
  when a customer has several subscriptions, any of them may be listed as the latest.
- FreeMonth.TrialIffNothingRecorded: the trial end shown on the billing page is a different record and is not modelled.
- Positions in text are counted in characters, where the source counts bytes.
- Lower-casing and validation of e-mail recipients.
- `effective_range`, the all-time window, and everything on the dashboard that is a database query.
- HTTP routes, permissions, configuration and logging.
