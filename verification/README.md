# karpenter-provider-hcloud: a verified model

A Dafny model of the parts of the Hetzner Cloud provider for Karpenter whose
correctness is a matter of whole runs: the shared server listing, the
hash-version upgrade, the NodeClass condition machine, the launch path, the
destructive paths, token scrubbing and the catalog wake-up. `dafny verify
dfyconfig.toml` checks all of it.

Code that mutates state is modelled as classes and methods with loops, each
proved against a function of the old state. Concurrency is modelled as atomic
steps over an explicit state, and the theorems quantify over every legal
sequence of steps. Hetzner, the API server and karpenter core are an
unconstrained environment, except where a theorem names an assumption.

| module | what it models |
|---|---|
| `Common`, `Sorting` | Go's string order, and sorting as one canonical answer |
| `Errors`, `Redact` | error trees, classification, redaction of the API token |
| `ListCache`, `Servers` | the cached listing and its flights; List, Get, Delete |
| `Request`, `Drift` | the order sent for a NodeClaim, and its comparison with a running server |
| `Ownership`, `Reboot`, `OrphanSweep` | every way a server can be deleted or reset |
| `Unavailable`, `InstanceTypes`, `Launch` | suppression, offerings, the price walk of Create |
| `HashUpgrade` | the back-fill protocol behind NodeClassDrift |
| `Catalog` | refreshes, the one-slot signal, the pump and the parked NodeClasses |
| `Conditions`, `Resolvers`, `LocationScope`, `Validation` | the seven sub-reconcilers |
| `NodeClassPass`, `NodeClassWrites`, `NodeClassController`, `NodeClassRuns` | a pass, what it writes, the object it works on, and runs of passes with spec edits |

## Where the code falls short of its documentation

The model follows the code. Each point below is a proved counterexample together
with the exact condition under which the promise holds.

- `invalidate` promises that the very next List reflects the change. A flight
  that already holds its upstream answer stores it afterwards, or hands it to
  callers that join late. The promise holds exactly when no such flight holds an
  older listing (`ListCache.InvalidateReflectedIff`, `ListCache.StaleListingReachable`).
- Redaction promises to keep the Hetzner error code. An hcloud error wrapped by
  pointer has no code before redaction and gains one by it; every other error
  keeps its code (`Redact.RedactKeepsCodeIff`).
- A reboot is at most once exactly when the request carries a time, Hetzner's
  clock is not behind the cluster's, and a reset that arrives late arrives before
  the next attempt begins (`Reboot.AtMostOnceIff`).
- The orphan sweep's age floor is its safety margin. It is enough exactly when claim
  reads are current, or their staleness, the length of a sweep and the lag of
  Hetzner's creation stamps behind the cluster's clock together fit inside it
  (`OrphanSweep.SafetyMarginExact`).
- A class waiting on the catalog is meant to be woken by the refresh. It is left to
  its own requeue exactly when, since it last looked, a wake-up for a snapshot it
  had not seen was delivered by a listing that did not show it as waiting: because
  its pass had not parked it yet, or because the listing failed or lagged
  (`Catalog.ForgottenIffPassedBy`, `Catalog.OvertakenWaiterReachable`,
  `Catalog.UnlistedWaiterReachable`).
- Catalog generations rise by one per success exactly when refreshes do not
  overlap (`Catalog.GenerationsRiseIff`).
- The class's hash version is meant to advance last. A restart leaves claims that
  drift cannot judge exactly when it picks a version the class carries and some
  stamped claim does not, as a rollback in the middle of an upgrade does; one
  after a completed upgrade is harmless (`HashUpgrade.SightedThroughoutIff`,
  `HashUpgrade.RolledBackMidway`).
- Drift is meant to compare a server with the spec it was built from. The
  back-fill re-stamps undrifted claims from the current spec, and a retry that
  adopts a server from a lost create stamps it from the spec the retry read. An
  edit rolled out together with an upgrade, or between a lost create and its
  retry, is not reported, and reverting it reports servers that are up to date.
  Hashes stay those of the specs their servers were built from exactly as long as
  every applied patch finds its claim built from the spec it stamps and every
  Create returns a server ordered from the spec it read, and then the verdict is
  about the server (`HashUpgrade.AttributedThroughoutIff`,
  `HashUpgrade.VerdictIsAboutTheServer`, `HashUpgrade.EditSwallowedByUpgrade`,
  `HashUpgrade.EditSwallowedByAdoption`, `HashUpgrade.RevertedEditDrifts`).
- status.locations is meant to be where a class may place nodes. Build filters on
  spec.locations and its own catalog snapshot, so it may offer a location that is
  not among them, and a server made there drifts at once, exactly when the operator
  wrote the list down and the location was not sold at the validating pass or is in
  a known zone other than the network's (`NodeClassRuns.OfferedServerDriftsIff`,
  `NodeClassRuns.OfferedOutsideZone`).
- `MarkLocation` revives expired entries, so it alone can tell whether they were
  reaped (`Unavailable.MarkLocationSeesReapingIff`).

Two remarks. The last arm of `emptyFailure` cannot be reached past the
empty-catalog check (`Validation.NeverNoLocationsAvailable`). Scrubbing is
clean and idempotent for every token without brackets, hence for every token the
startup check accepts; `Redact.BracketTokenEscapes` shows why that check matters.

## Model

| member | source | states |
|---|---|---|
| `ListCache.ExecInv` | internal/providers/instance/list.go:63-128 | every reachable state of callers, flights and cache keeps the invariant the results below rest on |
| `ListCache.OneFlight` | internal/providers/instance/list.go:72-116 | in every run at most one upstream listing is under way |
| `ListCache.ServedBound` | internal/providers/instance/list.go:63-116 | a listing served from the cache shows state less than ttl plus timeout old at its freshness check; any other comes from the flight the caller joined |
| `ListCache.FreshIsServed` | internal/providers/instance/list.go:63-71 | in every run, a caller that checks less than ttl after the last store, with nothing invalidated since, returns at once with exactly the stored listing |
| `ListCache.FailsOnlyWithItsFlight` | internal/providers/instance/list.go:72-116 | in every run, a call that returns an error joined a flight that failed, and only a call that was cancelled ends cancelled |
| `ListCache.FlightOutlivesCallers` | internal/providers/instance/list.go:94-98 | a flight stays until it closes, whoever stops waiting for it |
| `ListCache.UpstreamPaced` | internal/providers/instance/list.go:72-106 | after a stored listing the next upstream call starts at least ttl later, unless something invalidated in between |
| `ListCache.QuietInvalidateReflected` | internal/providers/instance/list.go:118-128 | with no flight open at the invalidate, every later call is answered from an upstream call that began after the change, through any cancellations and failures |
| `ListCache.InvalidateReflectedIff` | internal/providers/instance/list.go:92-128 | no continuation serves an older listing if and only if no open flight already holds one |
| `ListCache.OnlyHeldLeaks` | internal/providers/instance/list.go:92-128 | what can still be served late is the open flight's listing and nothing else |
| `ListCache.StaleListingReachable` | internal/providers/instance/list.go:92-128 | a run from a cold cache that reaches the open-flight case and serves the older listing |
| `ListCache.Cache.constructor` | internal/providers/instance/list.go:52-61 | a non-positive TTL falls back to the default |
| `ListCache.Cache.Lookup` | internal/providers/instance/list.go:64-83 | the read-locked check answers exactly as the step machine's freshness check |
| `ListCache.Cache.Put` | internal/providers/instance/list.go:92-106 | the write-locked store is the machine's Store step |
| `ListCache.Cache.Drop` | internal/providers/instance/list.go:124-128 | invalidate is the machine's Invalidate step |
| `Servers.ProviderIDRoundTrip` | internal/hcloudapi/servers.go:56-80 | parsing a rendered provider id gives back the server id, for every positive 64-bit id |
| `Servers.ParsedProviderID` | internal/hcloudapi/servers.go:65-78 | nothing else parses: the prefix and then digits of that value, with no rubbish after them |
| `Servers.OursIff` | internal/hcloudapi/labels.go:38-43 | ownership is exactly the label with this cluster's name; no label and no name own nothing |
| `Servers.List` | internal/providers/instance/list.go:131-165 | the filter loop keeps exactly the owned entries; no cluster name and a failed listing are errors |
| `Servers.OwnedOnlyExact` | internal/providers/instance/list.go:131-165 | a server is listed if and only if the listing has it and it carries our label, and as often |
| `Servers.Get` | internal/providers/instance/list.go:176-210 | error cases in order; the listing's first entry of that id decides, else the point read does; either only if it carries our label |
| `Servers.GetNeverHidesLive` | internal/providers/instance/list.go:166-210 | a live server of ours is never answered as gone without an error, however stale the listing |
| `Servers.GetOnlyOurs` | internal/providers/instance/list.go:176-210 | nothing that is not ours, or not the id asked for, leaves Get |
| `Servers.Delete` | internal/providers/instance/list.go:222-243 | a delete is sent if and only if the live read shows a server with our label; each refusal has its own error; the cache is dropped exactly on success |
| `Request.BaseRequest` | internal/providers/instance/request.go:27-85 | refused exactly without a resolved image or a cluster name; otherwise the order asks, id by id, for what status resolved to and for nothing else |
| `Request.ApplyLabels` | internal/providers/instance/request.go:71-83 | the label loop applies every operator label but the protected ones, in any iteration order |
| `Request.OperatorLabelsCannotDisown` | internal/providers/instance/request.go:49-83 | whatever the operator writes, ownership and claim labels are the provider's, every other operator label is applied, and the pool's unless overridden |
| `Drift.SameSetIff` | internal/cloudprovider/drift.go:205-214 | sort, compact, compare is exactly set equality, for arbitrary lists |
| `Drift.ServerDrift` | internal/cloudprovider/drift.go:145-203 | the checks in order compute the verdict that DriftExact characterises |
| `Drift.DriftExact` | internal/cloudprovider/drift.go:145-203 | field by field: no drift if and only if the server matches the class in all six respects, and a reason if and only if it is the first respect in which it differs |
| `Drift.OnlyDifferenceReported` | internal/cloudprovider/drift.go:145-203 | a server that differs in one respect alone is reported for that one |
| `Drift.LaunchThenDrift` | internal/providers/instance/request.go:27-85 | a server ordered from a class and read back drifts against that class exactly when its location has left a written-down list |
| `Drift.NodeClassHashDrift` | internal/cloudprovider/drift.go:101-124 | the annotation checks in order are the hash verdict of the upgrade protocol |
| `Drift.IsDrifted` | internal/cloudprovider/drift.go:45-138 | each reason, and the refusal to judge, exactly when it is due: hash, then age, then the live server |
| `Ownership.ExecInv` | internal/providers/instance/list.go:222-243 | in every run a server labelled ours is one we made, however others relabel servers short of our ownership label |
| `Ownership.OnlyOwnServersDestroyed` | internal/providers/instance/reboot.go:34-47 | every server deleted, reset or adopted in any run was created by this provider, whatever labels operators write |
| `Ownership.TruthfulThroughoutIff` | internal/providers/instance/request.go:49-83 | in every run claim labels name the claim a server was made for, at every moment, if and only if nobody rewrites one on a server that stays ours |
| `Ownership.ResetsHitTheirOwnClaim` | internal/providers/instance/instance.go:247-259 | under that condition every reset and adoption hits a server made for the claim it is for |
| `Ownership.EmptyClusterNameIsInert` | internal/hcloudapi/labels.go:38-43 | without a cluster name nothing is ever created, adopted or destroyed |
| `Reboot.ScanActions` | internal/providers/instance/reboot.go:17-66 | a live stop, shutdown or rescue wins, then a live reset since the request, both exactly |
| `Reboot.ResetUnlessHeld` | internal/providers/instance/reboot.go:49-80 | given the page and the status, a reset is sent exactly if nothing holds it back, and what core is told otherwise |
| `Reboot.RebootServer` | internal/providers/instance/reboot.go:29-89 | a reset is sent if and only if the server is ours, this claim's, not off, with no live stop, shutdown or rescue and no reset for this request; and what core is told in every other case |
| `Reboot.ArmsIff` | internal/providers/instance/reboot.go:49-77 | the protocol's attempt arms a reset under exactly those conditions |
| `Reboot.AtMostOnceIff` | internal/providers/instance/reboot.go:29-80 | over every run of retries, lost and late requests and foreign actions, at most one non-errored reset if and only if the request carries a time, Hetzner's clock is not behind the cluster's, and a late reset arrives before the next attempt begins |
| `Reboot.SecondResetUncounted` | internal/providers/instance/reboot.go:57-66 | the run with a second reset when the first is not counted |
| `Reboot.SecondResetUnseen` | internal/providers/instance/reboot.go:49-80 | the run with a second reset when the first arrives late |
| `Reboot.PushedOffPage` | internal/providers/instance/reboot.go:49-70 | a full page of newer actions hides an issued reset, one fewer does not |
| `OrphanSweep.Reconcile` | internal/controllers/instancegc/controller.go:69-151 | refusals, the empty-claims guard, and the deletes, reaps and failures of a sweep, exactly |
| `OrphanSweep.SweepAdds` | internal/controllers/instancegc/controller.go:134-146 | every delete asked for was a reap, a server already gone, or a failure |
| `OrphanSweep.OrphansExact` | internal/controllers/instancegc/controller.go:111-146 | a server is deleted if and only if it names a claim, the claim is not live, and its age is known and reaches the floor |
| `OrphanSweep.AskedByReconcile` | internal/controllers/instancegc/controller.go:94-146 | the deletes the margin theorem speaks of are those of Reconcile, in whatever order claims are listed |
| `OrphanSweep.SweepSparesClaimed` | internal/controllers/instancegc/controller.go:79-146 | with the margin in place no id with a living claim is among a whole sweep's deletes |
| `OrphanSweep.SafetyMarginExact` | internal/controllers/instancegc/controller.go:79-146 | no sweep, against any history of claims, deletes a server with a living claim if and only if reads are current or lag plus sweep length plus clock skew fits in the age floor |
| `OrphanSweep.MarginTooSmall` | internal/controllers/instancegc/controller.go:117-129 | a sweep that deletes a claimed server whenever the margin is smaller |
| `Unavailable.Cache.Mark` | internal/providers/instancetype/unavailable.go:67-72 | one entry is set, dated ttl from now, and no other changes |
| `Unavailable.Cache.MarkLocation` | internal/providers/instancetype/unavailable.go:78-87 | exactly the location's entries, expired ones included, get the new deadline |
| `Unavailable.Cache.Has` | internal/providers/instancetype/unavailable.go:90-95 | true exactly before the entry's deadline |
| `Unavailable.Cache.Code` | internal/providers/instancetype/unavailable.go:99-107 | the code of a live entry, none otherwise |
| `Unavailable.Cache.Snapshot` | internal/providers/instancetype/unavailable.go:128-141 | every live pair once, and only the expired entries dropped |
| `Unavailable.Cache.Len` | internal/providers/instancetype/unavailable.go:111-113 | the number of live pairs |
| `Unavailable.RunAgrees` | internal/providers/instancetype/unavailable.go:67-141 | with a clock that never goes back, after any run without MarkLocation, Has, Code, Snapshot and Len answer as the full mark history would: reaping is invisible |
| `Unavailable.MarkHolds` | internal/providers/instancetype/unavailable.go:67-95 | a pair marked at t is suppressed throughout [t, t + ttl), whatever runs in between, MarkLocation included |
| `Unavailable.MarkLocationSeesReapingIff` | internal/providers/instancetype/unavailable.go:78-87 | its effect depends on reaping exactly when an expired entry of the location lingers |
| `InstanceTypes.NewInstanceType` | internal/providers/instancetype/types.go:76-156 | the location and price loops produce the offerings that OfferingsExact characterises |
| `InstanceTypes.Build` | internal/providers/instancetype/types.go:61-101 | the loop's result, in the order of names |
| `InstanceTypes.BuildExact` | internal/providers/instancetype/types.go:61-101 | exactly the supported, undeprecated server types with something to offer, each with its own name, capacity and all its offerings |
| `InstanceTypes.OfferingsExact` | internal/providers/instancetype/types.go:118-156 | an offering exists exactly where the type is sold at a known price, in spec.locations and not phased out; its hourly price includes the address exactly if the class asks for one, and it is available unless suppressed |
| `InstanceTypes.BuiltOfferingsRespectSuppression` | internal/providers/instancetype/types.go:118-156 | an offering is available exactly when its pair is not suppressed, and always in scope |
| `Launch.ResourcesFit` | internal/providers/instance/instance.go:321-330 | true exactly when every requested resource is covered |
| `Launch.OrderedCandidates` | internal/providers/instance/instance.go:263-317 | the nested filters and the sort compute the canonical order |
| `Launch.OrderedExact` | internal/providers/instance/instance.go:263-317 | the candidates are exactly the compatible, available pairs |
| `Launch.CheapestFirst` | internal/providers/instance/instance.go:304-315 | the walk is by price, then name, then location, ascending |
| `Launch.FirstIsCheapest` | internal/providers/instance/instance.go:263-317 | its first pair is a cheapest of all compatible, available ones |
| `Launch.RankLeTotalOrder` | internal/providers/instance/instance.go:301-315 | (price, name, location) leaves no tie |
| `Common.StrLessIff` | internal/providers/instance/instance.go:304-315 | names compare as in a dictionary: at the first difference, a prefix before its extensions |
| `Launch.OrderCanonical` | internal/providers/instance/instance.go:301-315 | equal offers in any order are walked in the same, sorted order |
| `Launch.OrderIgnoresInput` | internal/providers/instance/instance.go:263-317 | permuting the instance types does not change the walk |
| `Launch.FindInstanceType` | internal/providers/instance/instance.go:233-240 | the first entry of that name, or none when there is none |
| `Launch.Conclude` | internal/providers/instance/instance.go:115-204 | what each answer that is not a capacity failure makes of the launch, adoption included |
| `Launch.FallThrough` | internal/providers/instance/instance.go:109-148 | orders a prefix ending at the first answer that is not a capacity failure, and suppresses the pairs before it |
| `Launch.Walk` | internal/providers/instance/instance.go:109-216 | the loop and the result of the answer it ends on |
| `Launch.Create` | internal/providers/instance/instance.go:88-216 | the first order is the base request for a cheapest valid pair; at most maxAttempts orders, in candidate order; nothing is sent or suppressed without candidates or a valid request; the list cache is dropped exactly on a launch |
| `Launch.SuppressionsExact` | internal/providers/instance/instance.go:139-148 | exactly the capacity-failed pairs gain an entry, dated from their own failure; no other entry changes |
| `Launch.OutOfStockIff` | internal/hcloudapi/errors.go:64-109 | the walk goes past an answer exactly on one of the four capacity codes |
| `Launch.RefusalsExact` | internal/providers/instance/instance.go:139-216 | by the Hetzner code the walk ended on: when Create launches, adopts, reports no capacity, a rejected credential, a failed create, or a retry, each exactly |
| `Launch.LaunchedAs` | internal/providers/instance/instance.go:150-180 | a created server is reported with the type ordered, an adopted one is ours and this claim's and is reported with its own type or none |
| `Launch.SuppressedPairNotOrdered` | internal/providers/instance/instance.go:285-288 | no Create whose Build ran within ttl of a capacity failure is offered that pair again, each read of that Build having its own instant and its own view of the cache |
| `HashUpgrade.ReportMeansSpecChanged` | internal/cloudprovider/drift.go:101-124 | through edits, launches, upgrades, rollbacks and crashes, a reported drift is between hashes of different specs unless the claim was condemned when back-filled; a judged verdict is exactly whether the generator tells the specs behind the two hashes apart |
| `HashUpgrade.UpgradeNeverDrifts` | internal/controllers/nodeclass/hash/controller.go:54-117 | with the spec unchanged no interleaving reports a claim that was not condemned |
| `HashUpgrade.BackfillTakesOn` | internal/controllers/nodeclass/hash/controller.go:81-93 | the back-fill takes on exactly the claims that do not carry the running version, as they were when listed |
| `HashUpgrade.AttributedThroughoutIff` | internal/controllers/nodeclass/hash/controller.go:81-117 | in every run, with lost creates and adoptions, every uncondemned hash is of the spec its server was built from, at every moment, if and only if every applied back-fill patch finds its claim built from the spec it stamps and every Create returns a server ordered from the spec it read |
| `HashUpgrade.VerdictIsAboutTheServer` | internal/cloudprovider/cloudprovider.go:295-308 | under that condition a judged claim drifts exactly when the generator tells the class's spec from the one the server was built from, and so does every report |
| `HashUpgrade.EditSwallowedByUpgrade` | internal/controllers/nodeclass/hash/controller.go:87-115 | an edit and an upgrade together: the server built from the old spec is judged up to date |
| `HashUpgrade.EditSwallowedByAdoption` | internal/providers/instance/instance.go:150-180 | a lost create, an edit and a retry that adopts: the server built from the old spec is judged up to date, with no back-fill in the run |
| `HashUpgrade.RevertedEditDrifts` | internal/controllers/nodeclass/hash/controller.go:87-115 | reverting that edit reports a server built from exactly the current spec |
| `HashUpgrade.SightedThroughoutIff` | internal/controllers/nodeclass/hash/controller.go:54-76 | in every run, the class at the running version means every stamped claim is too, at every moment, if and only if no restart picks a version the class carries and some stamped claim does not |
| `HashUpgrade.UpgradesAreSafe` | internal/controllers/nodeclass/hash/controller.go:54-76 | restarts that never go back are all safe in that sense |
| `HashUpgrade.RolledBackMidway` | internal/controllers/nodeclass/hash/controller.go:59-76 | a rollback between the claim patches and the class patch, which is not safe, and the claim it leaves unjudged |
| `HashUpgrade.Store.BackfillNodeClaimHashes` | internal/controllers/nodeclass/hash/controller.go:81-117 | every listed claim behind the running version is attempted and gets it, undrifted ones the new hash, drifted ones keep theirs, no other claim changes, and failure is reported exactly when some patch failed |
| `HashUpgrade.Store.Reconcile` | internal/controllers/nodeclass/hash/controller.go:43-76 | exactly when it errs; an error leaves the class untouched; a class that advances leaves no listed claim behind |
| `Redact.LongestRun` | internal/hcloudapi/redact.go:193-203 | the longest prefix of the text that occurs anywhere in the token |
| `Redact.ScrubToken` | internal/hcloudapi/redact.go:168-187 | the builder loop computes the greedy decomposition; without a token nothing changes |
| `Redact.ScrubDecomposes` | internal/hcloudapi/redact.go:168-187 | the pieces spell the message, and at every place the piece taken is the longest token run if it has twelve bytes, else one byte |
| `Redact.CutsAreEchoes` | internal/hcloudapi/redact.go:168-187 | every piece cut out was a token run of twelve or more |
| `Redact.GreedyUnique` | internal/hcloudapi/redact.go:168-187 | a message has only one such decomposition |
| `Redact.ScrubClean` | internal/hcloudapi/redact.go:168-203 | no run of twelve or more token bytes survives anywhere in the output, for every token without brackets |
| `Redact.AcceptedIsBracketFree` | internal/hcloudapi/client.go:45-54 | every token the startup check accepts is one |
| `Redact.ScrubUnchangedIff` | internal/hcloudapi/redact.go:168-187 | a message comes back unchanged if and only if it holds no such run |
| `Redact.ScrubIdempotent` | internal/hcloudapi/redact.go:168-187 | scrubbing twice equals scrubbing once |
| `Redact.BracketTokenEscapes` | internal/hcloudapi/client.go:49-54 | why the startup check matters: a token it refuses for which neither cleanliness nor idempotence holds |
| `Redact.RedactError` | internal/hcloudapi/redact.go:44-66 | the unwrap loop and the final scrub compute the redacted error; nil stays nil |
| `Redact.RebuildNode` | internal/hcloudapi/redact.go:69-87 | the rebuilding of one error, which RebuiltIsClean characterises |
| `Redact.RebuiltIsClean` | internal/hcloudapi/redact.go:69-87 | the rebuilt message has no run of the token in it, is the original's if that had none, and is followed by the id of the call and nothing else; the code is kept |
| `Redact.CutsReduceEchoes` | internal/hcloudapi/redact.go:141-155 | replacing token runs creates no new one, not even across the cuts, and removes at least one |
| `Redact.RedactedIsClean` | internal/hcloudapi/redact.go:44-64 | an error returned as a tree has no Hetzner message with a token run; any other is flattened, with no more runs in its text than before and fewer if some message had one |
| `Redact.RedactDetaches` | internal/hcloudapi/redact.go:44-136 | whatever tree goes in, nothing that comes out holds a response or an action |
| `Errors.FindNodeIsFirst` | internal/hcloudapi/redact.go:108-122 | errors.As finds the first acceptable error of the tree, parents first |
| `Errors.CodeExact` | internal/hcloudapi/errors.go:125-143 | the code is that of the first API error anywhere in the tree, failing that of the first action error |
| `Errors.ConfigFailureExact` | internal/controllers/nodeclass/resolve.go:46-71 | by Hetzner code: which failures are the NodeClass's fault and under which reason; all others are transient |
| `Redact.RedactKeepsCodeIff` | internal/hcloudapi/errors.go:125-162 | code and class survive redaction if and only if the hcloud error reached by unwrapping is not a pointer |
| `Catalog.Provider.Refresh` | internal/providers/catalog/catalog.go:119-161 | a failure changes neither snapshot, generation nor signal; a success serves the next generation and leaves one wake-up pending |
| `Catalog.NoLostWakeUp` | internal/controllers/nodeclass/controller.go:242-255 | a snapshot stored since the last delivery always has a wake-up on its way, and the catalog never goes back to nil |
| `Catalog.StaleIsLastFailed` | internal/providers/catalog/catalog.go:106-161 | at every moment of every run Stale says that the last refresh to end failed |
| `Catalog.GenerationsRiseIff` | internal/providers/catalog/catalog.go:119-161 | each success raises the served generation by one if and only if at most one refresh runs at a time |
| `Catalog.ForgottenIffPassedBy` | internal/controllers/nodeclass/controller.go:242-292 | for any number of concurrent refreshes and listings that fail or lag, a waiting class that nothing will wake waits on an outdated catalog if and only if, since it last looked, a wake-up for a snapshot it had not seen was delivered by a listing that did not show it as waiting |
| `Catalog.WaitersNeverPassedBy` | internal/controllers/nodeclass/controller.go:263-292 | with accurate listings a class already waiting when its pass begins is not passed by during it |
| `Catalog.OvertakenWaiterReachable` | internal/controllers/nodeclass/controller.go:263-292 | a run with accurate listings in which a class parks just after the delivery and is forgotten |
| `Catalog.UnlistedWaiterReachable` | internal/controllers/nodeclass/controller.go:264-269 | a run in which a class that was waiting all along is forgotten because the listing fails |
| `Resolvers.Accumulate` | internal/controllers/nodeclass/sshkey.go:55-75 | one turn of the loop keeps the most severe cause, the failed selectors in order, and whether to fail closed |
| `Resolvers.ReconcileFirewalls` | internal/controllers/nodeclass/firewall.go:27-79 | any configuration failure clears the list and reports the most severe cause; a transient one changes nothing that resolved |
| `Resolvers.ReconcileSSHKeys` | internal/controllers/nodeclass/sshkey.go:36-107 | missing keys fail open, any other configuration failure fails closed, whatever the order; the event is published exactly when its content is new |
| `Resolvers.ResolveJoin` | internal/providers/bootstrap/clusterinfo.go:126-156 | what the operator wrote wins, and a resolved pair is never half empty |
| `Resolvers.InvalidHashes` | internal/controllers/nodeclass/bootstrap.go:102-110 | the malformed pins in input order |
| `Resolvers.NoBadHashes` | internal/providers/bootstrap/clusterinfo.go:250-257 | none is reported if and only if every pin is well formed |
| `Resolvers.ValidHashIff` | internal/providers/bootstrap/clusterinfo.go:250-257 | a pin is the prefix and 64 hex digits of either case, and nothing else |
| `LocationScope.CollectZones` | internal/controllers/nodeclass/validation.go:207-222 | the nested loops compute the catalog's locations and zones |
| `LocationScope.ZonesExact` | internal/controllers/nodeclass/validation.go:207-222 | a location is known exactly when some supported, undeprecated type is sold there |
| `LocationScope.ZoneIsLast` | internal/controllers/nodeclass/validation.go:213-220 | its zone is the one given by the last undeprecated entry of a supported type there |
| `LocationScope.SortKeys` | internal/controllers/nodeclass/validation.go:234-243 | one answer, whatever order the map is iterated in |
| `LocationScope.ComputeScope` | internal/controllers/nodeclass/validation.go:206-275 | the whole scope, and whether the catalog is empty |
| `LocationScope.PartitionExact` | internal/controllers/nodeclass/validation.go:245-273 | every candidate lands in exactly one part, once, by what the catalog and the network say of it |
| `Validation.CollectHoldups` | internal/controllers/nodeclass/validation.go:83-99 | the failed and the pending dependencies, True at an old generation counting as pending |
| `Validation.Check` | internal/controllers/nodeclass/validation.go:77-174 | the checks in order compute the verdict that JudgeExact characterises |
| `Validation.ScopeExact` | internal/controllers/nodeclass/validation.go:206-275 | the published locations are exactly the allowed, sold, reachable ones, each once, and empty only when there is none |
| `Validation.NeverNoLocationsAvailable` | internal/controllers/nodeclass/validation.go:280-297 | past the empty-catalog check an empty scope always has a named cause |
| `Validation.JudgeExact` | internal/controllers/nodeclass/validation.go:77-174 | when the verdict is True, False and Unknown, each if and only if; an unknown catalog never yields False; locations are published exactly with True |
| `Validation.ReasonsExact` | internal/controllers/nodeclass/validation.go:111-173 | each reason exactly when it is due, over the operator's list, what is sold where and the network's zone; a narrowing is announced exactly when a written location was dropped |
| `Validation.MessagesExact` | internal/controllers/nodeclass/validation.go:83-169 | the message names exactly the dependencies, or the locations, that the verdict rests on |
| `Validation.DroppedExact` | internal/controllers/nodeclass/validation.go:253-273 | which locations are reported as unknown and as outside the zone |
| `NodeClassController.Object.ReconcileImage` | internal/controllers/nodeclass/image.go:35-67 | the in-place writes are the image step of a pass, and the requeue its outcome calls for |
| `NodeClassController.Object.ReconcileNetwork` | internal/controllers/nodeclass/network.go:26-71 | the same for the network, including a network without a zone |
| `NodeClassController.Object.ReconcileFirewalls` | internal/controllers/nodeclass/firewall.go:27-79 | the same for the firewalls |
| `NodeClassController.Object.ReconcileSSHKeys` | internal/controllers/nodeclass/sshkey.go:36-107 | the same for the SSH keys, with the event exactly on a new narrowing |
| `NodeClassController.Object.ReconcilePlacementGroup` | internal/controllers/nodeclass/placementgroup.go:40-87 | the same for the placement group and its capacity warnings |
| `NodeClassController.Object.ReconcileBootstrap` | internal/controllers/nodeclass/bootstrap.go:39-98 | the same for the join parameters, written or cleared as a pair |
| `NodeClassController.Object.ReconcileValidation` | internal/controllers/nodeclass/validation.go:77-174 | the same for the verdict and the locations, with the event exactly on a new narrowing |
| `NodeClassController.Object.RunAll` | internal/controllers/nodeclass/controller.go:128-138 | every sub-reconciler runs, in order, and the loop's tallies sum them up |
| `NodeClassController.Object.Reconcile` | internal/controllers/nodeclass/controller.go:126-155 | the loop computes the pass; an error exactly on a transient outcome, else the slow requeue exactly when Ready; a patch exactly when something changed; events exactly for new narrowings |
| `NodeClassController.WaitingAfterPassIff` | internal/controllers/nodeclass/controller.go:285-292 | a class never validated waits, and a pass leaves its class waiting exactly when the catalog is all it lacks |
| `NodeClassWrites.OutcomeExact` | internal/controllers/nodeclass/resolve.go:39-71 | for every resolver, success, blip or misconfiguration from what it was answered |
| `NodeClassWrites.PassWrites` | internal/controllers/nodeclass/controller.go:126-138 | for every object and every resolver, a pass writes exactly what was answered on success, nothing on a blip but a diagnosis where nothing ever resolved, and on a misconfiguration an empty field with the right reason; the transition time moves exactly with the status |
| `NodeClassPass.ResolversIndependent` | internal/controllers/nodeclass/controller.go:85-96 | no resolver sees another's writes: six in a row are six side by side on the stored object |
| `NodeClassPass.PassValidates` | internal/controllers/nodeclass/validation.go:77-174 | after every pass over every object: True exactly when locations are published, and then all six dependencies hold at this generation and the locations are exact |
| `NodeClassPass.PassVerdict` | internal/controllers/nodeclass/validation.go:77-174 | the three verdicts of a pass from the stored object and the answers alone |
| `NodeClassPass.ReadyAfterIff` | internal/controllers/nodeclass/resolve.go:46-87 | from any object, Ready after a pass if and only if each resolver succeeded or blipped over a resolution that stands, the architecture is supported and a location is usable |
| `NodeClassPass.StaysReadyIff` | internal/controllers/nodeclass/resolve.go:73-87 | a Ready class stays Ready if and only if nothing came out misconfigured, the architecture is supported and a location is usable |
| `NodeClassPass.StaysReadyThroughout` | internal/controllers/nodeclass/controller.go:126-150 | the same over any sequence of passes at one generation |
| `NodeClassPass.PassIdempotent` | internal/controllers/nodeclass/controller.go:126-150 | a pass repeated with the same answers changes nothing and announces nothing, whatever mix of outcomes it met |
| `NodeClassRuns.FirewallsInOrder` | internal/controllers/nodeclass/firewall.go:62-78 | one firewall per selector, in selector order |
| `NodeClassRuns.PassSound` | internal/controllers/nodeclass/controller.go:126-150 | a pass keeps: a condition that holds now has a complete field behind it, and no condition is ahead of the spec |
| `NodeClassRuns.ExecInv` | internal/controllers/nodeclass/controller.go:126-155 | so does every run of passes landing under the optimistic lock, with edits, foreign writes and lost patches in between |
| `NodeClassRuns.EditsNeverLost` | internal/controllers/nodeclass/controller.go:140-150 | no patch, however late, undoes an edit: the stored spec is the one last written |
| `NodeClassRuns.ReadyIsLaunchable` | internal/providers/bootstrap/provider.go:35-42 | in every run a Ready class has its image, one firewall per selector, a network exactly if selected, and well-formed join parameters, so neither the order nor the join check refuses it |
| `NodeClassRuns.ValidationInEveryRun` | internal/controllers/nodeclass/validation.go:77-174 | in every run, True exactly when locations are published, and True of this revision exactly when Ready |
| `NodeClassRuns.LaunchFromReadyNeverDrifts` | internal/cloudprovider/drift.go:145-203 | a server ordered from a reachable Ready class into a published location has no server drift |
| `NodeClassRuns.OfferedLocationLeftIff` | internal/providers/instancetype/types.go:69-92 | for a class validated over one catalog, a location Build offers over any other has left the published set exactly when the operator wrote the list down and it was not sold at that pass or is in a known zone other than the network's |
| `NodeClassRuns.OfferedServerDriftsIff` | internal/cloudprovider/drift.go:145-203 | a server ordered at an offering of Build and read back drifts exactly then, and only on its location |
| `NodeClassRuns.OfferedOutsideZone` | internal/controllers/nodeclass/validation.go:257-264 | a validated class, its catalog and the available offering for which that happens |
| `NodeClassRuns.OutageDoesNotDrift` | internal/controllers/nodeclass/resolve.go:73-87 | a pass that reaches nothing leaves a healthy server undrifted, unless its location has left the catalog's usable ones |

## Assumptions

- Ready is operatorpkg's roll-up: every one of the seven conditions True at the
  current generation.
- The clock does not go back. Times and prices are exact numbers.
- Hetzner ids are not zero and not reused, and nobody else writes this cluster's
  ownership label. Claim labels may be rewritten; what rests on them says so.
- Hetzner's clock differs from the cluster's by a constant, in the reboot protocol
  and the orphan sweep.
- An upstream listing that succeeds does so within its timeout, and is not nil; the
  flight stores it within a bounded time after that, which the code does not enforce.
- A reset stays on the page of recent actions while the request is retried.
- A patch in flight dies with the process that sent it.
- One clock reading serves a whole NodeClass pass.

## Left out

- Hetzner's HTTP API, hcloud-go, its retries and action waiting: answers are parameters.
- Listings of several pages: a listing shows one instant.
- One label selector only: flights are grouped by selector while the cached listing is not, and the provider uses one.
- karpenter core's requirement algebra: compatibility is an arbitrary predicate.
- The hash function: an arbitrary function of generator version and spec.
- The text of condition messages and log lines, except where two messages are compared; they are kept as what they are rendered from.
- `scrubQuoted` and the text of error trees: arbitrary functions of their input, assumed to add no run of the token and to show the Hetzner messages of the tree.
- Wrap-around of the 64-bit generation counter, and floating-point rounding.
- Termination, the finalizer patch, rate limiting, leader election, informers and metrics.
- Bootstrap rendering, token minting, parsing of cluster-info and certificates.
- Requeue delays of the orphan sweep and of hash reconciles, which are constants.
- NodeClaim hydration other than the hash stamp.
- What Hetzner reports of a server is assumed faithful up to order and repetition of id lists.
- HashUpgrade.Store.Reconcile: its claims are those of one uninterrupted reconcile; interleavings are the step machine's.
