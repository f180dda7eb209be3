# Taxi Camera: verified model

Taxi Camera finds its camera code in a loaded simulator image, owns two native camera entries in a foreign engine,
drives the aircraft's TAXI buttons, inspects memory that other threads change, and keeps indexes and schedules beside
a renderer. This project models that logic in Dafny and proves what it is relied on for. Line references are to
version 0.9.28 (build 41). Verify everything with `dafny verify dfyconfig.toml`.

**Contract resolver** (`Bindings`, `LoadedImage`, `ContractModel`, `ContractErrors`, `ContractDomains`,
`ContractReread`, `ContractResolver`, `RereadBudget`, `ContractChecker`). `ContractModel` states, without any search,
what it means for a template shape to be present at an RVA and for an assignment of RVAs to symbols to be consistent.
`ContractResolver` is the resolver itself: seed index, overlapping chunks, operand decoding, pointer following,
inference of short templates, in-place arc-consistency pruning and the final reread. The end result is `Resolve`: a
valid answer is consistent with the adopted shapes and is the only assignment that is, and an invalid one ends with an
error that its own cause justifies (`ContractErrors` states every fault of the inputs, with its numbers; the reader,
the limits and the candidates account for the other errors). The chunked, seed-indexed scan finds exactly what a naive
search would (`ScanIsNaive`), no consistent assignment is lost by inference (`ReachedChoice`, `ChoiceExists`) or
pruning (`Constrain`), the conflicting-symbol branch cannot be reached (`PruneAndAssemble`), and on an unchanging
image the resolver's own reread can fail only for reading trouble (`Confirm`). `ContractChecker` is the separately
written reread behind a budgeted reader; `ResolveAndCheck` proves that it accepts what the resolver publishes as long
as the budget left covers the most such a reread can cost, which `RereadBudget` computes.

**Camera ownership** (`PairModel`, `PairOutcomes`, `PairController`, `ResetProtocol`, `ResetProgress`,
`SceneRecovery`). `PairController` is the controller as a class whose engine callbacks return anything and call back
into it; each update equals one step of the value specification in `PairModel`, and a ledger that replays the event
log judges every engine call (`Conservation`). `PairOutcomes` says where an update ends in each case, over the fields,
request and replies alone: `ActiveLasts` is that an active pair stays through every run until someone asks otherwise.
`ResetProtocol` cuts the same update at every mailbox, flag and callback access and interleaves it with callers that
begin, retire and consume a session reset: `ConsumedMeansDrained` is the safety result, `InterleavedUpdate` shows that
the cut update still refines the uncut one, and `ResetCompletes` in `ResetProgress` that some run completes every
reset. `SceneRecovery` is the retry policy above.

**TAXI commands** (`TaxiButtons`, `TaxiCutoff`, `CutoffHistory`, `TaxiRequests`, `TaxiRuns`, `TaxiResets`). The
dispatcher and the speed cutoff as classes over value specifications, and a world in which accepted toggles run or are
rejected later, samples arrive late and sessions are reset. `ToggleSafety` is the result over all runs whose resets
find no flight; `AbortUnreachable`, `CutoffNeverSkipped`, `SendsExactly` and `FedToggleSafety` are about both parts
together. `CommandsExactly` and `SendsInTime` say over whole histories, without naming the state, when OFF is
commanded and when a request is sent. A session reset forgets the flight records while the aircraft may still run the
toggles, so toggle safety does not survive every reset: `ResetCanDouble` is such a run, and `ResetSafetyExactly`
proves that a reset is safe in every run with the same dispatcher state if and only if neither side has a flight,
because with a flight the dispatcher cannot tell whether the toggle has already run (`CannotTell`).

**Session gating** (`Invalidation`). The two-bit invalidation word between callbacks, the worker and several readers:
`NothingLost` is the safety result, and `EpochGrows` counts the session epoch by recovery episodes.

**Inspection of changing memory** (`OwnedInventory`, `QueryCache`). A double-collect walk of the engine's hash table
against a history of all memory words, and the region cache whose endpoint check reuses fresh suffixes.

**Image walkers** (`Relocations`, `RttiScan`). Base-relocation blocks with skipped pages, in terms of the Microsoft PE
format's ".reloc Section (Image Only)", and the carry-over window scan.

**Indexes, schedules and names** (`ViewRegistry`, `ViewCopies`, `RenderSchedule`, `Versions`). Reference counters
against a map, the range-merging descriptor copy against a flat copy and what that does handle by handle
(`CopiedApart`), rate bounds, version tags and crash-record names.

Classes, arrays and loops appear where the original updates state in place; such a method's contract gives its whole
new state as a function of the old one, and the lemmas are about that function. Locks become atomic steps. External
code is adversarial: readers and visitors are arbitrary functions, engine callbacks return and do anything.

Where code and documentation differ, the model follows the code. The documented limit of 64 candidates does not bind
for inferred short templates, because `found` is emptied at each adoption (`camera/relocatable_contract.cpp:453-455`).
A simple descriptor copy that is too long forgets only the render-target views, while a too-long range copy forgets
both maps (`bridge/d3d12_bridge.cpp:1771-1795`, `bridge/d3d12_bridge.cpp:1822-1858`).

## Model

| member | source | states |
|---|---|---|
| Bindings.Agrees | taxi-cam-0.9.28-build.41/src/camera/relocatable_contract.cpp:49-64 | the two-pointer walk answers true exactly when no shared symbol has two different RVAs |
| Bindings.SortSorts | taxi-cam-0.9.28-build.41/src/camera/relocatable_contract.cpp:343-344 | sorting yields an ordered list with exactly the same bindings |
| Bindings.Normalize | taxi-cam-0.9.28-build.41/src/camera/relocatable_contract.cpp:343-351 | fails exactly when some symbol has two RVAs; otherwise strictly ascending symbols and the same set of bindings |
| Bindings.Unique | taxi-cam-0.9.28-build.41/src/camera/relocatable_contract.cpp:349 | dropping equal neighbours keeps the set and leaves each symbol once |
| Bindings.NormalizedUnique | taxi-cam-0.9.28-build.41/src/camera/relocatable_contract.cpp:107 | two canonical lists with the same bindings are the same list, so comparing the reread list compares sets |
| Bindings.Find | taxi-cam-0.9.28-build.41/src/camera/relocatable_contract.cpp:358-360 | the binary search finds the symbol's binding, or there is none |
| ContractModel.BindingValid | taxi-cam-0.9.28-build.41/src/camera/relocatable_contract.cpp:382-419 | every binding a matched shape implies, pointer targets included, is a valid address of its symbol inside the image |
| ContractModel.BindsIsStatic | taxi-cam-0.9.28-build.41/src/camera/relocatable_contract.cpp:382-419 | which symbols a present shape binds depends on the shape and the pointer relations, not on where it is |
| ContractResolver.Resolver.Read | taxi-cam-0.9.28-build.41/src/camera/relocatable_contract.cpp:153-175 | success returns exactly the image bytes of the range whatever windows the reader grants; failure means the range leaves the image, the reader refused, or its 65536 calls or 512 MiB are used up |
| ContractResolver.Resolver.CheckConstant | taxi-cam-0.9.28-build.41/src/camera/relocatable_contract.cpp:334-341 | true implies the constant is in read-only data at that address; false implies it is not, or a read failed |
| ContractResolver.Resolver.PointerSlot | taxi-cam-0.9.28-build.41/src/camera/relocatable_contract.cpp:361-372 | success returns what the slot addresses, with all the slot's conditions met; refusal means one is not met or a read failed |
| ContractResolver.Resolver.FollowPointers | taxi-cam-0.9.28-build.41/src/camera/relocatable_contract.cpp:353-376 | adds exactly the targets of pointer slots whose owners are bound, in canonical form; refuses exactly when a slot is invalid or the result contradicts itself, or a read failed |
| ContractResolver.Resolver.DecodeOperands | taxi-cam-0.9.28-build.41/src/camera/relocatable_contract.cpp:393-409 | collects exactly the operand base addresses, and succeeds exactly when every operand addresses a valid symbol |
| ContractResolver.Resolver.MatchBody | taxi-cam-0.9.28-build.41/src/camera/relocatable_contract.cpp:382-419 | success means the whole shape is present at the RVA and the candidate is the canonical list of all it binds; refusal means it is not present or a read failed |
| ContractResolver.Resolver.AddCandidate | taxi-cam-0.9.28-build.41/src/camera/relocatable_contract.cpp:421-435 | each shape is attempted at a location once; the found list grows by the match, and nothing else changes; the attempt limit means more than 16384 different attempts, and the candidate limit that a shape with 64 candidates is present at one more place |
| ContractResolver.Resolver.TryShape | taxi-cam-0.9.28-build.41/src/camera/relocatable_contract.cpp:472-483 | if the shape's seed lies at the window position, the location it implies has been attempted |
| ContractResolver.Resolver.SeedKeyed | taxi-cam-0.9.28-build.41/src/camera/relocatable_contract.cpp:472-474 | trying only the shapes indexed under the four bytes at an address misses no shape whose seed is there |
| ContractResolver.Resolver.ScanChunk | taxi-cam-0.9.28-build.41/src/camera/relocatable_contract.cpp:466-487 | an overlapping chunk covers every seed that starts in its first bytes, including seeds crossing into the next chunk |
| ContractResolver.Resolver.ScanSections | taxi-cam-0.9.28-build.41/src/camera/relocatable_contract.cpp:461-489 | afterwards every seed of every indexed shape in every static code section has been attempted |
| ContractResolver.Resolver.PresentAttempted | taxi-cam-0.9.28-build.41/src/camera/relocatable_contract.cpp:461-489 | a location whose fixed bytes match a discoverable shape was attempted |
| ContractResolver.Resolver.ScanIsNaive | taxi-cam-0.9.28-build.41/src/camera/relocatable_contract.cpp:461-489 | the candidates of each discoverable shape are exactly the RVAs where the full shape is present, each once |
| ContractResolver.Resolver.SelectShape | taxi-cam-0.9.28-build.41/src/camera/relocatable_contract.cpp:490-503 | adopts the first shape present anywhere; fails with not-found only when no shape is; other templates are untouched |
| ContractResolver.Resolver.Scan | taxi-cam-0.9.28-build.41/src/camera/relocatable_contract.cpp:461-505 | after the scan every domain, adopted shape and reached template satisfies the invariant the inference needs |
| ContractResolver.Resolver.FirstPresent | taxi-cam-0.9.28-build.41/src/camera/relocatable_contract.cpp:437-459 | offers one location to the shapes in order: returns the first one present there with its candidate, or none that was still open is present |
| ContractResolver.Resolver.AdoptFirstPresent | taxi-cam-0.9.28-build.41/src/camera/relocatable_contract.cpp:437-459 | one offer extends at most the target's domain, never changes a settled shape, and an unchanged candidate count means nothing changed |
| ContractResolver.Resolver.Offer | taxi-cam-0.9.28-build.41/src/camera/relocatable_contract.cpp:508-512 | a binding that names a short template has its location offered to that template |
| ContractResolver.Resolver.Infer | taxi-cam-0.9.28-build.41/src/camera/relocatable_contract.cpp:507-534 | success leaves every domain nonempty and closed: every location any candidate or root names for a short template has been offered; the inference limit means more candidates than templates, and unresolved means some short template has no shape at any place that is named for it |
| ContractResolver.Resolver.ReachedChoice | taxi-cam-0.9.28-build.41/src/camera/relocatable_contract.cpp:507-534 | for every consistent assignment, each reached template's domain holds the candidate that assignment needs (induction along the order of reaching) |
| ContractResolver.Resolver.ChoiceExists | taxi-cam-0.9.28-build.41/src/camera/relocatable_contract.cpp:507-534 | every consistent assignment survives inference as one pairwise-agreeing choice of candidates |
| ContractResolver.Resolver.IsSupported | taxi-cam-0.9.28-build.41/src/camera/relocatable_contract.cpp:545-560 | answers exactly whether every other domain holds an agreeing candidate, within the comparison budget |
| ContractDomains.EraseUnsupported | taxi-cam-0.9.28-build.41/src/camera/relocatable_contract.cpp:561-563 | erasing an unsupported candidate removes it from no pairwise-agreeing choice |
| ContractDomains.EmptyHasNoSolution | taxi-cam-0.9.28-build.41/src/camera/relocatable_contract.cpp:568-569 | an emptied domain proves that the domains it started from had no agreeing choice |
| ContractResolver.Resolver.PruneDomain | taxi-cam-0.9.28-build.41/src/camera/relocatable_contract.cpp:543-567 | in-place erasure removes only candidates of no agreeing choice; without change the domain is fully supported; each change shrinks the total |
| ContractResolver.Resolver.Constrain | taxi-cam-0.9.28-build.41/src/camera/relocatable_contract.cpp:536-574 | success is arc consistency with every agreeing choice kept; the inconsistent error occurs only when no agreeing choice existed, the comparison limit only above 255 candidates and the pass limit only from 4096 candidates on |
| ContractDomains.ArcFits | taxi-cam-0.9.28-build.41/src/camera/relocatable_contract.cpp:92-97 | once arc consistent and single, every candidate fits the image base, the roots and all other candidates |
| ContractResolver.Resolver.Merge | taxi-cam-0.9.28-build.41/src/camera/relocatable_contract.cpp:92-97 | writing a candidate fails exactly when it contradicts what is known, and otherwise adds exactly its bindings |
| ContractResolver.Resolver.MergeFronts | taxi-cam-0.9.28-build.41/src/camera/relocatable_contract.cpp:84-98 | the merged answer holds exactly the known bindings and every front candidate; the conflicting-symbol error needs fronts that do not fit |
| ContractResolver.Resolver.Assemble | taxi-cam-0.9.28-build.41/src/camera/relocatable_contract.cpp:78-102 | only ambiguity or an unresolved symbol can stop it: ambiguity means some template keeps two candidates, each supported by every other template, and an unresolved symbol is bound by nothing; the conflicting-symbol branch is unreachable after pruning |
| ContractResolver.Resolver.Reread | taxi-cam-0.9.28-build.41/src/camera/relocatable_contract.cpp:104-110 | success means each adopted shape is present again, in full, at its published location with the held bindings; failure means one is not, or a read failed |
| ContractResolver.Resolver.RereadConstants | taxi-cam-0.9.28-build.41/src/camera/relocatable_contract.cpp:111-115 | success means every constant is where the answer puts it; failure means one is not, or a read failed |
| ContractResolver.Resolver.RereadPointers | taxi-cam-0.9.28-build.41/src/camera/relocatable_contract.cpp:116-123 | success means every pointer slot addresses its published target; failure means following the slots would add or move something, or a read failed |
| ContractReread.FrontPresent | taxi-cam-0.9.28-build.41/src/camera/relocatable_contract.cpp:104-110 | after assembly each template's held candidate is the one of its published address |
| ContractReread.ConstantSettled | taxi-cam-0.9.28-build.41/src/camera/relocatable_contract.cpp:111-115 | after assembly every constant already matches at its published address |
| ContractReread.NothingAdded | taxi-cam-0.9.28-build.41/src/camera/relocatable_contract.cpp:116-123 | after assembly following every pointer slot adds and moves nothing |
| ContractResolver.Resolver.Discover | taxi-cam-0.9.28-build.41/src/camera/relocatable_contract.cpp:76 | scan and inference leave sound domains from which no consistent assignment has been lost, and the shapes adopted by the scan are the most specific present |
| ContractResolver.Resolver.PruneAndAssemble | taxi-cam-0.9.28-build.41/src/camera/relocatable_contract.cpp:77-102 | the inconsistent error means no assignment at all is consistent with the adopted shapes; success leaves one candidate per template; conflicting-symbol never occurs |
| ContractDomains.PublishedConsistent | taxi-cam-0.9.28-build.41/src/camera/relocatable_contract.cpp:103-126 | the published symbols satisfy the plain specification of every adopted shape |
| ContractDomains.PublishedUnique | taxi-cam-0.9.28-build.41/src/camera/relocatable_contract.cpp:78-126 | any assignment consistent with the adopted shapes equals the published one, symbol by symbol |
| ContractResolver.Resolver.Confirm | taxi-cam-0.9.28-build.41/src/camera/relocatable_contract.cpp:103-126 | what survives the reread is the only assignment consistent with the adopted shapes; on an unchanging image the reread fails only for reading trouble |
| ContractResolver.Resolver.Publish | taxi-cam-0.9.28-build.41/src/camera/relocatable_contract.cpp:75-127 | a valid result is consistent and is the only consistent assignment; an inconsistency error means there is none; after assembly only reading trouble can stop it |
| ContractResolver.Resolver.LongestRun | taxi-cam-0.9.28-build.41/src/camera/relocatable_contract.cpp:200-207 | the seed is a longest run of operand-free bytes |
| ContractResolver.Resolver.MarkOperand | taxi-cam-0.9.28-build.41/src/camera/relocatable_contract.cpp:192-197 | clears exactly the operand's bytes and refuses exactly an overlap with an earlier operand |
| ContractResolver.Resolver.BuildBody | taxi-cam-0.9.28-build.41/src/camera/relocatable_contract.cpp:176-210 | an accepted body has well-formed disjoint operands, marks exactly the operand-free bytes, and its seed is its longest free run |
| ContractResolver.Resolver.AddVariants | taxi-cam-0.9.28-build.41/src/camera/relocatable_contract.cpp:256-276 | afterwards every template's shapes are exactly the declared one and its variants in order, all of one length and discoverability |
| ContractResolver.Resolver.IndexSeeds | taxi-cam-0.9.28-build.41/src/camera/relocatable_contract.cpp:277-292 | every shape of every discoverable template is listed under the first four bytes of its seed |
| ContractResolver.Resolver.BindRoots | taxi-cam-0.9.28-build.41/src/camera/relocatable_contract.cpp:309-327 | accepted roots are valid and distinct, the fixed bindings are exactly the roots and what their pointer slots address, and every constant of a root matches |
| ContractResolver.Resolver.Prepare | taxi-cam-0.9.28-build.41/src/camera/relocatable_contract.cpp:211-328 | success establishes a faultless model, the seed index and empty results for every declared shape; every refusal names a fault the inputs have, or a reading cause |
| ContractErrors.SortApart | taxi-cam-0.9.28-build.41/src/camera/relocatable_contract.cpp:223-226 | sections are pairwise disjoint exactly when they are after sorting by address |
| ContractErrors.NeighboursDecide | taxi-cam-0.9.28-build.41/src/camera/relocatable_contract.cpp:223-226 | in address order it is enough that neighbours are apart |
| ContractErrors.SeedDecides | taxi-cam-0.9.28-build.41/src/camera/relocatable_contract.cpp:200-208 | a shape can be searched for exactly when some operand-free stretch reaches its minimum |
| ContractResolver.Resolver.CheckImage | taxi-cam-0.9.28-build.41/src/camera/relocatable_contract.cpp:212-228 | image, sections and static code size are fine, or the error is a fault they have |
| ContractResolver.Resolver.CheckPointers | taxi-cam-0.9.28-build.41/src/camera/relocatable_contract.cpp:295-311 | pointer relations are fine and name no slot twice, or the error is a fault they have |
| ContractResolver.Resolver.NothingWrong | taxi-cam-0.9.28-build.41/src/camera/relocatable_contract.cpp:211-328 | after all checks no error whatsoever would be justified by the inputs |
| ContractResolver.Resolver.AttemptCrowds | taxi-cam-0.9.28-build.41/src/camera/relocatable_contract.cpp:429-430 | the candidate limit during the scan means a shape is present at more than 64 places |
| ContractResolver.Resolver.Resolve | taxi-cam-0.9.28-build.41/src/camera/relocatable_contract.cpp:75-127 | a valid resolution is nonnegative, consistent, unique among consistent assignments, the shapes tried are exactly the declared ones and their variants in order, no earlier shape of a scanned template is anywhere in the image, and the inputs have no fault; an invalid one ends with an error justified by its own cause over the inputs, the reader or the candidates: a fault of the inputs it names, a refusing reader or used-up allowance, a template with no shape anywhere, a shape present at more than 64 places, more attempts, candidates or comparisons than the limits, a template no one names, no consistent assignment, or two; the conflicting-symbol, code-changed, constant-changed and pointer-changed errors never occur |
| ContractDomains.NowhereRefutes | taxi-cam-0.9.28-build.41/src/camera/relocatable_contract.cpp:490-503 | a template none of whose shapes is in the image leaves no assignment consistent with any choice of shapes |
| ContractChecker.DecodersAgree | taxi-cam-0.9.28-build.41/src/camera/camera_contract.cpp:169-172 | the resolver's subtract-on-sign-bit decoder and the reread's comparison decoder agree on every 8-bit and 32-bit value |
| ContractChecker.TargetsAgree | taxi-cam-0.9.28-build.41/src/camera/camera_contract.cpp:162-174 | both compute the same target for every operand |
| ContractChecker.ContractReader.Exact | taxi-cam-0.9.28-build.41/src/camera/camera_contract.cpp:42-53 | charges at most size divided by the smallest window plus two calls, and the bytes; when that is affordable it fails exactly for a range that leaves the image, and success returns the bytes |
| ContractChecker.Checker.CheckOperands | taxi-cam-0.9.28-build.41/src/camera/camera_contract.cpp:157-176 | accepts exactly when every operand decodes to its symbol plus addend, and marks exactly the operand bytes |
| ContractChecker.Checker.SameTemplate | taxi-cam-0.9.28-build.41/src/camera/camera_contract.cpp:149-181 | charges at most one range; when that is affordable it decides exactly whether the shape matches the assignment in the image |
| ContractChecker.Checker.SameTemplates | taxi-cam-0.9.28-build.41/src/camera/camera_contract.cpp:183-221 | charges at most the model's reread cost; when that is affordable it accepts exactly the assignments under which some declared shape of each template, every constant and every pointer slot match |
| RereadBudget.TriedOnce | taxi-cam-0.9.28-build.41/src/camera/camera_contract.cpp:189-203 | no variant is reread for two templates, so all shapes together cost no more than declared shapes plus variants |
| RereadBudget.RereadCapped | taxi-cam-0.9.28-build.41/src/camera/camera_contract.cpp:183-221 | for every model the resolver accepts the reread needs at most 329728 bytes, and that many bytes divided by the smallest window plus 8960 calls |
| ContractChecker.ResolutionAccepted | taxi-cam-0.9.28-build.41/src/camera/camera_contract.cpp:183-221 | whatever is consistent with declared shapes, constants and pointer slots is acceptable to the reread |
| ContractChecker.ResolveAndCheck | taxi-cam-0.9.28-build.41/src/camera/camera_contract.cpp:183-221 | every valid resolution of an unchanging readable image is acceptable, and is accepted whenever the calls and bytes left before the reread cover that most; nothing unacceptable is accepted |
| ContractChecker.PageWindowsSuffice | taxi-cam-0.9.28-build.41/src/camera/camera_contract.cpp:18-40 | with windows of a page or more, 9040 calls and 329728 bytes left are enough |
| PairModel.PackedCarries | taxi-cam-0.9.28-build.41/src/camera/entry_pair.cpp:20-34 | a packed descriptor carries mode, flag and key exactly when both names are empty and inline, and no other byte changes |
| PairModel.CreatesBounded | taxi-cam-0.9.28-build.41/src/camera/entry_pair.cpp:115-202 | in an allowed history every taken enable pays for at most two creations |
| PairModel.PrepareCarries | taxi-cam-0.9.28-build.41/src/camera/entry_pair.cpp:96-106 | a prepared descriptor carries the requested key in mode 0, or a zero key in mode 2 for an independent pose |
| PairModel.UpdateKeeps | taxi-cam-0.9.28-build.41/src/camera/entry_pair.cpp:115-202 | for any engine replies one update keeps: entries created and not confirmed erased are exactly the nonzero IDs under the owner, the owner is set iff an ID is, and every engine call and publication was allowed |
| PairModel.UpdateShows | taxi-cam-0.9.28-build.41/src/camera/entry_pair.cpp:78-81 | after an update the published owner, IDs, failure and creation flag are the private ones |
| PairModel.AfterKeeps | taxi-cam-0.9.28-build.41/src/camera/entry_pair.cpp:58-222 | every operation keeps the ownership invariant of the ledger |
| PairModel.Conservation | taxi-cam-0.9.28-build.41/src/camera/entry_pair.cpp:58-222 | over every run: the ledger's entries are the held IDs, every engine call was allowed (initialize and create only for a consumed enable with nothing else owned, erase only with the owner and a held ID, active only with two distinct IDs), and creations never exceed two per taken enable |
| PairModel.DisableEmpties | taxi-cam-0.9.28-build.41/src/camera/entry_pair.cpp:115-202 | a disable whose erasures are confirmed leaves nothing owned and publishes disabled |
| PairModel.EnableActivates | taxi-cam-0.9.28-build.41/src/camera/entry_pair.cpp:115-202 | an enable served by a cooperating engine publishes active with exactly the two returned IDs and the requested keys |
| PairModel.FailureSticks | taxi-cam-0.9.28-build.41/src/camera/entry_pair.cpp:115-202 | updates without a new request never retry a consumed creation |
| PairOutcomes.ActiveStays | taxi-cam-0.9.28-build.41/src/camera/entry_pair.cpp:127-160 | an active pair under its own manager stays: no request, or the same enable again, changes no field but that enable's own, calls the engine never and publishes active |
| PairOutcomes.ActiveLasts | taxi-cam-0.9.28-build.41/src/camera/entry_pair.cpp:115-202 | once a pair is settled, through every run without another request and without losing its manager, no engine call is made and no field changes, whoever updates it; it shows active or blocked |
| PairOutcomes.ActiveLastsOnce | taxi-cam-0.9.28-build.41/src/camera/entry_pair.cpp:115-202 | in such a run every update by its manager with all callbacks shows active, and every other update blocked |
| PairOutcomes.ShownActiveSettles | taxi-cam-0.9.28-build.41/src/camera/entry_pair.cpp:115-202 | whatever any run shows as active is a settled pair of a valid manager with two distinct IDs |
| PairOutcomes.BlockedExactly | taxi-cam-0.9.28-build.41/src/camera/entry_pair.cpp:144-155 | an update blocks if and only if there is work and the manager is invalid, not the owner, or lacks a callback; it names which, calls nothing and keeps everything owned |
| PairOutcomes.IdleReports | taxi-cam-0.9.28-build.41/src/camera/entry_pair.cpp:140-143 | with nothing owned and no enable waiting nothing is called, and disabled or failed is shown as the last failure says |
| PairOutcomes.UnwantedErased | taxi-cam-0.9.28-build.41/src/camera/entry_pair.cpp:157-167 | entries nobody wants are erased, second before first and before any creation; what is not confirmed stays owned and shows cleanup pending |
| PairOutcomes.UnwantedGone | taxi-cam-0.9.28-build.41/src/camera/entry_pair.cpp:157-171 | once all erasures are confirmed and no enable waits, nothing is owned and disabled or failed is shown |
| PairOutcomes.AttemptExactly | taxi-cam-0.9.28-build.41/src/camera/entry_pair.cpp:172-201 | an attempt makes the pair exactly when both descriptors are usable and the IDs are nonzero and different; otherwise it names the first trouble and keeps the first entry only while its removal is not confirmed; the enable is consumed either way |
| PairOutcomes.CancelsExactly | taxi-cam-0.9.28-build.41/src/camera/entry_pair.cpp:58-72 | a cancel empties everything when nothing is owned, and otherwise changes nothing |
| PairOutcomes.DestroysExactly | taxi-cam-0.9.28-build.41/src/camera/entry_pair.cpp:204-222 | the loss of the owning manager forgets entries, wishes and requests without an engine call and shows the failure; the loss of any other changes nothing |
| PairController.Controller.GetSnapshot | taxi-cam-0.9.28-build.41/src/camera/entry_pair.cpp:51-56 | the published state with the mailbox's pending flag |
| PairController.Controller.Reenter | taxi-cam-0.9.28-build.41/src/camera/entry_pair.cpp:36-72 | whatever a callback does to the controller changes only the mailbox |
| PairController.Controller.ZeroDword | taxi-cam-0.9.28-build.41/src/camera/entry_pair.cpp:13-16 | true exactly when the four bytes are zero |
| PairController.Controller.PackModeZero | taxi-cam-0.9.28-build.41/src/camera/entry_pair.cpp:20-27 | refuses exactly nonempty names and then changes nothing; otherwise writes mode, flag and key in place |
| PairController.Controller.PackIndependentPose | taxi-cam-0.9.28-build.41/src/camera/entry_pair.cpp:29-34 | as above with mode 2 and a zero key |
| PairController.Controller.EraseHeld | taxi-cam-0.9.28-build.41/src/camera/entry_pair.cpp:83-94 | asks for exactly the held ID of the owner and forgets it only when confirmed |
| PairController.Controller.Cleanup | taxi-cam-0.9.28-build.41/src/camera/entry_pair.cpp:83-94 | erases in reverse order; the owner goes exactly when no ID is left |
| PairController.Controller.PrepareDescriptor | taxi-cam-0.9.28-build.41/src/camera/entry_pair.cpp:96-106 | initializer refusal and contract breach are recorded as the failure; success packs the buffer |
| PairController.Controller.CreationFailed | taxi-cam-0.9.28-build.41/src/camera/entry_pair.cpp:108-113 | records the reason, erases what this attempt made, publishes failed or cleanup pending |
| PairController.Controller.CreateSecond | taxi-cam-0.9.28-build.41/src/camera/entry_pair.cpp:186-201 | with one entry made, the second call ends the update as specified: missing and duplicate IDs undo, success publishes active |
| PairController.Controller.CreatePair | taxi-cam-0.9.28-build.41/src/camera/entry_pair.cpp:172-201 | both creations, in order, after the request was consumed |
| PairController.Controller.ProcessUpdate | taxi-cam-0.9.28-build.41/src/camera/entry_pair.cpp:115-202 | refused while processing; otherwise the whole state and event log equal one specified update for the replies the engine gave |
| PairController.Controller.CancelUncreatedRequest | taxi-cam-0.9.28-build.41/src/camera/entry_pair.cpp:58-72 | done exactly when idle and nothing is owned, clearing request, failure and snapshot; otherwise changes nothing |
| PairController.Controller.AcknowledgeManagerDestroyed | taxi-cam-0.9.28-build.41/src/camera/entry_pair.cpp:204-222 | forgets the entries exactly when idle, something is owned and the manager is the owner |
| ResetProtocol.SceneSessionReset.ObserveEmpty | taxi-cam-0.9.28-build.41/src/camera/scene_session_reset.hpp:25-30 | retires only a held reset after a completed cancel and an empty snapshot |
| ResetProtocol.SceneSessionReset.Consume | taxi-cam-0.9.28-build.41/src/camera/scene_session_reset.hpp:34-40 | consumes exactly when held, retired, publicly ready and empty |
| ResetProtocol.SafeKept | taxi-cam-0.9.28-build.41/src/camera/entry_pair.cpp:115-202 | every step of observer or caller keeps flag ownership, published truth and the bounds of an update in progress |
| ResetProtocol.RetiringKept | taxi-cam-0.9.28-build.41/src/camera/probe.cpp:140-170 | every step keeps: a retired reset means nothing owned, nothing pending, nothing in flight |
| ResetProtocol.RunSafe | taxi-cam-0.9.28-build.41/src/camera/probe.cpp:1181-1215 | both invariants hold after every interleaving |
| ResetProtocol.ConsumedMeansDrained | taxi-cam-0.9.28-build.41/src/camera/scene_session_reset.hpp:34-40 | in every interleaving a consumable reset implies no owned entry, no creation in flight or pending and no enable waiting; and with the flag clear the published fields are the private ones |
| ResetProtocol.StepRefines | taxi-cam-0.9.28-build.41/src/camera/entry_pair.cpp:115-202 | a step of anybody taken inside an update does not change where that update ends |
| ResetProtocol.InterleavedUpdate | taxi-cam-0.9.28-build.41/src/camera/entry_pair.cpp:115-202 | however others interleave, an update that took the mailbox ends in and publishes exactly what one uninterrupted update would |
| ResetProgress.ConsumesExactly | taxi-cam-0.9.28-build.41/src/camera/scene_session_reset.hpp:31-40 | a reset is consumed exactly when held, retired, publicly ready and shown empty in every field |
| ResetProgress.RetiresExactly | taxi-cam-0.9.28-build.41/src/camera/scene_session_reset.hpp:25-30 | a reset becomes retired exactly when held, the cancel is confirmed and the pair shows empty in every field |
| ResetProgress.AdmitsExactly | taxi-cam-0.9.28-build.41/src/camera/scene_session_reset.hpp:14-16 | an enable is admitted exactly without a requested reset, in the ready public epoch |
| ResetProgress.DisableDrains | taxi-cam-0.9.28-build.41/src/camera/probe.cpp:1181-1215 | from every safe resting moment with entries one disable and one served update empty the pair, step by step |
| ResetProgress.ResetCompletes | taxi-cam-0.9.28-build.41/src/camera/probe.cpp:1181-1215 | from every safe resting moment some run completes a reset, with the observer running or off: consumed, nothing owned, enables admitted again |
| OwnedInventory.BoundedReader.Field | taxi-cam-0.9.28-build.41/src/camera/owned_entry_inventory.cpp:37-54 | charges the budget before reading, returns words each read at its own later moment, and refuses exactly misaligned, overflowing, unaffordable or unreadable fields |
| OwnedInventory.BoundedReader.Word | taxi-cam-0.9.28-build.41/src/camera/owned_entry_inventory.cpp:56-62 | the same for one word |
| OwnedInventory.HeldAt | taxi-cam-0.9.28-build.41/src/camera/owned_entry_inventory.cpp:154-186 | a word read equal before and after an instant, with no change between, had that value at the instant |
| OwnedInventory.ReadNode | taxi-cam-0.9.28-build.41/src/camera/owned_entry_inventory.cpp:115-123 | reads key, payload and link of one entry for 24 bytes |
| OwnedInventory.Judge | taxi-cam-0.9.28-build.41/src/camera/owned_entry_inventory.cpp:124-146 | passes exactly a new key, agreeing payload and an entry within the declared count |
| OwnedInventory.Visit | taxi-cam-0.9.28-build.41/src/camera/owned_entry_inventory.cpp:109-148 | refuses cycles, repeated keys, foreign payloads and excess entries; otherwise extends the distinct nodes |
| OwnedInventory.NeverRefused | taxi-cam-0.9.28-build.41/src/camera/owned_entry_inventory.cpp:109-148 | a well-formed table whose own words do not change refuses no entry: only an unreadable word of its own can stop the walk |
| OwnedInventory.WalkBucket | taxi-cam-0.9.28-build.41/src/camera/owned_entry_inventory.cpp:109-148 | terminates with the bucket's chain linked to null, 24 bytes an entry |
| OwnedInventory.WalkAll | taxi-cam-0.9.28-build.41/src/camera/owned_entry_inventory.cpp:109-152 | all buckets, and exactly the declared number of entries |
| OwnedInventory.ReadHeader | taxi-cam-0.9.28-build.41/src/camera/owned_entry_inventory.cpp:80-98 | accepts only counts within limits and a consistent table address |
| OwnedInventory.RereadNodes | taxi-cam-0.9.28-build.41/src/camera/owned_entry_inventory.cpp:154-168 | success rereads every entry equal |
| OwnedInventory.RereadHeader | taxi-cam-0.9.28-build.41/src/camera/owned_entry_inventory.cpp:170-186 | success rereads every head and both header words equal |
| OwnedInventory.WalkIsTable | taxi-cam-0.9.28-build.41/src/camera/owned_entry_inventory.cpp:100-152 | linked distinct nodes held in memory form disjoint acyclic chains with distinct keys and the declared count |
| OwnedInventory.DoubleCollect | taxi-cam-0.9.28-build.41/src/camera/owned_entry_inventory.cpp:71-189 | two agreeing passes with no hidden change describe the table at the instant between them |
| OwnedInventory.Inspect | taxi-cam-0.9.28-build.41/src/camera/owned_entry_inventory.cpp:71-189 | completes whenever the table is well formed and none of its own words changes or is unreadable, whatever the rest of memory does; complete and no hidden change: at one instant within the call the table was well formed and an owned ID is reported iff an entry has it; at most 114720 bytes, budget exhaustion unreachable; in unchanging memory complete iff the table is well formed, unless a word was unreadable; incomplete reports nothing |
| TaxiButtons.TaxiButtonCommand.Update | taxi-cam-0.9.28-build.41/src/camera/taxi_button_command.hpp:37-69 | the whole new state: a serial not above the latest changes no key, a new one is taken once and screened |
| TaxiButtons.TaxiButtonCommand.ResetSession | taxi-cam-0.9.28-build.41/src/camera/taxi_button_command.hpp:71-75 | drops permission and flights, fails a pending request, keeps the consumed key |
| TaxiButtons.TaxiButtonCommand.Screen | taxi-cam-0.9.28-build.41/src/camera/taxi_button_command.hpp:78-89 | permission age, session, lifetime and inhibition checks, in order, each failing only a pending request |
| TaxiButtons.TaxiButtonCommand.DecideSide | taxi-cam-0.9.28-build.41/src/camera/taxi_button_command.hpp:92-121 | acknowledges, cuts off, aborts, settles or decides a send for one side |
| TaxiButtons.TaxiButtonCommand.Step | taxi-cam-0.9.28-build.41/src/camera/taxi_button_command.hpp:76-122 | one dispatcher step over both sides |
| TaxiButtons.TaxiButtonCommand.Current | taxi-cam-0.9.28-build.41/src/camera/taxi_button_command.hpp:124-131 | a decision is still current exactly when unsent, without a flight and, unless a cutoff, still permitted and pending |
| TaxiButtons.TaxiButtonCommand.Sent | taxi-cam-0.9.28-build.41/src/camera/taxi_button_command.hpp:132-139 | an accepted send becomes the side's flight; a refused one fails its own request only |
| TaxiButtons.TaxiButtonCommand.Rejected | taxi-cam-0.9.28-build.41/src/camera/taxi_button_command.hpp:141-148 | a rejection drops the flight and fails the request that sent it |
| TaxiCutoff.TaxiSpeedCutoff.Update | taxi-cam-0.9.28-build.41/src/camera/taxi_speed_cutoff.hpp:16-56 | the whole new state and the commanded sides |
| TaxiCutoff.TaxiSpeedCutoff.Sent | taxi-cam-0.9.28-build.41/src/camera/taxi_speed_cutoff.hpp:58-61 | an accepted command waits for a later sample |
| TaxiCutoff.TaxiSpeedCutoff.Rejected | taxi-cam-0.9.28-build.41/src/camera/taxi_speed_cutoff.hpp:64-67 | a rejected command waits no longer; the demand stays |
| TaxiCutoff.DemandPersists | taxi-cam-0.9.28-build.41/src/camera/taxi_speed_cutoff.hpp:16-56 | over any sequence of operations a side's demand, and inhibition, last until that side is released |
| TaxiCutoff.CrossingInhibits | taxi-cam-0.9.28-build.41/src/camera/taxi_speed_cutoff.hpp:16-68 | from a crossing of the limit inhibition lasts until a fresh sample, later than any awaited send, shows the side off |
| TaxiCutoff.NoOnAboveLimit | taxi-cam-0.9.28-build.41/src/camera/taxi_button_command.hpp:86-121 | no ON is decided while inhibited, above the limit or with unusable speed |
| TaxiCutoff.AbortUnreachable | taxi-cam-0.9.28-build.41/src/camera/body_pose_provider.cpp:692-705 | with both parts fed the same reading the mid-loop abort is never taken |
| TaxiCutoff.SendsExactly | taxi-cam-0.9.28-build.41/src/camera/taxi_button_command.hpp:76-122 | fed the same reading, a step sends for a side if and only if it has no unacknowledged toggle and a cutoff or a screened request wants the other position; the target is that position |
| TaxiCutoff.CutoffNeverSkipped | taxi-cam-0.9.28-build.41/src/camera/body_pose_provider.cpp:692-705 | every cutoff command for a side without a flight is decided as an OFF send |
| CutoffHistory.CommandsExactly | taxi-cam-0.9.28-build.41/src/camera/taxi_speed_cutoff.hpp:16-56 | over every history of readings, sends and rejections, a side is commanded OFF if and only if a recent sample shows it on, the speed is over the limit or the side still demanded, no accepted command is awaited, and none was given within 1000 ms |
| CutoffHistory.StateFollows | taxi-cam-0.9.28-build.41/src/camera/taxi_speed_cutoff.hpp:16-68 | the fields are functions of that history |
| CutoffHistory.InhibitedExactly | taxi-cam-0.9.28-build.41/src/camera/taxi_speed_cutoff.hpp:68 | inhibited exactly while the speed is too high or some side is demanded |
| CutoffHistory.FirstCrossingCommands | taxi-cam-0.9.28-build.41/src/camera/taxi_speed_cutoff.hpp:40-55 | the first recent reading over the limit commands exactly the sides that are on, at once |
| TaxiRequests.SendsInTime | taxi-cam-0.9.28-build.41/src/camera/taxi_button_command.hpp:76-122 | over every history, what a step sends beside cutoffs is the last taken request, taken less than 3000 ms before, permitted within 500 ms, for this session and profile, toward the position it asks for and the light does not show |
| TaxiRequests.HistoryFollows | taxi-cam-0.9.28-build.41/src/camera/taxi_button_command.hpp:37-75 | request, time of taking and permission are functions of the history of calls |
| TaxiRequests.ScreenedExactly | taxi-cam-0.9.28-build.41/src/camera/taxi_button_command.hpp:80-87 | a pending request that may no longer be served fails with the first reason; any other status stays |
| TaxiRequests.StaleFails | taxi-cam-0.9.28-build.41/src/camera/taxi_button_command.hpp:76-122 | a step then ends with that request failed and sends nothing but cutoffs |
| TaxiRequests.ServedExactly | taxi-cam-0.9.28-build.41/src/camera/taxi_button_command.hpp:76-122 | fed the cutoff's reading, a step sends a side if and only if its sample is recent, its last toggle acknowledged, and a cutoff or a request still served wants the other position |
| TaxiRequests.LeavesExactly | taxi-cam-0.9.28-build.41/src/camera/taxi_button_command.hpp:90-120 | what such a step leaves in flight and pending, side by side |
| TaxiRequests.NewRequestExactly | taxi-cam-0.9.28-build.41/src/camera/taxi_button_command.hpp:53-68 | a new serial is consumed in any case, and pending unless malformed, not permitted, without buttons or for another session |
| TaxiRequests.OldRequestExactly | taxi-cam-0.9.28-build.41/src/camera/taxi_button_command.hpp:43-52 | a seen serial starts nothing and at most fails what is pending, for its reason |
| TaxiRequests.CurrentExactly | taxi-cam-0.9.28-build.41/src/camera/taxi_button_command.hpp:124-131 | the last check before a send, with its 500 ms |
| TaxiRequests.SentExactly | taxi-cam-0.9.28-build.41/src/camera/taxi_button_command.hpp:132-140 | what an accepted or refused send leaves |
| TaxiRequests.RejectedExactly | taxi-cam-0.9.28-build.41/src/camera/taxi_button_command.hpp:141-148 | what a rejection leaves |
| TaxiRuns.StepKeeps | taxi-cam-0.9.28-build.41/src/camera/taxi_button_command.hpp:76-122 | a step keeps latch, flights and toggles in flight in agreement |
| TaxiRuns.SendKeeps | taxi-cam-0.9.28-build.41/src/camera/taxi_button_command.hpp:124-139 | so does a send, accepted, refused or no longer current |
| TaxiRuns.ExecuteKeeps | taxi-cam-0.9.28-build.41/src/camera/body_pose_provider.cpp:707-735 | so does a toggle that finally runs: it turns the latch from not wanted to wanted |
| TaxiRuns.RejectKeeps | taxi-cam-0.9.28-build.41/src/camera/taxi_button_command.hpp:141-148 | so does a rejection |
| TaxiRuns.NeverReplayed | taxi-cam-0.9.28-build.41/src/camera/taxi_button_command.hpp:37-69 | a serial at or below the consumed one reopens nothing |
| TaxiRuns.OnceKept | taxi-cam-0.9.28-build.41/src/camera/taxi_button_command.hpp:76-148 | every step keeps: a request is accepted at most once per side |
| TaxiRuns.ToggleSafety | taxi-cam-0.9.28-build.41/src/camera/taxi_button_command.hpp:37-148 | over every run in which sessions are reset only while the dispatcher has no flight, each side has at most one outstanding accepted toggle, it moves the latch from not desired to desired, and no request is sent twice to a side |
| TaxiRuns.FedToggleSafety | taxi-cam-0.9.28-build.41/src/camera/body_pose_provider.cpp:687-735 | the same for runs in which the modelled cutoff, updated with the same readings, feeds every step |
| TaxiResets.StepBlind | taxi-cam-0.9.28-build.41/src/camera/taxi_button_command.hpp:91-98 | an unacknowledged flight keeps a step from looking at its side |
| TaxiResets.CannotTell | taxi-cam-0.9.28-build.41/src/camera/taxi_button_command.hpp:91-98 | whenever the dispatcher has a flight, some run reaches the same dispatcher state with the toggle still to run |
| TaxiResets.DoubleSend | taxi-cam-0.9.28-build.41/src/camera/body_pose_provider.cpp:95-109 | from there a session reset, a new sample, a new request and a step get a second toggle accepted |
| TaxiResets.ResetCanDouble | taxi-cam-0.9.28-build.41/src/camera/body_pose_provider.cpp:95-109 | one concrete run from both lights off ends with two toggles outstanding after a reset |
| TaxiResets.ResetSafetyExactly | taxi-cam-0.9.28-build.41/src/camera/body_pose_provider.cpp:95-109 | for every dispatcher state a run can reach: resetting the session keeps every such run and continuation toggle-safe if and only if neither side has a flight |
| ViewRegistry.DropAgrees | taxi-cam-0.9.28-build.41/src/bridge/d3d12_bridge.cpp:340-351 | uncounting a counted view keeps every counter equal to its scan, and the decrement never meets zero |
| ViewRegistry.ReplaceAgrees | taxi-cam-0.9.28-build.41/src/bridge/d3d12_bridge.cpp:354-364 | replacing, adding or dropping a view keeps every counter equal to its scan |
| ViewRegistry.AgreementUnique | taxi-cam-0.9.28-build.41/src/bridge/d3d12_bridge.cpp:340-351 | agreement with the map determines all the counters |
| ViewRegistry.FoldedAgrees | taxi-cam-0.9.28-build.41/src/bridge/d3d12_bridge.cpp:1771-1795 | so does copying any list of handle pairs |
| ViewCopies.RenderTargetCopied | taxi-cam-0.9.28-build.41/src/bridge/d3d12_bridge.cpp:1782-1785 | after a copy the destination has the source's view exactly when the source is tracked and there is room, and no other handle changes |
| ViewCopies.DepthCopied | taxi-cam-0.9.28-build.41/src/bridge/d3d12_bridge.cpp:1786-1791 | the same for depth formats, whose full map drops even a tracked destination |
| ViewCopies.ReplacedExactly | taxi-cam-0.9.28-build.41/src/bridge/d3d12_bridge.cpp:354-364 | a view is tracked where it is put, unless the handle is new and 65536 are tracked; one without a resource is untracked |
| ViewCopies.CountedExactly | taxi-cam-0.9.28-build.41/src/bridge/d3d12_bridge.cpp:340-351 | counted are base-mip views, not recovered, in formats 28, 29, 87 and 91 |
| ViewCopies.EmptiedMeans | taxi-cam-0.9.28-build.41/src/bridge/d3d12_bridge.cpp:365-371 | forgetting leaves nothing tracked and nothing counted |
| ViewCopies.CopiedStepwise | taxi-cam-0.9.28-build.41/src/bridge/d3d12_bridge.cpp:1780-1794 | for any lists, each destination gets what its source had just before that pair, and nothing else changes |
| ViewCopies.CopiedApart | taxi-cam-0.9.28-build.41/src/bridge/d3d12_bridge.cpp:1780-1794 | for lists that do not overlap each destination ends with its source's view or format, or untracked as the source was, provided there is room; every other handle and every view of the other kind keeps its own |
| ViewCopies.FlatAt | taxi-cam-0.9.28-build.41/src/bridge/d3d12_bridge.cpp:1830-1856 | a flattened list holds every position of every range in order, a stride apart, wrapping at 64 bits, and nothing else |
| ViewRegistry.Registry.AccountView | taxi-cam-0.9.28-build.41/src/bridge/d3d12_bridge.cpp:340-351 | bumps exactly the four-format counter of a base-mip, not recovered, typed view |
| ViewRegistry.Registry.ReplaceView | taxi-cam-0.9.28-build.41/src/bridge/d3d12_bridge.cpp:354-364 | the map and counters after one replacement, respecting the capacity |
| ViewRegistry.Registry.ClearViews | taxi-cam-0.9.28-build.41/src/bridge/d3d12_bridge.cpp:365-371 | uncounting in any order empties the map and returns every counter to agreement |
| ViewRegistry.Registry.CopyDescriptors | taxi-cam-0.9.28-build.41/src/bridge/d3d12_bridge.cpp:1771-1795 | a copy within the limit equals folding single copies over consecutive wrapped handles; a longer one clears the RTV views |
| ViewRegistry.Registry.Descriptors | taxi-cam-0.9.28-build.41/src/bridge/d3d12_bridge.cpp:1822-1858 | for all range lists, empty ranges included: terminates, and either equals folding single copies over the two flattened handle lists or forgets all tracked views, the latter exactly on refusal or overflow |
| ViewRegistry.Registry.EraseDead | taxi-cam-0.9.28-build.41/src/bridge/d3d12_bridge.cpp:2880-2886 | exactly the views of retired resources go, with accounting |
| ViewRegistry.Registry.EraseRecovered | taxi-cam-0.9.28-build.41/src/bridge/d3d12_bridge.cpp:2825-2831 | exactly the recovered views go; the counters still agree |
| ViewRegistry.Registry.LookUp | taxi-cam-0.9.28-build.41/src/bridge/d3d12_bridge.cpp:1360-1382 | with a typed view the four counters accept exactly when a scan of the whole map finds one format, and give its view; without one a recovered base-mip view of the live resource with an output encoding is used if there is any |
| QueryCache.RunUnique | taxi-cam-0.9.28-build.41/src/camera/local_memory.cpp:388-398 | the maximal run of equal pages from a page is unique |
| QueryCache.SuffixIsQuery | taxi-cam-0.9.28-build.41/src/camera/local_memory.cpp:593-599 | the suffix of a fresh region at a covered page base is what a query of that base would return |
| QueryCache.ObservationMeans | taxi-cam-0.9.28-build.41/src/camera/local_memory.cpp:388-413 | a new observation is the window's region when that contains the address, and the address's own otherwise |
| QueryCache.ScopedQueryCache.Query | taxi-cam-0.9.28-build.41/src/camera/local_memory.cpp:371-416 | the earliest saved region that contains the address, or one observation saved now: the run of equal pages from the start of the 64 KiB window if it reaches the address, and from the address's page otherwise; it fails exactly when inactive or failed, with 64 regions saved, or at an unmapped address, and failure is sticky |
| QueryCache.ScopedQueryCache.Order | taxi-cam-0.9.28-build.41/src/camera/local_memory.cpp:577-584 | all saved indices, by base |
| QueryCache.ScopedQueryCache.Finish | taxi-cam-0.9.28-build.41/src/camera/local_memory.cpp:572-625 | the region endpoint accepts if and only if the transaction was active and unfailed and a separate fresh query of every saved base returns the identical record; then every answer served still holds |
| Invalidation.BodyPoseProvider.NotifyInvalidCameraWorld | taxi-cam-0.9.28-build.41/src/camera/body_pose_provider.cpp:884-886 | sets the notification bit and nothing else |
| Invalidation.BodyPoseProvider.ServiceWorldInvalidation | taxi-cam-0.9.28-build.41/src/camera/body_pose_provider.cpp:142-153 | a notified word becomes serviced, samples are dropped, and the epoch rises by exactly one when the word was not yet serviced, nothing loads and it is below 2^64 - 1; otherwise nothing changes |
| Invalidation.BodyPoseProvider.Readiness | taxi-cam-0.9.28-build.41/src/camera/body_pose_provider.cpp:154-175 | ready exactly when every sample is fresh and the word allows it; being ready clears the word |
| Invalidation.RunSafe | taxi-cam-0.9.28-build.41/src/camera/body_pose_provider.cpp:142-175 | the handshake invariant holds after every interleaving of callbacks, worker and readers |
| Invalidation.ServiceUndisturbed | taxi-cam-0.9.28-build.41/src/camera/body_pose_provider.cpp:142-153 | the worker's separate steps, taken together, are exactly one service call |
| Invalidation.ReadUndisturbed | taxi-cam-0.9.28-build.41/src/camera/body_pose_provider.cpp:154-175 | a reader's separate steps, taken together, are exactly one readiness call |
| Invalidation.NothingLost | taxi-cam-0.9.28-build.41/src/camera/body_pose_provider.cpp:142-175 | a reader that returned ready saw every earlier notification serviced, and fresh identity, body and camera samples accepted after that service; services raise the session epoch at most once between two zero words |
| Invalidation.ServiceExactly | taxi-cam-0.9.28-build.41/src/camera/body_pose_provider.cpp:142-153 | what one service leaves of word, epoch and samples, with its numbers |
| Invalidation.ReadyExactly | taxi-cam-0.9.28-build.41/src/camera/body_pose_provider.cpp:154-175 | ready exactly with no loading, a running simulator, no waiting notification, a known profile and samples at most 500 ms old; ready ends the recovery |
| Invalidation.EpochGrows | taxi-cam-0.9.28-build.41/src/camera/body_pose_provider.cpp:103-153 | over every run without session packets the session epoch, and the epoch shown, grow by exactly the number of recoveries begun and identity changes, up to 2^64 - 1 |
| Invalidation.RecoveryEnds | taxi-cam-0.9.28-build.41/src/camera/body_pose_provider.cpp:142-175 | from every quiet moment one service, three samples and one reader end the recovery, ready, with the epoch risen by one exactly if it was due |
| Relocations.SkippedIsClear | taxi-cam-0.9.28-build.41/src/camera/code_contract.cpp:237-245 | no possible entry of a page judged irrelevant touches a range |
| Relocations.SevenIsNeeded | taxi-cam-0.9.28-build.41/src/camera/code_contract.cpp:237-240 | with one byte less margin a DIR64 field at the page's last byte would be missed |
| Relocations.ClearExactly | taxi-cam-0.9.28-build.41/src/camera/code_contract.cpp:253-277 | an entry is clear exactly when no byte it rewrites, four for kind 3 and eight for kind 10, lies in a range |
| Relocations.TilesAlong | taxi-cam-0.9.28-build.41/src/camera/code_contract.cpp:220-236 | a directory is tiled by blocks in at most one way |
| Relocations.RefutedExactly | taxi-cam-0.9.28-build.41/src/camera/code_contract.cpp:220-282 | a refusal refutes every tiling with fine entries |
| Relocations.Parser.Validate | taxi-cam-0.9.28-build.41/src/camera/code_contract.cpp:80-120 | accepts exactly sane AMD64 metadata, separate sections and one to 32 separate static-code ranges within the byte limits |
| Relocations.Parser.Exact | taxi-cam-0.9.28-build.41/src/camera/code_contract.cpp:122-147 | success returns exactly the image bytes; failure means the range leaves the image, the reader refused, or a mebibyte is used up |
| Relocations.Parser.CheckEntry | taxi-cam-0.9.28-build.41/src/camera/code_contract.cpp:253-277 | passes exactly padding and supported fields inside the image that touch no range, and names what is wrong with any other |
| Relocations.Parser.CheckBlock | taxi-cam-0.9.28-build.41/src/camera/code_contract.cpp:246-279 | every entry of a read block is visited once, in order, and all are fine; otherwise some entry has the flaw named, or reading failed |
| Relocations.Parser.RelocationBlocks | taxi-cam-0.9.28-build.41/src/camera/code_contract.cpp:220-282 | terminates; the blocks tile the directory, and no entry of any block, read or skipped, touches a range; a refusal shows a place where no block can stand or a flawed entry |
| Relocations.Parser.CheckRelocations | taxi-cam-0.9.28-build.41/src/camera/code_contract.cpp:208-283 | reading trouble aside, accepts exactly the directories that are absent, or aligned readable data apart from the ranges, tiled by blocks whose entries near a range are all fine; an accepted one leaves every range untouched; exactly the entries of read blocks are visited |
| RttiScan.Resolver.Read | taxi-cam-0.9.28-build.41/src/camera/rtti_vtables.cpp:153-177 | fills exactly the requested part of the buffer with image bytes; fails only for an empty request, a refusing reader or 131072 calls |
| RttiScan.Resolver.VisitChunk | taxi-cam-0.9.28-build.41/src/camera/rtti_vtables.cpp:197-201 | visits, in order, every aligned window completed by the chunk and none before, up to the first one the visitor declines |
| RttiScan.Resolver.Keep | taxi-cam-0.9.28-build.41/src/camera/rtti_vtables.cpp:202-203 | the memmove puts the last bytes in front even when they overlap |
| RttiScan.BeforeIsAll | taxi-cam-0.9.28-build.41/src/camera/rtti_vtables.cpp:192-205 | having visited all windows before a point past the end is having visited all |
| RttiScan.Resolver.ScanSection | taxi-cam-0.9.28-build.41/src/camera/rtti_vtables.cpp:191-205 | every aligned window of the section is visited exactly once with its image bytes, including windows across chunk borders |
| RttiScan.Resolver.Scan | taxi-cam-0.9.28-build.41/src/camera/rtti_vtables.cpp:186-208 | exactly the static data sections are scanned so, and the visitor took every window; only a refusing reader, 131072 calls or the visitor's own refusal of the last window stop it |
| RenderSchedule.TickSound | taxi-cam-0.9.28-build.41/src/camera/render_schedule.hpp:34-62 | every tick keeps the recorded times behind the clock, so no subtraction underflows |
| RenderSchedule.Scheduler.Configure | taxi-cam-0.9.28-build.41/src/camera/render_schedule.hpp:15-20 | settings change without breaking that |
| RenderSchedule.Scheduler.Reset | taxi-cam-0.9.28-build.41/src/camera/render_schedule.hpp:24-32 | forgets the times |
| RenderSchedule.Scheduler.Tick | taxi-cam-0.9.28-build.41/src/camera/render_schedule.hpp:34-62 | the whole new schedule and its gates |
| RenderSchedule.OneAtATime | taxi-cam-0.9.28-build.41/src/camera/render_schedule.hpp:34-62 | at most one feed is active and never on two consecutive ticks |
| RenderSchedule.Alternates | taxi-cam-0.9.28-build.41/src/camera/render_schedule.hpp:34-62 | with two feeds the activations of any tick sequence strictly alternate |
| RenderSchedule.FiresWhenDue | taxi-cam-0.9.28-build.41/src/camera/render_schedule.hpp:34-62 | without clock reversal a tick activates if and only if no gate was open, nothing suspends it and both cooldowns are over |
| RenderSchedule.ActivationsGapped | taxi-cam-0.9.28-build.41/src/camera/render_schedule.hpp:34-62 | activations of a feed, and of all feeds, are at least their spacing apart while the clock does not run back |
| RenderSchedule.RateBound | taxi-cam-0.9.28-build.41/src/camera/render_schedule.hpp:34-62 | any half-open 1000 ms window holds at most rate activations of a feed and rate times feeds in total |
| RenderSchedule.SpacingExactly | taxi-cam-0.9.28-build.41/src/camera/render_schedule.hpp:51-53 | the spacing is the least number of milliseconds that keeps the rate |
| RenderSchedule.ConfigureExactly | taxi-cam-0.9.28-build.41/src/camera/render_schedule.hpp:15-20 | five to sixty a second, one or two feeds; only a next feed that is gone is reset |
| RenderSchedule.ReversalCloses | taxi-cam-0.9.28-build.41/src/camera/render_schedule.hpp:34-45 | a clock that runs back closes the gates and restarts both cooldowns from there |
| RenderSchedule.ResetOpensFirst | taxi-cam-0.9.28-build.41/src/camera/render_schedule.hpp:24-62 | after a reset the first tick nothing suspends opens the first feed |
| SceneRecovery.Policy.Failed | taxi-cam-0.9.28-build.41/src/camera/scene_recovery.hpp:87-102 | latched reasons and a pending equal reason are kept; otherwise the failure is recorded and a retry scheduled if allowed |
| SceneRecovery.Policy.Retry | taxi-cam-0.9.28-build.41/src/camera/scene_recovery.hpp:103-111 | granted exactly when pending, requested, late enough, with a fresh pose and an empty disabled pair |
| SceneRecovery.Policy.CaptureProgress | taxi-cam-0.9.28-build.41/src/camera/scene_recovery.hpp:120-130 | progress extends or restarts the healthy span and heals at 10000 ms |
| SceneRecovery.AtMostThree | taxi-cam-0.9.28-build.41/src/camera/scene_recovery.hpp:70-144 | between restorations at most three retries happen |
| SceneRecovery.HealNeedsSpan | taxi-cam-0.9.28-build.41/src/camera/scene_recovery.hpp:120-130 | healing needs progress samples at most 2000 ms apart that span at least 10000 ms |
| SceneRecovery.RetryBudget | taxi-cam-0.9.28-build.41/src/camera/scene_recovery.hpp:70-144 | after any history, at most three retries until a start or a healed span |
| SceneRecovery.RetriesAreLate | taxi-cam-0.9.28-build.41/src/camera/scene_recovery.hpp:87-111 | in every run each retry answers a recorded failure at least 2000 ms older and sees an empty disabled pair |
| SceneRecovery.RetryIsLate | taxi-cam-0.9.28-build.41/src/camera/scene_recovery.hpp:87-111 | while a recorded failure stays the pending one, also one that replaced another reason, no retry comes within 2000 ms of it |
| SceneRecovery.RefusalSurvives | taxi-cam-0.9.28-build.41/src/camera/scene_recovery.hpp:87-130 | a latched refusal survives everything except start and stop, with no retry meanwhile |
| SceneRecovery.GrantedExactly | taxi-cam-0.9.28-build.41/src/camera/scene_recovery.hpp:103-111 | a retry is granted exactly when pending, wanted, 2000 ms late, with a fresh pose and a pair empty in every field |
| SceneRecovery.ScheduledExactly | taxi-cam-0.9.28-build.41/src/camera/scene_recovery.hpp:87-102 | a failure schedules a retry exactly when wanted, for two reasons, with fewer than three spent; a refusal hides other reasons |
| SceneRecovery.StartsAndStops | taxi-cam-0.9.28-build.41/src/camera/scene_recovery.hpp:74-86 | what a start and a stop leave |
| SceneRecovery.ResumesExactly | taxi-cam-0.9.28-build.41/src/camera/scene_recovery.hpp:112-118 | a retained resolution clears exactly the reason of a changed one |
| SceneRecovery.FailureIsRetried | taxi-cam-0.9.28-build.41/src/camera/scene_recovery.hpp:87-111 | a retryable failure, two seconds and an empty disabled pair do bring the retry |
| SceneRecovery.UnwantedStays | taxi-cam-0.9.28-build.41/src/camera/scene_recovery.hpp:78-111 | after a stop nothing is retried until a start |
| SceneRecovery.SteadyHeals | taxi-cam-0.9.28-build.41/src/camera/scene_recovery.hpp:120-130 | progress samples at most 2000 ms apart that span 10000 ms do restore the allowance |
| SceneRecovery.DeferInitialPoseFailure | taxi-cam-0.9.28-build.41/src/camera/scene_recovery.hpp:168-194 | succeeds exactly when its guards hold; on success the pair is disabled and empty and a retry pending; the event log, which records initializer, create and erase calls, gains none of them; otherwise nothing changes |
| Versions.TagParses | taxi-cam-0.9.28-build.41/src/app/updater.cpp:72-98 | parsing a printed tag returns its numbers |
| Versions.ParsedIsTag | taxi-cam-0.9.28-build.41/src/app/updater.cpp:72-98 | an accepted tag is the canonical print of what it parses to |
| Versions.TagIsShort | taxi-cam-0.9.28-build.41/src/app/updater.cpp:72-75 | no canonical tag reaches the length limit |
| Versions.ReadNumber | taxi-cam-0.9.28-build.41/src/app/updater.cpp:76-90 | reads a canonical decimal of at most 32 bits, with no intermediate overflow, or refuses |
| Versions.ParseUpdateVersion | taxi-cam-0.9.28-build.41/src/app/updater.cpp:72-98 | accepts exactly the canonical tags of four 32-bit numbers and returns those numbers |
| Versions.NewerIsRank | taxi-cam-0.9.28-build.41/src/app/updater.cpp:99-102 | newer means a greater four-digit number in base 2^32 |
| Versions.StrictTotalOrder | taxi-cam-0.9.28-build.41/src/app/updater.cpp:99-102 | irreflexive, transitive, and any two different versions compare |
| Versions.ReadField | taxi-cam-0.9.28-build.41/src/bridge/crash_evidence.hpp:54-74 | reads one canonical bounded number and its separator, or refuses |
| Versions.RecordParses | taxi-cam-0.9.28-build.41/src/bridge/crash_evidence.hpp:228-229 | every printed record name is accepted with its numbers |
| Versions.ParsedIsRecord | taxi-cam-0.9.28-build.41/src/bridge/crash_evidence.hpp:54-74 | every accepted name is the printed one |
| Versions.RecordFilename | taxi-cam-0.9.28-build.41/src/bridge/crash_evidence.hpp:54-74 | accepts exactly the names printed for a positive 32-bit process and a 64-bit tick |

## Left out

- ContractResolver.Resolver.Resolve: every failure names its cause, but the causes of the limits are necessary, not sufficient: how many attempts, calls and comparisons a given image needs is not computed.
- ContractResolver.Resolver.Read: the reader is an arbitrary function of call number, place and size over an image that does not change; the image changing between reads is not modelled.
- ContractResolver.Resolver.Prepare: symbol names, image-header metadata and which of several simultaneous faults is reported are not modelled; the aggregate byte and operand caps are checked after the templates are built.
- ContractResolver.Resolver.Discover: uniqueness is relative to the adopted shapes; another variant of an inferred short template is tried only in declaration order, as in the code.
- ContractChecker.ResolveAndCheck: the budget left before the reread is a parameter, since what header, relocation and vtable inspection charge before it is not modelled; release-method verification, section boundaries, image equality and the second relocation read around it are not modelled.
- PairController.Controller.ProcessUpdate: the fields guarded by the processing flag are one record, callback presence is three flags, and identities are unbounded.
- PairModel.DisableEmpties: progress is stated for an engine that confirms, since a silent engine can keep an entry for ever.
- ResetProtocol.ConsumedMeansDrained: assumes no enable is posted while a reset is requested, which the source ensures by checking `work_allowed` under the mutex; mutex-protected callers are one caller, and renderer retirement and epochs beyond the request are not modelled.
- ResetProgress.ResetCompletes: some run completes a reset; that every fair run does would need assumptions on scheduling and on the engine's confirmations.
- OwnedInventory.Inspect: memory is word-granular, and the words of one field are read in address order at times that never run back.
- TaxiButtons.TaxiButtonCommand.Step: speeds are reals with a usability flag, and clocks do not wrap.
- TaxiRuns.ToggleSafety: covers the push-event transport; aircraft whose buttons are set by writing the wanted position to a variable are not modelled.
- TaxiCutoff.TaxiSpeedCutoff.UpdateSide: is the loop body of `update`, with what the lines before the loop establish as its precondition.
- ViewRegistry.Registry.CopyDescriptors: COM objects, locks and the view's unrelated fields are not modelled, and counters do not wrap.
- QueryCache.ScopedQueryCache.Finish: the private-page proofs compared one by one before the regions, image ranges, metrics and failure details are not modelled, as they would add only easy members; memory is unchanging during this one call only.
- Invalidation.BodyPoseProvider.ServiceWorldInvalidation: packet parsing and partial identity polls are events; the session epoch stops at 2^64 - 1 as in the source.
- Relocations.Parser.CheckRelocations: the directory entry is a parameter, as reading the headers is not modelled; code hashing is not modelled; it is the source's skipping of far pages that makes entries there unchecked, so acceptance does not say their kinds are supported.
- RttiScan.Resolver.Scan: the visitor is an arbitrary function of a window; locator, hierarchy and vtable validation are not modelled.
- RenderSchedule.RateBound: fixed settings and a clock that does not run back, the only case in which a rate can be promised.
- SceneRecovery.DeferInitialPoseFailure: called on a controller at rest in a reachable state, as the caller's mutex ensures; initial calibration permission and reason names are not modelled.
- Versions.ParseUpdateVersion: download, signature checking and file inspection are not modelled.
- User interface, process attachment, file and registry access, logging and mailbox transport.
- Direct3D and COM hooking, GPU copies, submission proofs and descriptor heaps.
- Floating-point camera geometry and trigonometry.
- Instruction byte tables, fixed addresses and hash functions.
- Aircraft inventory, owned view, source view and manager inspection: the same double-collect argument without an unbounded structure.
