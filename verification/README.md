# SATZone backend: verified models

A Dafny model of the stateful services of the SATZone learning backend, with proofs of what they keep over whole runs.
Each service call is one atomic step on in-memory tables; SQL queries become sequence, set and map operations; clocks,
random draws, provider answers and network behaviour are parameters. Durations, ratios and play credit are exact
(`real`, or integers of microseconds) where the code uses floats.

| file | component |
|---|---|
| `Prelude.dfy` | options, results, Python's rounding, "first matching row" |
| `Playback.dfy` | the anti-seek gate on HLS segment fetches |
| `GateHistory.dfy` | the gate and its playlists retold from the fetches alone |
| `HlsText.dfy`, `Manifest.dfy` | lines of a playlist; the sliding manifest renderer |
| `Timeline.dfy` | the packager's duration parser, and the one timeline it shares with renderer and gate |
| `Enrolling.dfy` | course and program enrollment with stored counters |
| `Checkout.dfy`, `CheckoutLaws.dfy` | orders, Payme transactions, promocode reservations; laws over runs |
| `CheckoutAnswers.dfy` | when each checkout call succeeds and what it leaves behind |
| `Sessions.dfy` | refresh-token rotation with reuse detection |
| `SessionHistory.dfy` | the token tables retold from the calls alone |
| `PhoneOtp.dfy` | claiming a phone number by one-time code |
| `RateLimit.dfy` | the sliding-window limiter |
| `RangeReads.dfy` | chunked range reads with one mid-stream resume |
| `Grading.dfy`, `GradingRules.dfy` | practice attempts and assessments; which answers are right and what they score |
| `SectionGate.dfy` | section quizzes in front of later sections |
| `Completion.dfy` | lesson progress, completion, certificates |

Where the service updates stored rows in place, a class carries their fields; each of its methods is proved equal to a
step function on the tables (`State() == Step(old(State()), ...)`), and the laws are lemmas about that function and
its runs. Each step function is in turn pinned by a law that does not mention it: exactly when a call succeeds, and
what it changes, in terms of rows, catalog and earlier calls (the members named `...Iff`, `...Is` and `...IsHistory`).
Classes: `Playback.LessonProgress`, `Enrolling.Enrollments`, `Checkout.Database`, `Sessions.TokenStore`,
`PhoneOtp.Claim`, `RateLimit.SortedSet`, `Completion.Enrollment`. The loops that only compute (rendering, parsing,
range reads, grading) are methods proved equal to a function; the section gate only queries, and is functions.

What a maintainer may want to know first; each is a theorem with its exact condition or a concrete run:

- Promocode conservation breaks exactly when the provider settles a transaction whose order the buyer cancelled while
  it was open (`StepConservesIff`, `RunConservesIff`); `cancel_order` leaves that transaction CREATED. Five calls from
  the empty tables get there, and then the code sells again (`OversellingIsReached`, `OversoldRunContinues`).
- The comment "if the buyer is re-applying the same code, return the order untouched" in `create_order` holds exactly
  when the code could still be reserved by somebody (`ReapplyingIff`); for a single-use code whose use is counted it
  never is (`ReapplyingIsRefused`), and only a lost count lets it through (`ReapplyingIsReturned`).
- A lesson is complete exactly when the last word on it is "done" (`CompletionIff`): below the last segment the latest
  accepted mark decides (`UnplayedCompletionIff`), and in runs that never mark it complete the wall-clock bound holds
  (`UnmarkedCompletionIsOutpaced`).
- The rate check of the gate follows the recorded segment timeline; the uniform formula in its docstring is the same
  thing exactly when the recorded durations are nominal (`DocumentedIff`). A look-ahead of zero blocks playback
  altogether (`NoLookaheadNoPlayback`), and a look-ahead of one can refuse an honest viewer a short last segment
  (`SteadyViewerIff`, `ShortLastSegmentStalls`). Which lessons can be watched straight through at all is
  `WatchableIff`.
- With distinct media lines, the served (EXTINF, URI) list is append-only if and only if the packaged playlist lists
  its segments in index order (`AppendOnlyIffAscending`); the served file, which sections 4.3.3.5 and 6.2.1 of RFC
  8216 speak of, if and only if in addition no tag line stands below a segment that may be hidden
  (`FileAppendOnlyIff`). What the packager writes meets both up to a million segments (`PrintedAppendOnlyIff`); names
  of seven or more digits are never hidden (`WindowHidesBelowAMillion`).
- A phone's re-issue may delete another phone's live code, exactly when the first phone's live back link dangles at it
  (`IssueSparesOthersIff`); a slow issue or one that found no free code gets there (`SlowIssueDeletesAnothersCode`,
  `FailedIssueDeletesAnothersCode`).
- Requests within one clock tick share a member of the limiter's sorted set: the limit bounds instants
  (`WindowNeverExceedsLimit`), so a burst of any size passes any limit but zero (`BurstSlipsThrough`).
- An S3 body that ends early is reported as a completed download, exactly as `SilentlyTruncatedIff` says, and a second
  timeout aborts even after the last byte (`AbortedAfterAllIff`).
- A section stays reachable exactly while every earlier quiz is passed, or has attempts left and a paper that can be
  passed at all (`UnlockableIff`, `PassableIff`). A section quiz without questions cannot, so in a published course it
  locks everything behind it (`BlankQuizLocksTheCourse`); nor does an expected answer with surrounding white space
  ever match (`AnswerableIff`).
- 100 percent is shown from 99.5 percent on, before completion (`HundredIff`), and a rounded assessment score can show
  the pass mark on a failed attempt (`DisplaysPassMarkIff`).

## Model

| member | source | states |
|---|---|---|
| Playback.LessonProgress.constructor | app/services/streaming_service.py:258-283 | a new progress row has watermark -1, no credit, no clock and no completion |
| Playback.LessonProgress.GateSegmentFetch | app/services/streaming_service.py:321-399 | the fields after a fetch are those of `Step`, which a refused fetch leaves alone, and the answer is that of `Answer`; `GateHistory.AnswerIff` and `RowIsHistory` say what these are in terms of the fetches before |
| Playback.EndOffsetMonotone | app/services/streaming_service.py:296-309 | the playback timeline never runs backwards, for recorded or nominal durations |
| Playback.Earned | app/services/streaming_service.py:360-368 | a gap never banks more than the wall-clock seconds that passed, and the first fetch banks nothing |
| Playback.StepKeepsCoherent | app/services/streaming_service.py:355-396 | every fetch keeps: credit covers the required credit of the watermark, wall clock covers the credit, completion marks match the watermark |
| Playback.RunKeepsCoherent | app/services/streaming_service.py:355-396 | the same in every reachable state of every clocked run |
| Playback.WatermarkIsOutpaced | app/services/streaming_service.py:347-391 | for any durations and any mix of jumps, rewatches and refusals, the timeline through watermark minus look-ahead is at most the maximum rate times the time since the first accepted fetch |
| Playback.CompletionIsOutpaced | app/services/streaming_service.py:347-396 | so completion through the gate takes at least the timeline through the last segment minus look-ahead, divided by the maximum rate |
| Playback.RewatchNeverRefused | app/services/streaming_service.py:330-331 | in every reachable state a refetch at or below the watermark is accepted |
| Playback.ListedNeverSkips | app/services/streaming_service.py:286-293 | a segment the window once exposed is never later refused as a skip |
| Playback.CompletesExactlyOnce | app/services/streaming_service.py:393-397 | just_completed fires once when the watermark first reaches the last segment and never again under gate steps |
| Playback.RequiredGrows | app/services/streaming_service.py:374-382 | raising the watermark by one costs exactly the playing time, at the maximum rate, of the segment leaving the look-ahead window, on any lesson |
| Playback.DocumentedIff | app/services/streaming_service.py:332-337 | the documented formula is the requirement over the first segments past the look-ahead iff none of their recorded durations differs from the nominal |
| Playback.NextSegmentAccepted | app/services/streaming_service.py:347-385 | from every coherent state, on any lesson, the next segment is accepted after waiting as long as the segment leaving the window plays, if the next segment's clamp lets that wait be credited |
| Playback.SequentialIff | app/services/streaming_service.py:355-391 | a schedule of fetches 0, 1, 2, ... on any lesson is accepted throughout iff its clamped gaps keep up with the requirement at every segment |
| Playback.WatchableIff | app/services/streaming_service.py:355-391 | a lesson can be watched straight through on some schedule iff the sum of its clamps covers the requirement at every segment |
| Playback.HonestViewerCompletes | app/services/streaming_service.py:321-399 | an evenly cut lesson, durations recorded or nominal, last segment perhaps shorter, is accepted from start to finish and completed at any pace up to the maximum rate: with a look-ahead of two always, with one if the last clamp allows a full pace |
| Playback.PaceUsuallyFits | app/core/config.py:154-159 | the pace of a segment can be credited in full at a rate of two and above for any length, and at one and above for whole seconds |
| Playback.SteadyViewerIff | app/services/streaming_service.py:361-385 | fetching exactly one pace apart is accepted throughout iff, under a look-ahead of one, the last segment's clamp still covers what is missing |
| Playback.ShortLastSegmentStalls | app/services/streaming_service.py:361-385 | segments of 6, 6 and 1 seconds at rate two and look-ahead one, fetched at 0, 3 and 6 seconds: the last is refused |
| Playback.RewatchesBankCredit | app/services/streaming_service.py:363-368 | refetching the watermark each second banks one second each time, on any lesson |
| Playback.NeverStuck | app/services/streaming_service.py:321-399 | with a positive look-ahead some schedule of accepted fetches reaches any watermark from every reachable state, whatever the durations |
| Playback.NoLookaheadNoPlayback | app/services/streaming_service.py:355-358 | with a look-ahead of zero no fetch is ever accepted |
| GateHistory.RowIsHistory | app/services/streaming_service.py:355-397 | after any fetches the stored row is: highest index let through (-1 if none), seconds banked between the fetches let through, time of the last, time the last segment was first let through |
| GateHistory.AnswerIff | app/services/streaming_service.py:355-397 | over every run from a new row: a fetch is a skip iff its index exceeds the highest let through before by more than the look-ahead; any other is let through iff the seconds banked, no gap counting for more than its segment plays, at the maximum rate cover the timeline up to the look-ahead behind the new watermark; completion is reported iff it first reaches the last segment |
| GateHistory.ServedWindow | app/services/streaming_service.py:286-293 | after any run the playlist served holds exactly the media lines up to the look-ahead beyond the highest index let through, and of the packaged segments exactly those that would not be refused as skips |
| GateHistory.ServedOfPrinted | app/api/v1/streaming.py:388-404 | of a printed playlist the first segments up to that bound, in order, each under its own EXTINF and the address /seg/<name>?t=<token> |
| HlsText.SegmentNameRoundTrip | app/api/v1/streaming.py:269-274 | the packager's segment names read back to their index by the parser always, by the renderer below one million |
| HlsText.PrintedDecimal | app/utils/hls.py:249 | a six-decimal EXTINF duration reads back exactly |
| Manifest.RenderManifest | app/api/v1/streaming.py:277-348 | the line loop with its buffered EXTINF and truncation flag computes `Rendered` |
| Manifest.KeyLineRewritten | app/api/v1/streaming.py:309-311 | an EXT-X-KEY line with one URI attribute has it replaced and everything else kept |
| Manifest.KeyStaysKey | app/api/v1/streaming.py:309-311 | a rewritten key line is still a key line, whatever its attributes |
| Manifest.PlayerSeesWindow | app/api/v1/streaming.py:301-346 | the player reads exactly the source's media lines up to the ceiling, in order, each directly below its own EXTINF, and nothing of a hidden segment |
| Manifest.HeadersKept | app/api/v1/streaming.py:309-327 | header tags come through in order: key rewritten, playlist type EVENT when sliding, the rest verbatim |
| Manifest.HeaderTexts | app/api/v1/streaming.py:309-316 | a sliding playlist says `#EXT-X-PLAYLIST-TYPE:EVENT`, key lines point to /key?t=<token>, other header lines are verbatim |
| Manifest.EndListSurvivesIffWhole | app/api/v1/streaming.py:317-322 | a closing ENDLIST survives exactly when no segment above it was hidden |
| Manifest.AscendingGrows | app/api/v1/streaming.py:301-346 | with segments in index order the (EXTINF, URI) list of a lower window is a prefix of a higher one's |
| Manifest.InversionBreaks | app/api/v1/streaming.py:301-346 | with distinct media lines, any inversion makes some rise of the window insert a segment above a served one |
| Manifest.AppendOnlyIffAscending | app/api/v1/streaming.py:277-348 | hence the (EXTINF, URI) list only grows iff segments are listed in index order |
| Manifest.FileAppendOnlyIff | app/api/v1/streaming.py:277-348 | the served file, tag lines included, only grows iff below every segment that may be hidden there is no media line of a lower index and no tag line |
| Manifest.TagBetweenSegmentsBreaks | app/api/v1/streaming.py:324-327 | a tag line below two ordered segments: the list grows but the file does not |
| Manifest.PlaylistsOnlyGrow | app/api/v1/streaming.py:388-404 | over any run of the gate the (EXTINF, URI) list served before is a prefix of the one served after, the whole file too when no tag stands below a segment, and no listed segment is refused as a skip |
| Timeline.ParseSegmentDurations | app/utils/hls.py:253-277 | the loop over lines and its closing comprehension compute `Durations`: last duration per index, nominal in the gaps, up to the highest index |
| Timeline.DurationsIff | app/utils/hls.py:253-277 | the parsed list reaches exactly to the highest index named, each place holding the last duration given for it, or the nominal length if none was |
| Timeline.MaxKey | app/utils/hls.py:277 | the highest segment index that was recorded |
| Timeline.PairsAgree | app/utils/hls.py:265-274 | parser and renderer attach the same duration to the same segment, line by line |
| Timeline.ParsePrinted | app/utils/hls.py:253-277 | parsing a printed playlist of durations returns exactly those durations |
| Timeline.PrintedIsNumbered | app/utils/hls.py:131 | a printed playlist of up to a million segments has its segments numbered and timed for the renderer too |
| Timeline.ServedTimeIsGateTime | app/services/streaming_service.py:296-309 | for a numbered playlist the durations left by the renderer at a ceiling sum to the offset the gate charges for that ceiling, with the durations the parser stored |
| Timeline.WindowHidesBelowAMillion | app/api/v1/streaming.py:269-274 | of a printed playlist the window hides exactly the segments above the ceiling and below index one million |
| Timeline.PrintedAppendOnlyIff | app/api/v1/streaming.py:277-348 | the served files of a printed playlist, headers and all, only grow iff it has at most a million segments |
| Timeline.HonestViewerOfPackagedLesson | app/utils/hls.py:235-237 | a lesson cut evenly by the packager, its durations parsed from its own playlist, is completed by an honest viewer at rate two and look-ahead two or above |
| Enrolling.Enrollments.EnrollUser | app/services/enrollment_service.py:26-51 | one row and one count if the course is published and the row is new; otherwise refused or unchanged |
| Enrolling.Enrollments.EnrollUserInProgram | app/services/program_service.py:48-100 | the loop over the missing required courses computes `EnrollInProgram`; `EnrollInProgramIff` says what that is in terms of the catalog |
| Enrolling.EnrollIff | app/services/enrollment_service.py:26-51 | succeeds iff the course is published; then exactly that row is added, and one learner counted iff it is new |
| Enrolling.EnrollInProgramIff | app/services/program_service.py:48-100 | succeeds iff the program is published; a new program row stores exactly the courses the catalog requires now, each of them gets its enrollment row, and each counter rises by one for exactly the rows that are new; an existing program row changes nothing |
| Enrolling.JoinedStaysBalanced | app/services/program_service.py:84-96 | after enrolling in a set of courses each counter still equals its number of rows |
| Enrolling.EnrollStaysBalanced | app/services/enrollment_service.py:26-51 | enrolling keeps counters equal to rows and enrolls the user |
| Enrolling.EnrollInProgramStaysBalanced | app/services/program_service.py:48-100 | program enrollment keeps counters equal to rows and every course of a program row present, and a new row lists exactly what the catalog requires |
| Enrolling.EnrollIdempotent | app/services/enrollment_service.py:26-51 | a repeated call changes nothing, even if the catalog changed, and rows are only added |
| Enrolling.EnrollInProgramIdempotent | app/services/program_service.py:58-65 | the same for programs; a program row keeps the list it was created with |
| Checkout.Discount | app/services/promocode_service.py:49-67 | clipped to [0, price]; a percentage is the rounded-down share, a fixed value is itself, more than the price is the price |
| Checkout.FindActive | app/services/promocode_service.py:189-223 | an accepted code has the typed text and course and can be reserved right now |
| Checkout.Database.TryReserve | app/services/promocode_service.py:226-250 | succeeds iff active, unexpired and below its limit, and then adds one use |
| Checkout.Database.ReleaseUse | app/services/promocode_service.py:253-264 | takes one use back, never below zero |
| Checkout.Database.PlaceOrder | app/services/payment_service.py:177-294 | price, code lookup, reuse of the pending order, swap of reservations and rollback, as `CreateOrder` |
| Checkout.Database.Cancel | app/services/payment_service.py:311-321 | pending or processing orders are cancelled and release their code |
| Checkout.Database.GrantEntitlement | app/services/payment_service.py:397-404 | enrolls the buyer in the course or program bought |
| Checkout.Database.ChargeCard | app/services/payment_service.py:327-367 | a charged card records a performed transaction, pays the order and enrolls the buyer, or changes no table |
| Checkout.Database.StartPayme | app/services/payment_service.py:370-391 | only the provider of a pending order is set |
| Checkout.Database.CreateTransaction | app/services/payment_service.py:552-592 | the Create callback with its order of checks and its answer to a repeated id |
| Checkout.Database.PerformTransaction | app/services/payment_service.py:595-617 | the Perform callback, rolled back if the entitlement cannot be granted, computes `RpcPerform`; `CheckoutAnswers.PerformIff` says when it succeeds and what it does |
| Checkout.Database.CancelTransaction | app/services/payment_service.py:620-652 | the Cancel callback: void and release before performance, reverse and keep the code after it |
| Checkout.Database.AddPromo | app/services/promocode_service.py:84-139 | a new single-use code with a fresh text, for a priced course, in the future and below the price |
| Checkout.Database.Revoke | app/services/promocode_service.py:167-183 | a used code is deactivated, an unused one deleted and detached |
| CheckoutLaws.RefusedChangesNothing | app/services/payment_service.py:469-513 | a refused call leaves every table as it was |
| CheckoutLaws.StepKeeps | app/services/payment_service.py:311-367 | every step, in-flight cancellation included, keeps all table invariants and only moves rows onward |
| CheckoutLaws.RunKeeps | app/services/payment_service.py:552-652 | the same over every run |
| CheckoutLaws.StatusReflectsTransaction | app/services/payment_service.py:552-652 | an order has at most one transaction; pending has none, processing an open one, PAID iff performed, REFUNDED iff reversed |
| CheckoutLaws.TransactionsOnlyAdvance | app/services/payment_service.py:595-652 | a transaction keeps its order, id and amount, which stays the order's amount, and moves only CREATED, PERFORMED, REVERSED or CREATED, CANCELLED |
| CheckoutLaws.PaidBuyersAreEnrolled | app/services/payment_service.py:397-404 | in every reachable state counters equal rows and the buyer of each paid order holds the course, or the program and every course its row lists; what the row lists is `CheckoutAnswers.PaidProgramsFollowTheCatalog` |
| CheckoutLaws.PlacedOrderIsPricedToday | app/services/payment_service.py:216-294 | the order handed back is the buyer's pending one for the item, holding exactly the typed code: untouched, at its old price, exactly when a pending one already holds the quoted code or likewise none, and otherwise at today's price less exactly that code's discount |
| CheckoutLaws.PricesAlwaysAddUp | app/services/payment_service.py:244-290 | in every reachable state amount plus discount is the original price, and an order without one has no discount |
| CheckoutLaws.FoundIff | app/services/promocode_service.py:189-223 | a typed code is accepted iff it names this course's code and that code is active, unexpired and below its limit |
| CheckoutLaws.StepConservesIff | app/services/promocode_service.py:226-264 | a step keeps "uses equal live holders" for all codes iff it does not settle the open transaction of an order already cancelled |
| CheckoutLaws.RunConservesIff | app/services/payment_service.py:311-321 | over a run conservation holds throughout iff no step does that |
| CheckoutLaws.NothingSoldYet | app/models/promocode.py:55-100 | the empty tables satisfy every invariant the laws start from |
| CheckoutLaws.OrderlyRunsConserve | app/services/payment_service.py:311-321 | runs without a cancellation in flight never do it, and so conserve |
| CheckoutLaws.InFlightCancelOversells | app/services/payment_service.py:313-317 | from any sound state, cancelling a processing order with a code and then performing it leaves it paid with a code that does not count it |
| CheckoutLaws.OversellingIsReached | app/services/payment_service.py:313-317 | five concrete calls from the empty tables get there |
| CheckoutLaws.OversoldCodeIsResold | app/services/promocode_service.py:226-250 | from there another buyer's order can hold the same single-use code |
| CheckoutLaws.OversoldCodeIsDetached | app/services/promocode_service.py:177-183 | or its owner can delete the code from under the paid order |
| CheckoutLaws.OversoldRunContinues | app/services/payment_service.py:313-317 | both, as continuations of the concrete run |
| CheckoutLaws.SingleUse | app/services/promocode_service.py:229-250 | over every run that settles no orphan, a code with a limit of one is never held by two live orders |
| CheckoutLaws.RevokeDetachesIff | app/services/promocode_service.py:177-183 | revoking detaches a code from an order iff the owner deletes it while its counter stands at zero |
| CheckoutLaws.RevokeKeepsLiveOrders | app/services/promocode_service.py:170-183 | hence, while codes are conserved, revoking or deleting a code never detaches it from a live order |
| CheckoutLaws.ReapplyingIff | app/services/payment_service.py:226-247 | typing the code of one's own pending order again returns that order untouched iff the course is open and still costs more than the discount and the code is this course's and can be reserved right now; otherwise the call is refused |
| CheckoutLaws.ReapplyingIsRefused | app/services/payment_service.py:226-247 | hence, while codes are conserved, a single-use code is always refused there |
| CheckoutLaws.ReapplyingIsReturned | app/services/payment_service.py:226-247 | a concrete run from the empty tables, with a cancellation in flight, after which it is not |
| CheckoutLaws.PaidCodeIsSpent | app/services/payment_service.py:629-645 | over every run that settles no orphan, a single-use code an order was paid with stays with that order and can never be reserved or offered again, refund included |
| CheckoutLaws.UsesStayInRange | app/services/promocode_service.py:253-264 | uses stay between zero and the limit in every run whatsoever |
| CheckoutLaws.AcceptedIsHandled | app/services/payment_service.py:552-652 | a successful Create, Perform or Cancel is recorded in the tables under its provider id |
| CheckoutLaws.HandledStays | app/services/payment_service.py:595-628 | and stays recorded through every later step |
| CheckoutLaws.RedeliveryIsHarmless | app/services/payment_service.py:562-628 | redelivering a handled call, with any parameters at any time, leaves every table unchanged |
| CheckoutLaws.DuplicatesMakeNoDifference | app/services/payment_service.py:562-628 | a run with redeliveries among arbitrary steps ends where the run without them ends |
| CheckoutLaws.RetryGetsSameReply | app/services/payment_service.py:567-628 | an immediate retry is answered with the same reply |
| CheckoutAnswers.PerformIff | app/services/payment_service.py:595-617 | state 2 is answered iff a transaction of that non-empty id is performed, or open while the item is on sale; then it becomes performed now, its order paid at the same time, and the buyer holds the item; every other case has its error code and writes nothing |
| CheckoutAnswers.CreateIff | app/services/payment_service.py:552-592 | succeeds iff the order exists, the id is not empty, the amount is the order's, and the id is open already or new while the order is pending; only the latter writes, one open transaction and the order processing |
| CheckoutAnswers.CancelIff | app/services/payment_service.py:620-652 | succeeds iff the id is known: an open transaction is voided, its order cancelled and its code's use given back, a performed one reversed and refunded with the code kept, a settled one only reported |
| CheckoutAnswers.CheckPerformIff | app/services/payment_service.py:537-549 | allows exactly a pending order at its own amount; a wrong amount comes first |
| CheckoutAnswers.CheckIff | app/services/payment_service.py:655-671 | reports creation time and state of exactly the known transactions |
| CheckoutAnswers.BuyerCancelIff | app/services/payment_service.py:311-321 | a buyer cancels exactly an own order that is pending or processing; the code's use is given back, the transaction untouched |
| CheckoutAnswers.CardPayIff | app/services/payment_service.py:327-367 | succeeds iff the order is the buyer's own and pending, the card verified, a receipt came back under an unused id, and the item is on sale; records, pays and hands over |
| CheckoutAnswers.StartPaymeIff | app/services/payment_service.py:370-391 | succeeds iff the order is the buyer's own and pending and the provider configured |
| CheckoutAnswers.PlaceOrderIff | app/services/payment_service.py:177-294 | succeeds iff the item is on sale for a price, the typed code can be quoted, and it is still unexpired when reserved or held by the buyer's pending order already; that order is returned untouched, otherwise it or a new one is priced today and one use moves from the old code to the quoted one |
| CheckoutAnswers.OrderRefusalIs | app/services/promocode_service.py:189-223 | the reason an order is refused for, in the order the reasons are looked for |
| CheckoutAnswers.FreeIff | app/services/enrollment_service.py:26-51 | enrolling directly succeeds iff the course or program is published, and hands it over |
| CheckoutAnswers.PurchaseGoesThrough | app/services/payment_service.py:552-617 | whoever may place an order, pays it under a fresh id and whose item is on sale at performance ends with the order paid and the item in hand |
| CheckoutAnswers.NewPromoIff | app/services/promocode_service.py:84-139 | a code is created iff its owner asks, for a priced course, below the price, in the future, under a new text; then it can be quoted at once |
| CheckoutAnswers.RevokeIff | app/services/promocode_service.py:167-183 | only its owner revokes a code: used, it stays attached and inactive; unused, it and every reference to it are gone; it is never quoted again |
| CheckoutAnswers.ProgramRowsFollowTheCatalog | app/services/program_service.py:48-100 | over every run a program row comes from one step, an enrollment or payment of that user for that program, and holds exactly what that step's catalog required, in all of which the user is enrolled |
| CheckoutAnswers.PaidProgramsFollowTheCatalog | app/services/payment_service.py:397-404 | hence the buyer of a paid program order is enrolled in every course the catalog required at the step that created the program row |
| Sessions.TokenStore.CreateRefreshToken | app/services/auth_service.py:150-168 | appends one active token of the user with the full lifetime |
| Sessions.TokenStore.IssueTokens | app/services/auth_service.py:239-253 | a login adds one token and hands it out |
| Sessions.TokenStore.RevokeAll | app/services/auth_service.py:356-360 | revokes exactly the user's still-active tokens |
| Sessions.TokenStore.Exchange | app/services/auth_service.py:345-373 | unknown, reused, expired or rotated, with reuse ending all the user's sessions, as `Refresh`; `SessionHistory.RotateIff` says which, from the calls before |
| Sessions.TokenStore.LogOut | app/services/auth_service.py:376-381 | revokes the presented token if it is active |
| Sessions.TokenStore.Reset | app/services/auth_service.py:563-580 | a valid reset token is consumed and ends all the user's sessions |
| Sessions.TokenStore.RevokeSession | app/api/v1/account.py:182-195 | ends one session of the asking user |
| Sessions.StepKeepsLinks | app/services/auth_service.py:345-381 | each step keeps links forward, injective, within one user and leaving only revoked tokens; revocations and links are final |
| Sessions.RunKeepsLinks | app/services/auth_service.py:345-381 | the same over every run |
| Sessions.ExchangedAtMostOnce | app/services/auth_service.py:367-373 | in every run each raw token is exchanged successfully at most once |
| Sessions.RevokedNeverExchanges | app/services/auth_service.py:354-363 | a revoked token is never exchanged again |
| Sessions.ChainIsLinear | app/services/auth_service.py:370-371 | of two tokens of one login the earlier is the ancestor of the later |
| Sessions.ActiveIsTail | app/services/auth_service.py:367-373 | each login's chain has at most one active token, its last |
| Sessions.PurgeRevokesAll | app/services/auth_service.py:354-363 | reuse of a revoked token, a password reset or ending all sessions leaves the user with no active token |
| Sessions.PurgedNeverReturns | app/services/auth_service.py:563-580 | whatever happens later, no token issued before becomes active or is exchanged again |
| SessionHistory.TablesAreHistory | app/services/auth_service.py:150-168 | after any calls from the empty tables, every stored token has the owner, expiry, end and successor that the calls alone give it, and there are no others; reset tokens likewise |
| SessionHistory.RotateIff | app/services/auth_service.py:345-373 | presenting a token yields a fresh pair iff it was issued, no earlier call ended it and thirty days from its issuing are not over; otherwise unknown, reused, expired, in this order |
| SessionHistory.ResetIff | app/services/auth_service.py:563-580 | a password reset goes through iff its token was asked for less than half an hour before and not used since |
| SessionHistory.EndOneIff | app/api/v1/account.py:182-195 | the account screen ends exactly the asking user's own sessions |
| PhoneOtp.Claim.IssuePhoneOtp | app/services/auth_service.py:436-485 | refused if owned; the previous code deleted; the first free of five rolls stored both ways, or an error |
| PhoneOtp.Claim.VerifyPhone | app/services/auth_service.py:488-526 | refusals in order; a live code binds its phone, or is discarded if another user holds it |
| PhoneOtp.IssueIff | app/services/auth_service.py:436-485 | refused iff the phone is owned, or all five rolls are live codes other than its own previous one; otherwise the first roll that is not is minted for fifteen minutes both ways |
| PhoneOtp.VerifyIff | app/services/auth_service.py:488-526 | a code binds its phone iff the user is known and unverified, the code live and the phone nobody else's; found live it is used up either way |
| PhoneOtp.IssueKeepsPaired | app/services/auth_service.py:465-485 | issuing keeps: every live code has a back link that expires no earlier |
| PhoneOtp.RunKeepsPaired | app/services/auth_service.py:436-526 | the same at every moment of every clocked run |
| PhoneOtp.OneLiveCodePerPhone | app/services/auth_service.py:448-449 | so a phone never has two live codes |
| PhoneOtp.RunKeepsOwners | app/services/auth_service.py:508-523 | no two users ever hold the same phone, and exactly the verified users hold one |
| PhoneOtp.BindingIsFinal | app/services/auth_service.py:454-463 | a bound phone stays with its user and every later request for it is refused as taken |
| PhoneOtp.BindsTheMintedPhone | app/services/auth_service.py:500-526 | a submitted code binds exactly the phone it was last minted for, to the submitter alone |
| PhoneOtp.CodesAreConsumed | app/services/auth_service.py:525 | a code never binds more often than it was minted |
| PhoneOtp.IssueSparesOthersIff | app/services/auth_service.py:470-472 | issuing for one phone deletes another phone's live code iff its own live back link dangles at that code |
| PhoneOtp.PromptRunsSpareOthers | app/services/auth_service.py:465-485 | in runs whose issues write both keys in the same instant and find a free code, that never happens |
| PhoneOtp.SlowIssueDeletesAnothersCode | app/services/auth_service.py:470-484 | a concrete run in which it does, by a slow issue |
| PhoneOtp.FailedIssueDeletesAnothersCode | app/services/auth_service.py:470-482 | another, without any delay, by an issue that found no free code |
| RateLimit.SortedSet.CheckLimit | app/middleware/rate_limit.py:26-49 | expire, prune, insert, count and extend as `After`; allowed iff the count is within the limit or Redis is down |
| RateLimit.StoredIsHistory | app/middleware/rate_limit.py:35-39 | seen through the window, the stored set equals the recorded history; pruning and key expiry lose nothing |
| RateLimit.JudgedByWindow | app/middleware/rate_limit.py:36-49 | a request is judged by the number of recorded times in (now - window, now], its own included |
| RateLimit.VerdictIff | app/middleware/rate_limit.py:26-49 | a request passes iff Redis is down or at most the limit of distinct times, its own included, were recorded in the window of seconds ending now |
| RateLimit.WindowNeverExceedsLimit | app/middleware/rate_limit.py:27-49 | under any non-decreasing clock no half-open window holds more than the limit of distinct instants at which requests passed, though rejected ones are recorded too |
| RateLimit.DistinctRequestsWithinLimit | app/middleware/rate_limit.py:27-49 | with strictly increasing times those instants are the requests, so the limit bounds passed requests |
| RateLimit.SameInstantSameVerdict | app/middleware/rate_limit.py:33-49 | a second request at the same instant leaves the key as it is and gets the same verdict |
| RateLimit.BurstPasses | app/middleware/rate_limit.py:33-49 | after any history a burst at one instant passes as a whole or not at all, and counts accordingly |
| RateLimit.BurstSlipsThrough | app/middleware/rate_limit.py:33-38 | simultaneous requests, however many, all pass any limit but zero |
| RateLimit.OutageIsUnlimited | app/middleware/rate_limit.py:41-43 | while Redis is down requests proceed and leave no trace |
| RangeReads.IterLocal | app/utils/storage.py:307-316 | yields the range, cut short only by the end of the file, in equal chunks |
| RangeReads.BlocksRejoin | app/utils/storage.py:310-316 | such chunks are non-empty, bounded and concatenate to the range |
| RangeReads.IterS3 | app/utils/storage.py:319-356 | the nested loops with one resume compute `Fetched` for every network, and terminate |
| RangeReads.AlwaysAPrefix | app/utils/storage.py:332-354 | whatever the network does, the chunks concatenate to a prefix of the requested range |
| RangeReads.DownloadExactly | app/utils/storage.py:332-354 | for every network: the stream gives up iff two of the reads it performed timed out, and all bytes arrived iff the last GET's body held what it was asked for and was read to its end |
| RangeReads.DeliversIff | app/utils/storage.py:332-354 | a completed whole range iff at most one performed read timed out and the last GET covered what it was asked for |
| RangeReads.UndisturbedIff | app/utils/storage.py:332-354 | without timeouts never aborted, and whole iff the first body covers the range |
| RangeReads.OneTimeoutIsInvisible | app/utils/storage.py:322-326 | one timeout never aborts, and the range is whole iff the GET that ends the stream covered its own range |
| RangeReads.SilentlyTruncatedIff | app/utils/storage.py:351-352 | reported complete with bytes missing iff at most one timeout and a last GET that did not cover its range |
| RangeReads.AbortedAfterAllIff | app/utils/storage.py:344-347 | aborted with every byte delivered iff the second timeout comes after the last body was read to the end of the range |
| RangeReads.ShortBodyTruncates | app/utils/storage.py:351-352 | an instance: a short first body ends the stream early without an error |
| RangeReads.LateTimeoutAborts | app/utils/storage.py:344-347 | an instance: a second timeout after the last byte aborts |
| RangeReads.OpenRange | app/utils/storage.py:359-375 | local disk first, then S3, else not found |
| RangeReads.SidesAgreeIff | app/utils/storage.py:307-375 | disk always yields exactly the range, and S3 completes with the same bytes iff at most one performed read times out and the last GET covers what it was asked for |
| Grading.GradeMatching | app/services/practice_service.py:442-461 | true iff the submitted pairs are a permutation of {(p, p)} over the item's pair ids |
| Grading.McqIsExact | app/services/practice_service.py:434-439 | on a well-formed item an answer earns the points iff it picks the correct option; an unknown option or an answer of the other shape earns nothing |
| Grading.UnflaggedMcqAcceptsNothing | app/services/practice_service.py:434-439 | with no option flagged, exactly the answers without an option are marked correct |
| Grading.FaultlessIff | app/services/assessment_service.py:420-431 | a submission is accepted iff every answer names a question and none is answered twice |
| Grading.SubmitAssessment | app/services/assessment_service.py:384-456 | attempts, fault order, marks, score and verdict as `Submit`, which `GradingRules.SubmissionIff` characterises |
| Grading.SubmitAttempt | app/services/practice_service.py:464-534 | the practice loop, duplicates looked for before unknown items, as `Take` |
| Grading.AwardedWithinTotal | app/services/assessment_service.py:416-434 | answering no question twice, nobody is awarded more than the total |
| Grading.VerdictIsExact | app/services/assessment_service.py:449-454 | score in 0..100; passed iff awarded times 100 reaches the threshold times the total, or the threshold is zero when there is nothing to earn; independent of the rounded score, which a pass always reaches |
| Grading.DisplaysPassMarkIff | app/services/assessment_service.py:449-454 | a failed submission displays its pass mark or more iff its points fall short by less than half a percent, or by exactly half a percent below an even mark |
| Grading.RoundedScoreOverstates | app/services/assessment_service.py:449-454 | a concrete submission that does: 139 of 200 points against a pass mark of 70 |
| Grading.AnswerableIff | app/services/assessment_service.py:459-471 | some answer to a question is right iff some option is flagged, or some expected answer is non-empty and has no surrounding white space |
| Grading.AwardedAtMostEarnable | app/services/assessment_service.py:416-434 | no accepted submission earns more than the points of the answerable questions |
| Grading.PassableIff | app/services/assessment_service.py:384-456 | some submission passes iff attempts are left and the points of the answerable questions reach the pass mark, or with nothing to earn the mark is zero |
| Grading.AttemptInRange | app/services/practice_service.py:518-527 | a practice score is in 0..100, with an empty total counted as one |
| Grading.VerdictOrderless | app/services/assessment_service.py:416-454 | permuting the answers changes neither acceptance, score, verdict nor the marks |
| Grading.AttemptOrderless | app/services/practice_service.py:464-534 | the same for a practice attempt: acceptance, score, number correct and marks |
| GradingRules.OptionAnswerIff | app/services/assessment_service.py:459-465 | an option answer is right iff some option is flagged, every selected id is a flagged option's, and every flagged option is selected |
| GradingRules.ShortAnswerIff | app/services/assessment_service.py:466-470 | a short answer is right iff its text without surrounding white space is not empty and equals an expected answer up to letter case |
| GradingRules.RightItemIff | app/services/practice_service.py:434-461 | a choice is right iff it is the first flagged option, no choice iff none is flagged, a matching iff it joins each pair of the item to itself once and nothing else |
| GradingRules.SubmissionIff | app/services/assessment_service.py:384-456 | refused iff attempts are used up or some answer is to no question or repeats one, with the first such fault; otherwise each answer is marked right or wrong at its question's points, passed iff these reach the pass mark exactly, the score their nearest percentage |
| GradingRules.AttemptIff | app/services/practice_service.py:464-534 | the same for practice: empty quiz, first fault, or marks, number right and nearest percentage |
| SectionGate.SectionQuiz | app/services/assessment_service.py:572-584 | the section's visible quiz, if there is one |
| SectionGate.PriorQuizzes | app/services/assessment_service.py:658-673 | exactly the visible section quizzes of earlier sections, ascending by section order |
| SectionGate.GateFacts | app/services/assessment_service.py:674-704 | admitted iff every earlier section quiz is passed; the reported one is unpassed and everything before it is passed |
| SectionGate.AdmittedIff | app/services/assessment_service.py:639-704 | admitted iff every section quiz, not archived and in a published course, of an earlier section of the course has a passed attempt of the learner; otherwise the earliest without one is reported |
| SectionGate.StatusIff | app/services/assessment_service.py:565-636 | the status view shows a quiz iff the section has one that is not archived in a published course, passed iff the learner has a passed attempt, and the number of attempts |
| SectionGate.TakeIff | app/services/assessment_service.py:345-456 | a submission is recorded iff the learner is enrolled, the quiz not archived, its course published and the answers accepted; it is passed iff the grading says so |
| SectionGate.GateAgreesWithView | app/services/assessment_service.py:565-704 | an enrolled learner is admitted iff the status view shows every earlier section passed or not required |
| SectionGate.BlockerIsEarliest | app/services/assessment_service.py:691-704 | the reported blocker is that section's quiz as the view shows it, and its own section is unlocked |
| SectionGate.UnlockedIsDownwardClosed | app/services/assessment_service.py:639-704 | the unlocked sections are downward closed in section order |
| SectionGate.UnlockedOnlyGrows | app/services/assessment_service.py:678-690 | with a fixed curriculum further submissions only unlock |
| SectionGate.TriesWithinLimit | app/services/assessment_service.py:392-404 | no learner ever takes a quiz more often than it allows |
| SectionGate.HopelessIsFinal | app/services/assessment_service.py:400-404 | an unpassed quiz without attempts left, or with a paper that cannot be passed, stays unpassed in every run of graded submissions |
| SectionGate.UnlockableIff | app/services/assessment_service.py:384-456 | some run of graded submissions unlocks a section iff every earlier quiz is passed, or has attempts left and a paper that can be passed |
| SectionGate.BlankQuizLocksTheCourse | app/services/assessment_service.py:140-167 | a section quiz as created, without questions and with pass mark 70, locks the later section of a published course for good |
| Completion.Enrollment.constructor | app/services/enrollment_service.py:26-51 | a new enrollment has no rows, zero percent, no completion and no certificate |
| Completion.Enrollment.EnsureCertificate | app/services/enrollment_service.py:234-252 | issues a certificate only if there is none |
| Completion.Enrollment.RecomputeProgress | app/services/enrollment_service.py:209-231 | percentage, completion and certificate from the completed rows |
| Completion.Enrollment.UpdateLessonProgress | app/services/enrollment_service.py:111-196 | marks or unmarks one lesson of the course and recomputes |
| Completion.Enrollment.FetchSegment | app/api/v1/streaming.py:432-458 | a fetch through the gate, recomputing only when it completes the lesson |
| Completion.DoneWithinLessons | app/services/enrollment_service.py:210-225 | completed rows never exceed the lesson count |
| Completion.StepKeepsSettled | app/services/enrollment_service.py:209-231 | every step keeps: completed iff there are lessons and all are done, percentage current, certificate present |
| Completion.RunKeepsSettled | app/services/enrollment_service.py:209-252 | the same in every reachable state |
| Completion.HundredIff | app/services/enrollment_service.py:225 | 100 percent shows iff at least 199 of every 200 lessons are done |
| Completion.PercentInRange | app/services/enrollment_service.py:225-231 | the percentage stays in 0..100, is 100 on completion, and below 200 lessons only then |
| Completion.HundredBeforeComplete | app/services/enrollment_service.py:225 | 199 of 200 shows 100 |
| Completion.PercentIff | app/services/enrollment_service.py:209-231 | after every run the percentage is the nearest one to the share of lessons whose last word is "done", and the enrollment is complete iff there are lessons and that is all of them |
| Completion.CompletionDateIs | app/services/enrollment_service.py:226-231 | the stored completion date is the moment since when every lesson has been done |
| Completion.OneCertificateIff | app/services/enrollment_service.py:227-252 | exactly one certificate once the enrollment was ever complete, none before, however often completion is toggled |
| Completion.TogglesDontMoveTheGate | app/services/enrollment_service.py:166-178 | marking lessons never moves a watermark, credit or clock: each lesson's gate state is that of its own fetches |
| Completion.AnswersIff | app/services/enrollment_service.py:111-178 | after any run a fetch is answered as the lesson's own fetches decide through the gate, whatever was marked, and marking is refused iff the lesson is not in the course or its section is locked |
| Completion.WatermarkOutpacedDespiteToggles | app/services/streaming_service.py:347-391 | so the wall-clock bound holds over runs that mix fetches with any use of the progress endpoint |
| Completion.CompletionIff | app/services/enrollment_service.py:174-178 | at every moment of every run a lesson, packaged or not, is complete iff the last word on it is "done": the latest accepted mark, or a later fetch that left the watermark at the last segment |
| Completion.UnplayedCompletionIff | app/services/enrollment_service.py:174-178 | hence, while the last segment has not been reached, the latest accepted mark decides alone |
| Completion.UnmarkedCompletionIsOutpaced | app/services/streaming_service.py:347-396 | over any run that never marks the lesson complete, unmarking and refetching allowed, completion takes reaching the last segment, and the timeline behind it fits the wall clock since the first accepted fetch |
| Completion.MarkingNeedsNoPlayback | app/services/enrollment_service.py:174-176 | an instance: one request completes a one-lesson course without a single fetch |

## Left out

- Checkout: currency, payment methods, `GetStatement`, saved codes, basic authentication and the JSON-RPC envelope.
- Checkout: code normalisation (codes arrive normalised), the four reasons a new code is invalid (one error), and the
  database check that a discount value is at least one, which counts as one of them.
- Checkout: a stored row that its foreign key rules out (a transaction without order, an order without user).
- Enrolling: progress of a whole program, wishlists, listing, and deletion by administrators, which does not decrement
  counters.
- Playback: who is exempt from the gate, playback tokens, keys and DRM; watched seconds and daily activity.
- Playback: float rounding; durations and rates are exact reals.
- Manifest: `str.splitlines` and the closing join; a playlist is a sequence of lines. White space and digits are
  ASCII. The URL rewriting assumes the absolute base URL the endpoint builds, and one playback token for the playlists
  compared.
- Timeline: ffmpeg itself; `Printed` is the playlist it writes for six-decimal durations and `%04d` names.
- Sessions: hashing, JWTs, cookies and e-mail; a token is its row number, so equal secrets cannot collide. A reset
  token whose user row is gone.
- PhoneOtp: how codes are drawn; the five rolls are parameters.
- RateLimit.SortedSet.CheckLimit: one bucket, times in whole microseconds, and the member string identified with its
  time.
- RangeReads: errors other than a read timeout, and closing of bodies. A request must end inside the object, as
  `open_range` demands of its callers.
- Grading: float rounding; ratios are exact, while in floats 29 of 50 points fall just short of a pass mark of 58.
- Grading: storage of the answer texts, start times, and Unicode case folding in short answers.
- Completion.Enrollment.FetchSegment: the playback token, whose issuing checks the section gate; a fetch itself does
  not.
- SectionGate: quizzes edited or archived while learners take them.
- SectionGate: score history in the status view, and the error details.
- Completion: curriculum edits while a learner studies, `last_position_seconds`, and the program rollup.
- Completion.Enrollment.UpdateLessonProgress: the section gate's verdict is a parameter; it is modelled in
  `SectionGate`.
- All components: concurrency inside one request; every service call is one step.
