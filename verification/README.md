# Flowsurface engine client: verified model

A Dafny 4.11 model of the parts of Flowsurface where a mistake costs money or shows a wrong number: order books
rebuilt from a lossy event stream, order idempotency across crashes, the venue login lifecycle, requests over a shared
broadcast, toast dedupe, the mode-switch locks, chart zooming and the proto field checker. Where the Python engine reads
or writes the same order log, its side is modelled too. `dafny verify dfyconfig.toml`
checks everything.

The model follows the code. Objects that change in place (`DepthTracker`, the local book, `OrderSessionState`,
`Notifications`, a venue's state, the lock tracker and the guard, `ViewState`) are classes; receive loops, scans and the
checker are methods with loops. Each method is proved equal to a step function or to a stated result, and the properties
over whole runs are lemmas about those functions. Nothing is bounded: runs, logs, texts, numbers of threads, of
connections and of requests are arbitrary.

## How it is organised

- `Common`: options, results, 64-bit integers and the cast of a sequence id to unsigned.
- `DepthBook`: a snapshot built into a book, a diff applied in place, and what both mean price by price.
- `DepthTracker`: the sequence tracker shared by the streams of a backend.
- `DepthStream`: the receive loop of a depth stream. The server is a function from (session, sequence id) to a book; the
  channel may lose, repeat, delay and reorder; other streams call the same tracker in between.
- `WalText`: the write-ahead log as text, with the torn last line a crash can leave.
- `OrderSession`: the idempotency map, its recovery from the log, and completion from an order list.
- `OrderCrash`: the live map and the rows of its log side by side.
- `OrderFile`: the log as a file over any number of crashes, restarts and appends.
- `WalInFlight`: the second reader of that log, a reverse scan since JST midnight, against the recovery.
- `WalRecords`: the third reader, in the Python engine that writes the log, against the recovery.
- `WalScan`: the fourth reader, the engine's chunked reverse scan, against the second.
- `Fetch`: a request waiting for its replies among everybody's events.
- `Notify`: toast dedupe with backoff and a pruned cache; time is a parameter.
- `Venue`: a venue's state machine, its login claims and the engine events it reacts to.
- `VenueAgreement`: the bridge that caches ready venues and the update loop, over any number of reconnects and restarts.
- `StatusStream`: the merged status stream and the order in which a reconnect reaches the update loop.
- `LockOrder`: the ranked locks over any number of threads, and the mode-switch guard.
- `Chart`: coordinates and zooming over exact reals.
- `SchemaParity`: field numbers and brace matching in proto files.

## What turned out not to hold

Each of these has a lemma that names a failing input, and one that says exactly when the property holds.

- A crash can leave the log torn, and the writer appends to it as it is: the first record of the next session is glued to
  the torn one and neither parses. A live order is then not restored, and its resend is a duplicate
  (`ResendIsADuplicate`). A session survives every crash if and only if it found the file ending in a newline, or its
  first record would have changed nothing (`RunsSurviveIff`); with an engine that may also crash alone, the file restores
  the live map throughout if and only if every append that matters found it so and no engine crash lost a record that
  matters (`AlwaysRestoresIff`). The other readers lose the same record (`AppendedIsInFlightIff`, `AppendedIsReadIff`).
- A comment in the depth tracker says that a new session replaces the old one's entry. The code keeps it. A late diff of
  the old session is then applied to the new book (`LateDiffServesWrongBook`), and a second stream on a ticker applies its
  first diff to an empty book (`SecondStreamServesWrongBook`). Two streams on one session share its entry, and what one
  takes the other misses (`SharedSessionServesWrongBook`). An accepted diff is answered rightly exactly when the local
  book and the one it follows on from differ only on prices it names (`AcceptedDiffIsRightIff`).
- A snapshot is not always the diff applied to an empty book: a level zeroed later in the same message stays
  (`BuildIsDiffOnEmptyIff`).
- The recovered map is not the live map minus the ids whose last row is a rejection: an order rejected and accepted later
  is lost too (`AcceptedAfterRejectedIsNotRestored`). What counts is the latest submit-or-rejected row (`CrashRefinement`).
- A non-empty recovered map does not always mean orders in flight for the second reader. Over ordered logs it does exactly
  from JST 09:00 on (`ReadersAgreeIff`); with a torn line, exactly when that line is not a rejection of the order
  (`TornReadersAgreeIff`, `TornRejectionDivides`); with unordered stamps, exactly when its last counted row is not a
  rejection of another UTC day (`UnorderedReadersAgreeIff`, `ClockStepBackDivides`).
- The Python reader documents that it drops an unterminated last line. If that line is blank it drops the record before it
  instead (`SameRecordsIff`). No crash of the writer leaves such a file (`ReadersAgreeAfterACrash`).
- The two in-flight scans are documented to stay in step. They part on records without a whole-number stamp and on empty
  names (`DividesIff`), and on no others (`InnocuousIff`). A line that is JSON but not an object makes one of them raise,
  and nothing else keeps them apart (`ScansAgreeIff`).
- The Ready synthesised from the cache does not always repeat the engine's latest word. Eight things can go wrong with it,
  each of which alone can part the machine from the cache for good (`EveryLapseCosts`); without them it never happens
  (`BootstrapClosesTheGap`). For any run, whether the two agree was settled at the last decision (`AgreementIff`).
- The rehellos come before every Connected, but a synthesised Ready can slip in behind one (`SynthesisedReadyIntervenes`);
  a venue is Ready at a Connected exactly then (`ReadyAtConnectedIff`).
- Pruning the dedupe cache forgets a Danger key's backoff level (`PruningForgetsBackoff`), never the spacing. It shows if
  and only if a prune has dropped an entry that had hidden something (`PruningShowsIff`).
- The lock check lets a thread ask again for a lock it holds, and it then waits for itself (`OwnLockIsWaitedFor`). In a
  disciplined run that is the only cyclic wait (`CyclicWaitIff`).
- Dropping the mode-switch guard resets the lock record even with a lock held (`DroppingTheGuardDeadlocks`). A reset can
  end in a deadlock with every check passed exactly if the thread holds `CURRENT_PATH` (`ResetIsHarmfulIff`).
- The field checker does not notice number zero (`ZeroIsNotNoticed`), and that is its only hole (`ZeroIsTheOnlyHole`).

## Model

| member | source | states |
|---|---|---|
| DepthBook.UnnamedIsKept | engine-client/src/backend.rs:1136-1158 | a price that no parsable level of the diff names keeps its quantity, or its absence |
| DepthBook.LastNamingDecides | engine-client/src/backend.rs:1138-1157 | of several levels on one price the last parsable one wins: zero removes the price, anything else is its quantity |
| DepthBook.UnfilledIsAbsent | engine-client/src/convert.rs:85-96 | a price that no parsable non-zero level names is not in a built snapshot |
| DepthBook.LastFillingDecides | engine-client/src/convert.rs:85-96 | in a built snapshot the last non-zero level of a price wins, whatever zeros follow it |
| DepthBook.BuildIsDiffOnEmptyIff | engine-client/src/convert.rs:84-102 | building a side equals applying its levels to an empty side if and only if no price is filled and then zeroed for good in the same message |
| DepthBook.BuildRefinesDiff | engine-client/src/convert.rs:84-102 | with no price twice on a side, a built snapshot is the diff applied to the empty book |
| DepthBook.ApplyComposes | engine-client/src/backend.rs:1128-1162 | two diffs one after the other are one diff with the levels concatenated |
| DepthBook.SameAfterIff | engine-client/src/backend.rs:1136-1158 | one diff brings two sides together if and only if they differ only on prices it names |
| DepthBook.BooksStoreNoZero | engine-client/src/backend.rs:1151-1156 | neither a diff nor a snapshot ever stores a zero quantity |
| DepthBook.ApplySide | engine-client/src/backend.rs:1136-1158 | the loop over one side, skips included, computes the fold the lemmas above are about |
| DepthBook.Depth.ApplyDiffLevels | engine-client/src/backend.rs:1128-1162 | the book in place becomes the diff of its old contents, bids from bids and asks from asks |
| DepthTracker.Tracker.OnSnapshot | engine-client/src/depth_tracker.rs:23-27 | always accepted; only the entry of this ticker and session changes, other sessions' entries stay |
| DepthTracker.Tracker.OnDiff | engine-client/src/depth_tracker.rs:33-56 | accepted if and only if the entry exists and equals the previous id; a rejected diff leaves the table as it was |
| DepthTracker.Tracker.ResetTicker | engine-client/src/depth_tracker.rs:61-63 | all sessions of the ticker are forgotten, no other ticker's entry is |
| DepthTracker.Tracker.ResetAll | engine-client/src/depth_tracker.rs:66-68 | the table is empty afterwards |
| DepthTracker.TickersDoNotInterfere | engine-client/src/depth_tracker.rs:23-63 | in any interleaved run the answers to one ticker's diffs, and its entries at the end, are those of the run with all other tickers' calls and resets removed |
| DepthStream.Handle | engine-client/src/backend.rs:354-497 | one delivery changes tracker and book and reacts as the step machine says, branch by branch, on the real objects; what each branch does is stated by event fields in the next rows |
| DepthStream.Stream | engine-client/src/backend.rs:320-500 | the loop, interleaved with other streams on the tracker, yields the step machine's reactions and stops early only when the stream has ended |
| DepthStream.OpenIff | engine-client/src/backend.rs:426-497 | a run is open if and only if none of its deliveries is a depth disconnect of the stream, an error other than `stream_error`, a drop or a close |
| DepthStream.EndIsAnsweredOnce | engine-client/src/backend.rs:448-496 | the first delivery that ends the stream, and no other, is answered with one Disconnected carrying its reason or the default one and no request; what follows is answered with nothing and leaves the book as it was |
| DepthStream.ForeignIsSilent | engine-client/src/backend.rs:355-466 | deliveries of another venue, ticker, market or stream, and stream errors, change nothing and yield nothing |
| DepthStream.OwnDiffIsServedOrRefused | engine-client/src/backend.rs:388-424 | an own diff that follows on from the tracked id is served, bids on bids and asks on asks, under its id; any other changes nothing and costs one request |
| DepthStream.GapOrLagForgets | engine-client/src/backend.rs:426-472 | an own gap or a lag forgets exactly the ticker's sessions, keeps the book and costs one request |
| DepthStream.LockstepHolds | engine-client/src/backend.rs:350-424 | along every faithful run each tracked session of the stream has been seen since the last reset, and the current one's entry names the local book |
| DepthStream.BookAgreement | engine-client/src/backend.rs:355-424 | whatever is lost, repeated, delayed or reordered, and whatever other streams of the ticker reset or track of other sessions, every book yielded is the server's book at its sequence id, given no entry of the stream's own sessions at the start, no peer on them and no superseded diff |
| DepthStream.AcceptedDiffIsRightIff | engine-client/src/backend.rs:395-423 | in any state, an accepted faithful diff is answered with the server's book if and only if the local book and the book it follows on from differ only on prices it names |
| DepthStream.LeftoverEntryIsRightIff | engine-client/src/backend.rs:351-423 | a second stream on the ticker accepts the first one's next diff, and answers it rightly if and only if that diff names every price of the book |
| DepthStream.SecondStreamServesWrongBook | engine-client/src/backend.rs:328-423 | a stream gets a snapshot and ends, the next one gets the following diff and serves a book without the first one's price |
| DepthStream.SupersededDiffIsRightIff | engine-client/src/depth_tracker.rs:19-39 | after snapshots of two sessions the first one's next diff is accepted, and answered rightly if and only if the two books differ only on prices it names |
| DepthStream.LateDiffServesWrongBook | engine-client/src/depth_tracker.rs:19-39 | two snapshots, then the first session's next diff, and the book served mixes the two sessions |
| DepthStream.SharedSessionIsRightIff | engine-client/src/backend.rs:328-423 | after a peer has taken a diff of the stream's session, the next diff is accepted, and answered rightly if and only if it names every price on which the two books differ |
| DepthStream.SharedSessionServesWrongBook | engine-client/src/backend.rs:328-423 | a snapshot at 7, a peer taking the diff to 8, and the stream serves a book at 9 without the price of 8 |
| DepthStream.SelfStabilises | engine-client/src/backend.rs:355-424 | from any open state, a snapshot and the diffs that follow on from it, foreign traffic and peers on other sessions between, are all answered with the server's books, request nothing and end on the last book |
| DepthStream.QuietUntilSnapshot | engine-client/src/backend.rs:426-472 | after a gap or lag no book is yielded and none of the stream's sessions is tracked until its next snapshot, whatever peers do on other sessions |
| DepthStream.EachMessageAnsweredOnce | engine-client/src/backend.rs:354-472 | over an open run, requests plus books equal snapshots plus diffs plus gaps plus lags: every message is answered once |
| DepthStream.RequestsAreRefusals | engine-client/src/backend.rs:399-472 | over an open run there is one request for each gap, each lag and each diff not accepted when it came, and no other |
| DepthStream.RunsStoreNoZero | engine-client/src/backend.rs:353-424 | no reachable local book holds a zero quantity |
| Common.AsU64 | engine-client/src/backend.rs:374-413 | the sequence id as it is yielded is congruent to the received one modulo 2^64, and the same when that is not negative |
| WalText.LinesAndTail | engine-client/src/order_session_state.rs:131-151 | every text is its terminated lines followed by the unterminated rest |
| WalText.CutKeepsCompleteLines | engine-client/src/order_session_state.rs:131-151 | cutting a log behind its last newline keeps its complete lines and leaves no torn one |
| WalText.TornLog | engine-client/src/order_session_state.rs:136-151 | any byte prefix of a written log reads back as exactly the records whose newline was written |
| WalText.AppendLine | python/engine/exchanges/tachibana_orders.py:738-750 | a line appended to a file makes one line with whatever the file ended in, and the file then ends in a newline |
| WalText.ReadsBack | engine-client/src/order_session_state.rs:153-164 | any byte prefix of what is appended to a file reads back as its completely written records, but for the first if the file ended in a torn line |
| OrderSession.OrderSessionState.LoadFromWal | engine-client/src/order_session_state.rs:112-246 | the loop over the split text restores the fold of the complete lines' records and is not frozen; no file gives the empty map |
| OrderSession.OrderSessionState.ReplayRow | engine-client/src/order_session_state.rs:166-242 | one record, with every skip, changes the map as the fold's step says |
| OrderSession.RestoredIff | engine-client/src/order_session_state.rs:166-242 | for every log, an id is restored if and only if some in-day valid submit of it with a non-zero key has no in-day rejection after it |
| OrderSession.RestoredRecord | engine-client/src/order_session_state.rs:188-238 | a restored id has the key of its last such submit, the first venue id an acceptance gave after it, and status ACCEPTED if and only if one came |
| OrderSession.TornTailNeverMatters | engine-client/src/order_session_state.rs:139-151 | loading a file equals loading it cut after its last newline |
| OrderSession.UtcDayIsMidnight | engine-client/src/order_session_state.rs:377-393 | the recovery window starts at the UTC midnight at or before the moment it is taken at, less than a day ago |
| OrderSession.InDayIff | engine-client/src/order_session_state.rs:166-170 | a record is in the window if and only if its stamp, or the epoch without one, falls on the same UTC day |
| OrderSession.ValidIdEdges | engine-client/src/order_session_state.rs:32-40 | an id has 1 to 36 characters from space to tilde: an id can be lengthened by exactly those characters and up to exactly that length |
| OrderSession.OrderSessionState.TryInsert | engine-client/src/order_session_state.rs:254-287 | the answer is the one that the rows on `AnswersStand` and `CreatedIff` characterise over runs, and only creation changes the map |
| OrderSession.OrderSessionState.UpdateVenueOrderId | engine-client/src/order_session_state.rs:295-307 | true if and only if a registered id had no venue id; a known venue id is never overwritten |
| OrderSession.OrderSessionState.UpdateStatus | engine-client/src/order_session_state.rs:317-321 | only the status of a registered id changes |
| OrderSession.OrderSessionState.Freeze | engine-client/src/order_session_state.rs:93-95 | the session is frozen and no order changes |
| OrderSession.OrderSessionState.UpdateVenueOrderIdFromList | engine-client/src/order_session_state.rs:335-366 | an entry that has the venue id is preferred, else any entry without one, in whatever iteration order; only that entry changes |
| OrderSession.OneListEntry | engine-client/src/order_session_state.rs:335-366 | a new venue id settles exactly one unknown record if there is one, changes no known venue id and keeps them distinct |
| OrderSession.ListEntryTouchesOne | engine-client/src/order_session_state.rs:335-366 | an entry changes one record at most, to its venue order and status with the key kept; a known venue order is never given to another record, and nothing is picked only if every record has one |
| OrderSession.ListCompletion | engine-client/src/order_session_state.rs:335-366 | k distinct new venue ids settle exactly min(k, unknown) records in any iteration order, change no known venue id or key and keep venue ids injective |
| OrderCrash.Perform | engine-client/src/order_session_state.rs:248-366 | each operation on the real map, with the rows logged for it, acceptances with and without a venue id included, is the step of the paired system |
| OrderCrash.AnswersStand | engine-client/src/order_session_state.rs:254-287 | over any run, once an insert has made a record, the same id and key is a replay and the id with another key a conflict, both with the venue order first given since; frozen, every insert is refused |
| OrderCrash.CreatedIff | engine-client/src/order_session_state.rs:254-287 | over any run, an insert makes a record if and only if the session is not frozen and no insert of the id has made one before |
| OrderCrash.StatusIs | engine-client/src/order_session_state.rs:309-366 | over any run, a record has the status set last by a status update or a list entry, and SUBMITTED until then |
| OrderCrash.LogIs | python/engine/exchanges/tachibana_orders.py:738-789 | the log grows by one row for each acceptance, rejection and other record whatever the map says, by one for a submit that makes a record, and by none otherwise |
| OrderCrash.CrashRefinement | engine-client/src/order_session_state.rs:112-307 | at every moment of every run on top of any rows, replaying the rows gives the live map on ids, keys and venue ids, minus ids whose latest submit-or-rejected row is a rejection, and with the logged venue id in place of one that came from a list |
| OrderCrash.ResendAfterCrash | engine-client/src/order_session_state.rs:254-287 | where the refinement holds, a resent id is a new order if and only if it was never live or is dead by rejection; otherwise the answer is what the live map would have given |
| OrderCrash.AcceptedAfterRejectedIsNotRestored | engine-client/src/order_session_state.rs:222-238 | an order rejected and then accepted has an accepted row last, is live, and is not restored |
| OrderFile.CutRows | engine-client/src/order_session_state.rs:118-246 | a session's file cut at any byte restores the rows it found and those it completely wrote, but for the first of them if it found a torn line |
| OrderFile.FreshSubmitMatters | engine-client/src/order_session_state.rs:213-220 | a first record that submits an order not restored always matters |
| OrderFile.SurvivesIff | engine-client/src/order_session_state.rs:112-246 | on any file, a session refines the live map at every crash point of its writing if and only if the file ended in a newline or the first record would have changed nothing |
| OrderFile.RunsSurviveIff | python/engine/exchanges/tachibana_orders.py:738-750 | the same after any number of operations, crashes that lose any number of bytes, and restarts on any days, from an absent file |
| OrderFile.WorldStepRestoresIff | python/engine/exchanges/tachibana_orders.py:738-789 | where the file restores the live map, one operation or crash keeps it so if and only if no row that matters is appended behind a torn line or lost by the engine's crash |
| OrderFile.AlwaysRestoresIff | python/engine/exchanges/tachibana_orders.py:738-789 | over any run of operations, crashes of the engine alone and crashes of both, the file restores the live map at every moment if and only if no step does such harm |
| OrderFile.FreshSubmitIsHarmful | engine-client/src/order_session_state.rs:213-220 | a new order submitted behind a torn line always does |
| OrderFile.ResendIsADuplicate | python/engine/exchanges/tachibana_orders.py:738-750 | a torn submit, a restart, a second submit written to its last byte, a second crash: the second order was live and its resend is created anew, for every torn length |
| WalInFlight.HasWalInFlightOrdersAt | src/main.rs:293-339 | the reverse scan that keeps the first phase it meets answers by the last phase of each id since the cutoff; no file means no |
| WalInFlight.VisitGoesUnderneath | src/main.rs:312-335 | visiting an older row after the newer ones is putting it underneath them: one step of first-wins backwards is one step of last-wins forwards |
| WalInFlight.LastWinsMeaning | src/main.rs:319-338 | the phase the scan holds for an id is that of its last row since the cutoff |
| WalInFlight.OnlyCountedIds | src/main.rs:319-335 | no id is held without a counted row of it |
| WalInFlight.JstDayIsMidnight | src/main.rs:275-284 | the cutoff is the latest midnight of a clock nine hours ahead of UTC |
| WalInFlight.RestoredIsInFlight | src/main.rs:319-338 | in an ordered log with the UTC day inside the JST day, every restored id is in flight for the scan |
| WalInFlight.WindowsNest | src/main.rs:275-284 | the UTC day lies inside the JST day if and only if the JST clock shows 09:00 or later |
| WalInFlight.ReadersAgreeIff | src/main.rs:293-339 | a non-empty recovered map implies orders in flight, over all ordered logs, if and only if the JST clock shows 09:00 or later |
| WalInFlight.ReadersAgreeOnFiles | src/main.rs:298-339 | the same agreement on newline-terminated files |
| WalInFlight.TornReadersAgreeIff | src/main.rs:312-338 | with a torn line behind ordered lines, from JST 09:00 on, a restored id is in flight for the scan if and only if the torn line is not a rejection of it stamped since the cutoff |
| WalInFlight.TornRejectionDivides | src/main.rs:312-338 | the instance: a rejection without its newline counts for the scan and not for the recovery |
| WalInFlight.UnorderedReadersAgreeIff | src/main.rs:319-338 | for rows in any order, a restored id is in flight for the scan if and only if its last counted row is not a rejection stamped outside the UTC day |
| WalInFlight.AppendedIsInFlightIff | src/main.rs:312-338 | a submit appended to a file is in flight for the scan if and only if the file ended in a newline |
| WalInFlight.ClockStepBackDivides | src/main.rs:323-326 | the instance: a rejection stamped before UTC midnight behind a submit stamped later counts for the scan only |
| WalRecords.ReadWalRecords | python/engine/exchanges/tachibana_orders.py:634-681 | the loop with its look-ahead for the last non-blank line returns the records of the lines it keeps |
| WalRecords.SameRecordsIff | python/engine/exchanges/tachibana_orders.py:654-679 | the reader sees the same records as the recovery if and only if the file does not end in a blank unterminated line behind a record |
| WalRecords.BlankTail | python/engine/exchanges/tachibana_orders.py:665-674 | behind a blank unterminated line exactly the last written record is lost |
| WalRecords.ReadersAgreeAfterACrash | python/engine/exchanges/tachibana_orders.py:568-581 | after a crash at any byte of a written log the reader returns exactly the completely written records |
| WalRecords.AppendedIsReadIff | python/engine/exchanges/tachibana_orders.py:654-679 | a record appended to a file is among those returned if and only if the file ended in a newline |
| WalScan.IterLinesReverse | python/engine/wal_in_flight.py:75-123 | for every chunk size the generator yields exactly the file's non-empty decodable lines, last to first |
| WalScan.OnlyHeadMoves | python/engine/wal_in_flight.py:97-108 | reading further to the left changes only the first piece of what has been split, which is why it alone is kept back |
| WalScan.DetectInFlightOrders | python/engine/wal_in_flight.py:126-185 | the chunked scan answers the ids whose last heeded record is not a rejection, and raises if and only if some line is JSON it cannot read |
| WalScan.DividesIff | src/main.rs:319-330 | a record counts for one in-flight reader only if and only if it is named and its stamp is missing or recent but not a whole number, or it is recent with an empty id or phase |
| WalScan.ScansAgreeIff | src/main.rs:252-264 | on any file without such a record the two readers give the same answer if and only if no line makes the engine's raise |
| WalScan.InnocuousIff | src/main.rs:252-264 | a record can part the two answers on some log if and only if it divides the readers and is not the rejection of an order without an id |
| Fetch.FetchTrades | engine-client/src/backend.rs:986-1031 | a failed send is an error; otherwise the loop returns the outcome the rows below characterise, list and error fields included |
| Fetch.DecisionSettles | engine-client/src/backend.rs:994-1027 | the first own last chunk, own error, lag, drop or close settles the result, an error with its own code, message or lag count, and nothing after it matters |
| Fetch.UndecidedTimesOut | engine-client/src/backend.rs:992-1031 | without such an event the result is the timeout, never a partial result |
| Fetch.OkIff | engine-client/src/backend.rs:994-1009 | Ok with a list if and only if the first decisive event is the request's own last chunk and the list is the in-order concatenation of the parsable trades of its own chunks up to it |
| Fetch.ParsedSelects | engine-client/src/backend.rs:1004 | of any chunk exactly the trades that parse are kept: strictly ascending positions, every parsable one among them and no other |
| Fetch.ParsedParts | engine-client/src/backend.rs:1004 | a trade that does not parse is dropped alone: the kept trades of two chunks in a row are those of the one and then those of the other |
| Fetch.OkSelects | engine-client/src/backend.rs:994-1009 | an Ok loses no parsable trade of the request's own chunks, adds none and keeps their order |
| Fetch.DecisiveIff | engine-client/src/backend.rs:994-1027 | which events settle a request and which are foreign to it, by their own fields |
| Fetch.ForeignEventsDoNotMatter | engine-client/src/backend.rs:996-1026 | deleting everybody else's events never changes the result |
| Fetch.RequestsAreIsolated | engine-client/src/backend.rs:996-1026 | two deliveries with the same own events give the same result, however they are interleaved with others' |
| Fetch.NoReplyMissed | engine-client/src/backend.rs:986-990 | subscribed no later than sent, the receiver sees every reply there ever is |
| Fetch.TimelineOkIff | engine-client/src/backend.rs:986-1027 | over the whole timeline, subscribed no later than sent, Ok carries the parsable trades of every own chunk there is up to the first last one, if and only if no own error, lag, drop or close came before it |
| Fetch.FetchKlines | engine-client/src/backend.rs:859-889 | a failed send is an error; otherwise the single-reply loop returns the outcome the next two lemmas characterise |
| Fetch.FirstAnswerSettles | engine-client/src/backend.rs:867-889 | the first own reply, own error with its code and message, drop or close settles it; without one the result is the timeout |
| Fetch.KlinesAreSelected | engine-client/src/backend.rs:867-889 | the reply's list is exactly its parsable klines in order |
| Fetch.KlinesIgnoreLags | engine-client/src/backend.rs:883-889 | lags among the deliveries change nothing |
| Notify.Notifications.Push | src/notify.rs:49-96 | a push prunes, then hides, shows or shows aggregated, and leaves exactly the state the step function says |
| Notify.LevelIsStreak | src/notify.rs:70-92 | in every reachable state a cached key's backoff level is five or the number of showings with retries since its last plain one, whichever is less |
| Notify.ShowsIff | src/notify.rs:49-129 | in every run a push is shown if and only if 30 seconds, doubled with each showing with retries in a row up to 300, or 10 for other statuses, have passed since the key's latest showing |
| Notify.FirstPushShows | src/notify.rs:49-96 | a key never shown before is shown at once, as it is |
| Notify.ShownTextIs | src/notify.rs:59-96 | a showing reports exactly the pushes hidden since the one before, for a Danger key pushed within the last 300 whole seconds; any other shows its own text |
| Notify.DecimalReadsBack | src/notify.rs:132-136 | the number in a text is digits only, without a leading zero, and reads back as the count |
| Notify.AggregateText | src/notify.rs:131-143 | title and status are kept, and one retry is worded differently from any other number |
| Notify.Notifications.Remove | src/notify.rs:99-103 | only the toast at a valid index goes, and the dedupe cache stays |
| Notify.Notifications.PruneCache | src/notify.rs:111-115 | exactly the entries not seen for more than 300 whole seconds go |
| Notify.WindowBounds | src/notify.rs:118-129 | windows lie between 30 (Danger) or 10 and 300 seconds, and Danger reaches 300 at level 4 |
| Notify.StatesAreSane | src/notify.rs:55-95 | in every reachable state the level is at most 5, emitted is no later than seen, and the counter is no more than the pushes and never overflows |
| Notify.CacheTracksShowing | src/notify.rs:49-96 | after a showing the key's entry dates from it, or was forgotten more than 300 s after it |
| Notify.ShowingsAreSpaced | src/notify.rs:49-115 | consecutive showings of a key are at least its current window apart, pruned in between or not |
| Notify.ShowingsAreFew | src/notify.rs:49-129 | in any stretch of length T a key is shown at most T / smallest window + 1 times |
| Notify.PruningIsInvisible | src/notify.rs:111-115 | for keys that are not Danger, pruning changes no decision and no text |
| Notify.LosslessPruningIsInvisible | src/notify.rs:49-129 | while no prune has dropped a count of a Danger key, pruning changes no decision on it and no text |
| Notify.FirstLossShows | src/notify.rs:49-129 | after the first dropped count, two more pushes of the key always end in a toast the full cache would hide |
| Notify.PruningShowsIff | src/notify.rs:49-129 | in every run pruning shows on a Danger key, at a push or in the two pushes that could follow one, if and only if a prune has dropped an entry of it with a count |
| Notify.PruningForgetsBackoff | src/notify.rs:73-95 | every Danger key has a run where the pruned cache shows a toast the full one would hide |
| Notify.DangerPushesAreConserved | src/notify.rs:59-95 | in every run, pushes of a Danger key equal showings plus reported retries plus currently hidden plus lost at prunes plus those that met a full counter |
| Notify.RoomMeansNoOverflow | src/notify.rs:60 | while the key's counter has room none meets a full one |
| Venue.VenueMachine.TryClaimLoginInFlight | src/venue_state.rs:86-92 | a claim succeeds if and only if no login is in flight, and one is afterwards |
| Venue.VenueMachine.Handle | src/venue_state.rs:124-157 | an event, claim, logout or failed send moves the machine by the step that the next three rows characterise over runs |
| Venue.LastInputFixesState | src/venue_state.rs:86-157 | over any run the last start, claim, ready, cancel, error, rehello or logout fixes the state, errors with all their fields, but for a later failed send or dismissal, which end what they are for |
| Venue.NothingSaid | src/venue_state.rs:86-157 | before any of these only a failed send ends a login and only a dismissal an error |
| Venue.EndedLoginCanBeClaimed | src/venue_state.rs:86-157 | after a cancel, error, ready, rehello, logout or failed send no login is in flight, and the next claim succeeds |
| Venue.EngineEventShows | src/main.rs:1346-1367 | an engine event handled in any state leaves the venue ready, logging in, idle, or in an error with its class, its message and whether the market is closed |
| Venue.FlightSlotIsConserved | src/venue_state.rs:86-157 | over any run, successful claims and engine starts equal departures from LoginInFlight plus the one in flight; claims never exceed departures by more than one |
| VenueAgreement.VenueReadyBridge | src/main.rs:608-647 | started on a drained cache the bridge caches exactly the venues whose latest delivered event says ready |
| VenueAgreement.RunsAreCoherent | src/main.rs:608-647 | over any number of reconnects and restarts the cache follows the bridge's latest event, and a greeted machine is Ready exactly by the latest handled event or by a synthesised Ready |
| VenueAgreement.LastDecision | src/venue_state.rs:86-157 | every run that is past a rehello has a last act that decided the machine's state |
| VenueAgreement.SynthesisedIff | src/handlers/engine.rs:131-184 | a Ready is synthesised if and only if the bridge's latest word is ready, seen without contention at a restart or by a machine not yet Ready at a Connected, or the depth stream meets Tachibana's error; delivery alone takes one away |
| VenueAgreement.LeftoversEndAtRehello | src/main.rs:1246-1259 | an event left over from the connection before moves the machine with nothing cached on this one, and the rehello ends it |
| VenueAgreement.AgreementIff | src/venue_state.rs:124-157 | for every run with both consumers level at its end, machine and cache agree if and only if the last decision was an engine event, or a synthesised Ready when the latest handled event said ready, or a rehello, restart, claim or logout when it did not |
| VenueAgreement.BootstrapClosesTheGap | src/handlers/engine.rs:131-184 | without any of eight lapses, over any number of reconnects and restarts, a settled machine is Ready if and only if the engine's latest event says so, and the venue cached if and only if it is, whatever was published before the loop subscribed |
| VenueAgreement.EveryLapseCosts | src/handlers/engine.rs:131-184 | each lapse is needed: for each there is a run from the start with no other one that ends settled and level with machine and cache apart |
| VenueAgreement.RestartRepeatsTheBridge | src/main.rs:3155-3175 | a restart and its synthesised Ready leave the machine Ready if and only if the bridge's latest word is ready, hence the latest handled event's word when level |
| VenueAgreement.DepthReconnectPartsThem | src/handlers/dashboard.rs:14-27 | clearing an Error by the depth reconnect leaves a Ready machine whose venue is not cached |
| VenueAgreement.LateConnectedCosts | src/handlers/engine.rs:142-156 | a ready event published before the loop subscribed and bridged after Connected leaves the machine Idle for good |
| VenueAgreement.LateGreetedRestartCosts | src/main.rs:3152-3175 | a restart between rehello and Connected with an error still to be bridged leaves the machine Ready |
| VenueAgreement.OvertakenCosts | src/main.rs:3160-3175 | a synthesised Ready overtaken by an error leaves the machine Ready though both consumers saw the error |
| VenueAgreement.CarriedOverCosts | src/main.rs:3160-3175 | a synthesised Ready delivered on the next connection leaves the machine Ready without any event of it |
| StatusStream.EngineStatusStream | src/main.rs:1226-1332 | the loop yields the messages of the step machine, and every Connected right behind both rehellos |
| StatusStream.EachWakeAdds | src/main.rs:1261-1330 | wake by wake the messages are the restart flags, the rehellos and Connected of a new connection, and the venue events received while there is a receiver, in order and until a watch closes |
| StatusStream.GreetingIs | src/main.rs:1243-1259 | before any wake a connection that is there is greeted, and then a restart in progress |
| StatusStream.StreamPutsRehellosFirst | src/main.rs:1246-1302 | whatever the loop wakes up with, a Connected comes only behind its two rehellos |
| StatusStream.ReadyAtConnectedIff | src/main.rs:1246-1259 | however the stream, the user and synthesised Readies interleave, either venue is Ready at a Connected if and only if a Ready was synthesised for it after its latest rehello with no later claim or logout |
| StatusStream.NoVenueReadyAtConnected | src/main.rs:1246-1259 | with nothing synthesised no venue is Ready when Connected is handled |
| StatusStream.SynthesisedReadyIntervenes | src/handlers/engine.rs:148-156 | the instance: a synthesised Ready delivered between two rehellos leaves a venue Ready at Connected |
| LockOrder.LockOrderTracker.Acquire | src/main.rs:183-226 | the check passes if and only if the recorded rank is no higher, unknown names are ignored, and the highest rank is kept even after a violation |
| LockOrder.LockOrderTracker.Reset | src/main.rs:230-232 | the thread's record is empty |
| LockOrder.RanksAscend | src/main.rs:166-181 | the flag ranks below APP_MODE, that below CURRENT_PATH, and no other name is ranked |
| LockOrder.InOrderIff | src/main.rs:198-224 | after any acquisitions, violations included, a rank passes if and only if none above it has been acquired |
| LockOrder.ChecksOf | src/main.rs:198-224 | in a disciplined state the flag passes only with no mutex recorded, APP_MODE unless CURRENT_PATH is recorded, and CURRENT_PATH always |
| LockOrder.DisciplineKeepsRanked | src/main.rs:183-232 | in every disciplined run a thread with the highest lock has a record of it, a waiting thread's record is the rank it waits for, and no lock has two holders |
| LockOrder.RankRises | src/main.rs:198-224 | along a wait for a thread that waits for another lock than its own the rank waited for rises strictly |
| LockOrder.CyclicWaitIff | src/main.rs:161-232 | a disciplined run of any number of threads reaches a cyclic wait if and only if some thread waits for a lock it holds |
| LockOrder.OwnLockIsWaitedFor | src/main.rs:200-209 | for either mutex, asking twice passes the check and leaves the thread waiting for itself |
| LockOrder.LeafLocksNeverDeadlock | src/handlers/window.rs:116-120 | locks taken one at a time never end in a cyclic wait, whether or not they are recorded or pass the check |
| LockOrder.ExposedDeadlocks | src/main.rs:198-224 | whatever the other threads hold, a thread with the path's lock and no record of it can be run into a deadlock with every check passed |
| LockOrder.ResetIsHarmfulIff | src/main.rs:228-232 | after any disciplined run, a reset, by hand or by dropping the guard, can lead to a deadlock of several threads with every check passed if and only if the thread holds the path's lock |
| LockOrder.DroppingTheGuardDeadlocks | src/main.rs:468-479 | the instance: a guard's owner takes the path's lock and drops the guard |
| LockOrder.ModeSwitch.Acquire | src/main.rs:459-465 | acquired if and only if no switch is in progress, and the new guard is then alive |
| LockOrder.ModeSwitch.DropGuard | src/main.rs:468-479 | the flag is cleared, the guard is gone and the thread's lock record is empty |
| LockOrder.OneGuardAlive | src/main.rs:454-479 | at most one guard is alive, and the flag is set if and only if one is |
| LockOrder.OwnerKeepsGuard | src/main.rs:454-479 | over any run the guard stays with its owner until the owner drops it, whoever else tries |
| Chart.PriceRoundTrip | src/chart.rs:807-826 | every price comes back from its y coordinate, whatever the base, tick and cell height |
| Chart.IntervalRoundTrip | src/chart.rs:774-805 | every timestamp, before or after the latest, and every tick count comes back from its x coordinate |
| Chart.RescaledKeepsInterval | src/chart.rs:425-438 | the point a chart point moves to when the cell width changes has the same interval |
| Chart.PriceAxis | src/chart.rs:807-826 | the base price is at the origin and a price one tick higher one cell higher up |
| Chart.IntervalAxis | src/chart.rs:774-790 | the latest time is at the origin and one interval later one cell to the right; a tick more is one cell to the left |
| Chart.NearestPrice | src/chart.rs:813-826 | a y coordinate gives a price within half a unit of the exact one |
| Chart.WholeInterval | src/chart.rs:784-805 | an x coordinate gives the time as many whole milliseconds before or after the latest, held at the ends of the number range; on a tick basis the nearest count |
| Chart.ZoomedMeaning | src/chart.rs:366-487 | a step in makes a cell larger and one out smaller until the limit, in between by exactly its share in the factor |
| Chart.ViewState.VisibleIff | src/chart.rs:732-748 | a point is visible if and only if its place on screen lies within the bounds |
| Chart.ViewState.AdjustsIff | src/chart.rs:208-230 | at the upper end of the scaling range the wheel widens cells to the maximum and narrows them back to the default, at the lower end the reverse, and in between not at all |
| Chart.ViewState.YScaling | src/chart.rs:449-487 | a Y-scale step keeps the price under the cursor and sets the clamped height; fitted autoscaling ends |
| Chart.ViewState.XScaling | src/chart.rs:366-448 | an X-scale step keeps the interval under the cursor, or the anchor's place on screen in a fitted view, or the pan |
| Chart.WheelKeepsPointIff | src/chart.rs:251-262 | the chart point under the cursor stays if and only if the denominator guard is passed, the cursor is at the centre or the scaling is unchanged |
| Chart.ViewState.WheelScrolled | src/chart.rs:197-268 | one notch keeps the chart point under the cursor on both axes in the scaling range, the interval under it beyond, and the pan where the guard stops it |
| SchemaParity.NamesMeaning | scripts/check_schema_parity.py:163-168 | a number's group is non-empty if and only if it is used, and has two names if and only if two entries share it |
| SchemaParity.GroupByNumber | scripts/check_schema_parity.py:163-166 | the grouping loop lists every used number with its names in order |
| SchemaParity.CheckFieldLevel | scripts/check_schema_parity.py:159-198 | the errors are the duplicates in ascending order, then one gap error if a number below the greatest is missing |
| SchemaParity.NamesParts | scripts/check_schema_parity.py:163-168 | a number's names are those of exactly the entries that have it, in their order |
| SchemaParity.ReportedIff | scripts/check_schema_parity.py:187-190 | a number is reported as a duplicate, with all its names, if and only if it has several |
| SchemaParity.DuplicatesAscend | scripts/check_schema_parity.py:187-190 | each once, in ascending order |
| SchemaParity.GapsAreReported | scripts/check_schema_parity.py:190-198 | the gap error names exactly the unused positive numbers below some used one |
| SchemaParity.SilentIff | scripts/check_schema_parity.py:163-198 | no error is reported if and only if numbers are distinct and none is missing |
| SchemaParity.NoFindingIff | scripts/check_schema_parity.py:150-198 | for positive numbers silence holds if and only if they are exactly 1..k, each once |
| SchemaParity.ZeroIsNotNoticed | scripts/check_schema_parity.py:190-193 | numbers 0 and 1 pass although they are not 1..k |
| SchemaParity.ZeroIsTheOnlyHole | scripts/check_schema_parity.py:187-198 | a silent check means 1..k each once if and only if no field has number zero |
| SchemaParity.ExtractMessageBlock | scripts/check_schema_parity.py:78-95 | the block ends at the first point where the brace depth is zero, or at the end of the text; no header gives nothing |
| SchemaParity.BalancedBodyIsCutOut | scripts/check_schema_parity.py:87-95 | a message with balanced nested braces is cut out up to its own closing brace and nowhere else, whatever follows |

## Left out

- Sockets, gRPC and proto conversion, handshakes, process spawning, tokio internals and the clock: a broadcast delivers in order, reports a lag, a drop or a close; running out of deliveries is the timeout; time is a parameter.
- JSON, UTF-8 and date libraries: a record is an abstract partial parse of one line, a day a window of milliseconds; that one reader replaces invalid UTF-8 and the others refuse the file is not modelled.
- `Price` and `Qty` conversion: prices and quantities are their integer units behind an optional parse, so two texts that round to one unit are one price; the debug assertion that a price is at a tick is not modelled.
- f32 and f64 rounding in `chart.rs`: exact reals; not-a-number guards and the wrap of a float cast to i64 do not arise there.
- DepthBook.ApplySide: a BTreeMap is a map, its order is not modelled.
- DepthStream.Stream: whether a request for a snapshot is actually sent; one attempt is counted, its failure is only logged in the code.
- DepthStream.BookAgreement: needs its hypotheses, each shown needed by a run; what an accepted diff does without them is stated for every state by DepthStream.AcceptedDiffIsRightIff.
- `kline_stream` and `trade_stream`: they carry no state that a lag could corrupt.
- The other fetches, `request_depth_snapshot`, `health` and the ticker metadata stores: the same waiting loop as `fetch_klines` or plain plumbing.
- WalRecords.ReadWalRecords: the library's exact set of white space is a parameter; blank lines are assumed not to parse.
- OrderCrash.Perform: who calls the map when, the HTTP exchange between a submit row and its answer, and a failing fsync; an operation and its row are one step.
- OrderFile.RunsSurviveIff: compares each cut with the live map of the last operation completely written; OrderFile.AlwaysRestoresIff, which also lets the engine crash alone, with the latest live map. That a record behind the beginnings of others does not parse is assumed of the syntax.
- WalScan.DetectInFlightOrders: ids or phases that are not text, and a file that is not UTF-8, which the client's reader refuses as a whole; the scan's branch for bytes left in the buffer behind the loop is never reached and not modelled.
- Venue.VenueMachine.Handle: toasts, refetches and the logout command sent with a dismissal.
- VenueAgreement.BootstrapClosesTheGap: a lag of either consumer and the second source of readiness in `ProcessManager`; `is_production` of the kabu venue is a separate flag. A reconnect drains the old connection's bridge before it clears the cache, as the comments in main.rs say.
- StatusStream.EngineStatusStream: messages other than venue events that `map_engine_event_to_message` produces, among them the replay and portfolio arms.
- LockOrder.LockOrderTracker.Acquire: the panic of a debug build and the warning of a release build are one result flag. Only requests that are recorded are in the runs, and the code records few: outside its unit tests `lock_order_acquire` is called for MODE_SWITCHING in src/handlers/menu.rs and for APP_MODE in `restart_with_mode`, never where CURRENT_PATH is locked nor in `app_mode`. LockOrder.CyclicWaitIff and LockOrder.ResetIsHarmfulIff say nothing about unrecorded requests; LockOrder.LeafLocksNeverDeadlock does.
- Chart.ViewState.WheelScrolled: a notch of exactly zero counts as upwards and does nothing.
- SchemaParity.CheckFieldLevel: the regular expressions that find the message and its fields, and the printed note about `reserved`.
- `data/src/util.rs`: panel splits and number formatting, short loops without state across calls.
- Views, widgets, audio, layout files, secrets, command line and the benchmark scripts.
