# Verified model of the AAA daemon and the alarm process

A Dafny model of the two busiest processes of the switch software, and proofs about them.

* **Login sessions** (`aaa_*.dfy`, `id_allocator.dfy`). The AAA daemon takes logins through an ordered list of
  up to four methods (RADIUS, TACACS+, local, none) on a 200 ms timer, with resends, timeouts, authorization,
  accounting and switches that waive failures. Finished logins become online sessions, which keep-alive and
  accounting timers can evict. `AaaSession`, `AaaOnline` and `AaaTable` give the steps. `AaaRuns`, `AaaUpkeep`,
  `AaaProvenance`, `AaaSettling` and `AaaEmptying` prove what holds over every run, whatever answers come;
  `AaaAdmission`, `AaaCrossing`, `AaaTermination` and `AaaLostLogins` what holds over every run in which servers
  answer only what they were asked, with the exact condition on the configuration and, where it fails, a run that
  fails. `AaaOutcome`, `AaaMessages` and `AaaSilence` say what each check, message and answer comes to, by the
  tables before and after, and how long an unanswered login lasts. `AaaServer` is the daemon with records and counters updated in place, proved against those steps.
* **Alarm data sheets and their replication** (`data_sheet.dfy`, `snapshot.dfy`, `replication.dfy`,
  `sync_board.dfy`, `aligned_sheets.dfy`). A sheet is a fixed pool of rows threaded through an insertion-ordered
  list, 21 hash buckets and an idle list; it refines a bounded insertion-ordered map. A master sends a slave a
  snapshot of its sheet and then queued changes.
* **Wire formats** (`radius_pap.dfy`, `radius_attrs.dfy`, `tacacs_crypt.dfy`, `tacacs_author.dfy`,
  `byte_strings.dfy`). MD5 is a function about which only its result's size is known.
* **Alarm attributes** (`alarm_attributes.dfy`, `alarm_rank.dfy`, `alarm_reverse.dfy`). Settings per port over
  settings per sub-type in page/bit masks, the cached highest rank, and the marks of a reverse-mode change.

`dafny verify dfyconfig.toml` checks everything.

Conventions: `char` is an unsigned byte, as on the target. Counters that wrap in the code wrap in the model
wherever a statement depends on it. An answer takes effect on the login it is delivered to whatever method that
login is at by then, as the receive functions match it by the id of its request alone; which answers are to
requests that were sent is a hypothesis (`AaaAdmission.HonestAnswers`) of the statements that need it, and of no
others. Fields named `history`, `logins` and `stale` are proof-only and nothing that the code computes depends on
them.

## Where the code does less than it seems to promise

Each of these is a theorem. The ones named `...Exactly` say on which inputs or configurations the property does hold.

* On a list with both servers a late acceptance by the first lets a login in at the second, which never accepted
  it (`AdmissionExactly`, `CrossedRun`); every configured list that begins with both is such a list, if
  logins are allowed and requests sent at all (`BothServersCross`).
* Behind a server, a late answer reaches a login at the local check, which then leaves it pending for good
  (`LosingExactly`, `LosingRun`); only a reset or a repeated login still ends it. `EmptyingExactly` says on which
  configurations the timer always empties the table.
* A TACACS+ server that repeats its answers can keep a login pending for ever, even if no answer comes late:
  exactly where authorization is on together with accounting or with its waiver, or accounting is on together with
  authorization's waiver (`TerminationExactly`, `RepeatedAnswersLivelock`), which the default policy is
  (`StrictTacacsReverts`). The bound of `BusyTicksBounded`, which holds everywhere, therefore counts answers.
* The RADIUS resend counter is shared by all logins, so logins that come and go can keep others from ever sending
  a request (`SharedTimerStarves`); the bounds are for the whole table.
* The queue of changes survives the replacement of a slave within one tick, and the new slave can then keep an
  alarm that the master has not (`LeftoverQueueDiverges`); a restart in the known slot is not noticed at all
  (`KnownSlaveRestartUnnoticed`).
* Slave rows are numbered by the slave and removed by the master's number, so a slave follows its master row by
  row only while the master has never removed a row (`SnapshotTracksExactly`, `AlignedUntilFirstRemoval`). The
  convergence theorems of `Replication` take insert and remove as keyed on sub-type and port; how rows are
  numbered and removed is in `alarm/gpnAlmAlmNotify.c`, lines 241 to 345.
* A hidden password with a zero byte is sent cut short (`CarriedExactly`); a private attribute in a later
  vendor-specific attribute is not found, and one that is found is copied with two bytes too many
  (`FoundExactlyInFirstVendor`, `PrivateValueOverrun`); replies of 101 to 255 arguments are
  rejected when well formed, and an accepted one is read beyond its end (`WellFormedAcceptedExactly`,
  `SlicesInsideExactly`).
* A reverse-mode change passes over the last page of a type that fills several (`MarksValidBitsExactly`).

## Model

| member | source | states |
|---|---|---|
| `AaaTypes.SetAuthOrderReadsBack` | aaa/aaa_config.c:93-131 | A configured method list reads back position by position, for any four methods, and no position of it holds an unknown method. |
| `AaaTypes.SetAuthOrderServices` | aaa/aaa_config.c:93-131 | Setting a list turns on exactly the services that its protocols need and whose failure is not waived, turns nothing off, and touches nothing else. |
| `AaaSoundness.CheckIsSound` | aaa/aaa_msg_handle.c:312-408 | One timer check leaves every login it keeps pending in order (where it must be for each request it has sent, and what its result then rests on), and, on a list that does not cross methods, admits a login only if it has the acceptance of the very method it is at, with authorization and accounting given or waived by a switch. |
| `AaaSoundness.ReplyKeepsLogin` | aaa/aaa_radius_auth.c:257-321 | An answer to any request the login has sent, under whatever method and however late, keeps that order. |
| `AaaSession.CheckProgress` | aaa/aaa_msg_handle.c:561-946 | Whatever answers a login has had, every check of it that does anything settles it, or uses up work (methods, resends, timeouts, one phase change), or moves a shared resend timer closer to firing; where no answer can take a login back, the same holds of the work that no answer adds to. |
| `AaaSession.CheckNeverStrands` | aaa/aaa_msg_handle.c:561-946 | A check by itself never leaves a login in a state in which checks do nothing. |
| `AaaSession.TickIdleExactlyWhenStuck` | aaa/aaa_msg_handle.c:561-946 | A check leaves an unfinished login exactly as it was if and only if the login is in one of the stuck states named there. |
| `AaaSession.LateReplyStrands` | aaa/aaa_msg_handle.c:881-932 | An answer takes a login to where checks do nothing exactly when it reaches the login at the local check, or is a TACACS+ authorization answer that reaches it at RADIUS. |
| `AaaStranding.LeftForGoodExactly` | aaa/aaa_msg_handle.c:561-937 | No sequence of checks, whatever the shared counters, and of answers to its requests can finish a pending login any more exactly when an answer has reached it at the local check, or a TACACS+ authorization answer at RADIUS while authorization is all it has ever asked for. |
| `AaaStranding.HelpedLoginFinishes` | aaa/aaa_msg_handle.c:312-408 | In every state of the tables, every other login can still finish: with at most one answer to its requests, the timer settles it within the potential, under the counters as they stand and whatever other logins are pending. |
| `AaaStranding.LostExactlyAtLocalCheck` | aaa/aaa_msg_handle.c:881-932 | Of logins that get answers to their own requests only, just those that an answer reached at the local check are lost; all others the timer can still settle, at RADIUS after another answer. |
| `AaaSession.AcceptedNeverSkipped` | aaa/aaa_config.c:93-131 | Under any configured list a check never moves past a method that has accepted the user, because setting the list switched the services on that a skip would need off. |
| `AaaStarvation.SharedTimerStarves` | aaa/aaa_msg_handle.c:563-613 | With two or more ticks to a resend, for every n there is a run from the start, every answer honest and in time, in which a crowd of logins one smaller than that number is still as it came in after 2n ticks, its first request not sent, because the resend counter it shares runs out at logins that come later and go. |
| `AaaTable.VisitKeepsOrders` | aaa/aaa_msg_handle.c:561-656 | After the visit of a login every pending login is again at one of the four list positions, so the list is never read beyond its end. |
| `AaaRuns.StepKeeps` | aaa/aaa_msg_handle.c:312-504 | Every message, answer and timer, whatever the answers are, keeps the table invariant: pending logins at a list position and unfinished, every session under a method of the list that can have let the user in, session counts within their limits, ids distinct and allocated, no login in the tables twice, both tables within 32. |
| `AaaRuns.SessionCounts` | aaa/aaa_msg_handle.c:1053-1115 | In every reachable state, whatever answers came, no two RADIUS sessions and no two TACACS+ sessions are of one user, and a user has at most the configured number of local sessions, none if not configured. |
| `AaaRuns.RepeatedExactly` | aaa/aaa_msg_handle.c:1053-1115 | The check for a repeated login says yes exactly when one session more would break that bound. |
| `AaaTable.CountIsSessions` | aaa/aaa_msg_handle.c:1053-1115 | What it counts is the number of online sessions of the user under the method. |
| `AaaRuns.SessionIds` | aaa/aaa_user_manager.c:703-722 | In every reachable state, whatever answers came, sessions with an id have different numbers, the number is allocated and what stands above it is the code of the session's method. |
| `AaaRuns.LocalSessions` | aaa/aaa_msg_handle.c:881-946 | In every reachable state a local session is of a configured user whose password is empty or is the one that came with the login; every other session stands on a list that has its method and is not the super user's. |
| `AaaRuns.TablesBounded` | aaa/aaa_user_manager.c:180-325 | In every reachable state neither table has more than 32 entries. |
| `AaaOutcome.LocalOutcome` | aaa/aaa_msg_handle.c:881-937 | The local check of a waiting login that is not one too many lets a configured user in exactly with no password on record or the right one, turns him away with any other, and passes an unknown user on to the next method; told by the tables before and after the visit. |
| `AaaOutcome.LocalLoginExactly` | aaa/aaa_msg_handle.c:881-937 | From the start, with the local check first, the first login of a configured user is online after one check exactly if its password is right, and settled either way. |
| `AaaOutcome.NoCheckOutcome` | aaa/aaa_msg_handle.c:941-946 | Without authentication a login is let in, at an unset position turned away. |
| `AaaOutcome.RadiusOutcome` | aaa/aaa_msg_handle.c:561-656 | What a visit makes of a login at RADIUS, told by the tables: a rejection ends it, silence passes it on when the resends are used up, and an acceptance lets it in when accounting is answered, or is unanswered or off and waived. |
| `AaaOutcome.TacacsOutcome` | aaa/aaa_msg_handle.c:660-877 | Likewise at TACACS+, with authorization between the two: given, or denied, unanswered or off and waived. |
| `AaaOutcome.RepeatedTurnedAway` | aaa/aaa_msg_handle.c:312-330 | A repeated login is turned away whatever it was told, and ends the scan. |
| `AaaMessages.LoginOutcome` | aaa/aaa_msg_handle.c:38-147 | A login request is taken exactly when it names a user, fewer sessions than allowed are online and an id is free, under the smallest free id, with every resend and timeout before it; else nothing changes. |
| `AaaMessages.ExitOutcome` | aaa/aaa_msg_handle.c:148-166 | An exit removes exactly the last session with the id, in place, and frees its number. |
| `AaaMessages.EchoOutcome` | aaa/aaa_msg_handle.c:175-210 | A keep-alive message restores the whole tolerance of silence of its session alone, or removes it when the user has been idle too long. |
| `AaaMessages.ResetOutcome` | aaa/aaa_msg_handle.c:264-280 | A reset leaves no login, no session and no number of a session. |
| `AaaMessages.AnswerOutcome` | aaa/aaa_radius_auth.c:235-330 | An answer changes the result, and what else it must, of the login it is matched to and of no other. |
| `AaaMessages.AcctOutcome` | aaa/tac_plus_acct.c:355-365 | An accounting answer ends the wait of its session alone. |
| `AaaMessages.OnlineTickOutcome` | aaa/aaa_msg_handle.c:417-504 | Although sessions are removed while the table is gone through, each one online is ticked exactly once: the evicted are gone and their numbers free, the others stand ticked in their order. |
| `AaaSilence.RadiusSends` | aaa/aaa_msg_handle.c:561-656 | A RADIUS check sends a request exactly when the login is due one, has a resend left, and the shared counter completes an interval; and what that does to resends and counters. |
| `AaaSilence.TacacsSends` | aaa/aaa_msg_handle.c:660-877 | A TACACS+ check sends a request of its phase exactly when no login has since the shared counters were last cleared; and when they are. |
| `AaaSilence.SilentLoginEndsExactly` | aaa/aaa_msg_handle.c:312-408 | From the start, a lone login that no server ever answers is pending up to exactly one computed check, for every list, number of resends and resend interval. |
| `AaaRuns.AdmitKeeps` | aaa/aaa_msg_handle.c:1003-1030 | Admission keeps it, because the repeat check of the same visit held. |
| `AaaRuns.DropKeeps` | aaa/aaa_user_manager.c:363-393 | Removing a session and freeing its id keeps it. |
| `AaaProvenance.SessionHasOrigin` | aaa/aaa_msg_handle.c:963-1036 | In every reachable state, whatever answers came, each session goes back to one login request with its name and password, through a login that was pending under one id without a break until a timer check admitted it; and each answer in its history was delivered to that id in between. |
| `AaaProvenance.OriginsDiffer` | aaa/aaa_msg_handle.c:1003-1030 | No two sessions go back to the same login request. |
| `AaaAdmission.OnlineWasAccepted` | aaa/aaa_msg_handle.c:963-1036 | Over every run in which answers are to requests that were sent, however late and often, and on a list that does not cross methods: the login behind each RADIUS or TACACS+ session was told its own method's acceptance while it was pending, and each missing authorization or accounting answer is waived by its switch. |
| `AaaCrossing.AdmissionExactly` | aaa/aaa_cmd.c:354-436 | That holds of a configuration in all such runs exactly when no login can go from a server method of its list to a later one of the other kind that can let it in. |
| `AaaCrossing.CrossedRun` | aaa/aaa_radius_auth.c:257-321 | Otherwise a run from the start puts someone online under TACACS+ without a TACACS+ acceptance, or under RADIUS without a RADIUS one, on the late answer of the earlier server. |
| `AaaCrossing.BothServersCross` | aaa/aaa_config.c:93-131 | Any configured list that begins with RADIUS and TACACS+, in either order, is such a list, if logins are allowed and requests sent at all. |
| `AaaLostLogins.LosingExactly` | aaa/aaa_msg_handle.c:881-932 | Over all such runs every pending login can still be settled by the timer, under the counters of the run, exactly when the list has no local check behind a server that is asked before it. |
| `AaaLostLogins.LosingRun` | aaa/aaa_msg_handle.c:881-932 | Otherwise a run from the start leaves a login pending that nothing but a reset or a repeated login ends. |
| `AaaLostLogins.EmptyingExactly` | aaa/aaa_msg_handle.c:312-408 | After every run in which answers are to requests sent, the timer empties the authing table within the potential of the state, exactly when the list loses nobody so and no login that TACACS+ authorized goes on to RADIUS for want of accounting. |
| `AaaLostLogins.ConfiguredNeverParks` | aaa/aaa_config.c:93-131 | The second of these never happens on a list as it is configured, because setting it switches accounting on unless its failure is waived. |
| `AaaLostLogins.CurrentRunsEmpty` | aaa/aaa_msg_handle.c:312-408 | If every answer of a run was for the method its login was at, the timer empties the table within the potential, on every list and under every policy. |
| `AaaSettling.BusyTicksBounded` | aaa/aaa_msg_handle.c:312-408 | Over every run of logins, answers to anything, exits, resets and timers, the ticks at which some pending login is not stuck are bounded by an explicit function of the number of logins and answers of the run. |
| `AaaSettling.LoginsBoundBusyTicks` | aaa/aaa_msg_handle.c:312-408 | With answers to requests sent only, and no login that an answer can take back at TACACS+, an explicit function of the number of logins alone bounds them. |
| `AaaEmptying.TicksSettleMoving` | aaa/aaa_msg_handle.c:312-408 | From any reachable state, once nothing more arrives, every login still pending after as many ticks as the potential of the state is stuck. |
| `AaaEmptying.TicksSettleLogin` | aaa/aaa_msg_handle.c:312-408 | A login that is not stuck is gone by then, whatever the others do. |
| `AaaEmptying.TicksSettleEveryone` | aaa/aaa_msg_handle.c:312-408 | And if none was stuck when the last answer came, the authing table is empty by then; EmptyingExactly and CurrentRunsEmpty say after which runs that is so. |
| `AaaSettling.VisitAdvances` | aaa/aaa_msg_handle.c:561-946 | A visit to a pending login strictly lowers the potential of the whole table, although resend timers are shared, unless the login is stuck and not a repeated one; then the visit changes nothing. |
| `AaaSettling.StepPays` | aaa/aaa_msg_handle.c:312-408 | Each event raises the potential by no more than the work it brings in, and a tick at which some pending login is not stuck lowers it; on the reckoning without answers, an answer brings in none. |
| `AaaTermination.TerminationExactly` | aaa/aaa_msg_handle.c:660-877 | With answers only to requests sent, some function of the number of logins bounds those ticks over all runs exactly when no login can get to a TACACS+ position of the list under a policy by which a repeated answer takes it back (authorization on, and accounting on or authorization waived; or accounting on and authorization waived); and the condition is the same if answers never come late. |
| `AaaTermination.RepeatedAnswersLivelock` | aaa/aaa_msg_handle.c:660-877 | Otherwise for every n a run from the start, every answer honest and in time, keeps its one login pending for n such ticks. |
| `AaaTermination.StrictTacacsReverts` | aaa/aaa_config.c:93-131 | Any configured list with TACACS+ first and no failure waived, as is the default, is under such a policy. |
| `AaaOnline.SilenceEvictsExactly` | aaa/aaa_msg_handle.c:417-504 | Silence for as many ticks as the session has left is tolerated and one more is not; an eviction for keep-alive comes no sooner. |
| `AaaOnline.EchoRestoresTolerance` | aaa/aaa_msg_handle.c:175-210 | From a keep-alive message on the session has the whole tolerance again and not a tick more. |
| `AaaOnline.TimersStayInRange` | aaa/aaa_msg_handle.c:417-504 | Under every configuration that the commands and defaults can set, ticks, keep-alive messages and accounting responses keep the accounting timers in range. |
| `AaaUpkeep.TimersInRangeAlways` | aaa/aaa_user_manager.c:663-692 | Admission puts them in range, so in every reachable state no timer of any session wraps. |
| `AaaUpkeep.SessionLostExactly` | aaa/aaa_msg_handle.c:417-504 | In every reachable state a session whose accounting is on and not waived, RADIUS or TACACS+, waiting for an answer or not, is lost for want of one at one computed tick, not before, however keep-alive messages fall. |
| `AaaOnline.ZeroIntervalUnderflows` | aaa/aaa_msg_handle.c:417-504 | Why the interval must be at least 1, as the command makes it: after an interval of 0 the next update would be 2^32 - 1 ticks late. |
| `AaaOnline.UnansweredUpdateEvictsExactly` | aaa/aaa_msg_handle.c:417-504 | However keep-alive messages fall, an unanswered RADIUS update is held against the session at one computed tick, not before, and the session is gone by it. |
| `AaaOnline.UpdateSentThenLost` | aaa/aaa_msg_handle.c:417-504 | That tick is the 22nd to 26th after the update was sent. |
| `AaaOnline.ResponseStartsAgain` | aaa/aaa_radius_acct.c:268-285 | A response clears the failures, so the count starts afresh at the next update. |
| `AaaOnline.UnansweredLossExactly` | aaa/aaa_msg_handle.c:417-504 | From any state of its timers a session whose accounting is enforced and unanswered is lost for it at one computed tick. |
| `AaaOnline.AnsweredUpdateForgiven` | aaa/tac_plus_acct.c:355-365 | An answer in time puts that tick off until the next update has been sent and has gone unanswered in turn, for TACACS+ the interval and 30 ticks; only a TACACS+ answer after the timeout is too late. |
| `AaaOnline.RadiusUpdatesKeepInterval` | aaa/aaa_msg_handle.c:417-504 | Answered RADIUS updates follow one another at the update interval. |
| `AaaOnline.LostOnlyIfEnforcedExactly` | aaa/aaa_msg_handle.c:448-493 | A session can be lost for accounting exactly when accounting is on for its method and the failure is not waived. |
| `AaaOnline.TacacsUpdateEvictsExactly` | aaa/aaa_msg_handle.c:417-504 | A TACACS+ update left unanswered past its timeout evicts at one computed tick, given the next update is further off than the timeout. |
| `AaaOnline.FrequentTacacsUpdatesNeverEvict` | aaa/aaa_msg_handle.c:417-504 | Why the interval must be longer than the timeout, as the command makes it: otherwise no number of unanswered updates would evict. |
| `AaaOnline.TacacsUpdateSentThenLost` | aaa/aaa_msg_handle.c:417-504 | An unanswered TACACS+ update is held against the session, 30 ticks on, exactly when the interval is not in 1..29. |
| `AaaOnline.ConfiguredUpdateSentThenLost` | aaa/aaa_cmd.c:1151-1160 | So with every interval the command can set, an update left unanswered evicts exactly 30 ticks after it was sent, unless silence has evicted before. |
| `AaaServer.Server.RadiusProcessCheck` | aaa/aaa_msg_handle.c:561-656 | In place, the step that the session model gives for RADIUS, shared counters included. |
| `AaaServer.Server.TacacsProcessCheck` | aaa/aaa_msg_handle.c:660-877 | In place, the step that the session model gives for TACACS+, with the shared counters reset when the login is finished. |
| `AaaServer.Server.LocalProcessCheck` | aaa/aaa_msg_handle.c:881-937 | In place, the step of the local check. |
| `AaaServer.Server.ProcessCheck` | aaa/aaa_msg_handle.c:332-402 | The dispatch performs the check of the method the list selects, or the local check for the super user. |
| `AaaServer.Server.LoginRepeat` | aaa/aaa_msg_handle.c:1053-1115 | Answers whether one more session of the user under the method would exceed its limit, against a count over the whole online table. |
| `AaaServer.Server.HandleAuthResult` | aaa/aaa_msg_handle.c:963-1036 | Moves a finished login to the online table or drops it as its verdict says, with id allocation, a full table and a missing terminal answer; everything else is untouched. |
| `AaaServer.Server.AuthProcessCheck` | aaa/aaa_msg_handle.c:312-413 | The 200 ms scan over records updated in place ends in the state the table model computes, early end included. |
| `AaaServer.Server.OnlineUserStatusCheck` | aaa/aaa_msg_handle.c:417-504 | The 1 s scan ends in the state the table model computes although sessions are deleted under the cursor. |
| `AaaServer.Server.LoginRequest` | aaa/aaa_msg_handle.c:38-147 | Adds a fresh pending login under the smallest free id, or nothing for an empty name, a full online table or no free id. |
| `AaaServer.Server.LoginExit` | aaa/aaa_msg_handle.c:148-166 | Drops the session with that id and frees the id. |
| `AaaServer.Server.EchoRequest` | aaa/aaa_msg_handle.c:175-210 | Restarts the keep-alive of the session with that id, or drops it when it has been idle too long. |
| `AaaServer.Server.TerminalReset` | aaa/aaa_msg_handle.c:264-280 | Empties both tables and frees exactly the ids of the online sessions. |
| `AaaServer.OnlineInfo.Tick` | aaa/aaa_msg_handle.c:417-504 | One session's share of the 1 s timer, in place: kept with the timers the model gives, or to be evicted. |
| `AaaServer.AuthingInfo.Receive` | aaa/aaa_radius_auth.c:235-330 | What an answer writes into a pending login is what the session model applies. |
| `IdAllocator.TagReadsBack` | aaa/aaa_config.c:138-155 | The method tag and the number of an id both read back from it. |
| `IdAllocator.HeldIdsDistinct` | aaa/aaa_user_manager.c:698-741 | After any history of allocations and releases the ids held have different low 24 bits within 1..max, and the live set is exactly their numbers. |
| `IdAllocator.IdBuffer.Alloc` | aaa/aaa_user_manager.c:703-722 | Allocates the smallest free number of 32 per word, tagged, or returns 0 exactly when all are taken, changing nothing. |
| `IdAllocator.IdBuffer.Free` | aaa/aaa_user_manager.c:727-741 | Frees the number and nothing else; freeing a number that is not allocated reports failure and changes nothing. |
| `IdAllocator.FirstClearBit` | aaa/aaa_user_manager.c:703-722 | The first clear bit in word and bit order is the smallest free number. |
| `Words.BitsOfSet` | aaa/aaa_user_manager.c:717-717 | On 32-bit words, or-ing in 1 << j is setting entry j of the bits and nothing else. |
| `Words.BitsOfFlip` | aaa/aaa_user_manager.c:733-733 | On 32-bit words, xor with 1 << j flips entry j of the bits and nothing else. |
| `Words.BitsOfConstants` | aaa/aaa_user_manager.c:709-709 | The words 0xffffffff and 0 are the one with all bits set and the one with none. |
| `DataSheet.HistoryIsBoundedMap` | alarm/gpnAlmDataSheet.c:348-500 | After any history of adds, deletes and modifies the sheet is within its size and no index occurs twice. |
| `DataSheet.ApplyAsMap` | alarm/gpnAlmDataSheet.c:348-500 | Read as a map, an add binds its index and unbinds at most the oldest row, exactly when the sheet is full; a delete unbinds its index; a modify rebinds it; no other index changes. |
| `DataSheet.AcceptedExactly` | alarm/gpnAlmDataSheet.c:348-500 | An addition is accepted exactly under a new index with a good buffer and room or a row to evict; a deletion or rewriting exactly of an index in the sheet. |
| `DataSheet.ReadAfterWrite` | alarm/gpnAlmDataSheet.c:289-500 | Over every history, what was written under an index is read back until an operation touches that row again, and nothing is read after a deletion or after an addition that evicted it. |
| `DataSheet.RowsByAge` | alarm/gpnAlmDataSheet.c:375-428 | After any history the rows stand in the order in which they were added, so the first, which is what the illegal index reads and a full cyclic sheet evicts, is the oldest. |
| `DataSheet.AddsKeepNewestOrOldest` | alarm/gpnAlmDataSheet.c:375-412 | Under additions alone a cyclic sheet holds exactly the newest rows and a linear one exactly the oldest. |
| `DataSheet.AddLinks` | alarm/gpnAlmDataSheet.c:375-428 | Linking a row into the lists, after unlinking the oldest if none is idle, keeps the pool partitioned into used and idle rows, each used row in exactly the bucket of its index, and appends the row. |
| `DataSheet.UnlinkRowRemoves` | alarm/gpnAlmDataSheet.c:455-464 | Unlinking a row keeps that invariant and removes exactly that row from the insertion order. |
| `DataSheet.BucketTells` | alarm/gpnAlmDataSheet.c:184-193 | The bucket of an index holds the row with the index if there is one, and no other row with it. |
| `DataSheet.Sheet.constructor` | alarm/gpnAlmDataSheet.c:119-162 | A new sheet has all its rows idle. |
| `DataSheet.Sheet.GetNode` | alarm/gpnAlmDataSheet.c:165-197 | Finds the pool position of the row with the index by its bucket, or none when there is none. |
| `DataSheet.Sheet.GetLine` | alarm/gpnAlmDataSheet.c:289-325 | For every index but the illegal one it answers what the sheet, read as a map, has for the index; for the illegal one the first row. |
| `DataSheet.Sheet.GetNextLine` | alarm/gpnAlmDataSheet.c:227-267 | Reads the row inserted after the one with the index, the first for the illegal index, or fails. |
| `DataSheet.Sheet.Add` | alarm/gpnAlmDataSheet.c:348-431 | Over the linked lists, the specification's add: refused for a duplicate index, a bad buffer or a full linear sheet with the whole structure unchanged; evicting exactly the oldest row of a full cyclic one. |
| `DataSheet.Sheet.Delete` | alarm/gpnAlmDataSheet.c:432-467 | Removes exactly the row with the index, or fails with the structure unchanged. |
| `DataSheet.Sheet.Modify` | alarm/gpnAlmDataSheet.c:468-500 | Rewrites exactly the row with the index in place, or fails with the structure unchanged. |
| `Snapshot.WalkEndsExactly` | alarm/gpnAlmMasterSlaveSync.c:405-446 | The copy loop ends, having seen the rows once each in insertion order up to the first with too long a suffix, exactly when none of those uses the reserved index 0xFFFFFFFF; otherwise it never ends. |
| `Snapshot.CopyTable` | alarm/gpnAlmMasterSlaveSync.c:405-446 | Appends exactly those rows, in order, to the sync table. |
| `Snapshot.Drain` | alarm/gpnAlmMasterSlaveSync.c:687-735 | Sends non-empty messages of at most the maximum, all but the last full, whose concatenation is the list, and leaves the list empty. |
| `Snapshot.CurrTableSync` | alarm/gpnAlmMasterSlaveSync.c:679-735 | The messages of a power-on sync are the sheet in insertion order. |
| `Replication.ReplayIsLastAction` | alarm/gpnAlmMasterSlaveSync.c:1133-1169 | What a slave has of a key after a replay is decided by the key's last action alone, else by what it had. |
| `Replication.ReplayTwice` | alarm/gpnAlmMasterSlaveSync.c:1133-1169 | Replaying changes that the slave already has makes no difference. |
| `Replication.ReplayOfMessages` | alarm/gpnAlmMasterSlaveSync.c:853-914 | How the changes are split over messages makes no difference. |
| `Replication.UnknownActionEndsMessage` | alarm/gpnAlmMasterSlaveSync.c:1133-1169 | An unknown action ends its message: nothing behind it is applied. |
| `Replication.DivergenceIsExactlyStale` | alarm/gpnAlmMasterSlaveSync.c:210-357 | Over every run of alarm changes, ticks, device messages and slave restarts, once the queue is replayed master and slave differ on exactly the keys that the last snapshot or restart left contradicted and no queued change has touched since. |
| `Replication.TablesAgreeExactly` | alarm/gpnAlmMasterSlaveSync.c:210-256 | With an empty queue the two tables have the same keys exactly when nothing is stale. |
| `Replication.SteadyConverges` | alarm/gpnAlmMasterSlaveSync.c:210-256 | From the boot of an empty slave with an empty queue, through alarm changes, ticks and status checks that find the boards as they are, the slave equals the master whenever the queue is empty, and replaying the queue makes it so whenever it is not. |
| `Replication.ChangesSentExactlyWhenDue` | alarm/gpnAlmMasterSlaveSync.c:500-526 | The first change after an empty queue starts a batch: whatever changes, ticks and status checks follow, nothing is sent until 3 seconds have gone by since that first one, and the first tick after that sends all of them, leaving the slave with the master's keys if it had them before. |
| `Replication.ChangeQueuedExactly` | alarm/gpnAlmMasterSlaveSync.c:500-526 | A change is queued exactly by a master that has a slave and has sent it the snapshot. |
| `Replication.OnlyMasterActs` | alarm/gpnAlmMasterSlaveSync.c:210-256 | A board that is not master neither queues, nor sends, nor counts down. |
| `Replication.RoleAfterOwnBoot` | alarm/gpnAlmMasterSlaveSync.c:268-291 | After a message about its own slot a board has the role that the message gives, and its queue and countdown as before. |
| `Replication.RoleAfterOtherBoot` | alarm/gpnAlmMasterSlaveSync.c:292-339 | After the first message, or one about an unknown slot, it is master exactly if it is the main board, and counts down to a snapshot exactly if it then has a slave. |
| `Replication.SlaveTakenOut` | alarm/gpnAlmMasterSlaveSync.c:341-354 | With its slave taken out a board stands alone as master, drops its queue at the next tick, and queues nothing until another snapshot. |
| `Replication.StatusDecidesRole` | alarm/gpnAlmMasterSlaveSync.c:111-176 | A status check makes a board master exactly when it is the main one, and takes on a slave only once a snapshot has been sent. |
| `Replication.LeftoverQueueConvergesExactly` | alarm/gpnAlmMasterSlaveSync.c:500-526 | A queue left over from an earlier slave is replayed over the snapshot, and the result is right exactly when each of its keys last changed to what the master now has. |
| `Replication.LeftoverQueueDiverges` | alarm/gpnAlmMasterSlaveSync.c:210-357 | A run from the start in which such a queue leaves the new slave with an alarm that the master has not. |
| `Replication.KnownSlaveRestartUnnoticed` | alarm/gpnAlmMasterSlaveSync.c:322-325 | A boot message from the slot the master already knows changes nothing, so after such a restart every unqueued alarm of the master is missing on the slave. |
| `Replication.NothingQueuedBeforeSnapshot` | alarm/gpnAlmMasterSlaveSync.c:194-226 | While no slave is in step the queue never grows, and a tick without a slave empties it. |
| `Replication.SnapshotAtSixteenthTick` | alarm/gpnAlmMasterSlaveSync.c:226-242 | The snapshot goes out at exactly the 16th tick after the boot message. |
| `SyncBoard.AlarmBoard.HandleBootState` | alarm/gpnAlmMasterSlaveSync.c:268-339 | The board state after a boot message, on the fields, is the model's. |
| `SyncBoard.AlarmBoard.HandleSlotDelete` | alarm/gpnAlmMasterSlaveSync.c:341-354 | Likewise for a removed board. |
| `SyncBoard.AlarmBoard.MyStatusCheck` | alarm/gpnAlmMasterSlaveSync.c:111-176 | Likewise for the status check of a shelf device. |
| `SyncBoard.AlarmBoard.NewCurrAlarmAdd` | alarm/gpnAlmMasterSlaveSync.c:500-526 | A change is queued, and the queue's age started, exactly when this board is master with a slave in step. |
| `SyncBoard.AlarmBoard.DataSyncProcess` | alarm/gpnAlmMasterSlaveSync.c:210-256 | A tick ends in the model's state, and the messages sent are the whole table or the whole queue, in order and in full batches. |
| `SyncBoard.StoreCurrAlarm` | alarm/gpnAlmMasterSlaveSync.c:1044-1086 | The slave adds exactly the keys of a snapshot message. |
| `SyncBoard.StoreNewCurrAlarm` | alarm/gpnAlmMasterSlaveSync.c:1133-1169 | The slave's loop over a message of changes computes the replay, stopping at an unknown action. |
| `SyncBoard.SnapshotReachesSlave` | alarm/gpnAlmMasterSlaveSync.c:1044-1086 | Storing all snapshot messages gives the slave every key of the master's sheet on top of what it had. |
| `AlignedSheets.SnapshotCopiesAlarms` | alarm/gpnAlmMasterSlaveSync.c:1044-1086 | Right after the snapshot an empty slave's rows are the master's alarms in order. |
| `AlignedSheets.SnapshotTracksExactly` | alarm/gpnAlmMasterSlaveSync.c:1044-1169 | Row by row, later changes keep the slave's alarms the master's, whatever they are, exactly when the two boards number their rows alike at the snapshot. |
| `AlignedSheets.WrongNumberShows` | alarm/gpnAlmMasterSlaveSync.c:1152-1159 | If a row has another number on the slave, clearing its alarm on the master leaves it on the slave. |
| `AlignedSheets.WrongCounterShows` | alarm/gpnAlmMasterSlaveSync.c:1152-1159 | If only the counters differ, the next alarm that comes and goes stays on the slave. |
| `AlignedSheets.AlignedUntilFirstRemoval` | alarm/gpnAlmMasterSlaveSync.c:1044-1086 | Boards that start numbering alike still do at the snapshot exactly when the master has not removed a single row since it started. |
| `RadiusPap.PapPasswordCalc` | aaa/aaa_radius_auth.c:41-92 | The buffer loop produces the chained blocks of section 5.2 of RFC 2865 for the password as far as a byte counts its length, or refuses it. |
| `RadiusPap.UnhideHide` | aaa/aaa_radius_auth.c:73-89 | For every key, authenticator and padded text, the server's unhiding gives the text back. |
| `RadiusPap.HiddenAsInSection52` | aaa/aaa_radius_auth.c:59-89 | Byte by byte as section 5.2 of RFC 2865 has it: under the digest of secret and authenticator, then of secret and the 16 hidden bytes before. |
| `RadiusPap.ServerRecoversPassword` | aaa/aaa_radius_auth.c:41-92 | Every password of up to 128 bytes is recovered, padded with zeros to a multiple of 16. |
| `RadiusPap.RecoversExactlyUpToLimit` | aaa/aaa_radius_auth.c:51-57 | A password is refused or cut short exactly when it is longer than 128 bytes. |
| `RadiusPap.CarriedExactly` | aaa/aaa_radius_auth.c:415-418 | The attribute sent carries the hidden password exactly when it holds no zero byte and a zero follows it. |
| `RadiusPap.HiddenZeroCutsAttribute` | aaa/aaa_radius_auth.c:415-418 | For every key and request, a password that begins with the digest's first byte is sent as an empty attribute. |
| `RadiusAttrs.NewAttrSays` | aaa/aaa_radius.c:338-363 | An added attribute says what was put in, behind its identifier byte for a CHAP password. |
| `RadiusAttrs.AddSort` | aaa/aaa_radius.c:291-323 | The sorted insertion loop (`listnode_add_sort` in `lib/linklist.c`, lines 151 to 190) puts an attribute in front of the first greater type. |
| `RadiusAttrs.InsertKeepsSorted` | aaa/aaa_radius.c:291-323 | A sorted list stays sorted. |
| `RadiusAttrs.InsertIsStable` | aaa/aaa_radius.c:291-323 | Attributes of one type stay in the order in which they were added. |
| `RadiusAttrs.InsertAddsOne` | aaa/aaa_radius.c:291-323 | Adding loses no attribute and doubles none, whatever the list. |
| `RadiusAttrs.FillLength` | aaa/aaa_radius_auth.c:169-201 | The filled length is the length of header and unskipped attributes, modulo 2^16. |
| `RadiusAttrs.Serialise` | aaa/aaa_radius_auth.c:365-397 | The bytes are the header and the unskipped attributes in list order, and the length counted is theirs. |
| `RadiusAttrs.SendCheck` | aaa/aaa_radius_auth.c:434-450 | For every list and mode the check before sending passes exactly when the packet is shorter than 2^16 bytes. |
| `RadiusAttrs.SentKinds` | aaa/aaa_radius_auth.c:169-201 | Of every type a request carries the list's attributes in order, but no CHAP password in PAP mode and no user password in CHAP mode. |
| `RadiusAttrs.StoreAuthInfo` | aaa/aaa_radius_auth.c:402-432 | The list built for a login holds name, hidden password and CHAP answer, in this order. |
| `RadiusAttrs.SentIsHeard` | aaa/aaa_radius_auth.c:365-397 | What a reader finds in a request for each type is what it would find in the list, but for the password of the other mode, of which it finds none. |
| `RadiusAttrs.LoginIsHeard` | aaa/aaa_radius_auth.c:365-432 | So of a login the server gets the name and, by mode, the hidden password and no CHAP answer, or the identifier with the CHAP answer and no hidden password. |
| `RadiusAttrs.HeardIsFound` | aaa/aaa_radius.c:407-473 | What such a reader finds is what the search over the bytes hands back. |
| `RadiusAttrs.AcctSendCheck` | aaa/aaa_radius_acct.c:51-67 | The accounting pair of functions agrees on the same condition, with nothing skipped. |
| `RadiusAttrs.FindAttr` | aaa/aaa_radius.c:407-473 | Over serialised attributes of more than two bytes the search returns the first one of the type, or an error exactly when there is none; of a vendor-specific one it copies two bytes more than the value. |
| `RadiusAttrs.FindPrivate` | aaa/aaa_radius.c:431-458 | With a private type the search answers from the first vendor-specific attribute alone. |
| `RadiusAttrs.PrivateValueOverrun` | aaa/aaa_radius.c:445-449 | What it copies of a private attribute is the value and two bytes more; of the last one in the packet those are the two bytes behind the packet. |
| `RadiusAttrs.FoundExactlyInFirstVendor` | aaa/aaa_radius.c:431-458 | So a private attribute is found exactly when the first vendor-specific attribute holds it. |
| `RadiusAttrs.RelayEap` | aaa/aaa_dot1x.c:845-866 | Every EAP packet is split into ceil(n / 253) attributes of 1 to 253 bytes that, joined in list order, are the packet. |
| `RadiusAttrs.FragmentsIsCeiling` | aaa/aaa_dot1x.c:855-866 | The loop's number of fragments is that ceiling. |
| `TacacsCrypt.Md5Pad` | aaa/tac_plus_crypt.c:47-101 | The pad loop yields the chained stream of section 4.5 of RFC 8907 and covers every length asked for. |
| `TacacsCrypt.PadIsStream` | aaa/tac_plus_crypt.c:47-101 | Block k of the pad is run k of the chain, however long the pad. |
| `TacacsCrypt.PadsAgree` | aaa/tac_plus_crypt.c:47-101 | Pads for different lengths agree as far as the shorter one goes. |
| `TacacsCrypt.Crypt` | aaa/tac_plus_crypt.c:105-126 | In place, the obfuscated body over the given length; the rest of the buffer is untouched. |
| `TacacsCrypt.CryptTwice` | aaa/tac_plus_crypt.c:105-126 | Applied twice under one header it is the identity for every body, encrypted or not. |
| `TacacsCrypt.CryptedPrefix` | aaa/tac_plus_crypt.c:105-126 | The beginning of a longer body is obfuscated as the beginning alone would be. |
| `TacacsCrypt.CryptedByte` | aaa/tac_plus_crypt.c:105-126 | Byte i is combined with byte i mod 16 of run i / 16. |
| `TacacsCrypt.CryptedAsInSection45` | aaa/tac_plus_crypt.c:47-126 | As section 4.5 of RFC 8907 has it, told by the bytes that travel: the first 16 under the digest of session id, secret, version and sequence number, every 16 after under the digest of those and the pad before. |
| `TacacsCrypt.CryptedInTheClear` | aaa/tac_plus_crypt.c:105-126 | Without a secret, or with the unencrypted flag, a body travels as it is. |
| `TacacsAuthor.RecordAuthorInfo` | aaa/tac_plus_author.c:78-148 | The recorded header length, counts and data are those of the request, written at running offsets, or an error beyond 1024 bytes of data. |
| `TacacsAuthor.RecordedExactly` | aaa/tac_plus_author.c:91-107 | A request is recorded exactly when its strings and a byte for each argument fit in 1024 bytes. |
| `TacacsAuthor.SendLengthAgreesExactly` | aaa/tac_plus_author.c:214-228 | The length recomputed from the stored bytes agrees with the header exactly when there are fewer than 256 arguments. |
| `TacacsAuthor.RequestRoundTripExactly` | aaa/tac_plus_author.c:83-148 | A reader of section 6.1 of RFC 8907 learns method, privilege, type and service, and recovers user, port, address and arguments, exactly when there are fewer than 256 arguments. |
| `TacacsAuthor.CheckReply` | aaa/tac_plus_author.c:284-345 | The consistency check accepts exactly the bodies whose length is what their counts say, for at most 100 arguments, whatever memory lies behind the body. |
| `TacacsAuthor.SlicesInsideExactly` | aaa/tac_plus_author.c:388-433 | Of an accepted reply everything taken is inside the body exactly when it has at most 100 arguments. |
| `TacacsAuthor.WellFormedAcceptedExactly` | aaa/tac_plus_author.c:284-345 | A well-formed reply of section 6.2 is accepted exactly when it has at most 100 arguments and 128000 bytes. |
| `TacacsAuthor.ReplyRoundTrip` | aaa/tac_plus_author.c:312-433 | Such a reply is read back in full: status, message, data and arguments. |
| `TacacsAuthor.TakeArgs` | aaa/tac_plus_author.c:397-433 | The loop with two moving pointers takes the first 100 arguments of every accepted reply from where the parser's own counts put them, in the body or behind it; of a reply of at most 100 arguments that is just what the reply says. |
| `TacacsAuthor.RejoinedExactly` | aaa/tac_plus_attrib.c:32-79 | An argument split and joined again comes back byte for byte exactly when it has a separator and no zero byte; a bare name comes back with `=` added, unless it has 255 bytes. |
| `TacacsAuthor.SplitExactly` | aaa/tac_plus_author.c:402-428 | An argument is split at its first `=` if it has one, else at its first `*`, and is a bare name otherwise. |
| `AlarmAttributes.MasksAreOverlay` | alarm/gpnAlmDataStructApi.c:670-779 | After any sequence of settings of sub-types and ports, what is read for every port, sub-type and column is the port's setting where it has one, else the sub-type's. |
| `AlarmAttributes.PortSetReadsBack` | alarm/gpnAlmCfg.c:863-1225 | A port setting reads back, cancelling it shows the sub-type's again, and a value that is neither changes nothing. |
| `AlarmAttributes.PortSetLeavesOthers` | alarm/gpnAlmCfg.c:863-1225 | No other sub-type and no other column of the port is affected, given a bit and a record of its own for every sub-type. |
| `AlarmAttributes.TypeSetReads` | alarm/gpnAlmCfg.c:496-855 | A sub-type setting is read on every port without one of its own, and nothing else changes. |
| `AlarmAttributes.CancelledRankRecord` | alarm/gpnAlmCfg.c:904-915 | A cancelled rank reads as the sub-type's, but the port's record is left at rank 0. |
| `AlarmAttributes.RankReachesRecords` | alarm/gpnAlmCfg.c:496-588 | A sub-type's new rank goes into the records of exactly those ports that have not set it themselves. |
| `AlarmAttributes.SwitchBits` | alarm/gpnAlmCfg.c:936-1171 | A switch set on a port sets its base bit, and its value bit exactly when it is on for report and record, off for screen and filter. |
| `AlarmAttributes.CancelledSwitchBit` | alarm/gpnAlmCfg.c:936-1171 | A cancelled switch reads as the sub-type's and leaves its value bit cleared, except a screen, whose bit stays. |
| `AlarmAttributes.RequestLeavesRest` | alarm/gpnAlmDataStructApi.c:1342-1455 | A request leaves every column it does not select, and every other port and sub-type, as it was. |
| `AlarmAttributes.PortRequestReads` | alarm/gpnAlmDataStructApi.c:1379-1453 | Of a request for a port, a selected column that is marked then reads as the value asked for if the column takes it, one that is not marked as the sub-type's own again; reverse mode is on or off as asked. |
| `AlarmAttributes.TypeRequestReads` | alarm/gpnAlmDataStructApi.c:1353-1377 | Of a request for a sub-type, a value that the selected column takes becomes its own and is read on every port that has not set that column; a port that has keeps its own. |
| `AlarmAttributes.AlarmConfig.CfgSubAlmRank` | alarm/gpnAlmCfg.c:496-588 | Stores the rank and carries it into the records of ports that do not override it, or refuses it; which of the two is stated both ways. |
| `AlarmAttributes.AlarmConfig.CfgPortOfSubAlmSwitch` | alarm/gpnAlmCfg.c:936-1168 | The four two-valued columns of a port, each with its own polarity, end in the model's masks. |
| `AlarmAttributes.AlarmConfig.AlmAttribModify` | alarm/gpnAlmDataStructApi.c:1342-1455 | A request is the sequence of its selected columns' operations, each set or cancelled by its mark, and answers whether the last of them was accepted. |
| `AlarmAttributes.AlarmConfig.PortAlmAttributeGet` | alarm/gpnAlmDataStructApi.c:808-845 | Answers the six values the model reads, and marks exactly the columns that are the port's own. |
| `AlarmRank.StepAgreesExactly` | alarm/gpnAlmCfg.c:1305-1393 | The cached rank goes on being the greatest rank with a non-zero count through every call except the 2^32nd active alarm of the highest rank. |
| `AlarmRank.RecomputeRepairs` | alarm/gpnAlmCfg.c:1350-1376 | Any count that leaves or reaches zero puts the cached rank right. |
| `AlarmRank.RunAgrees` | alarm/gpnAlmCfg.c:1305-1393 | Over every sequence of fewer than 2^32 calls the counts are the alarms raised and not cleared, and the cached rank is the greatest with one. |
| `AlarmRank.RankSummary.AlmRankSummary` | alarm/gpnAlmCfg.c:1305-1393 | In place, that step. |
| `AlarmReverse.MarkedPage` | alarm/gpnAlmCfg.c:311-346 | Each page gone through has its old marks and exactly the inverted bits looked at. |
| `AlarmReverse.MarkedGrowsByFresh` | alarm/gpnAlmCfg.c:338-343 | The marks grow by exactly as many bits as the counter does. |
| `AlarmReverse.CountFollowsMarks` | alarm/gpnAlmCfg.c:338-343 | A counter that counts the marks still does afterwards. |
| `AlarmReverse.MarksValidBitsExactly` | alarm/gpnAlmCfg.c:318-335 | Every page gets exactly its inverted valid bits, whatever the masks, if and only if the number of sub-types is one page or no multiple of a page; otherwise the last page is passed over. |
| `AlarmReverse.AlmScanPort.MarkInverted` | alarm/gpnAlmCfg.c:310-346 | The nested page and bit loops on one port end in those masks and that counter. |
| `AlarmReverse.ReverModeChgType` | alarm/gpnAlmCfg.c:304-350 | Every port in use of a scan type is marked so, and no other port. |

## Left out

- Sockets, inter-process messages, packet sending, commands, printing, SNMP marshalling, LEDs, buzzers, clocks and debug files: input and output only.
- Privilege levels, host addresses, terminals and times carried along with a login: copied, never decided on.
- The local service-type check: the password branch behind it overwrites its verdict.
- The log of past sessions and the functions that count users: neither decides anything about a session.
- Matching of answers by packet id and session id: an answer event names the login or session it is matched to.
- Equality of the online id bitmap and the online table: a login whose terminal does not acknowledge leaves its id allocated; the model keeps that and claims only that ids in the table are allocated and distinct.
- AaaServer.Server.OnlineDel: an id of 0, which the allocator gives when it has run out, is released as a no-op where the code indexes outside its bitmap.
- IdAllocator.IdBuffer.Free: requires a number that has a bit; for another one the code reads and writes outside its bitmap.
- AaaServer.Server.AdmitLogin: allocates from a set of numbers, which is what IdBuffer is proved to implement with its bitmap.
- Failing memory allocation: every allocation succeeds.
- Snapshot.CopyTable: requires that no row to be copied uses the reserved index, since the loop otherwise never ends, and that rows are stored under the index they carry, as the code that adds them does.
- Snapshot.CurrTableSync: requires the same, as it runs that loop.
- SyncBoard.AlarmBoard.DataSyncProcess: likewise.
- Replication.SteadyConverges: speaks of keys, not of level, count and times, which rank changes and counter resets alter on the master without queueing anything.
- History and event tables, which are copied and queued by the same loops as the current alarms.
- Byte sizes of the messages that carry changes: the code sizes their batches by another record than the one it copies, so changes are modelled as records.
- AlignedSheets.SnapshotTracksExactly: row numbers are unbounded; the 32-bit counter is assumed not to have wrapped.
- RadiusPap.CarriedExactly: what lies behind the hidden password in the caller's buffer is a parameter, of at least one byte.
- How a CHAP answer is calculated: it is a parameter of the list that is sent.
- RadiusAttrs.FindAttr: requires attributes of at least two bytes that add up to the packet; with a length of 0 the loop does not end. What lies behind the packet in the receive buffer is a parameter, of at least two bytes.
- RadiusAttrs.FindPrivate: requires vendor-specific values to be a vendor number followed by whole attributes.
- TacacsAuthor.RecordAuthorInfo: user, port and address are shorter than 256 bytes, as the fields they are copied from.
- The `priv-lvl` argument's conversion to a level.
- AlarmAttributes.MasksAreOverlay: for ports and sub-types that exist; requests for others change nothing. The masks of the scan type and the marks that make the scan look again are not modelled.
- Per-port attribute get-next, whose successor search is special-cased to one alarm type.
- AlarmRank.RankSummary.AlmRankSummary: ranks 1 to 4 only; the code's own check of the rank can never fail.
- AlarmReverse.ReverModeChgType: one scan type; the function repeats it for every scan type.
- DataSheet.Sheet.GetNextLine: the neighbour of a list node is found by its position, where the code follows a pointer.
- Words.BitsOfSet: bitmaps and masks are kept as their bits; these lemmas tie that to the machine operations.
