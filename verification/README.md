# Courts, passes and sign-in: a verified model

RallyUp's server runs club court boards. A club has courts; a court has at most
one timed session of 2 or 4 day passes, a first-come queue of 2- or 4-groups
with dense positions, and a timed closure window. Kiosk actions, an expiry
engine and club admins all change this state in database transactions that
follow a lock order: club row, username, courts ascending, then one sorted batch
of passes. Around the courts sit the front desk, rotating refresh tokens,
request limiters, player statistics, a board scanner and player groups.

This project models those parts in Dafny and proves what they promise. The
court state is modelled three times, from the specification down:

- `CourtModel` is one atomic step machine. `CourtRules` says exactly when each
  action goes through; `CourtInvariant`, `QueueFairness`, `BoardEta`,
  `RosterConservation`, `ClosureWatch` and `EngineCatchUp` prove properties of
  its steps and runs.
- `CourtTables` is the tables, changed row by row as the transactions change
  them. Each transaction is proved to be exactly the atomic step, refusals
  included. `Renumber` is the queue renumbering, down to single row updates.
- `Interleaving` is any number of transactions interleaved statement by
  statement under the locks. Its commits and refusals are those of the atomic
  machine, and there is no deadlock among the explicit locks it models.
  `LockScope` says that each locks and reads just what it needs.

The other modules pair each stateful component (a class that changes the same
fields) with a specification function and theorems over its runs: `PassDesk`
(credential resolution), `MemberDesk` and `DeskHistory` (walk-ins, members,
check-in), `RefreshTokens` and `TokenLife`, `SlidingWindow` and `RateLimiter`,
`Streaks`, `BoardMatcher` and `SuggestionFields`, and `Groups`, `GroupTables`
and `GroupHistory`. `Wrappers` holds Option and Result.

`dafny verify dfyconfig.toml` checks the whole project.

## Where the code and its own description differ

The model follows the code.

- `src/tokens.rs:3-6` says presenting an already-used token revokes its family.
  It does so exactly when the row is still stored, unrevoked and unexpired and
  the user is active (`RefreshTokens.ReplayKillsExactlyWhen` over runs, with two
  concrete runs that go unnoticed).
- `src/routes/groups.rs:404-405` repoints a leaver to their most recently joined
  other group. When a sole member's leave dissolves the group, the foreign key
  has already cleared the active group, so nothing is repointed
  (`Groups.LeaveRepointsExactlyWhen`, and the run in
  `Groups.SoleMemberLeaveClearsActive`).
- `src/routes/reservations.rs:491-493` narrows a queue position to a signed
  16-bit number before clamping it, which moves the 32768th name to the front
  (`BoardMatcher.PositionSurvivesExactlyWhen`).
- `src/net.rs:79-80` counts in 32 bits; with wrap-around arithmetic a burst of
  2^32 checks inside one window is allowed again
  (`RateLimiter.BurstHeldToMaxExactlyWhen`, `RateLimiter.TwiceMaxExactlyWhen`).
- `src/courts.rs:1530-1536` looks back 25 hours after a start; a window start is
  missed exactly when the first pass after a restart is at least that late
  (`ClosureWatch.FirstPassScans`, and the run in
  `ClosureWatch.LateRestartMissesStart`).

## Reading the theorems

- Instants are whole numbers of one clock: milliseconds for courts and request
  limits, microseconds for tokens, days for passes and statistics. A
  transaction's NOW() is the instant it is given.
- `Step(club, request, reads)` gives a transaction everything else it read: its
  clock, the club's settings, and the set of passes it found usable.
- A pass is a number, a group a set of passes; queue position p is index p - 1.
- `Inv`, `Tidy`, `WellFormed`, `Reserved` and `Sound` are the invariants;
  `Legal`, `Forward` and `ProperCalls` say what a run is.

## Model

| member | source | states |
|---|---|---|
| `CourtInvariant.PlacementErrorsComplete` | src/courts.rs:273-330 | a party passes the double-use checks exactly when none of its passes sits in any session or queue group of the club |
| `CourtInvariant.MissingErrorsComplete` | src/courts.rs:637-651 | a leave reports no absent player exactly when every leaver is where they claim to be |
| `CourtInvariant.LeaveRemainder` | src/courts.rs:655 | leavers are a subset of what they leave, so the unsigned subtraction cannot wrap and the remainder is the size of what stays |
| `CourtInvariant.PromoteKeepsTidy` | src/courts.rs:1204-1298 | promotion keeps group sizes 2 or 4 and one place per pass, and places nobody new |
| `CourtInvariant.LeaveCourtKeepsTidy` | src/courts.rs:595-720 | a committed court leave keeps sizes and uniqueness and places nobody new |
| `CourtInvariant.LeaveQueueKeepsTidy` | src/courts.rs:726-805 | a committed queue leave keeps sizes and uniqueness and places nobody new |
| `CourtInvariant.ActKeepsTidy` | src/courts.rs:406-805 | every court action keeps its court tidy and places only its own party |
| `CourtInvariant.StepKeepsWellFormed` | src/courts.rs:406-1505 | every transaction, with any reads, keeps: one place per pass club-wide, groups of exactly 2 or 4, court rows exactly 1..count, nothing on a missing court |
| `CourtInvariant.RunKeepsWellFormed` | src/courts.rs:406-1505 | the invariant holds after any sequence of transactions |
| `CourtInvariant.EveryRunIsSafe` | src/courts.rs:406-1505 | from a new club, any run leaves two places with a common pass equal, every session and queue group of size 2 or 4, and rows exactly 1..count |
| `CourtInvariant.LeaveNeverSplitsOddly` | src/courts.rs:655-661 | the refusal "never left with 1 or 3 players" is unreachable from a well formed club, for court and queue leaves |
| `CourtRules.TakeExactlyWhen` | src/courts.rs:406-462 | a court is taken exactly when 2 or 4 players ask, the court is open and free, and no pass of the party has an error or a place anywhere |
| `CourtRules.JoinExactlyWhen` | src/courts.rs:466-502 | a game is joined exactly by 2 players, on an open court whose running game has 2 players and time left, without errors or places |
| `CourtRules.EnqueueExactlyWhen` | src/courts.rs:510-570 | a group queues exactly behind 4 players on an open court with fewer than the depth waiting, without errors or places; the position told is the last one, and it is theirs |
| `CourtRules.CourtRefusals` | src/courts.rs:357-362 | which court-level refusal an arriving party gets, each exactly when: closed (the window excludes its end), free, finishing up, in play, no half game, open spots, queue full |
| `CourtRules.PlacementErrorsExplain` | src/courts.rs:288-330 | a placement error is reported exactly for a pass of the party that waits or plays, under its holder's name, with the code and the court of that place |
| `CourtRules.LeaveCourtExactlyWhen` | src/courts.rs:595-720 | leavers go exactly when all play in the court's running game, closed or not; the game ends exactly when all its players leave, and someone is promoted exactly when the court is open and a usable group waits |
| `CourtRules.MissingErrorsExplain` | src/courts.rs:637-647 | an absence is reported exactly for a leaver not present, under their name, with the court |
| `CourtRules.LeaveRefusals` | src/courts.rs:618-648 | which refusal a leaving party gets: no game, finishing up, the absent ones, or different groups |
| `CourtRules.LeaveQueueExactlyWhen` | src/courts.rs:740-805 | leavers go exactly when all wait in one group of that queue; the group is removed exactly when all its members leave |
| `CourtRules.NoRowIsEmptyCourt` | src/courts.rs:615-623 | acting on a court number without a row: leaves and expiry are refused as on an empty court, everything else as no such court, a bad window first |
| `CourtRules.ExpireExactlyWhen` | src/courts.rs:1352-1403 | at timer zero the game is extended exactly when extension is on, the court open, every player usable and no waiting group usable; a successor plays exactly when the court is open and a usable group waits; no unusable pass stays on court |
| `CourtRules.QueueGrowsBehindFour` | src/courts.rs:526-546 | a queue gets longer only by one group, behind four players, within the depth read |
| `CourtRules.QueueWithinDepth` | src/courts.rs:533-546 | over any run from a new club at one depth no queue ever exceeds it |
| `CourtRules.NeverExtendedWhenOff` | src/courts.rs:1384-1393 | over any run from a new club with extension off no session is ever extended |
| `CourtRules.CloseExactlyWhen` | src/courts.rs:1040-1052 | a closure is stored exactly when its window is not empty and starts at most five minutes ago; it leaves the game alone and reports the groups it released |
| `CourtRules.ClosureLastsExactly` | src/courts.rs:357-358 | whatever happens after a closure is stored, short of another, a reopening or the court's removal, players are told the court is closed exactly from its start until just before its end |
| `CourtRules.ReopenLasts` | src/routes/clubs.rs:1013-1043 | a reopened court turns nobody away as closed until closed again; its game and queue are untouched |
| `CourtRules.ResizeExactlyWhen` | src/courts.rs:1448-1505 | resizing is refused exactly while a removed court has a game; courts that stay are untouched, new ones are open and empty |
| `RosterConservation.PromotionKeepsRoster` | src/courts.rs:1214-1298 | after promotion exactly the passes that waited and were not in a dropped group are in line or on court |
| `RosterConservation.ActConservesRoster` | src/courts.rs:406-1440 | conservation: after any action a court holds exactly the passes it held plus the action's own party, less its leavers, the session it ended and the groups it dropped or released |
| `RosterConservation.ActMovesDeadline` | src/courts.rs:1280-1402 | a new session runs from now for a full session, only an extension moves a running deadline (by one session, same players, and only when no waiting group is usable), everything else leaves it |
| `QueueFairness.PromotionTakesFirstUsable` | src/courts.rs:1214-1250 | promotion is drop-while-unusable: it removes exactly the unusable prefix, reports its length, promotes the first fully usable group iff the court is open and one exists, and keeps the order of the rest |
| `QueueFairness.IdleOnlyWithEmptyQueue` | src/courts.rs:1317-1406 | when a session ends on an open court and the court is left idle, the queue is empty and nobody who waited was usable |
| `QueueFairness.PromoteMovesLine` | src/courts.rs:1214-1298 | whoever still waits after promotion has moved up by exactly the dropped groups and the promoted one |
| `QueueFairness.ActMovesLine` | src/courts.rs:510-805 | no action raises a waiting pass's position, and one that ends a session on an open court strictly lowers it |
| `QueueFairness.EndedSessionServesLine` | src/courts.rs:679-720 | when a session ends on an open court every waiting group is dropped for an unusable pass, promoted with only unusable groups ahead of it, or gets a strictly smaller position |
| `QueueFairness.BoundedWaiting` | src/courts.rs:1317-1406 | over any run a waiting pass's position plus the sessions ended meanwhile on its open court never exceed its starting position |
| `QueueFairness.LatestStartShrinks` | src/courts.rs:1352-1403 | no action moves the latest possible start of a usable waiting group later: extension never happens in front of it and nobody is inserted ahead |
| `QueueFairness.LatestStartOverRun` | src/courts.rs:1352-1403 | the latest possible start never moves later over a whole steady run |
| `QueueFairness.EtaRounding` | src/courts.rs:1641-1643 | whoever still waits by the exact bound waits within 30 seconds of the rounded minutes on the board |
| `QueueFairness.EtaIsUpperBound` | src/courts.rs:1641-1643 | a group shown at position p is on court no later than now + seconds_left + (p-1) sessions + p engine delays, and within 30 seconds plus p delays of the minutes shown |
| `BoardEta.EtaIsNearestMinute` | src/courts.rs:1605-1643 | 60 times the figure shown is within 30 of the seconds left plus (p-1) sessions, on both sides |
| `BoardEta.OnTimeCall` | src/courts.rs:1352-1403 | one undisturbed call keeps a waiting pass due at the same instant, and puts it on court only at that instant |
| `BoardEta.EtaIsAttained` | src/courts.rs:1641-1643 | over any run in which sessions end on the dot, no group leaves and those ahead are usable, the group at position p goes on court exactly (p-1) sessions after the running one ends, no earlier and no later, within half a minute and a dropped second of the figure |
| `BoardEta.PunctualEngine` | src/courts.rs:1317-1406 | such runs exist for every open court: a punctual engine puts the first n usable groups on court one after the other, the n-th when due |
| `ClosureWatch.ClosedActDrains` | src/courts.rs:416-419 | an action on a closed court never grows its players or queue, never moves its timer, and takes a player off only by their own leave or at timer zero |
| `ClosureWatch.ClosedCourtOnlyDrains` | src/routes/clubs.rs:917-1005 | the same over any run during which the court is found closed |
| `ClosureWatch.MarkStaysBehind` | src/courts.rs:1518-1550 | until a pass at or after an instant succeeds the watermark stays before that instant, whatever passes fail |
| `ClosureWatch.MarkSurvivesExactlyWhen` | src/courts.rs:1512-1536 | the engine has a watermark exactly if a pass succeeded and no restart came since |
| `ClosureWatch.FirstPassScans` | src/courts.rs:1518-1550 | a window start stored in time is scanned by the first successful pass after it, exactly unless the engine restarted and that pass is 25 hours or more late |
| `ClosureWatch.RescanChangesNothing` | src/courts.rs:1093-1129 | releasing the same courts twice in a row changes nothing more the second time |
| `ClosureWatch.LaterRescanChangesNothing` | src/courts.rs:1530-1536 | scanning released courts again later changes nothing, whatever transactions, passes, failures and restarts lie in between, while they stay closed |
| `ClosureWatch.ReleasedQueueStaysEmpty` | src/courts.rs:1105-1122 | once empty, the queue stays empty as long as transactions find the court closed |
| `ClosureWatch.MarkBehindClock` | src/courts.rs:1059-1061 | with a forward clock the watermark never runs ahead of it |
| `ClosureWatch.ClosureReleasesQueue` | src/courts.rs:1093-1129 | a future-dated closure releases its queue at the first successful pass and it stays empty until the closure ends |
| `ClosureWatch.LateRestartMissesStart` | src/courts.rs:1530-1536 | the 25-hour condition is needed: a run from a new club (take, enqueue, future closure, the group leaving as it starts, restart, a pass 25 hours late) ends with a group still waiting on a closed court without a session |
| `Renumber.RankAfterRemoval` | src/courts.rs:1428-1436 | the rank of a surviving negated row is its old position, one less behind the removed row |
| `Renumber.RankRestoresOrder` | src/courts.rs:1410-1440 | negate-then-rank after a deletion gives dense positions 1..N-1 in the original order |
| `Renumber.NegationNeverCollides` | src/courts.rs:1421-1427 | under every order of row updates the negation never puts two rows on one position |
| `Renumber.RankingNeverCollides` | src/courts.rs:1428-1438 | under every order of row updates the ranking never puts two rows on one position |
| `Renumber.DirectShiftCollides` | src/courts.rs:1408-1409 | writing the new positions without negating first does collide, whenever two groups stand behind the removed one |
| `EngineCatchUp.ExpiryCutsBacklog` | src/courts.rs:1352-1403 | resolving a due court cuts its backlog: an extension by a whole session, anything else to zero |
| `EngineCatchUp.NoBacklogNothingDue` | src/courts.rs:1148-1155 | the total backlog is zero exactly when no session is due |
| `EngineCatchUp.PassCutsBacklog` | src/courts.rs:1148-1178 | an engine pass over the scanned courts in any order never raises the backlog, lowers it if any was due, and touches no other court |
| `EngineCatchUp.DeadlinesOnSchedule` | src/courts.rs:1384-1393 | ends_at == started_at + (extensions + 1) sessions in every run with a constant setting |
| `CourtTables.ClubTables.TakeCourt` | src/courts.rs:406-462 | the row updates are exactly the atomic take, or the same refusal; the one-active-session index is never violated |
| `CourtTables.ClubTables.JoinCourt` | src/courts.rs:466-502 | the row updates are exactly the atomic join, or the same refusal |
| `CourtTables.ClubTables.QueueCourt` | src/courts.rs:510-570 | the row updates are exactly the atomic enqueue at max position + 1, or the same refusal |
| `CourtTables.ClubTables.CheckPlacement` | src/courts.rs:288-330 | the per-pass lookups report the placement errors of the whole party in order |
| `CourtTables.ClubTables.CheckPresent` | src/courts.rs:637-651 | the presence loop reports exactly the absent leavers in order |
| `CourtTables.ClubTables.LeaveCourt` | src/courts.rs:595-720 | the row updates are exactly the atomic court leave with its immediate promotion, or the same refusal |
| `CourtTables.ClubTables.LeaveQueue` | src/courts.rs:726-805 | the row updates are exactly the atomic queue leave, or the same refusal |
| `CourtTables.ClubTables.DropUnusable` | src/courts.rs:1216-1248 | the mutable walk over the queue head stops at the first usable group with the right count and the suffix left |
| `CourtTables.ClubTables.PromoteHead` | src/courts.rs:1204-1298 | promote_next on rows equals the promotion function, including session replacement |
| `CourtTables.ClubTables.InsertSession` | src/courts.rs:1280-1292 | inserting a session keeps the tables linked to the club; its precondition is the partial unique index, which every caller meets, so the lost-race answers are unreachable |
| `CourtTables.ClubTables.RemoveQueueGroup` | src/courts.rs:1410-1440 | delete, negate, rank on the queue rows removes exactly that group from the queue |
| `CourtTables.ClubTables.ExpireCourt` | src/courts.rs:1317-1406 | the row updates are exactly the atomic expiry: promote, else extend, else clear |
| `CourtTables.ClubTables.CloseCourt` | src/routes/clubs.rs:917-1005 | the row updates are exactly the atomic close, which checks the window before the court and releases the queue iff the window has started |
| `CourtTables.ClubTables.ReopenCourt` | src/routes/clubs.rs:1013-1043 | the row updates are exactly the atomic reopen |
| `CourtTables.ClubTables.ReleaseCourt` | src/courts.rs:1105-1126 | one court of a boundary pass re-checks under the lock and releases its queue |
| `CourtTables.ClubTables.ResizeCourts` | src/courts.rs:1448-1505 | the row updates are exactly the atomic resize; shrinking is refused exactly while a removed court has a game |
| `CourtTables.ClubTables.EngineTick` | src/courts.rs:1148-1178 | a tick is the run of expiries of the scanned courts and scans every overdue court |
| `CourtTables.ClubTables.CatchUp` | src/courts.rs:1148-1178 | repeated ticks at one instant terminate, within the initial backlog, with nothing overdue |
| `Interleaving.CommitIsAtomicStep` | src/courts.rs:129-187 | the writes a committing transaction makes are the atomic step on the club just before the commit, with the validity it read |
| `Interleaving.BatchFootprint` | src/courts.rs:1254-1267 | an action places no pass outside the one batch of credential locks it took |
| `Interleaving.UnlockedPassStays` | src/courts.rs:281-288 | a commit places no pass whose credential lock it does not hold |
| `Interleaving.CourtCommitKeepsOther` | src/courts.rs:129-187 | a commit on one court leaves true everything any other transaction has learned |
| `Interleaving.ResizeCommitKeepsOther` | src/courts.rs:1459-1480 | a resize commit leaves true everything any other transaction has learned |
| `Interleaving.ActionKeepsInv` | src/courts.rs:129-330 | every lock, read, check, commit and abort of every transaction keeps the invariant |
| `Interleaving.InterleavingIsAtomicRun` | src/courts.rs:129-330 | refinement: after any statement-by-statement interleaving of any transactions the club is the one the committed transactions would give run atomically in commit order, and each of those steps commits |
| `Interleaving.DoomIsAtomicRefusal` | src/courts.rs:206-330 | whenever a statement makes a court or resize transaction give up, the atomic step on the club at that moment refuses too, for the same reason when it was decided from the transaction's own reads |
| `Interleaving.InterleavedRefusalIsAtomic` | src/courts.rs:129-330 | the other half of the refinement: every refusal in any interleaved run is the refusal of the atomic machine after the commits so far |
| `Interleaving.WaitPathAscends` | src/courts.rs:150-155 | along any chain of waits the wanted lock strictly rises in the order club row, username, courts, passes |
| `Interleaving.NoWaitCycle` | src/courts.rs:150-187 | no deadlock among the explicit locks: no chain of waits in a reachable state returns to its start |
| `Interleaving.UnblockedCanStep` | src/courts.rs:206-330 | a transaction that waits for no lock always has a next statement, commit or rollback |
| `Interleaving.NeverStuck` | src/routes/clubs.rs:1298-1336 | under the explicit locks, in every reachable state with transactions in flight one of them can step |
| `LockScope.BatchIsExact` | src/courts.rs:1254-1267 | the one batch of credential locks is exactly the action's party and whoever it puts on court |
| `LockScope.DecisionNeedsOnlyWhatWasRead` | src/courts.rs:1216-1248 | what a transaction decides does not depend on any pass whose validity it has not read |
| `LockScope.CommitWithTrueValidity` | src/courts.rs:129-187 | a commit whose reads of validity still hold is the atomic step with the passes usable at that moment |
| `PassDesk.SelectNewest` | src/courts.rs:230-241 | the newest pass of a name, or proof that the name has none |
| `PassDesk.ResolveOne` | src/courts.rs:230-263 | existence, revocation, day validity per mode and password, in the order the errors are reported |
| `PassDesk.SeenDecidesRepeat` | src/courts.rs:224-228 | remembering only first mentions detects every case-insensitive repeat |
| `PassDesk.ResolvePlayers` | src/courts.rs:206-263 | the loop accepts and refuses exactly as specified per player, accepted passes are distinct, and accepted plus refused equals submitted |
| `PassDesk.PlayNeedsTodaysPass` | src/courts.rs:84-92 | for play a first mention is accepted exactly when a usable pass of today bears its name and password |
| `PassDesk.LeaveNeedsThePassword` | src/courts.rs:189-201 | for leaving a first mention is accepted exactly when the newest pass of its name is unrevoked and bears the password, whatever its day |
| `PassDesk.RefusalsExplain` | src/courts.rs:224-262 | each refusal, exactly when: repeated, unknown name, revoked, of another day (play only), wrong password |
| `PassDesk.TrimStripsBlanks` | src/courts.rs:218 | trimming removes exactly the blanks at both ends |
| `PassDesk.FoldIgnoresCase` | src/courts.rs:224 | two names are the same exactly when they differ in ASCII case only |
| `PassDesk.PlayersCanAlwaysLeave` | src/courts.rs:189-201 | a pass accepted for play is accepted for leaving on any later day, until revoked or replaced by a newer one |
| `MemberDesk.Desk.WalkinCreate` | src/courts.rs:873-920 | the statements are exactly the atomic walk-in signup, unique violations included |
| `MemberDesk.Desk.AddMember` | src/routes/clubs.rs:1158-1245 | the statements are exactly the atomic member-add: trimming and lower-casing, the three input checks, then the three conflicts, in order |
| `MemberDesk.Desk.RemoveMember` | src/routes/clubs.rs:1247-1290 | the statements remove the member and revoke exactly today's pass |
| `MemberDesk.Desk.RevokePass` | src/routes/clubs.rs:1340-1368 | revoking a credential changes that pass only |
| `MemberDesk.Desk.MemberCheckin` | src/courts.rs:953-1034 | the find-or-create loop with one retry is the atomic check-in and never reaches RowNotFound |
| `MemberDesk.CallKeepsReserved` | src/courts.rs:873-920 | no call lets another pass, dated on or after an active member's add date, bear that member's name |
| `MemberDesk.NamesStayReserved` | src/routes/clubs.rs:1185-1232 | the reservation holds over every run with forward dates |
| `MemberDesk.CheckInNeverUsernameHeld` | src/courts.rs:1008-1025 | no run ever answers UsernameHeld to an active member |
| `MemberDesk.SamePasswordAllDay` | src/courts.rs:970-995 | all successful check-ins of one member on one day show the same name and password |
| `MemberDesk.WalkinOpensCourt` | src/courts.rs:823-920 | the availability probe agrees with signup, and a slip just handed out resolves for play today |
| `DeskHistory.PassRevokedExactlyWhen` | src/routes/clubs.rs:1262-1285 | a pass never changes but for being revoked: by name, or with its member's removal on its day |
| `DeskHistory.MemberRemovedExactlyWhen` | src/routes/clubs.rs:1247-1261 | a member never changes but for being removed |
| `DeskHistory.SignUpExactlyWhen` | src/courts.rs:811-920 | a walk-in signs up exactly when the name is 3 to 20 small letters, digits and _ . -, has no pass today and is no active member's; the new pass is theirs for today |
| `DeskHistory.AddedExactlyWhen` | src/routes/clubs.rs:1158-1245 | a member is added exactly when card, name and display name are fit and neither card nor name is in use, and is what was typed, cleaned |
| `DeskHistory.CheckInAnswers` | src/courts.rs:953-1034 | over any run a scan answers unknown exactly for a card no active member bears, revoked exactly if today's pass was revoked, and otherwise checks the member in |
| `DeskHistory.RevokedPassStaysOut` | src/routes/clubs.rs:1340-1368 | over any run a revoked pass is never accepted again, by anyone, on any day, for play or for leaving |
| `DeskHistory.RemovedMemberStaysOut` | src/routes/clubs.rs:1247-1290 | over any run a removed member is never checked in again |
| `DeskHistory.RemovedMembersPassStaysOut` | src/routes/clubs.rs:1262-1285 | nor is the pass they held that day ever accepted again |
| `DeskHistory.CheckInOpensCourt` | src/courts.rs:953-1034 | the slip a check-in shows resolves for play that day |
| `RefreshTokens.TokenTable.Issue` | src/tokens.rs:48-66 | a fresh unused token in a new or the given family, valid for 90 days |
| `RefreshTokens.TokenTable.Rotate` | src/tokens.rs:81-128 | the exchange, grace, reuse and rejection branches; with atomic calls the lost-claim branch is unreachable |
| `RefreshTokens.TokenTable.RevokeFamily` | src/tokens.rs:130-136 | revokes exactly the family's unrevoked tokens |
| `RefreshTokens.TokenTable.Prune` | src/jobs.rs:93-102 | deletes exactly the rows expired, revoked or used over seven days ago |
| `RefreshTokens.CallEvolves` | src/tokens.rs:48-155 | no call changes a stored token's user, family, expiry, first use or revocation, and a new token is fresh and joins only a live token's family |
| `RefreshTokens.FamilyHasOneUser` | src/tokens.rs:81-136 | tokens of one family belong to one user, even if never stored together |
| `RefreshTokens.ExchangesWithinGrace` | src/tokens.rs:100-107 | all successful exchanges of one token lie within the grace period of each other and only the first is not a retry |
| `RefreshTokens.ReuseEndsTheFamily` | src/tokens.rs:108-111 | after a replay past grace every stored token of the family is revoked and no token that ever belonged to it is exchanged again, pruning included |
| `RefreshTokens.ReplayKillsExactlyWhen` | src/tokens.rs:1-6 | over any run, presenting an already-used token past grace kills its living family exactly when its row is still stored, unrevoked and unexpired and its user active |
| `RefreshTokens.SignedOutReplayGoesUnnoticed` | src/tokens.rs:96-99 | a replayed token that was signed out leaves its successor exchangeable |
| `RefreshTokens.PrunedReplayGoesUnnoticed` | src/jobs.rs:93-102 | a week after its use a token is forgotten and its replay leaves the family alive |
| `RefreshTokens.UnusedTokenStaysGood` | src/tokens.rs:81-128 | an unused token still exchanges at any time before it expires if every call in between spares it |
| `TokenLife.ExchangeSucceedsExactlyWhen` | src/tokens.rs:81-128 | over any run an exchange succeeds exactly when the row is stored, unrevoked, unexpired, its user active, and it is unused or within grace; past grace it ends the family; otherwise it is rejected |
| `TokenLife.ExchangeMints` | src/tokens.rs:102-128 | a success mints exactly one unused 90-day token in the same family for the same user and marks the old one used |
| `TokenLife.LoginStartsFamily` | src/tokens.rs:48-66 | a login mints one token in a family no earlier token ever had |
| `TokenLife.TokenExpires` | src/tokens.rs:96-99 | from ninety days after it was minted a token is rejected by every exchange |
| `TokenLife.TokenLastsExactly` | src/tokens.rs:20 | a token every call in between spares is good for exactly ninety days |
| `TokenLife.SignedOutStaysOut` | src/tokens.rs:138-145 | a signed-out token, used or not, is never exchanged again |
| `TokenLife.RevokedUserStaysOut` | src/tokens.rs:147-154 | after a user's tokens are revoked, none that was theirs by then is ever exchanged again |
| `TokenLife.ReplayWithinAWeekIsNoticed` | src/jobs.rs:93-102 | within a week of its use a token is not forgotten whatever is pruned, so its replay past grace ends the family unless it was revoked |
| `TokenLife.PruneForgets` | src/jobs.rs:93-102 | a token used over a week before a pruning is gone for good |
| `SlidingWindow.PruningIsInvisible` | src/otp.rs:77-82 | pruning at an earlier cutoff never changes a later count |
| `SlidingWindow.NextFreeInstant` | src/otp.rs:83-90 | a full window admits again exactly from its oldest entry plus a window on |
| `SlidingWindow.Limiter.Request` | src/otp.rs:67-94 | admits iff fewer than max admissions lie in the preceding window of the unpruned log, whether or not the key has expired; the retry hint is the true wait in whole seconds, short by less than one second, or 1 |
| `SlidingWindow.WindowHoldsAtMostMax` | src/otp.rs:67-94 | at most max admissions lie in any one window |
| `RateLimiter.Limiter.Check` | src/net.rs:69-82 | eviction of stale windows never changes an answer |
| `RateLimiter.AnySpanAllowsTwiceMax` | src/net.rs:69-82 | any span of one window allows an IP at most 2 * max checks, if fewer than 2^32 + max of its own checks fall in any one window |
| `RateLimiter.TwiceMaxExactlyWhen` | src/net.rs:69-82 | that rate is exact: n checks of an IP per window keep every span within 2 * max iff n < 2^32 + max |
| `RateLimiter.OnlyOwnChecksMatter` | src/net.rs:69-82 | an IP's window, allowed checks and wrapping depend on its own checks alone |
| `RateLimiter.RareEnoughNeverWraps` | src/net.rs:79-80 | the count never wraps if fewer than 2^32 of the IP's own checks fall in any one window |
| `RateLimiter.BurstHeldToMaxExactlyWhen` | src/net.rs:79-80 | an IP's burst inside one window is held to max exactly when it has fewer than 2^32 checks, whatever other IPs do |
| `RateLimiter.BlockedUntilWindowEnds` | src/net.rs:76-81 | an IP that used up its window is let in again exactly from one window after its first check |
| `Streaks.WeekStart` | src/routes/stats.rs:46-48 | the Monday of the date's week |
| `Streaks.CollectWeeks` | src/routes/stats.rs:111 | the ordered set of played weeks |
| `Streaks.CurrentStreak` | src/routes/stats.rs:112-121 | the maximal run of played weeks ending this week, or last week while this one is unplayed |
| `Streaks.BestStreak` | src/routes/stats.rs:122-132 | the length of the longest run of consecutive played weeks |
| `Streaks.WeekStreaks` | src/routes/stats.rs:108-132 | both streaks in terms of the dates played, with current at most best |
| `Streaks.ChartWeeks` | src/routes/stats.rs:66-73 | a custom span is clamped to the nearest of 1..26 weeks; the presets are 5 weeks below three months, 13 below six, else 26 |
| `Streaks.WeeklySessions` | src/routes/stats.rs:134-142 | the buckets are the charted weeks oldest first, each counting its own dates, and together count every charted date once |
| `BoardMatcher.ResolveFindsBest` | src/routes/reservations.rs:480-496 | a login resolves exactly when some panel names it: to the first panel naming it as playing, else to the first queue naming it, at its first position |
| `BoardMatcher.BuildMatches` | src/routes/reservations.rs:479-566 | one suggestion per panel half with logins, in board order, playing before waiting |
| `BoardMatcher.EveryLoginOnce` | src/routes/reservations.rs:501-530 | every matched login is in exactly one suggestion, its best place's, and unmatched ones in none |
| `BoardMatcher.SuggestionsAreAccepted` | src/routes/reservations.rs:185-226 | every suggestion passes the creation checks on duration, player count, queue number and start offset; exactly the waiting ones name a queue position |
| `BoardMatcher.PositionSurvivesExactlyWhen` | src/routes/reservations.rs:491-493 | every suggestion from a queue of n names carries its earliest matched position clamped to 1..5 exactly when n fits the signed 16-bit cast |
| `BoardMatcher.LongQueueLosesPosition` | src/routes/reservations.rs:491-493 | a login matched only at the 32768th name is suggested at position 1 |
| `SuggestionFields.NamesMatchExactlyWhen` | src/routes/reservations.rs:385-411 | a login matches a board name exactly when they are equal but for case or a whole word of 3 or more characters of one is part of the other |
| `SuggestionFields.SplitFindsWords` | src/routes/reservations.rs:387-390 | splitting at non-alphanumeric characters finds exactly the whole words |
| `SuggestionFields.SuggestionCarriesItsLogins` | src/routes/reservations.rs:526-535 | a suggestion attaches its half's logins in order, marks exactly those already on a court, and names the court of the first of them |
| `SuggestionFields.SuggestionTimes` | src/routes/reservations.rs:536-547 | a suggestion starts now and lasts the minutes left, or waits them out and lasts 45; each the nearest value allowed, with the defaults for unread minutes |
| `GroupTables.Tables.CreateGroup` | src/routes/groups.rs:107-148 | the statements are exactly the atomic creation: its maker is admin and it becomes active |
| `GroupTables.Tables.SwitchActive` | src/routes/groups.rs:157-180 | switching is refused to non-members |
| `GroupTables.Tables.SetMemberRole` | src/routes/groups.rs:306-340 | the statements are exactly the atomic role change, refusing to demote the last admin |
| `GroupTables.Tables.Remove` | src/routes/groups.rs:342-361 | the statements are exactly the atomic removal with repointing |
| `GroupTables.Tables.LeaveGroup` | src/routes/groups.rs:363-401 | the statements are exactly the atomic leave: dissolve, refuse the only admin, or depart and repoint |
| `GroupTables.Tables.RepointActiveGroup` | src/routes/groups.rs:404-419 | repoints to the most recently joined other group, or none |
| `GroupTables.Tables.Accept` | src/routes/groups.rs:633-683 | joining by invite; the first group becomes active |
| `GroupTables.Tables.JoinViaLink` | src/routes/groups.rs:867-943 | joining by link is idempotent and makes the group active |
| `GroupTables.Tables.DeleteAccount` | src/routes/auth.rs:416-498 | the statements are exactly the atomic deletion, with the heirs the ordering picks |
| `Groups.CallKeepsSound` | src/routes/groups.rs:107-943 | every call keeps an admin in every group, every active group one the user belongs to, and every member a user |
| `Groups.GroupsStayAdministered` | src/routes/groups.rs:306-419 | after any run every group has an admin and every active group is one its user belongs to |
| `Groups.DeletionSparesEveryoneElse` | src/routes/auth.rs:410-455 | deletion dissolves exactly the groups the user was alone in, removes exactly that user elsewhere, promotes only the earliest other member of a group left without admin, and changes nobody else's active group |
| `Groups.LeaveRepointsExactlyWhen` | src/routes/groups.rs:404-419 | leaving repoints to the latest other group exactly when the user is not the group's only member; a sole member's leave dissolves the group and clears the active group even if they have others |
| `Groups.SoleMemberLeaveClearsActive` | src/routes/groups.rs:363-401 | a legal run in which a user of two groups leaves one alone, still belongs to the other, and has none active |
| `GroupHistory.GroupCallsGoThrough` | src/routes/groups.rs:306-401 | role changes and removals go through exactly for an admin of their active group on one of its members, leaving exactly when the group is not left without an admin |
| `GroupHistory.ArrivalsGoThrough` | src/routes/groups.rs:107-180 | creating, switching and joining go through exactly for active users, below 20 groups, into groups that exist |
| `GroupHistory.MembershipMoves` | src/routes/groups.rs:107-943 | a refused call changes nothing, and any other moves exactly its own member in or out |
| `GroupHistory.RolesMove` | src/routes/groups.rs:306-340 | a membership keeps its role and date but for an admin's change or a succession; new ones are plain, the maker's admin |
| `GroupHistory.ActiveMoves` | src/routes/groups.rs:150-180 | which group is active after any call, for every user |
| `GroupHistory.LeaverGoesToLatest` | src/routes/groups.rs:404-419 | whoever leaves or is removed from a group that goes on has their last joined other group active, or none if there is none |
| `GroupHistory.LatestExists` | src/routes/groups.rs:404-419 | the database always has a group to pick, or there is none |
| `GroupHistory.HeirsExist` | src/routes/auth.rs:436-452 | every account deletion has heirs to pick |
| `GroupHistory.HeirIsEarliest` | src/routes/auth.rs:436-452 | a group losing its only admin to a deletion gets exactly one, its earliest member left |
| `GroupHistory.MembershipEndsOnlyBy` | src/routes/groups.rs:342-401 | over any run a membership ends only by the member's own leave or deletion, or by an admin of the group |

## Left out

- HTTP routing, JSON, event streams, metrics, email, push notifications, OCR calls and uploads: no state of their own worth a proof.
- Postgres internals: implicit row locks of foreign keys and updates, unique-index waits, SKIP LOCKED, and colliding advisory-lock hashes. Lock keys are distinct values and the uniqueness rules are invariants. The `clubs` row taken FOR UPDATE by a resize is modelled as a lock; the key-share lock that inserting a session or queue row takes on it, after its court lock, is not. A shrinking resize takes that row first and court locks second, so a wait cycle through the two is possible in the database and outside the deadlock theorems.
- Session and queue player rows: each session or queue row carries its set of players instead of a join table. Players are inserted one by one for sessions and at once for queue groups.
- Separate application and database clocks, time zones and daylight saving: one forward clock, and "today" is a non-decreasing date.
- Secrets: passwords, tokens and ids are fresh opaque values; hashing, JWTs and word lists are not modelled.
- Redis failures (the limiters then admit), one-time-code lockouts and review accounts.
- The reservation create and edit lock on logins, which is a check before an insert and is not transactional; slot conflicts and the login sets shared between groups.
- Revocation racing a first placement, and two exchanges of one refresh token at the same instant: those calls are not serialized by the code, so the theorems are about atomic calls.
- Letter case outside ASCII in usernames and board names, and word lengths counted in bytes.
- Moderation, polls, calorie logs, court labels, group names, invite lists and the old invite-code flow: only easy members.
- Interleaving.DoomIsAtomicRefusal: a refused transaction stops at its first failed placement check, so the list of credential errors it would have reported is not compared.
- Interleaving.NeverStuck: a step means one of the transaction's own statements, its commit, or its rollback after a refusal; rollbacks for database errors are not modelled.
- Interleaving.InterleavingIsAtomicRun: the validity of a pass is what the transaction read, which another transaction may have changed since.
- QueueFairness.EtaIsUpperBound: stated for a court that stays open with a fixed session length, a group that stays queued and usable, and an engine at most a given delay late; the second of rounding down is part of the bound.
- MemberDesk.Desk.AddMember: when both the card and the name are taken, the card is reported; the database may report either.
- CourtTables.ClubTables.CloseCourt: the closure reason, its cleaning and its length check are not modelled, and the window arrives as two instants.
- GroupTables.Tables.Accept: whether the invite is addressed to the caller, live, and claimed only once is decided by the caller of the model; the cascade that deletes a dissolved group's invites is.
- GroupTables.Tables.JoinViaLink: whether the link is unexpired and unrevoked is decided by the caller of the model, like the admin's block.
- MemberDesk.Slip: the check-in slip leaves out the display name and the card number.
- DeskHistory.CheckInOpensCourt: for a slip whose password has no blanks at its ends, as every generated one; a typed password is trimmed.
- BoardEta.EtaIsAttained: a whole group leaving the line, even behind the pass, counts as a disturbance.
