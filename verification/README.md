# Verified model of the charging-station management backend

This project models the parts of the NestJS/Prisma backend that keep state over time or compute with it, and proves
what they promise. One module stands for one component:

- `Uptime`, `Heatmap`: the owner analytics that turn a status log into online, maintenance and offline time, and session
  intervals into a week of hour buckets. `Instants` counts the instants of an interval, so that both are specified point by point
  (a count is the size of the set of instants: `Instants.CountIsCardinality`).
- `TwoFactorLockout`: the failure counter in front of TOTP verification.
- `TeamAssignments`, `TeamBackfill`, `TeamBackfillEffects`: station-team assignments, the attendant projection derived
  from them, the script that fills the former from the latter, and what it does to the service's invariants;
  `SeededPreference` compares which assignment the service remembers after a replacement and after an activation.
- `Invitations`, `InvitationSeeding`: the life of a team invitation, from sending to activation, and the station
  assignments it carries.
- `SessionScope`, `TenantGuard`: the derivation of a session's organisation, role and station, its stability under
  refresh, and the request guard that reads the organisation back from the access token.
- `LruList`, `LruTies`, `TenantClientCache`: the bounded cache of per-tenant database clients.
- `AnomalyMonitor`: sliding windows of authentication failures and de-duplicated alarms.
- `Onboarding`, `OnboardingMigration`: the stage machine of tenant applications and the script that rewrites its rows.
- `FleetMigration`: the five backfill updates and the counts that profile them.
- `SyncBatch`: the attendant app's idempotent action queue.
- `HttpMetrics`: request counters, bounded latency samples and percentiles.
- `Wrappers`, `Text`, `MapSums`, `Sequences`: shared helpers.

Conventions. Time is an integer number of milliseconds handed to each step; a transaction works on a copy that is
committed whole or not at all; tables are sequences in creation order or maps by key, with the row's position standing for
its id where no row is ever deleted. Outcomes of foreign code (a TOTP or signature check, provisioning, an insert that the
database refuses, an uploaded date that does not parse) are arbitrary parameters. Classes are used where the source
updates fields or tables in place, and their methods are proved against functions whose properties are the lemmas.

Results that contradict what one might expect, each with its exact condition and a run or input that shows it:

- A blank status in force when the window opens is replaced by the current status, whereas a blank one counts as offline
  anywhere else (`Uptime.PlainReadingIff`, `Uptime.BlankEntryReadAsAvailable`).
- A payment sync has no stage check and can reopen a finished application (`Onboarding.TerminalFrozenIff`,
  `Onboarding.StepKeepsOneOpenIff`, `Onboarding.SyncCanOpenASecondApplication`), and it can take the place of accepting an
  enterprise quote (`Onboarding.StepKeepsQuotesIff`, `Onboarding.SyncSkipsTheQuote`).
- The onboarding script turns an accepted, unpaid enterprise quote into a payment-confirmed row
  (`OnboardingMigration.RestageKeepsCoherentIff`, `OnboardingMigration.AcceptedQuoteLosesCoherence`).
- On rows whose stage was never rewritten, which a migration gives the default `SUBMITTED`
  (`prisma/migrations/20260413101500_canonical_tenant_onboarding/migration.sql:29`), that script can open a second
  application for an applicant and its dry run can announce the wrong number of conversions
  (`OnboardingMigration.OneOpenAfterIff`, `OnboardingMigration.MigrationOpensASecond`,
  `OnboardingMigration.DryRunRightIff`, `OnboardingMigration.DryRunMissesWithdrawn`); and it takes a pending quote out of
  the quote stages, after which only a payment sync gets the application any further
  (`OnboardingMigration.MovedQuoteIff`, `OnboardingMigration.PendingQuoteStranded`).
- The fleet profile's two "can backfill" counts do not predict what the updates report
  (`FleetMigration.BackfillPredictedIff`, `FleetMigration.BackfillMispredicted`).
- A role change retires team rows without synchronising the projection (`TeamAssignments.RetireKeepsAgreementIff`,
  `TeamAssignments.RetireLosesAgreement`), and the team backfill then brings the retired rows back
  (`TeamBackfillEffects.BackfillUndoesRetirement`).
- The team backfill can give a user a second active row at a station (`TeamBackfillEffects.BackfillOneActiveIff`,
  `TeamBackfillEffects.BackfillSecondsAManager`).
- Activating an invitation can leave the user remembered at an inactive assignment
  (`SeededPreference.SeedRemembersActiveIff`, `SeededPreference.SeedRemembersIdleRow`).
- An invite that fails after its revocation leaves the address without any open invitation
  (`Invitations.FailedInviteHarmlessIff`, `Invitations.FailedReinviteLosesInvitation`).
- Two sessions of one user in two organisations share one last-used station, so using one can move the other
  (`SessionScope.RefreshAfterOtherSessions`, `SessionScope.OtherSessionMovesStation`).

Two more are visible in the invariants themselves: the status EXPIRED is written only inside transactions that then throw,
so no invitation is ever stored with it and a lapsed one stays pending or accepted until it is revoked
(`Invitations.RunKeepsSound`); and the alarm de-duplication takes a time of zero for absent
(`AnomalyMonitor.RaiseKeepsSpacing`).

## Model

| member | source | states |
|---|---|---|
| `Uptime.CalculateChargePointUptime` | apps/api/src/modules/analytics/analytics-service.service.ts:1417-1464 | a report exists unless every entry is later than the window; for a time-ordered log and a window that is not reversed, each of the three totals is the number of instants of [start, end) that the log puts in that bucket, they sum to the window, and the unrounded uptime is online time plus half of maintenance over the window, within 0 to 100 |
| `Uptime.SpentIsCount` | apps/api/src/modules/analytics/analytics-service.service.ts:1446-1455 | after any number of segments the time added to a bucket is the number of instants up to that point whose status, read from the log, falls in the bucket |
| `Uptime.SpentTotal` | apps/api/src/modules/analytics/analytics-service.service.ts:1446-1455 | no instant is added twice or dropped: the three accumulators together always equal the time covered so far |
| `Uptime.TimelineCuts` | apps/api/src/modules/analytics/analytics-service.service.ts:1425-1444 | filtering, prepending the baseline, appending the closing point and sorting yields a timeline whose points cut exactly the window, each naming the status in force until the next |
| `Uptime.WindowSlice` | apps/api/src/modules/analytics/analytics-service.service.ts:1425-1436 | the entries kept for the window are one contiguous slice of the ordered log, and dropping later entries does not change what is read at its start |
| `Uptime.SortsStably` | apps/api/src/modules/analytics/analytics-service.service.ts:1440-1444 | sorting the timeline orders it by time and keeps entries of one time in the order they had, for every list |
| `Uptime.PlainReadingIff` | apps/api/src/modules/analytics/analytics-service.service.ts:1431-1438 | the offline time equals the plain reading of the log (last entry at or before t, else the current status) exactly when the window is empty or the entry in force at its start is not a blank one that the code replaces by a current status outside the offline bucket; in those cases all three totals equal it |
| `Uptime.BlankEntryReadAsAvailable` | apps/api/src/modules/analytics/analytics-service.service.ts:1431-1438 | a log with one blank entry before the window and the current status AVAILABLE: the whole window counts as online, although every instant of it reads as offline |
| `Uptime.BucketOf` | apps/api/src/modules/analytics/analytics-service.service.ts:1588-1597 | a status counts as online exactly if it spells ONLINE, AVAILABLE, CHARGING or OCCUPIED, as maintenance exactly if it spells MAINTENANCE, DEGRADED or RESERVED, in any case and with blanks around it; everything else, the empty text included, is offline |
| `Heatmap.BuildHeatmap` | apps/api/src/modules/analytics/analytics-service.service.ts:1137-1212 | every slot of the 7x24 grid holds exactly the minutes, energy share and session starts that fall in it, every station its sessions' total duration, and the totals are conserved, for every list of sessions |
| `Heatmap.SliceSession` | apps/api/src/modules/analytics/analytics-service.service.ts:1164-1191 | the hour-slicing loop ends for every interval and adds to each slot exactly the instants of the session that lie in it, with energy in proportion, whatever the alignment of start and end |
| `Heatmap.SlotsPartition` | apps/api/src/modules/analytics/analytics-service.service.ts:1164-1185 | the slots partition time: over any interval the minutes per slot sum to the interval's length |
| `Heatmap.SlotMeans` | apps/api/src/modules/analytics/analytics-service.service.ts:1137-1192 | hour h of any day lies in the h-th slot of its weekday, Monday first, any number of weeks away |
| `Heatmap.SumBothWays` | apps/api/src/modules/analytics/analytics-service.service.ts:1161-1202 | summing over slots and summing over sessions commute, for minutes, energy and starts |
| `Heatmap.Conservation` | apps/api/src/modules/analytics/analytics-service.service.ts:1161-1207 | total bucket minutes equal total session duration and the sum over stations; bucket energy sums to the energy of the sessions of positive duration; session counts sum to the number of sessions |
| `Heatmap.RowSum` | apps/api/src/modules/analytics/analytics-service.service.ts:1161-1194 | what one session adds over all slots is its whole duration, its whole energy if it lasts at all, and one start |
| `Heatmap.SessionSpan` | apps/api/src/modules/analytics/analytics-service.service.ts:1157-1161 | an ended session occupies its minutes and delivers its energy; one without an end, or with one not after its start, counts as a start and nothing else |
| `TwoFactorLockout.AttemptKeyInjective` | apps/api/src/modules/auth/auth-service.service.ts:5927-5932 | different user and action pairs never share a failure counter |
| `TwoFactorLockout.TwoFactorAttempts.AssertAttemptAllowed` | apps/api/src/modules/auth/auth-service.service.ts:5934-5958 | refuses with the minutes left exactly while the pair's lock lasts, otherwise drops only a stale counter; no other pair is touched |
| `TwoFactorLockout.TwoFactorAttempts.RegisterFailure` | apps/api/src/modules/auth/auth-service.service.ts:5960-5981 | restarts a stale or missing counter at one, otherwise counts up, and locks from the fifth failure; no other pair is touched |
| `TwoFactorLockout.TwoFactorAttempts.ClearFailures` | apps/api/src/modules/auth/auth-service.service.ts:5983-5988 | forgets the pair's counter and no other |
| `TwoFactorLockout.TwoFactorAttempts.VerifyTotp` | apps/api/src/modules/auth/auth-service.service.ts:5795-5820 | one synchronous attempt, read off the counter before and after: it is accepted exactly if a secret is set, no lock is in force and the code is right, and then the counter is gone; rejected exactly for a wrong code without a lock, and then counted on, from one again if the last failure is over ten minutes old, and locked for fifteen minutes from the fifth; refused with the minutes left, rounded up, exactly while a lock is in force; every other pair's counter is left alone |
| `TwoFactorLockout.RunKeepsSound` | apps/api/src/modules/auth/auth-service.service.ts:5934-5981 | after any run the stored failures lie in 1 to 5, and a counter at 5 is locked until exactly 15 minutes after its last failure |
| `TwoFactorLockout.CounterEarned` | apps/api/src/modules/auth/auth-service.service.ts:5934-5988 | after any run from an empty counter a stored one stands for exactly as many admitted failures, at most five, each within ten minutes of the one before, the last at the time it names, with nothing accepted since the first |
| `TwoFactorLockout.LockEarned` | apps/api/src/modules/auth/auth-service.service.ts:5795-5820 | a lock is never there without five admitted failures, the fifth fifteen minutes before it ends, each at most ten minutes after the one before, and no accepted attempt from the first of them on |
| `TwoFactorLockout.SixFailuresSpan` | apps/api/src/modules/auth/auth-service.service.ts:5934-5981 | in a run without a success any six consecutive admitted failures span more than ten minutes |
| `TwoFactorLockout.AttemptBound` | apps/api/src/modules/auth/auth-service.service.ts:5795-5820 | admitted failures that fall within W milliseconds number at most 5 * (floor(W / 600000) + 1) |
| `TwoFactorLockout.LockHolds` | apps/api/src/modules/auth/auth-service.service.ts:5942-5952 | while a lock lasts no attempt is admitted, whatever the code, and the counter does not change |
| `TeamAssignments.NormalizeTeamAssignments` | apps/api/src/modules/auth/auth-service.service.ts:1044-1126 | accepts exactly the non-empty requests without blank or duplicate stations and with team-manageable roles, and returns them in order with the asked or first primary, and the first active row promoted when no active row is primary; each row, field by field, keeps its station and role, is active unless asked not to be, and carries a shift exactly as an attendant: the mode asked for or FIXED, and hours and timezone where given and not empty, else 00:00, 23:59 and Africa/Kampala |
| `TeamAssignments.AcceptableIff` | apps/api/src/modules/auth/auth-service.service.ts:1060-1081 | a request is acceptable exactly if it is not empty, no station is blank or repeated, and every role is one of the fourteen a team is managed with |
| `TeamAssignments.NormalRows` | apps/api/src/modules/auth/auth-service.service.ts:1078-1108 | the same field by field for anything of normal form |
| `TeamAssignments.NormalFormHasPrimary` | apps/api/src/modules/auth/auth-service.service.ts:1063-1076 | a normalised list has a primary, and an active primary as soon as any of its rows is active |
| `TeamAssignments.TeamService.ValidateStations` | apps/api/src/modules/auth/auth-service.service.ts:1128-1164 | succeeds exactly when the listed stations are distinct, exist and belong to the organisation, and reports a station missing exactly when one is or one is listed twice |
| `TeamAssignments.TeamService.SyncAttendantProjectionForUser` | apps/api/src/modules/auth/auth-service.service.ts:1166-1269 | for any team table in which the user has at most one active attendant row per station, whatever else it holds, the loop over assignments and the two deactivation statements together compute the synchronised table that the next rows speak about |
| `TeamAssignments.SyncedAgrees` | apps/api/src/modules/auth/auth-service.service.ts:1166-1269 | after a sync the user's attendant rows agree with the team table: a row is active exactly when it is the first at a station the user serves as an active attendant, and then mirrors that assignment; rows of other users are as they were. All it takes is at most one active attendant row per station for this user: manager rows beside them and other users' rows do not matter |
| `TeamAssignments.OneActiveServing` | apps/api/src/modules/auth/auth-service.service.ts:1166-1269 | at most one active row of any role per user and station implies what the sync needs, which is less: rows of other roles may stand beside an attendant row |
| `TeamAssignments.AgreementMeans` | apps/api/src/modules/auth/auth-service.service.ts:1166-1269 | agreement means that the active attendant rows cover exactly the served stations, one active row each |
| `TeamAssignments.ServedShift` | apps/api/src/modules/auth/auth-service.service.ts:1209-1245 | in an agreeing projection every served assignment has an active attendant row at its station, with the assignment's own mode, hours and timezone where it has them and the defaults where not |
| `TeamAssignments.SyncIdempotent` | apps/api/src/modules/auth/auth-service.service.ts:1166-1269 | under the same hypothesis, re-running the sync on an agreeing table changes nothing and creates nothing |
| `TeamAssignments.ApplyOneMore` | apps/api/src/modules/auth/auth-service.service.ts:1196-1245 | applying the assignments one by one equals deciding each row once, because each assignment touches only rows at its own station |
| `TeamAssignments.ReplacedOneActive` | apps/api/src/modules/auth/auth-service.service.ts:3867-3905 | retiring the stations before creating rows keeps at most one active team row per user and station |
| `TeamAssignments.ReplacedRows` | apps/api/src/modules/auth/auth-service.service.ts:3867-3916 | row by row: the user's active rows at the stations are deactivated and lose their primary flag, all others stay, and one row is created for each listed assignment with its station, role, flags and shift |
| `TeamAssignments.ReplacedOneServing` | apps/api/src/modules/auth/auth-service.service.ts:3867-3905 | retiring the listed stations before creating their rows keeps at most one active attendant row per station for every user |
| `TeamAssignments.OthersStillAgree` | apps/api/src/modules/auth/auth-service.service.ts:3867-3936 | replacing one user's assignments leaves every other user's agreement intact |
| `TeamAssignments.TeamService.Rewrite` | apps/api/src/modules/auth/auth-service.service.ts:1613-1663 | retire, create and sync keep at most one active attendant row per user and station (the class invariant) and, where it held, at most one active row of any role; they make the user agree, and keep everyone else's agreement and rows |
| `TeamAssignments.TeamService.ReplaceTeamAssignments` | apps/api/src/modules/auth/auth-service.service.ts:3849-3936 | goes through exactly for an authorised actor with an acceptable list of stations of the organisation, changes nothing otherwise, and then the user agrees, the last-used assignment is the first active primary (else first active, else none), and agreement of all users is kept; the class invariant is about attendant rows only, so a backfilled manager does not void any of it |
| `TeamAssignments.PreferredIs` | apps/api/src/modules/auth/auth-service.service.ts:3920-3932 | a replacement remembers the first row that is active and primary, without one the first active row, and none exactly if no row is active |
| `TeamAssignments.TeamService.SeedTeamAssignments` | apps/api/src/modules/auth/auth-service.service.ts:1596-1664 | the same for the assignments an invitation carries, where only the listed stations are retired and the last-used assignment is the primary row created |
| `SeededPreference.SeedRemembersActiveIff` | apps/api/src/modules/auth/auth-service.service.ts:1644-1660 | the assignment remembered after seeding is the first primary row created; it is active, and the one a replacement would remember, if and only if no inactive row that asks to be primary stands before the first active primary in the request |
| `SeededPreference.ChoicesAgreeIff` | apps/api/src/modules/auth/auth-service.service.ts:3920-3932 | the preference kept by a replacement (first active primary) and the one kept by seeding (first primary) name the same row of a list exactly when its first primary row is active |
| `SeededPreference.SeedRemembersIdleRow` | apps/api/src/modules/auth/auth-service.service.ts:1063-1076 | two assignments, the first asked primary and inactive, the second promoted: seeding remembers the inactive one, a replacement the active one |
| `TeamAssignments.TeamService.RetireForRoleChange` | apps/api/src/modules/auth/auth-service.service.ts:3757-3780 | retires the user's active rows at the organisation's stations, keeps both uniqueness properties, and does not touch the projection |
| `TeamAssignments.RetireKeepsAgreementIff` | apps/api/src/modules/auth/auth-service.service.ts:3757-3780 | retiring without a sync keeps the user's agreement exactly when the user served none of the retired stations as an attendant |
| `TeamAssignments.RetireLosesAgreement` | apps/api/src/modules/auth/auth-service.service.ts:3757-3780 | a user made an attendant at one station, in agreement, whose rows the role change retires: the agreement is lost |
| `Sequences.FoundAll` | apps/api/src/modules/auth/auth-service.service.ts:1133-1145 | comparing how many stations were found with how many were listed tells exactly whether all exist and none is listed twice |
| `TeamBackfill.Backfill` | scripts/ops/backfill-station-team-assignments.ts:30-114 | a real run yields the filled and repaired table whichever inserts fail, a dry run changes nothing; processed equals sources and equals created plus skipped plus failures; created is the number of new rows |
| `TeamBackfill.RepairPrimaries` | scripts/ops/backfill-station-team-assignments.ts:82-114 | the repair loop makes a user's earliest active row primary when none of the user's active rows is, and changes no other row |
| `TeamBackfill.BackfillPrimariesIff` | scripts/ops/backfill-station-team-assignments.ts:30-114 | after a real run every user with an active row has exactly one active primary, and nobody has two, if and only if nobody had two before; failed inserts make no difference |
| `TeamBackfill.SecondRunChangesNothing` | scripts/ops/backfill-station-team-assignments.ts:30-114 | a run after one without failed inserts creates nothing and changes no row |
| `TeamBackfill.FilledExtends` | scripts/ops/backfill-station-team-assignments.ts:30-80 | the first loop only appends, and never gives a user a second active primary |
| `TeamBackfillEffects.BackfillOneActiveIff` | scripts/ops/backfill-station-team-assignments.ts:30-114 | the script keeps at most one active row per user and station if and only if that held before and no active attendant row it may copy belongs to a user active at the station in another role |
| `TeamBackfillEffects.BackfillKeepsOneServing` | scripts/ops/backfill-station-team-assignments.ts:30-114 | the script neither makes nor mends a second active attendant row for any user at any station, failed inserts included, so the team service's invariant holds after it exactly if it held before |
| `TeamBackfillEffects.BackfillSecondsAManager` | scripts/ops/backfill-station-team-assignments.ts:33-80 | a manager with an active attendant row at the same station ends with two active rows there |
| `TeamBackfillEffects.FilledServes` | scripts/ops/backfill-station-team-assignments.ts:30-80 | after the first loop a user serves as attendant exactly the stations served before and those of the active rows copied |
| `TeamBackfillEffects.BackfillUndoesRetirement` | scripts/ops/backfill-station-team-assignments.ts:30-114 | after a role change that retired rows without a sync, a run without failed inserts brings exactly the retired stations back, and the projection agrees again |
| `Invitations.MatchNormalizes` | apps/api/src/modules/auth/auth-service.service.ts:289-291 | a query for a normalised address, ignoring case, matches only addresses that normalise to it; normalising is idempotent, so on stored invitations the match is equality |
| `Invitations.NormalizeSameIff` | apps/api/src/modules/auth/auth-service.service.ts:289-291 | two addresses normalise alike exactly if, without the blanks around them, they agree letter by letter up to ASCII case |
| `Invitations.AddressesOf` | apps/api/src/modules/auth/auth-service.service.ts:289-291 | for trimmed texts: they normalise alike exactly if they have equal length and the same letters up to case, and blanks added at either end change nothing |
| `Invitations.SameIgnoringCaseIff` | apps/api/src/modules/auth/auth-service.service.ts:1904-1913 | the queries' comparison matches a stored address exactly if it agrees letter by letter up to ASCII case |
| `Invitations.InvitationService.InviteUser` | apps/api/src/modules/auth/auth-service.service.ts:1847-2077 | an invite ends in the tables and result of the invite step: refused untouched for a missing organisation or an active member, older open invitations revoked for good before the transaction, and nothing else kept when the transaction fails; invitations to any other address or organisation stay as they are in every case, and the new one is to that address and names a user who has it |
| `Invitations.InvitationService.AcceptInvitationToken` | apps/api/src/modules/auth/auth-service.service.ts:2174-2202 | accepting ends in the tables and result of the accept step; whatever throws inside the transaction leaves the tables as they were, the write of EXPIRED included |
| `Invitations.InvitationService.ActivateInvitationOnLogin` | apps/api/src/modules/auth/auth-service.service.ts:1495-1685 | activating ends in the tables and result of the activate step, and leaves the tables as they were when anything throws; it succeeds only for a user whose address is the invited one up to case and blanks |
| `Invitations.RunKeepsSound` | apps/api/src/modules/auth/auth-service.service.ts:1346-1393 | over every run, whatever else happens to users and memberships: at most one open invitation per normalised address and organisation, no shared token, each invitation activated at most once, before its expiry, from its own address and by the user it names, and none stored as EXPIRED |
| `Invitations.RunMovesForward` | apps/api/src/modules/auth/auth-service.service.ts:1495-2202 | over every run invitations are never removed or re-addressed, their status only moves forward, and activated and revoked ones keep status and times for ever |
| `Invitations.SpentTokenRefused` | apps/api/src/modules/auth/auth-service.service.ts:1367-1373 | once an invitation is used or revoked, no later run lets its token accept or activate anything |
| `Invitations.ActivateIff` | apps/api/src/modules/auth/auth-service.service.ts:1500-1576 | an activation goes through exactly when the token names an open, unexpired invitation, the account is the invited one or none is named, the normalised addresses match and the seeded assignments are valid; then only that row and the user's seat in the invitation's organisation change, which becomes active |
| `Invitations.TokenAnswers` | apps/api/src/modules/auth/auth-service.service.ts:1346-1393 | a token is answered by its invitation: unknown, revoked, used, lapsed, or found; only a lapsed open one would have its status written |
| `Invitations.ActivateAnswers` | apps/api/src/modules/auth/auth-service.service.ts:1500-1576 | an open token is refused at login for exactly one reason: no account or no address, another user's invitation, a different address, unusable station assignments, in that order |
| `Invitations.ForgetMeans` | prisma/schema.prisma:461-461 | deleting users takes their names off invitations and changes nothing else of them |
| `Invitations.AcceptIff` | apps/api/src/modules/auth/auth-service.service.ts:2180-2202 | a token is accepted exactly while its invitation is open and unexpired; only that row changes, the first acceptance sets the time, later ones change nothing |
| `Invitations.InviteNeverDemotes` | apps/api/src/modules/auth/auth-service.service.ts:1904-2027 | an invite takes no active membership away and grants none; it touches only the invited user's seat, which becomes INVITED |
| `Invitations.InvitedCanJoin` | apps/api/src/modules/auth/auth-service.service.ts:1949-2077 | whoever is invited can activate with the token, accepted first or not, exactly until seven days have passed, as far as the stored assignments are usable; that they always are is the invariant of InvitationSeeds |
| `Invitations.ReinviteSupersedes` | apps/api/src/modules/auth/auth-service.service.ts:1937-1946 | unless the address is an active member's, exactly its open invitations in the organisation are revoked, for good even when the rest of the invite fails |
| `Invitations.InviteIff` | apps/api/src/modules/auth/auth-service.service.ts:1904-2077 | an invite conflicts exactly when the address is an active member's, and succeeds exactly when it is not, the token and the new user's id are unused and the transaction goes through |
| `Invitations.FailedInviteHarmlessIff` | apps/api/src/modules/auth/auth-service.service.ts:1915-1952 | a failed invite leaves the tables as they were if and only if the address is an active member's or had no open invitation in the organisation |
| `Invitations.FailedReinviteLosesInvitation` | apps/api/src/modules/auth/auth-service.service.ts:1937-1952 | a run of two invites, the second failing after its revocation, that starts with one open invitation for the address and ends with none |
| `InvitationSeeding.InvitationSeeds.InviteUser` | apps/api/src/modules/auth/auth-service.service.ts:1873-2077 | an invite whose assignments are unusable is refused before anything is written; otherwise it ends as the invite step says and stores the normal form of the assignments with the invitation, so that every stored list stays the normal form of a usable one |
| `InvitationSeeding.InvitationSeeds.ActivateInvitationOnLogin` | apps/api/src/modules/auth/auth-service.service.ts:1500-1664 | an activation goes through exactly when the invitation can be activated and its stored assignments, if any, are usable, and with all stored lists sound exactly when the invitation can be activated; a failed one leaves invitations and team tables as they were, a successful one with assignments makes the user's projection agree, and agreement of all users is kept |
| `InvitationSeeding.NormalizedStays` | apps/api/src/modules/auth/auth-service.service.ts:1044-1126 | normalising a normalised list again accepts it and changes nothing, as happens between invite and activation |
| `InvitationSeeding.SeededAsInvited` | apps/api/src/modules/auth/auth-service.service.ts:1596-1644 | the rows materialised at activation are exactly those of the list normalised at the invite |
| `InvitationSeeding.SeedsStaySound` | apps/api/src/modules/auth/auth-service.service.ts:1495-2202 | no operation on invitations, users or memberships, in whatever order, makes a stored list unsound |
| `InvitationSeeding.StoredUsable` | apps/api/src/modules/auth/auth-service.service.ts:1596-1611 | the normal form of a list usable for an organisation is itself usable for it |
| `SessionScope.ResolvedIsMember` | apps/api/src/modules/auth/auth-service.service.ts:690-714 | without a fallback the organisation chosen is an active membership, the preferred one if it is one, and none only for a user without active memberships |
| `SessionScope.ResolvedIs` | apps/api/src/modules/auth/auth-service.service.ts:690-714 | the organisation chosen is the preferred one if the user is an active member, else the fallback if so, else that of the earliest active membership, and the fallback as it is for a user without any |
| `SessionScope.StationChosen` | apps/api/src/modules/auth/auth-service.service.ts:1271-1327 | the active station is the last-used assignment if still eligible, else the earliest primary one, else the earliest one, and none only when there is none |
| `SessionScope.SessionStations` | apps/api/src/modules/auth/auth-service.service.ts:2955-2963 | a session sees no stations as a platform principal without a tenant, and otherwise exactly the user's active assignments in its organisation, primary ones first |
| `SessionScope.SessionOrganization` | apps/api/src/modules/auth/auth-service.service.ts:2925-2963 | a platform principal's session has the tenant asked for or none; anyone else's has an active membership, the one asked for if it is one, or none only without memberships; the station belongs to the session's organisation |
| `SessionScope.PrincipalIs` | apps/api/src/modules/auth/auth-service.service.ts:2932-2936 | an active platform role alone decides who is a platform principal; the key of the user's own role counts only without one |
| `SessionScope.SessionRole` | apps/api/src/modules/auth/auth-service.service.ts:2977-3000 | the effective role is the active station's, else the one granted by the active membership in the session's organisation, else the user's own; a platform role overrides every other canonical role |
| `SessionScope.TokenRole` | apps/api/src/modules/auth/auth-service.service.ts:2977-3000 | the canonical role claimed is the active platform role; without one the base of the custom role of the earliest active membership in the session's organisation, else that membership's own, else the key of the session's role, and the site host's only when none exists; the role claimed is the session's |
| `SessionScope.TokenScope` | apps/api/src/modules/auth/auth-service.service.ts:2990-3010 | both tokens name the user and, in every field for it, the session's organisation; they claim tenant scope and acting as tenant exactly with one, and its name is the membership's, else the one offered |
| `SessionScope.RefreshIsFixedPoint` | apps/api/src/modules/auth/auth-service.service.ts:2925-3052 | with unchanged tables a refresh derives the same organisation, role, station and claims in spite of what the first derivation wrote back, and writes nothing further; the organisation name too, exactly unless a session without a tenant was offered one |
| `SessionScope.EveryRefreshSame` | apps/api/src/modules/auth/auth-service.service.ts:3245-3317 | issue once, refresh any number of times: the access claims are always the first ones |
| `SessionScope.RefreshAfterOtherSessions` | apps/api/src/modules/auth/auth-service.service.ts:3245-3291 | when other sessions rewrote the user row in between, the organisation still never moves, and the station stays exactly when the row remembers it or remembers none of the organisation's and it is the default |
| `SessionScope.ForgottenStationMoves` | apps/api/src/modules/auth/auth-service.service.ts:1308-1316 | someone working at a secondary station is moved to a primary one at the next refresh once the row remembers a station elsewhere |
| `SessionScope.OtherSessionMovesStation` | apps/api/src/modules/auth/auth-service.service.ts:3012-3022 | a run in which using a second session, in another organisation, moves the first session to another station |
| `SessionScope.AuthService.BuildAuthUserContext` | apps/api/src/modules/auth/auth-service.service.ts:2925-3052 | returns the derived session and writes back only the organisation (not for platform principals) and the station chosen |
| `SessionScope.AuthService.IssueTokens` | apps/api/src/modules/auth/auth-service.service.ts:3176-3243 | both tokens carry the derived session's scope, and the refresh token is stored and can be used for seven days |
| `SessionScope.AuthService.Refresh` | apps/api/src/modules/auth/auth-service.service.ts:3245-3317 | succeeds exactly for a verified token that is stored, unexpired and not revoked, of an existing user; derives the session again from the token's claims and current tables; otherwise nothing changes |
| `TenantGuard.GuardRecoversSession` | apps/api/src/modules/auth/jwt-auth.guard.ts:111-139 | from the claims of an issued access token the guard recovers exactly the session's organisation, or none, for every canonical role |
| `TenantGuard.ClaimedOrganization` | apps/api/src/modules/auth/jwt-auth.guard.ts:111-139 | from a token of any format: in a tenant session the tenant selected or the first of the older claims; otherwise, unless the token says it is a platform session or not acting as a tenant or its role is platform-wide, the first of the older claims; else none |
| `TenantGuard.HostServesItsOwn` | apps/api/src/modules/auth/jwt-auth.guard.ts:141-159 | a tenant's host accepts a session exactly when the session is that tenant's, before and after refreshes |
| `TenantGuard.ServedTenantIsMembership` | apps/api/src/modules/auth/jwt-auth.guard.ts:111-139 | whoever is not a platform principal is served only for organisations they are an active member of |
| `TenantGuard.JwtAuthGuard.CanActivate` | apps/api/src/modules/auth/jwt-auth.guard.ts:111-200 | admits exactly when there is no host organisation or it is the authenticated one; a rejection is counted and recorded and sets no routing; an admission is routed for the authenticated organisation and counted under its tier |
| `TenantGuard.RecordedAs` | apps/api/src/modules/auth/jwt-auth.guard.ts:165-195 | an admitted request is recorded as resolved from the host or the token, and counted once under the database tier its routing enables |
| `LruList.RequestRefines` | packages/db/src/tenant-prisma-routing.service.ts:79-87 | one request later than every stamp, whether or not creation succeeds, takes the map ordered by lastUsedAt and the recency list to states that still correspond, within the maximum; LruTies.RequestRanked covers requests in one millisecond |
| `LruList.OldestIsLast` | packages/db/src/tenant-prisma-routing.service.ts:217-234 | the entry the eviction loop picks is the last of the recency list |
| `LruList.FindOldest` | packages/db/src/tenant-prisma-routing.service.ts:221-226 | the loop finds the first entry of least lastUsedAt |
| `LruList.BoundedStep` | packages/db/src/tenant-prisma-routing.service.ts:217-234 | evicting loses nothing: a step on the bounded list is the bounded step on the list of all distinct keys |
| `TenantClientCache.ClientCacheMax` | packages/db/src/tenant-routing-config.service.ts:48-53 | the cache maximum is the number the environment gives if it is positive, and 200 otherwise |
| `TenantClientCache.RoutedTo` | packages/db/src/tenant-prisma-routing.service.ts:146-209 | from the hint and the configuration alone: shared exactly without a hint, without an organisation, with routing disabled, or without a tier of its own; a schema tenant goes to its trimmed schema and is refused exactly if that is empty or not a plain name; a dedicated tenant goes to its mapped URL and is refused exactly without one |
| `TenantClientCache.AskedFor` | packages/db/src/tenant-prisma-routing.service.ts:146-209 | the calls that reach the map are those of tenants with a valid schema or a mapped database, each under the key of that schema or organisation |
| `TenantClientCache.MadeClient` | packages/db/src/tenant-prisma-routing.service.ts:146-209 | what is kept of a client that is made: the key of its schema or organisation, the tenant, the schema if it has one, and where it connects |
| `TenantClientCache.SchemaNameIff` | packages/db/src/tenant-prisma-routing.service.ts:25-25 | a schema name is accepted exactly if it is not empty, does not start with a digit and has only ASCII letters, digits and underscores |
| `TenantClientCache.KeyDeterminesConnection` | packages/db/src/tenant-prisma-routing.service.ts:146-209 | the cache key alone decides the connection string |
| `TenantClientCache.KeysNeverCollide` | packages/db/src/tenant-prisma-routing.service.ts:146-209 | two targets share a key only if they agree in selection, schema and connection, and in the organisation when dedicated; so schema, dedicated and shared keys are never one another |
| `TenantClientCache.TenantPrismaRouting.GetClientForRouting` | packages/db/src/tenant-prisma-routing.service.ts:69-88 | who is answered the shared client, who is connected to which schema or database and who is refused, each exactly as the hint and the configuration say, after any history; errors of resolution change nothing; otherwise the map changes as one request does, and a cached key keeps its client |
| `TenantClientCache.TenantPrismaRouting.EvictIfNeeded` | packages/db/src/tenant-prisma-routing.service.ts:217-234 | leaves room for one more entry by removing at most the least recently used one |
| `TenantClientCache.RequestedSound` | packages/db/src/tenant-prisma-routing.service.ts:69-88 | keys stay unique, every client connects where its key says, and the map never exceeds its maximum, even when creation throws after an eviction |
| `TenantClientCache.CacheIsRecencyList` | packages/db/src/tenant-prisma-routing.service.ts:69-88 | over every run with a strictly increasing clock, creation failures included, the map refines a recency list; CacheIsRanked covers equal time stamps |
| `TenantClientCache.CacheHoldsMostRecent` | packages/db/src/tenant-prisma-routing.service.ts:69-88 | without creation failures, and with a strictly increasing clock, the cached keys are exactly the most recently requested distinct keys that are not shared, up to the maximum, in the order of their time stamps; CacheHoldsLatest covers equal ones |
| `LruTies.RequestRanked` | packages/db/src/tenant-prisma-routing.service.ts:217-234 | one request under a clock that may stand still keeps exactly the keys served last, ties going by map order, creation failures included |
| `TenantClientCache.CacheIsRanked` | packages/db/src/tenant-prisma-routing.service.ts:69-88 | over every run whose clock never goes back, creation failures included: a key the cache gave up was last served before every key it holds, calls at one instant counting in map order |
| `TenantClientCache.CacheHoldsLatest` | packages/db/src/tenant-prisma-routing.service.ts:69-88 | with equal time stamps allowed and no creation failures: the cache is as full as its maximum and the keys asked for allow, each entry carries the time its key was last asked for, and no key it lacks was asked for later than one it holds |
| `AnomalyMonitor.AnomalyKeyInjective` | apps/api/src/modules/auth/auth-anomaly-monitor.service.ts:143-144 | different dimensions and keys never share a de-duplication entry |
| `AnomalyMonitor.RecordWindowEvent` | apps/api/src/modules/auth/auth-anomaly-monitor.service.ts:119-133 | the new window map and count are those the refinement lemma speaks about |
| `AnomalyMonitor.RecordReflects` | apps/api/src/modules/auth/auth-anomaly-monitor.service.ts:119-133 | the count returned for a key equals the number of its failures in the complete log within the last ten minutes, however successes and prunings interleaved |
| `AnomalyMonitor.PruneWindowMap` | apps/api/src/modules/auth/auth-anomaly-monitor.service.ts:184-195 | the pruning loop leaves exactly the fresh events and drops exactly the idle keys |
| `AnomalyMonitor.PruneReflects` | apps/api/src/modules/auth/auth-anomaly-monitor.service.ts:184-195 | pruning never loses a failure that a later window could still count |
| `AnomalyMonitor.PrunedMeans` | apps/api/src/modules/auth/auth-anomaly-monitor.service.ts:184-195 | a key is dropped exactly when it has no failure of the last ten minutes and was not seen for an hour; of the others exactly the failures of the last ten minutes remain |
| `AnomalyMonitor.RaiseKeepsSpacing` | apps/api/src/modules/auth/auth-anomaly-monitor.service.ts:135-149 | two anomalies for one dimension and key are at least ten minutes apart (an anomaly at time zero apart, which the code takes for absent), clean-up at sixty minutes included |
| `AnomalyMonitor.CoverageStep` | apps/api/src/modules/auth/auth-anomaly-monitor.service.ts:58-89 | every failure at or over its threshold has an anomaly in the window that ends with it |
| `AnomalyMonitor.AlarmsMean` | apps/api/src/modules/auth/auth-anomaly-monitor.service.ts:30-89 | what the monitor's invariant means: after twenty failures from one address, twelve of one device or eight of one account within ten minutes an alarm lies in the ten minutes up to the last, and there is no alarm without as many |
| `AnomalyMonitor.ForgetOld` | apps/api/src/modules/auth/auth-anomaly-monitor.service.ts:176-181 | forgetting entries after an hour never re-arms an alarm early |
| `AnomalyMonitor.ForgetAnomalies` | apps/api/src/modules/auth/auth-anomaly-monitor.service.ts:176-181 | the loop removes exactly the entries older than an hour |
| `AnomalyMonitor.AuthAnomalyMonitor.RecordSuccess` | apps/api/src/modules/auth/auth-anomaly-monitor.service.ts:42-45 | keeps the monitor's invariant, logs no failure and raises nothing |
| `AnomalyMonitor.AuthAnomalyMonitor.FailuresAre` | apps/api/src/modules/auth/auth-anomaly-monitor.service.ts:47-57 | a failed login is logged once for each of address, device and identifier that the context names, under the text without the blanks around it or the identifier's hash, and for nothing else |
| `AnomalyMonitor.AuthAnomalyMonitor.RecordFailure` | apps/api/src/modules/auth/auth-anomaly-monitor.service.ts:47-89 | keeps the invariant (windows reflect the log; anomalies spaced, justified, complete and totalled) and appends exactly the failures the context names, which the next row spells out |
| `AnomalyMonitor.AuthAnomalyMonitor.Observe` | apps/api/src/modules/auth/auth-anomaly-monitor.service.ts:58-88 | one failure in one dimension: an anomaly is within reach exactly as the log's count demands, and none is raised below the threshold |
| `AnomalyMonitor.AuthAnomalyMonitor.RaiseAnomaly` | apps/api/src/modules/auth/auth-anomaly-monitor.service.ts:135-169 | after the call an anomaly for the key lies within the last ten minutes, whether raised now or remembered |
| `AnomalyMonitor.AuthAnomalyMonitor.PerformPeriodicCleanup` | apps/api/src/modules/auth/auth-anomaly-monitor.service.ts:171-182 | keeps the invariant while pruning the three tables and the de-duplication map |
| `Onboarding.ApplicationsService.Create` | apps/api/src/modules/applications/applications.service.ts:583-659 | creates a row exactly when the applicant has no open application and the site, if any, exists; otherwise nothing changes |
| `Onboarding.ApplicationsService.Change` | apps/api/src/modules/applications/applications.service.ts:661-1371 | every other operation overwrites only its own row, as the run lemmas describe, or fails and changes nothing |
| `Onboarding.AllowedIff` | apps/api/src/modules/applications/applications.service.ts:583-1371 | an operation goes through exactly if its row exists, the applicant's operations come from that applicant, and the row admits it; a new application exactly without another open one and with the site found |
| `Onboarding.AdmittedIff` | apps/api/src/modules/applications/applications.service.ts:661-1371 | for each operation the stages and other conditions under which a row admits it: the reason of a rejection, the tier on offer, the billing cycle priced, the payment chargeable, the tier known at activation, and so on |
| `Onboarding.RefusedFor` | apps/api/src/modules/applications/applications.service.ts:661-1371 | what a refused operation is answered: the wrong stage first, then the first of its own conditions that fails |
| `Onboarding.RowBecomes` | apps/api/src/modules/applications/applications.service.ts:661-1371 | for each operation the row it leaves, all fields it does not name unchanged |
| `Onboarding.CreatedRow` | apps/api/src/modules/applications/applications.service.ts:602-659 | a new application is submitted and pending review, with nothing else set |
| `Onboarding.RowKeepsCoherent` | apps/api/src/modules/applications/applications.service.ts:661-1371 | each operation keeps: status is the legacy status of the stage, payment-confirmed implies SETTLED with a settle time, quote stages imply a custom-pricing snapshot |
| `Onboarding.RunKeepsCoherent` | apps/api/src/modules/applications/applications.service.ts:583-1371 | the same over every run of all operations, payment syncs at any stage included |
| `Onboarding.TerminalFrozenIff` | apps/api/src/modules/applications/applications.service.ts:1173-1222 | a step leaves all completed and rejected rows exactly as they are if and only if it is not a payment sync by the applicant, with a linked payment that commerce knows, on one of them |
| `Onboarding.TerminalForever` | apps/api/src/modules/applications/applications.service.ts:1173-1222 | in runs without such a sync, completed and rejected rows never change again |
| `Onboarding.OnlyForward` | apps/api/src/modules/applications/applications.service.ts:777-1371 | apart from payment syncs an application moves forward by one milestone at a time or out by rejection |
| `Onboarding.StepKeepsOneOpenIff` | apps/api/src/modules/applications/applications.service.ts:583-600 | a step keeps "at most one open application per applicant" if and only if it does not reopen a row whose applicant has another one open |
| `Onboarding.GuardedRunSafe` | apps/api/src/modules/applications/applications.service.ts:583-1371 | in runs without reopening syncs: coherent rows, completed rows with a tier, an organisation and payment or contract, and at most one open application per applicant |
| `Onboarding.PaymentStagesSuffice` | apps/api/src/modules/applications/applications.service.ts:1173-1222 | calling sync only in the two payment stages is enough for that |
| `Onboarding.SyncCanOpenASecondApplication` | apps/api/src/modules/applications/applications.service.ts:1173-1222 | for any applicant, kind, reason and payment: four calls in which an unguarded sync reopens a rejected application next to a newer one |
| `Onboarding.RowKeepsEntitled` | apps/api/src/modules/applications/applications.service.ts:1255-1371 | completed rows keep a tier, an organisation, and payment or contract |
| `Onboarding.StepKeepsQuotesIff` | apps/api/src/modules/applications/applications.service.ts:1173-1371 | a step keeps "custom-priced and past the quote, or completed, implies the quote was accepted" if and only if it is not such a payment sync on a custom-priced row whose quote is not accepted |
| `Onboarding.QuotesHonouredForever` | apps/api/src/modules/applications/applications.service.ts:583-1371 | in runs without such a sync no custom-priced application completes on a quote that was not accepted |
| `Onboarding.SyncSkipsTheQuote` | apps/api/src/modules/applications/applications.service.ts:1173-1222 | for any applicant, custom tier and settled payment: five calls, none of which reopens anything, that complete a custom-priced application with its quote still pending |
| `OnboardingMigration.Migrate` | scripts/migrate-open-onboarding-records.ts:60-192 | a real run computes the migrated table and a dry run changes nothing; the counters count scanned, stale, converted and skipped rows exactly |
| `OnboardingMigration.RestageAll` | scripts/migrate-open-onboarding-records.ts:83-104 | the first loop gives every row the derived stage, counts the stale ones, and changes nothing in a dry run |
| `OnboardingMigration.StaleAre` | scripts/migrate-open-onboarding-records.ts:91-104 | the update count is the number of rows whose stage differs from the one their status stands for |
| `OnboardingMigration.ConvertAll` | scripts/migrate-open-onboarding-records.ts:106-186 | the second loop gives one application to every open legacy record whose applicant has none, and counts the same in a dry run |
| `OnboardingMigration.OpenLegacyInOrder` | scripts/migrate-open-onboarding-records.ts:106-119 | the open legacy records are taken in the order of the table |
| `OnboardingMigration.StatusTakenFor` | scripts/migrate-open-onboarding-records.ts:27-58 | each retired status is taken for the service's own that stands nearest, and no row is put into a quote stage |
| `OnboardingMigration.TypeRead` | scripts/migrate-open-onboarding-records.ts:18-26 | an account type is read in any case and with blanks around it; a missing, empty or unknown one is a company |
| `OnboardingMigration.RestageKeepsRow` | scripts/migrate-open-onboarding-records.ts:27-58 | on rows the service wrote, the derived stage keeps the status equation and openness, and changes only the two quote stages |
| `OnboardingMigration.MigratedRows` | scripts/migrate-open-onboarding-records.ts:27-186 | on every table, whatever stages its rows carry: each row changes in its stage only, is open afterwards exactly when its status stands for an application under way, and follows the status equation exactly when its status is one the service writes; every applicant with an open legacy record holds an open application, and each new row is a fresh one made from such a record |
| `OnboardingMigration.OneOpenAfterIff` | scripts/migrate-open-onboarding-records.ts:83-186 | on every table the script leaves nobody with two open applications if and only if nobody had two rows with an open status before |
| `OnboardingMigration.MigrationOpensASecond` | scripts/migrate-open-onboarding-records.ts:27-58 | for any applicant: a draft and a rejected-stage row with a signed lease, one open application before the script and two after it |
| `OnboardingMigration.MigrationSafe` | scripts/migrate-open-onboarding-records.ts:83-186 | a corollary for tables all of whose rows follow the status equation, as the service writes them: the script keeps the equation and each row's openness, never gives an applicant a second open application, and leaves every applicant with an open legacy record holding one |
| `OnboardingMigration.SecondRunSkipsAll` | scripts/migrate-open-onboarding-records.ts:83-186 | a second real run finds nothing stale and nothing to convert |
| `OnboardingMigration.RealRunCreates` | scripts/migrate-open-onboarding-records.ts:121-186 | on every table, with one legacy record per user: a real run creates as many applications as open legacy records have no open application among the restaged rows; the dry run, which looks at the stages not yet rewritten, is short by the users open by stage only and over by those open by status only |
| `OnboardingMigration.DryRunRightIff` | scripts/migrate-open-onboarding-records.ts:121-186 | the dry run announces what the real run creates if and only if, among the users of open legacy records, as many are open by stage only as by status only before the run |
| `OnboardingMigration.DefaultStagesUndercount` | prisma/migrations/20260413101500_canonical_tenant_onboarding/migration.sql:29-29 | when every stage is still the column's default, the dry run is short by exactly the users of open legacy records who have applications, all with a finished status |
| `OnboardingMigration.DryRunMissesWithdrawn` | scripts/migrate-open-onboarding-records.ts:121-186 | for any user with a withdrawn application at the default stage and an open legacy record: the dry run announces none, the real run creates one |
| `OnboardingMigration.DryRunPredicts` | scripts/migrate-open-onboarding-records.ts:121-186 | a corollary for rows that follow the status equation, with one legacy record per user: the dry run's conversion count is exactly what the real run creates |
| `OnboardingMigration.UnpaidConfirmedIff` | scripts/migrate-open-onboarding-records.ts:27-58 | any row: it is payment-confirmed without a settled payment afterwards exactly when its status is a paid deposit or one of the lease and compliance statuses and its payment is not settled |
| `OnboardingMigration.MovedCoherentIff` | scripts/migrate-open-onboarding-records.ts:27-58 | any row: it satisfies the service's row invariant afterwards exactly when its status is one the service writes, a paid deposit is settled, and a chosen tier or the status APPROVED comes with an approval time and a status past review |
| `OnboardingMigration.RestageKeepsCoherentIff` | scripts/migrate-open-onboarding-records.ts:27-58 | a corollary for rows that satisfy the invariant: restaging keeps it exactly unless the row is an accepted enterprise quote that was not settled |
| `OnboardingMigration.AcceptedQuoteLosesCoherence` | scripts/migrate-open-onboarding-records.ts:27-58 | an accepted quote without a payment that the script turns into a payment-confirmed row |
| `OnboardingMigration.MovedQuoteIff` | scripts/migrate-open-onboarding-records.ts:27-58 | any row: its quote is honoured afterwards exactly when it has no custom price or the quote was accepted, so a row that honours its quote stops doing so exactly if it was waiting for a custom-priced quote not yet accepted |
| `OnboardingMigration.PendingQuoteDropped` | scripts/migrate-open-onboarding-records.ts:27-58 | for any applicant, tier and time: a coherent row waiting for its quote that the script takes out of the quote stages unaccepted |
| `OnboardingMigration.PendingQuoteStranded` | scripts/migrate-open-onboarding-records.ts:27-58 | after the script such a row accepts an operation if and only if it is a payment sync with a linked payment that commerce knows; every other operation of the service refuses it |
| `FleetMigration.Migration.ApplyBackfill` | scripts/ops/check-vehicle-fleet-telemetry-migration.ts:382-468 | commits all five updates or, when one throws, none, and reports each statement's row count |
| `FleetMigration.UpdatesCompose` | scripts/ops/check-vehicle-fleet-telemetry-migration.ts:382-454 | the five ordered updates compose to one change per vehicle and per command |
| `FleetMigration.VehicleBecomes` | scripts/ops/check-vehicle-fleet-telemetry-migration.ts:382-430 | field by field what a vehicle becomes: an organisation set stays; otherwise, unless it is personal, it takes its user's, else that of the only active membership; an ownership set stays, otherwise it is personal without an organisation and with one a fleet's or the organisation's by its fleet account |
| `FleetMigration.OnlyMembership` | scripts/ops/check-vehicle-fleet-telemetry-migration.ts:403-412 | the organisation taken from memberships is that of the user's only active one, and several are ambiguous, wherever they stand in the table |
| `FleetMigration.VehicleSettles` | scripts/ops/check-vehicle-fleet-telemetry-migration.ts:385-430 | a migrated vehicle has an ownership type, lacks an organisation as an organisation or fleet vehicle exactly if it was without candidate, and keeps whatever was set |
| `FleetMigration.DomainSettles` | scripts/ops/check-vehicle-fleet-telemetry-migration.ts:432-454 | a migrated domain is neither missing nor non-canonical, and unsupported ones are left as they were |
| `FleetMigration.DomainBecomes` | scripts/ops/check-vehicle-fleet-telemetry-migration.ts:432-454 | a missing domain becomes CHARGE_POINT, one that spells CHARGE_POINT or VEHICLE in any case and with spaces around it becomes that word, and any other stays |
| `FleetMigration.VehicleQueries` | scripts/ops/check-vehicle-fleet-telemetry-migration.ts:208-330 | the eight vehicle conditions of the profile in terms of a vehicle's columns, its user's row and the memberships |
| `FleetMigration.DomainsAre` | scripts/ops/check-vehicle-fleet-telemetry-migration.ts:330-380 | which domains the profile calls missing, unsupported and non-canonical |
| `FleetMigration.ProfilePredicts` | scripts/ops/check-vehicle-fleet-telemetry-migration.ts:208-380 | all twelve counts after an apply in terms of those before: nothing is missing, non-canonical or left to backfill, the totals, unsupported domains and personal vehicles with an organisation are unchanged, and the vehicles without an organisation are exactly the "without candidate" count |
| `FleetMigration.BackfillCounts` | scripts/ops/check-vehicle-fleet-telemetry-migration.ts:235-269 | what the first two updates report exceeds the profile's "can backfill" counts by the untyped vehicles they also take, less, for memberships, the vehicles the first update already took |
| `FleetMigration.BackfillPredictedIff` | scripts/ops/check-vehicle-fleet-telemetry-migration.ts:235-269 | the profile predicts the first update if and only if no untyped vehicle without an organisation has a user with one, and the second if and only if as many untyped vehicles join it as vehicles have both sources |
| `FleetMigration.BackfillMispredicted` | scripts/ops/check-vehicle-fleet-telemetry-migration.ts:382-430 | two vehicles for which both predictions are wrong |
| `FleetMigration.SecondApplyUpdatesNothing` | scripts/ops/check-vehicle-fleet-telemetry-migration.ts:382-468 | a second apply changes nothing and each of its five statements updates zero rows |
| `FleetMigration.IdleIffUnchanged` | scripts/ops/check-vehicle-fleet-telemetry-migration.ts:382-463 | all five reported counts are zero exactly when the apply changed nothing |
| `SyncBatch.SyncQueue.SyncBatch` | apps/api/src/modules/attendant/attendant.service.ts:618-690 | succeeds exactly when on duty, enabled and every first occurrence of a new key has a readable date; then old rows stay, each new key has one row from its first action, and the results line up with the actions, replayed being false exactly at a new key's first occurrence; each action has its row under this user and its own key and the answer shows that row, and nobody else's rows change; otherwise nothing changes |
| `SyncBatch.Apply` | apps/api/src/modules/attendant/attendant.service.ts:627-680 | the same for the body of the transaction |
| `SyncBatch.EqualKeysEqualIds` | apps/api/src/modules/attendant/attendant.service.ts:641-680 | two results have equal ids exactly when their actions have equal keys |
| `SyncBatch.ResubmitChangesNothing` | apps/api/src/modules/attendant/attendant.service.ts:627-680 | the same batch can always be submitted again: it changes nothing and answers with the same rows, all replayed |
| `SyncBatch.GrowsByNewKeys` | apps/api/src/modules/attendant/attendant.service.ts:627-680 | the store grows by the number of distinct new keys |
| `SyncBatch.BatchKeysAre` | apps/api/src/modules/attendant/attendant.service.ts:641-650 | the keys of a batch are those of its actions |
| `SyncBatch.Unreadable` | apps/api/src/modules/attendant/attendant.service.ts:1195-1212 | a new action with an unreadable date refuses the batch wherever it stands |
| `SyncBatch.ParsedIff` | apps/api/src/modules/attendant/attendant.service.ts:1195-1212 | no date is stored for no text or a blank one; otherwise exactly the date the text reads as without the blanks around it, and it is unreadable exactly if that does not parse |
| `HttpMetrics.HttpMetricsService.Record` | apps/api/src/common/observability/http-metrics.service.ts:26-79 | keeps the exact summary of the history of accepted measurements: totals, status classes summing to the requests, and per tracked route count, errors, sum, minimum, maximum and the last min(count, 1024) durations; route counts sum to the requests less those dropped, and a route is dropped only at a full table of 1000 |
| `HttpMetrics.HttpMetricsService.CountRequest` | apps/api/src/common/observability/http-metrics.service.ts:36-46 | totals and status classes stay those of the history |
| `HttpMetrics.HttpMetricsService.TrackRoute` | apps/api/src/common/observability/http-metrics.service.ts:48-78 | the route table stays that of the history |
| `HttpMetrics.HttpMetricsService.Snapshot` | apps/api/src/common/observability/http-metrics.service.ts:94-130 | one row per tracked route with minMs <= p95 <= p99 <= maxMs and both percentiles nearest-rank |
| `HttpMetrics.PercentileIsNearestRank` | apps/api/src/common/observability/http-metrics.service.ts:108-119 | the value read from the sorted copy is a sample with at least that share of the samples at or below it, and less than that share below it |
| `HttpMetrics.CountsAre` | apps/api/src/common/observability/http-metrics.service.ts:108-119 | the two counts in the definition of a percentile are numbers of samples at or below, and below, a value |
| `HttpMetrics.PercentilesInOrder` | apps/api/src/common/observability/http-metrics.service.ts:108-119 | a lower percentile never exceeds a higher one |
| `HttpMetrics.SortedIsPermutation` | apps/api/src/common/observability/http-metrics.service.ts:109-109 | the sorted copy is ascending and holds the same samples as often |
| `HttpMetrics.SummaryStep` | apps/api/src/common/observability/http-metrics.service.ts:64-78 | one more duration, with the splice at the cap, keeps the metric the summary of all durations and the samples the most recent ones |
| `HttpMetrics.TrackedStep` | apps/api/src/common/observability/http-metrics.service.ts:48-78 | tracking a measurement keeps every route exact and the route counts summing to the requests less those dropped |
| `HttpMetrics.CapsMean` | apps/api/src/common/observability/http-metrics.service.ts:24-78 | at most a thousand routes are tracked and one is missing only at exactly a thousand; each tracked route counts all its durations and keeps the last 1024 |
| `HttpMetrics.DroppedStep` | apps/api/src/common/observability/http-metrics.service.ts:49-52 | dropping a measurement at the cap keeps them too |
| `HttpMetrics.ClassStep` | apps/api/src/common/observability/http-metrics.service.ts:41-45 | status-class counts stay exact and sum to the requests |
| `HttpMetrics.RouteKeyReads` | apps/api/src/common/observability/http-metrics.service.ts:47-47 | a route is listed under its verb in upper case, a space and the route |
| `HttpMetrics.RouteKeySameIff` | apps/api/src/common/observability/http-metrics.service.ts:47-47 | two requests fall under one route exactly if their verbs, which hold no space, agree up to case and their routes agree |
| `HttpMetrics.ClassMeans` | apps/api/src/common/observability/http-metrics.service.ts:41-45 | class c holds the statuses from 100c to 100c + 99 |

## Left out

- Time zones and daylight saving: local time is a plain count of milliseconds, and calendar arithmetic in tokens is seven days of fixed length.
- Rounding and floating point: `toFixed`, percentages shown to users and sums of doubles are exact reals here. The percentile index is exact, since the doubles for 0.95 and 0.99 lie just below those fractions and their products round up to the same integers.
- Unicode: trimming knows space, tab, newline and carriage return, case folding is ASCII; wildcard characters in case-insensitive e-mail queries are ordinary characters.
- JavaScript truthiness of ids: ids, names and tokens that are present are not empty, except where a module models the empty text explicitly.
- Cryptography and tokens on the wire: signatures, hashes, bcrypt, TOTP and temporary passwords appear as outcomes or as the claims they protect; JWT expiry is part of the verification outcome.
- Invitations.RunMovesForward: does not model the deletion of an organisation, on which the schema would delete its invitations; nothing in the repository deletes one.
- InvitationSeeding.InvitationSeeds.ActivateInvitationOnLogin: does not model stations that are moved or deleted between an invite and its activation; which organisation a station belongs to is fixed, and with a moved station the stored list can be refused.
- LruList.RequestRefines: takes requests at distinct times; equal ones are the matter of LruTies.RequestRanked, TenantClientCache.CacheIsRanked and TenantClientCache.CacheHoldsLatest.
- Races between concurrent requests: steps are sequential. The two-factor bound is for the synchronous TOTP path only, not for the passkey and e-mail paths that await between check and failure.
- Users loaded before a derivation and changed during it: `SessionScope` reads the row when it derives the session.
- Permission lists, role labels, display names and the access profile beyond the canonical role: finite tables.
- Inviter, scope and DTO checks before an invitation or a team change: one parameter says whether they pass. The status and temporary-password fields of users are not part of `Invitations`.
- Pricing sums, the pricing snapshot parser, documents, events and audit records of onboarding; commerce and provisioning answers are parameters.
- Which of two payment intents, the one given or the one linked, a payment sync asks commerce about: the answer is a parameter.
- Opening and closing database connections, URL validation and TLS options: creating a client succeeds or fails by parameter, and rewriting a URL's schema is an arbitrary function.
- Outcome counts per route in the anomaly monitor, the Prometheus text of the metrics and the tenant-routing counters of the metrics service beyond those the guard moves.
- Utilisation percentages, station scores and the other dashboards of the analytics service: ratios of the totals proved here.
- The two lists of samples that the profiling script prints beside its twelve counts.
- Notification, mail, Kafka, OCPI and other I/O after a commit.
