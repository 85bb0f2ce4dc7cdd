# Mentoring platform: a verified model

A mentoring platform sells sessions with mentors.  Mentors publish weekly availability
rules, mentees book slots with coins or by card, a session is joined, ended and settled,
and money moves between coin balances and a platform wallet that each keep a ledger.
Around this there are articles with threaded comments, cached feeds, a dashboard and
slugs.  This project models that behaviour in Dafny and proves what its counters, caches,
ledgers and schedules promise, over every input and every run.

`dafny verify dfyconfig.toml` checks everything.

| file | contents |
|---|---|
| `RecencyList.dfy`, `LruCache.dfy` | the feed cache: a list in recency order, and the hash map over a doubly linked list that refines it |
| `Comments.dfy` | comment trees and their cached counters |
| `Decimal.dfy`, `Calendar.dfy` | decimal numerals, dates, ISO timestamps, clock times and Indian Standard Time |
| `Availability.dfy`, `RuleChanges.dfy` | rules, their conflicts, and which changes to them are accepted |
| `Slots.dfy`, `Windows.dfy` | the slots rules yield, the availability test of a reschedule, and what both mean minute by minute |
| `Money.dfy`, `Bookings.dfy`, `BookingService.dfy` | amounts, the booking steps as functions on the stored state, and the use cases that make these steps in place |
| `Acceptance.dfy`, `Refusals.dfy`, `Outcomes.dfy` | when a request is accepted, what it is told otherwise, and what it leaves behind, in stored fields and plain numbers |
| `Exclusivity.dfy`, `BothRoles.dfy`, `Sessions.dfy`, `Attendance.dfy`, `Agreements.dfy`, `NoShows.dfy`, `Soundness.dfy` | what every run of booking steps keeps |
| `CoinLedger.dfy`, `PlatformLedger.dfy`, `LedgerIds.dfy`, `Solvency.dfy`, `SettlementOnce.dfy`, `LedgerGap.dfy` | balances, ledgers, obligations and settlement |
| `Ranking.dfy`, `FeedScoring.dfy`, `ArticleFeeds.dfy` | scores, top-k, pages and the cached feed |
| `Dashboard.dfy`, `Activity.dfy`, `LoginStreak.dfy`, `Slugs.dfy` | activity buckets and overview, login streak, free slugs |
| `Counterexamples.dfy`, `MovedSessions.dfy`, `CancelledSessions.dfy` | runs that show where a promise fails: in general, after a rescheduling, and when cancelled sessions are settled or settled ones cancelled |

How the system is read:

- A use case is one step over the stored state.  `now` is a parameter, and ids of new
  records are fresh parameters.  Comments are numbered in the order of creation.
- JavaScript numbers are exact reals, and `Math.round(x)` is the floor of x + 1/2.
- A step that throws after some of its writes is *Crashed*: the writes made so far stay.
  The platform wallet stores a negative balance before its entity refuses it
  (`src/domain/entities/platform-wallet.entity.ts:10`), so a withdrawal that is not covered
  is such a crash.  A coin transaction of amount 0 cannot be constructed
  (`src/domain/entities/coin-transactions.entity.ts:36`), so a free session cannot be booked
  with coins.
- A booking is *live* when the overlap queries see it: PENDING, CONFIRMED or STARTED, and
  its payment not FAILED (`src/infrastructure/database/mongodb/repositories/booking.repository.ts:42-71`).
- Clock times are "H:MM" or "HH:MM" up to 23:59, and dates of rules are valid calendar dates.
- Ids are compared as in their collation, which is taken to be a total order; `log10` is any
  strictly increasing function.

Where a promise fails, the exact condition is proved, and a run shows the failure
(`Counterexamples.dfy`, `MovedSessions.dfy`, `CancelledSessions.dfy`):

- Settlement does not look at cancellation, and cancellation does not look at settlement.
  A cancelled booking whose mentor joins all the same is refunded and paid, or leaves the
  wallet unable to pay, so that a retry credits the mentor again.  A cancelled booking that
  nobody joins can be refunded once more as a no-show, so that a mentee gets 75 percent and
  then everything; and a booking refunded as a no-show stays CONFIRMED, so that the mentor
  can cancel it and have it refunded again.  Settling twice is harmless if and only if the
  wallet covered the first settlement.
- For the same reason cancelled sessions count as missed, and a mentor can be blocked
  although no session was left to be held.
- A refund writes its ledger row once and moves the balance every time, so the platform
  ledger stops agreeing with the balance exactly when a step repeats a recorded refund.
- A new session is checked against both roles of its mentee, but not against the sessions
  its mentor's user has booked as a mentee.
- The guard against own sessions compares the mentee's user id with the id of the mentor's
  profile (`src/domain/entities/booking.entity.ts:95`), so mentors can book themselves.
- The overlap queries skip COMPLETED sessions, which may be ended a minute early.
- Rescheduling looks rules up by the UTC date while slots belong to IST dates, so an offered
  slot before 05:30 may not be found.
- Rescheduling compares clock times with the rule and never the two ends with each other.
  It accepts sessions that end on another day, and sessions that end before they start; the
  mentor can end such a session, and be paid for it, before it starts.
- Rescheduling may change the length of a session and never changes its amount.
- Negative page numbers count from the end, because `slice` does.

## Model

| member | source | states |
|---|---|---|
| `LruCaches.LruCache.constructor` | `src/infrastructure/cache/lru-cache.ts:9-19` | a new cache is empty, has no operations on its trace and its pointers are valid |
| `LruCaches.LruCache.Get` | `src/infrastructure/cache/lru-cache.ts:21-34` | an expired entry is deleted and missed, a live one moves to the front and is returned; the entries are what the list model holds after the same operations |
| `LruCaches.LruCache.Set` | `src/infrastructure/cache/lru-cache.ts:36-60` | overwrites in place or inserts at the head, then drops the last entry when the map exceeds `max`; the entries are what the list model holds after the same operations |
| `LruCaches.LruCache.Delete` | `src/infrastructure/cache/lru-cache.ts:62-68` | the key leaves the map and the list together, the other entries keep their order |
| `LruCaches.LruCache.SizeWithinMax` | `src/infrastructure/cache/lru-cache.ts:57-59` | over every trace the map stays within `max` |
| `LruCaches.LruCache.AddToHead` | `src/infrastructure/cache/lru-cache.ts:70-83` | prepends the node and keeps `prev`, `next`, `head` and `tail` consistent |
| `LruCaches.LruCache.RemoveNode` | `src/infrastructure/cache/lru-cache.ts:85-97` | takes out exactly the node at its position, whether it is first, last, single or in the middle |
| `LruCaches.LruCache.MoveToHead` | `src/infrastructure/cache/lru-cache.ts:99-102` | removal and re-insertion move the entry to the front of the list |
| `LruCaches.LruCache.EvictLru` | `src/infrastructure/cache/lru-cache.ts:104-108` | drops exactly the last entry, nothing on an empty list |
| `LruCaches.LruCache.WalkFrom` | `src/infrastructure/cache/lru-cache.ts:70-97` | following `next` from the head meets all nodes of the list, in order, and then ends |
| `RecencyList.RunBounded` | `src/infrastructure/cache/lru-cache.ts:36-60` | over every trace no key is stored twice and the size stays within `max` |
| `RecencyList.RunIsSubsequenceOfUnbounded` | `src/infrastructure/cache/lru-cache.ts:21-60` | over every trace the entries are a subsequence of those of a cache that never evicts, with the same values and expiry times |
| `RecencyList.UnboundedIsPlainMap` | `src/infrastructure/cache/lru-cache.ts:21-68` | the cache that never evicts holds exactly the entries of a plain map with expiry |
| `RecencyList.HitAgreesWithPlainMap` | `src/infrastructure/cache/lru-cache.ts:21-34` | every hit returns what the plain map returns, and without eviction the misses agree too |
| `RecencyList.RunSortedByUse` | `src/infrastructure/cache/lru-cache.ts:21-60` | the list is in strictly decreasing order of the last `set` or hitting `get` |
| `RecencyList.StepKeepsBehind` | `src/infrastructure/cache/lru-cache.ts:21-60` | a key is not evicted while fewer than `max` other keys have been used since its last use |
| `RecencyList.EvictedIsLeastRecentlyUsed` | `src/infrastructure/cache/lru-cache.ts:57-59` | an evicted key is the one whose last use is the oldest, and it is the only one that goes |
| `Comments.CommentBoard.CreateComment` | `src/application/modules/article/use-cases/create-article-comment.use-case.ts:37-94` | rejects missing articles and parents; otherwise stores the reply, counts it for the article and bumps `repliesCount` of the parent and all its ancestors, by a loop that terminates |
| `Comments.CommentBoard.DeleteComment` | `src/application/modules/article/use-cases/delete-article-comment.use-case.ts:28-52` | soft delete by the owner; the article counter goes down by one and is clamped at 0 |
| `Comments.PathStep` | `src/application/modules/article/use-cases/create-article-comment.use-case.ts:84-93` | moving to the parent takes exactly one comment off the path still to be bumped |
| `Comments.CreateKeepsCountersExact` | `src/application/modules/article/use-cases/create-article-comment.use-case.ts:72-94` | a creation keeps every `repliesCount` equal to the number of proper descendants and every `commentsCount` equal to the number of active comments |
| `Comments.DeleteKeepsCountersExact` | `src/domain/entities/article.entity.ts:108-111` | a deletion keeps all counters exact, and the clamp at 0 is never what decides |
| `Comments.RunCountersExact` | `src/application/modules/article/use-cases/create-article-comment.use-case.ts:72-94` | over every run of creations, deletions and changes to articles all counters are exact |
| `Comments.CreateAcceptedExactly` | `src/application/modules/article/use-cases/create-article-comment.use-case.ts:37-71` | a comment is stored if and only if its article is there and active and the comment replied to, if any, is active and of that article; what is answered otherwise |
| `Comments.RunWrittenInPlace` | `src/application/modules/article/use-cases/create-article-comment.use-case.ts:37-71` | over every run every comment was written under an article and a parent that were active then |
| `Comments.DeleteAcceptedExactly` | `src/application/modules/article/use-cases/delete-article-comment.use-case.ts:28-40` | a deletion succeeds if and only if the comment is active and the caller is its author |
| `Comments.DeleteWrites` | `src/application/modules/article/use-cases/delete-article-comment.use-case.ts:40-52` | it makes that comment inactive and takes one off the counter of its article, down to zero |
| `Comments.StepWithdrawsExactly` | `src/application/modules/article/use-cases/delete-article-comment.use-case.ts:28-40` | a step makes a comment inactive if and only if it is its author's request; article, parent and author never change |
| `Comments.RunDeletedExactly` | `src/application/modules/article/use-cases/delete-article-comment.use-case.ts:28-40` | over every run a comment is inactive if and only if its author asked for its deletion |
| `Calendar.IsoOrder` | `src/application/modules/availability/utils/availability-slot.util.ts:61-63` | comparing canonical UTC timestamps of the years 0 to 9999 as strings is comparing the instants (the ordering property of section 5.1 of RFC 3339) |
| `Calendar.ToMinutesToHHMM` | `src/shared/utilities/time.util.ts:4-20` | rendering a minute of the day as "HH:MM" and reading it back returns it |
| `Calendar.IstRoundTrip` | `src/shared/utilities/time.util.ts:29-38` | an IST date and minute converted to UTC and read back in IST: the minute is always unchanged, the date exactly from the year 100 on |
| `Calendar.UtcRangeExact` | `src/shared/utilities/time.util.ts:40-52` | the inclusive UTC range of an IST date holds exactly the instants of that date, if and only if the year is at least 100 |
| `Availability.ValidateBreaks` | `src/domain/utilties/validate-availability-breaktime.ts:4-42` | reports the first problem in the order of the checks |
| `Availability.BreaksAcceptedExactly` | `src/domain/utilties/validate-availability-breaktime.ts:11-41` | breaks are accepted if and only if there are at most three, each a proper span in the window, and they are pairwise disjoint |
| `Availability.RuleBook.Validate` | `src/domain/entities/availability.entity.ts:43-96` | a rule is refused for the first violated condition, in the order of the checks |
| `Availability.RuleBook.CheckAndCreate` | `src/application/modules/availability/use-cases/check-and-create-availability.use-case.ts:29-78` | stores the new active rule exactly when it is valid and conflicts with no active rule of the mentor; otherwise changes nothing and reports all conflicts |
| `Availability.RuleBook.CheckAndUpdate` | `src/application/modules/availability/use-cases/check-and-update-availability.use-case.ts:30-93` | validates and checks the merged rule against the other active rules, then overwrites |
| `Availability.RuleBook.UpdateAvailability` | `src/application/modules/availability/use-cases/update-availability.use-case.ts:23-64` | overwrites the given fields of a rule of the caller, and nothing else |
| `Availability.RuleBook.CheckAndReenable` | `src/application/modules/availability/use-cases/check-and-reenable-availability.use-case.ts:29-74` | switches a rule on exactly when it conflicts with no other active rule |
| `Availability.RuleBook.Delete` | `src/application/modules/availability/use-cases/delete-availability.use-case.ts:19-32` | switches a rule of the caller off |
| `Availability.ConflictSymmetric` | `src/application/modules/availability/utils/availability-conflict.util.ts:9-38` | the conflict test is symmetric |
| `Availability.ConflictExact` | `src/application/modules/availability/utils/availability-conflict.util.ts:9-38` | two rules cover a common minute of a common day if and only if they conflict and some day falls under both |
| `Availability.ConflictExactOverAWeek` | `src/application/modules/availability/utils/availability-conflict.util.ts:9-38` | over a common range of a week the conflict test is exact |
| `Availability.StoredIsChecked` | `src/application/modules/availability/use-cases/check-and-update-availability.use-case.ts:46-81` | the rule that is stored is the rule that was checked |
| `Availability.PutKeepsConflictFree` | `src/application/modules/availability/use-cases/check-and-update-availability.use-case.ts:61-81` | storing a checked rule keeps the active rules of every mentor free of conflicts, in both directions of the test |
| `Availability.RunConflictFree` | `src/application/modules/availability/use-cases/check-and-update-availability.use-case.ts:61-81` | over every run of checked creates, updates, re-enables and deletes the active rules of a mentor never conflict |
| `Availability.RunCoversOnce` | `src/application/modules/availability/utils/availability-conflict.util.ts:9-38` | at every moment of a run each minute belongs to at most one active rule of a mentor |
| `RuleChanges.ValidRuleExactly` | `src/domain/entities/availability.entity.ts:43-96` | a rule is valid if and only if it has a weekday, an hour or more, two days or more, 5 to 60 minutes between slots and less than a slot, and at most three disjoint breaks inside the window |
| `RuleChanges.RuleAnswers` | `src/domain/entities/availability.entity.ts:43-96` | which bound is reported when several are missed |
| `RuleChanges.BreakAnswers` | `src/domain/utilties/validate-availability-breaktime.ts:4-42` | when breaks are too many, and when two of them overlap |
| `RuleChanges.FirstBadBreak` | `src/domain/utilties/validate-availability-breaktime.ts:11-30` | otherwise the first break that is empty or outside is reported |
| `RuleChanges.MergeExactly` | `src/application/modules/availability/use-cases/check-and-update-availability.use-case.ts:46-58` | every given field replaces the old one and every absent one is left alone |
| `RuleChanges.CreateAcceptedExactly` | `src/application/modules/availability/use-cases/check-and-create-availability.use-case.ts:29-78` | a new rule is stored if and only if it is valid and conflicts with no active rule of its mentor |
| `RuleChanges.UpdateAcceptedExactly` | `src/application/modules/availability/use-cases/check-and-update-availability.use-case.ts:30-93` | an update is stored if and only if the rule is the caller's and the merged rule is valid and has no rival |
| `RuleChanges.ReenableAcceptedExactly` | `src/application/modules/availability/use-cases/check-and-reenable-availability.use-case.ts:29-74` | a rule is switched on if and only if it is the caller's and is on already or has no rival |
| `RuleChanges.DeleteAcceptedExactly` | `src/application/modules/availability/use-cases/delete-availability.use-case.ts:19-32` | a rule is switched off if and only if it is the caller's |
| `RuleChanges.ChangeAnswers` | `src/application/modules/availability/use-cases/check-and-create-availability.use-case.ts:55-74` | what is answered otherwise; conflicts are reported all of them |
| `RuleChanges.StepByOwner` | `src/application/modules/availability/use-cases/check-and-update-availability.use-case.ts:36-44` | no rule is removed or given to another mentor, and only its own mentor changes it |
| `RuleChanges.WeekdaysInTurn` | `src/infrastructure/database/mongodb/repositories/availability.repository.ts:83-110` | the epoch was a Thursday and the weekdays follow one another |
| `RuleChanges.RunInBounds` | `src/domain/entities/availability.entity.ts:43-96` | over every run of checked operations every stored rule is within the bounds |
| `Slots.ComputeSlotsForDate` | `src/application/modules/availability/utils/availability-slot.util.ts:16-77` | the loop terminates and returns the free windows of the grid, comparing bookings as strings |
| `Slots.StringsDecideBooking` | `src/application/modules/availability/utils/availability-slot.util.ts:44-63` | the string comparisons decide whether a window and a booking overlap in time |
| `Slots.OfferedExactly` | `src/application/modules/availability/utils/availability-slot.util.ts:34-76` | offered are exactly the windows start + k * (duration + buffer) that end by the end of the rule, start after now and avoid every break and booking |
| `Slots.OfferedInOrder` | `src/application/modules/availability/utils/availability-slot.util.ts:34-76` | the slots come in order, at least the buffer apart, inside the window and clear of breaks |
| `Slots.PublishedTimesExact` | `src/application/modules/availability/utils/availability-slot.util.ts:26-42` | the "HH:MM" strings a slot is published as denote its minutes |
| `Windows.OfferedClearExactly` | `src/application/modules/availability/utils/availability-slot.util.ts:34-76` | by a valid rule, offered are exactly the windows of its grid that end by its end, start after now, share no minute with a break and no instant with a booking |
| `Slots.StoredRulesStep` | `src/application/modules/availability/utils/availability-slot.util.ts:37-74` | every stored rule has a grid that moves forward, so the loop ends on it |
| `Slots.SlotsOfDifferentRulesApart` | `src/application/modules/availability/use-cases/check-and-update-availability.use-case.ts:61-81` | after every run of checked operations the slots two active rules of a mentor offer on a date never overlap |
| `Slots.OfferedSlotFits` | `src/application/modules/booking/use-cases/reschedule-booking.use-case.ts:73-104` | every offered slot passes the window and break test against its own rule |
| `Slots.OfferedSlotFoundExactly` | `src/infrastructure/database/mongodb/repositories/availability.repository.ts:83-110` | rules are looked up by the UTC date: the rule of an offered slot is found if and only if it applies on that day, which from the year 100 on means that the slot starts at 05:30 or later or the rule applies on the day before |
| `Slots.OfferedSlotAcceptedExactly` | `src/application/modules/booking/use-cases/reschedule-booking.use-case.ts:66-104` | an offered slot passes the availability test if and only if its own rule is found or another active rule that applies on the lookup day holds it |
| `Counterexamples.EarlySlotNotAccepted` | `src/infrastructure/database/mongodb/repositories/availability.repository.ts:96-107` | the only rule of a mentor, stored by a checked run, offers a slot at 04:00 that the test does not accept |
| `Windows.OpenForExactly` | `src/application/modules/booking/use-cases/reschedule-booking.use-case.ts:81-104` | a rule is open for a new session, at every instant of its window and outside its breaks, if and only if the session ends after it starts, on the same IST day, and passes the test with its end rounded up to a minute |
| `Windows.OpenRuleFoundExactly` | `src/application/modules/booking/use-cases/reschedule-booking.use-case.ts:66-110` | the same for the rules a rescheduling finds: one of them is open for the session if and only if it ends after it starts, on the same IST day, and passes the availability test with its end rounded up to a minute |
| `MovedSessions.InvertedReschedule` | `src/application/modules/booking/use-cases/reschedule-booking.use-case.ts:60-165` | every valid rule found at its closing lets a session be moved so that it ends, at the opening of that day, before it starts |
| `MovedSessions.OvernightReschedule` | `src/application/modules/booking/use-cases/reschedule-booking.use-case.ts:73-165` | every rule without breaks found at its opening lets a session be moved so that it runs until the closing on the next day |
| `Windows.OvernightSessionFits` | `src/application/modules/booking/use-cases/reschedule-booking.use-case.ts:81-104` | the test compares clock times only: a session that ends on the next day passes it under every rule without breaks |
| `Money.SettlementWithinCollected` | `src/application/modules/booking/services/session-settlement-calculator.service.ts:20-30` | the mentor's rounded payout is at most, and a settlement refund exactly, what was collected |
| `Money.CommissionWithinOneUnit` | `src/application/modules/booking/services/session-settlement-calculator.service.ts:14-30` | what the platform keeps is the 15 percent commission up to one minor unit |
| `Money.StripeSettlesLikeCoins` | `src/application/modules/booking/services/session-settlement-calculator.service.ts:20-41` | a session paid in rupees settles like one paid with the same worth of coins |
| `Money.CreditBackedByWallet` | `src/application/modules/booking/services/session-settlement-calculator.service.ts:14-42` | coins credited and minor units withdrawn differ by rounding alone |
| `Money.RefundTiers` | `src/application/modules/booking/use-cases/refund-session-amount.use-case.ts:30-70` | of one cancellation: cancelling earlier never returns less, a mentee gets at most 75 percent, a mentor's cancellation returns the full amount |
| `BookingService.Platform.Credit` | `src/infrastructure/services/wallet.service.ts:23-45` | balance first, then the transaction; unknown users and amount 0 fail with nothing changed |
| `BookingService.Platform.Debit` | `src/infrastructure/services/wallet.service.ts:47-79` | refuses unknown users, overdrafts and amount 0 without a change; otherwise balance and transaction move together |
| `BookingService.Platform.IncrementPlatform` | `src/infrastructure/database/mongodb/repositories/platform-wallet.repository.ts:46-58` | the balance is written even when it goes below zero, which is then reported as an error |
| `BookingService.Platform.CreditMentor` | `src/application/modules/booking/services/mentor-session-payout.service.ts:31-83` | coins first, then platform balance and ledger row, each only when positive; stops at the first failure |
| `BookingService.Platform.RefundBookedUser` | `src/application/modules/booking/services/session-refund.service.ts:31-95` | coins are returned every time, the refund row is written once, the balance moves every time |
| `BookingService.Platform.RecordNoShow` | `src/application/modules/booking/services/mentor-no-show.service.ts:25-37` | counts one more missed session of the mentor and returns the count; 0 for a user who is no mentor |
| `BookingService.Platform.RecordCompletedSession` | `src/infrastructure/database/mongodb/repositories/mentor-write.repository.ts:57-68` | one more session, and the later of the two ends |
| `BookingService.Platform.CheckBookingConflict` | `src/application/modules/booking/utils/check-booking-conflict.util.ts:10-37` | true if and only if another live booking of the user, as mentee or mentor, overlaps and blocks |
| `BookingService.Platform.CheckBlockingOverlap` | `src/infrastructure/database/mongodb/repositories/booking.repository.ts:37-50` | true if and only if another live booking of the mentor overlaps and is paid or of the same mentee |
| `BookingService.Platform.CreateBooking` | `src/application/modules/booking/use-cases/create-booking.use-case.ts:58-181` | the checks in order, then debit, platform credit, ledger row and booking; the new state is the creation step |
| `BookingService.Platform.RescheduleBooking` | `src/application/modules/booking/use-cases/reschedule-booking.use-case.ts:41-171` | the checks in order, then only start and end of the booking change |
| `BookingService.Platform.CancelByMentee` | `src/application/modules/booking/use-cases/cancel-booking.use-case.ts:30-71` | the checks in order, then the status, then the refund |
| `BookingService.Platform.CancelByMentor` | `src/application/modules/booking/use-cases/cancel-booking-by-mentor.use-case.ts:35-74` | the checks in order, then the status, then the full refund |
| `BookingService.Platform.RefundSessionAmount` | `src/application/modules/booking/use-cases/refund-session-amount.use-case.ts:23-82` | the refund by tier, in coins and minor units, through the refund service |
| `BookingService.Platform.JoinSession` | `src/application/modules/live-call/use-cases/join-session.use-case.ts:20-45` | only the hosting mentor changes the booking: CONFIRMED becomes STARTED and the first arrival is kept |
| `BookingService.Platform.TerminateSession` | `src/application/modules/live-call/use-cases/terminate-session.use-case.ts:21-70` | the mentor completes a session in its last minute or later, and it is counted once |
| `BookingService.Platform.SettleEndedSession` | `src/application/modules/booking/use-cases/settle-ended-session.use-case.ts:33-92` | completes a started session, pays the mentor or counts the no-show, and marks it settled only if nothing failed |
| `BookingService.Platform.PayMentorOrRefund` | `src/application/modules/booking/use-cases/settle-ended-session.use-case.ts:65-89` | payout when the mentor joined, otherwise a no-show, and from the second one on a block and a full refund |
| `Acceptance.OverlapsExactly` | `src/infrastructure/database/mongodb/repositories/booking.repository.ts:42-48` | a booking overlaps an interval if and only if they share an instant, so sessions may follow one another; where one of them ends before it starts, if and only if the other reaches over it |
| `Acceptance.CreateAcceptedExactly` | `src/application/modules/booking/use-cases/create-booking.use-case.ts:58-156` | a creation is accepted if and only if the mentor exists and is not the mentee, the session is to come and ends after it starts, it can be paid, and no live booking of the mentee in either role, or paid one of the mentor, is in the way |
| `Acceptance.CreateWrites` | `src/application/modules/booking/use-cases/create-booking.use-case.ts:123-181` | the booking, the price, the debit, the transaction and the ledger row of an accepted creation |
| `Acceptance.RescheduleAcceptedExactly` | `src/application/modules/booking/use-cases/reschedule-booking.use-case.ts:41-143` | a rescheduling is accepted if and only if the mentee asks for a confirmed booking a day before its start and more than a day before the new one, a rule of the mentor admits the new times, and nobody concerned is busy then |
| `Acceptance.RunMovesInTime` | `src/domain/entities/booking.entity.ts:119-127` | over every run, whenever the times of a booking change its mentee has asked for it, while it was confirmed and with that notice |
| `Acceptance.CancelAcceptedExactly` | `src/application/modules/booking/use-cases/cancel-booking.use-case.ts:30-57` | a cancellation is carried out if and only if the booking is PENDING or CONFIRMED and the caller is its mentee, with no payment pending, or the user behind its mentor |
| `Acceptance.JoinAcceptedExactly` | `src/application/modules/live-call/use-cases/validate-join-session.use-case.ts:19-51` | joining needs a part in a session that is not pending, from five minutes before its start on |
| `Acceptance.TerminateAcceptedExactly` | `src/application/modules/live-call/use-cases/terminate-session.use-case.ts:21-46` | ending a session needs its mentor, from a minute before its end on |
| `Refusals.CreateAnswers` | `src/application/modules/booking/use-cases/create-booking.use-case.ts:58-118` | which check a refused creation is told |
| `Refusals.PaymentAnswers` | `src/application/modules/booking/use-cases/create-booking.use-case.ts:123-156` | what a creation that cannot be paid is told, and when the platform wallet fails |
| `Refusals.RescheduleAnswers` | `src/application/modules/booking/use-cases/reschedule-booking.use-case.ts:41-63` | what a rescheduling of a booking that is not there, not the caller's or not confirmed is told |
| `Refusals.NoticeAnswers` | `src/domain/entities/booking.entity.ts:119-127` | when it comes too late, and when the new start is too soon |
| `Refusals.UnreadableTimes` | `src/application/modules/booking/use-cases/reschedule-booking.use-case.ts:57-108` | unreadable times lie in no rule |
| `Refusals.MoveAnswers` | `src/application/modules/booking/use-cases/reschedule-booking.use-case.ts:65-143` | which check on availability and other sessions it is told |
| `Refusals.CancelByMenteeAnswers` | `src/application/modules/booking/use-cases/cancel-booking.use-case.ts:30-57` | which check a mentee who cancels is told |
| `Refusals.CancelByMentorAnswers` | `src/application/modules/booking/use-cases/cancel-booking-by-mentor.use-case.ts:35-62` | which check a mentor who cancels is told |
| `Refusals.SessionAnswers` | `src/application/modules/live-call/use-cases/terminate-session.use-case.ts:21-46` | which check somebody who joins or ends a session is told |
| `Outcomes.SettleWrites` | `src/application/modules/booking/use-cases/settle-ended-session.use-case.ts:33-92` | done or cut short, a settlement completes a paid session that is under way, leaves every other status, and notes the time only when it is done |
| `Outcomes.SettleCounts` | `src/application/modules/booking/use-cases/settle-ended-session.use-case.ts:55-63` | the mentor of a session it completes has one session more and a last session no earlier than its end; nobody else has |
| `Outcomes.SettlePaysMentor` | `src/application/modules/booking/use-cases/settle-ended-session.use-case.ts:65-74` | a mentor who came gets 85 percent, in coins and from the wallet, with one row; it fails if and only if the wallet does not cover it |
| `Outcomes.SettleRefundsMentee` | `src/application/modules/booking/use-cases/settle-ended-session.use-case.ts:75-89` | a mentor who did not come is counted, and from the second time on blocked, with everything returned to the mentee |
| `Outcomes.CancelReturns` | `src/application/modules/booking/use-cases/refund-session-amount.use-case.ts:30-82` | a cancellation returns everything when the mentor cancels, and to a mentee nothing in the last 24 hours, half within three days and three quarters before that |
| `Outcomes.JoinWrites` | `src/application/modules/live-call/use-cases/join-session.use-case.ts:20-45` | the mentor's arrival starts a confirmed session and notes the first time; a mentee's changes nothing |
| `Outcomes.TerminateWrites` | `src/application/modules/live-call/use-cases/terminate-session.use-case.ts:48-70` | ending a session completes it and counts it for its mentor, once |
| `Outcomes.RefusedChangesNothing` | `src/application/modules/booking/use-cases/cancel-booking.use-case.ts:30-57` | a refused request changes nothing, whatever it is |
| `Outcomes.CreditExactly` | `src/infrastructure/services/wallet.service.ts:23-45` | a credit needs a user and an amount and moves balance and transactions together |
| `Outcomes.DebitExactly` | `src/infrastructure/services/wallet.service.ts:47-79` | why a debit is refused |
| `Outcomes.RefundExactly` | `src/application/modules/booking/services/session-refund.service.ts:31-95` | coins every time, one row, and as much from the wallet |
| `Outcomes.NoShowExactly` | `src/application/modules/booking/services/mentor-no-show.service.ts:25-37` | one more for a mentor, and nothing for anybody else |
| `Outcomes.EarnedSessionsAreOver` | `src/application/modules/booking/use-cases/settle-ended-session.use-case.ts:55-74` | over every run, crashes included, the session of every earning is completed or cancelled |
| `Exclusivity.PlaceKeepsExclusive` | `src/application/modules/booking/use-cases/create-booking.use-case.ts:90-118` | the two overlap checks are enough for an interval that excludes its own booking |
| `Exclusivity.RescheduleKeepsExclusive` | `src/application/modules/booking/use-cases/reschedule-booking.use-case.ts:112-143` | leaving the booking itself out of the checks does not break exclusivity |
| `Exclusivity.StepKeepsExclusive` | `src/application/modules/booking/use-cases/reschedule-booking.use-case.ts:112-143` | every step keeps paid live bookings of a mentor, and live bookings of a mentee, from overlapping |
| `Exclusivity.RunExclusive` | `src/application/modules/booking/use-cases/reschedule-booking.use-case.ts:112-143` | and so does every run |
| `Exclusivity.NobodyBookedTwiceInOneRole` | `src/application/modules/booking/use-cases/create-booking.use-case.ts:90-118` | at no instant is a mentor in two live paid sessions or a mentee in two live sessions |
| `BothRoles.CreateKeepsUsersExclusiveExactly` | `src/application/modules/booking/use-cases/create-booking.use-case.ts:106-118` | counting both roles of a user, a creation keeps everybody out of two sessions at once if and only if the mentor's user has no overlapping live booking as a mentee |
| `BothRoles.RescheduleKeepsUsersExclusiveExactly` | `src/application/modules/booking/use-cases/reschedule-booking.use-case.ts:130-143` | the same for a rescheduling, which leaves the booking itself out |
| `BothRoles.RunKeepsUsersExclusive` | `src/application/modules/booking/utils/check-booking-conflict.util.ts:10-37` | over every run that places sessions under that condition no user is in two at once, in whatever roles |
| `BothRoles.NobodyBookedTwice` | `src/application/modules/booking/utils/check-booking-conflict.util.ts:10-37` | so at no instant is a user in two live sessions, except as a mentor of unpaid ones that still compete |
| `Counterexamples.MentorBookedInBothRoles` | `src/application/modules/booking/use-cases/create-booking.use-case.ts:106-118` | a run after which a user is a mentee in one live session and the mentor of another at the same time |
| `Counterexamples.OppositeOrderRefused` | `src/application/modules/booking/use-cases/create-booking.use-case.ts:106-118` | in the opposite order the same two bookings are refused, by the mentor half of the conflict test |
| `Exclusivity.CreateKeepsHeldExclusiveExactly` | `src/infrastructure/database/mongodb/repositories/booking.repository.ts:42-48` | counting completed sessions as well, a new booking keeps the mentor's paid sessions apart if and only if it is not paid yet or no completed one reaches into its interval |
| `Exclusivity.RescheduleKeepsHeldExclusiveExactly` | `src/application/modules/booking/use-cases/reschedule-booking.use-case.ts:112-128` | the same for a rescheduling |
| `Counterexamples.CompletedSessionOverlapped` | `src/infrastructure/database/mongodb/repositories/booking.repository.ts:42-48` | a run that completes a session a minute early, and a paid booking of the same mentor that overlaps it and is accepted |
| `Sessions.CompletedStays` | `src/application/modules/live-call/use-cases/terminate-session.use-case.ts:48-66` | COMPLETED is absorbing, and the times of a completed session are final |
| `Sessions.RunStatsExact` | `scripts/backfill-mentor-session-stats.ts:16-33` | over every run `totalSessions` and `lastSessionAt` are what the script would compute from the COMPLETED bookings |
| `NoShows.RunBlockedExactly` | `src/application/modules/booking/use-cases/settle-ended-session.use-case.ts:75-88` | over every run, crashes included, a user is blocked if and only if they are a mentor and settlements have recorded a no-show of theirs for at least two different sessions; retries of one settlement never add up |
| `NoShows.RunCountExact` | `src/application/modules/booking/services/mentor-no-show.service.ts:25-37` | up to the second no-show the stored count is the number of different sessions recorded, all of them settled for good |
| `NoShows.MissedAreHeldExactly` | `src/application/modules/booking/use-cases/settle-ended-session.use-case.ts:65-88` | the sessions recorded as missed are the uncancelled ones if and only if no settlement records a cancelled session first |
| `NoShows.BlockedForHeldSessions` | `src/application/modules/booking/use-cases/settle-ended-session.use-case.ts:65-88` | and then only mentors who missed two standing sessions are blocked |
| `CancelledSessions.BlockedWithoutASession` | `src/application/modules/booking/use-cases/settle-ended-session.use-case.ts:65-89` | a run without failures in which the mentee cancels both sessions too late for a refund, the mentor is blocked, and the mentee gets a full refund |
| `Attendance.StepAttendance` | `src/application/modules/live-call/use-cases/validate-join-session.use-case.ts:42-49` | a mentor comes to count as present only by joining from five minutes before the start on, or by ending the session from a minute before its end on; after that times and parties stay |
| `Attendance.RunAttended` | `src/application/modules/booking/use-cases/settle-ended-session.use-case.ts:94-100` | over every run a session whose mentor counts as present was joined or ended by that mentor in time |
| `Attendance.EarningsAreAttended` | `src/application/modules/booking/use-cases/settle-ended-session.use-case.ts:65-74` | over every run, crashes included, every earning belongs to the mentor of its booking, who joined that very session from five minutes before its start on, or ended it from a minute before its end on |
| `Agreements.StepKeepsProperExactly` | `src/application/modules/booking/use-cases/reschedule-booking.use-case.ts:145-167` | a booking ends after it starts, and every step keeps that if and only if it is no rescheduling to an end at or before the start |
| `Agreements.RunProperExactly` | `src/application/modules/booking/use-cases/reschedule-booking.use-case.ts:145-167` | throughout a run a booking ends after it starts if and only if it is never rescheduled the wrong way round |
| `Agreements.EarningsAreInTime` | `src/application/modules/live-call/use-cases/terminate-session.use-case.ts:36-46` | over every run, every earning from a session that was not rescheduled the wrong way round is one of a mentor who came five minutes before its start at the earliest |
| `MovedSessions.EarnedBeforeStart` | `src/application/modules/booking/use-cases/reschedule-booking.use-case.ts:145-167` | a run in which a session is moved the wrong way round, and the mentor ends it and is paid eight hours before it starts |
| `Agreements.RunPricedExactly` | `src/application/modules/booking/use-cases/reschedule-booking.use-case.ts:145-167` | over every run the amount of a booking is the price of its interval if and only if that is as long as the interval booked, or the mentor takes nothing |
| `MovedSessions.LongerForTheSamePrice` | `src/application/modules/booking/use-cases/reschedule-booking.use-case.ts:145-167` | a run that moves half an hour, paid with 200 coins, to four hours |
| `Agreements.StepKeepsOthersExactly` | `src/domain/entities/booking.entity.ts:95-102` | as long as nobody has a session with themselves, a step keeps that if and only if it is no creation whose mentee is the user behind the mentor |
| `Agreements.RunNobodyWithOneselfExactly` | `src/domain/entities/booking.entity.ts:95-102` | over every run nobody has a session with themselves if and only if no creation made one |
| `Counterexamples.OwnSessionBooked` | `src/application/modules/booking/use-cases/create-booking.use-case.ts:58-66` | a mentor's user books that mentor, and the booking is accepted |
| `Soundness.PastStays` | `src/application/modules/booking/use-cases/cancel-booking.use-case.ts:30-71` | no step takes a booking back to PENDING or CONFIRMED |
| `Soundness.StepSameContracts` | `src/application/modules/booking/use-cases/settle-ended-session.use-case.ts:33-92` | no step removes a booking, changes its parties, amount or payment, or takes a settlement time back |
| `Soundness.StepNewBooking` | `src/application/modules/booking/use-cases/create-booking.use-case.ts:158-181` | only a creation adds a booking, and it is the one that was checked and priced |
| `Soundness.RunSound` | `src/application/modules/booking/use-cases/create-booking.use-case.ts:58-181` | over every run amounts are not negative and every user to be credited exists |
| `Soundness.SettledStays` | `src/application/modules/booking/use-cases/settle-ended-session.use-case.ts:40-42` | `settledAt`, once set, is never changed or cleared by any step |
| `CoinLedger.CoinBookingMovesItsPrice` | `src/application/modules/booking/use-cases/create-booking.use-case.ts:123-156` | a coin booking takes its price from the mentee alone and the platform collects the same price in minor units |
| `CoinLedger.RunCoinsExact` | `src/infrastructure/services/wallet.service.ts:23-79` | over every run, cancellations and crashes included, each coin balance is the sum of its transactions and not negative |
| `LedgerIds.RunIdsUnique` | `src/infrastructure/database/mongodb/models/payment-transactions.model.ts:49-52` | over every run, crashes included, no two platform rows get the same provider id, so the unique index never rejects a write |
| `Solvency.PayOrRefundExactly` | `src/application/modules/booking/use-cases/settle-ended-session.use-case.ts:65-89` | the money part of a settlement succeeds if and only if the wallet covers it, and takes at most what was collected |
| `Solvency.SolventWithoutRefunds` | `src/application/modules/booking/use-cases/create-booking.use-case.ts:123-156` | as long as no cancellation returns coins no step crashes, and the platform always holds at least the money of all paid unsettled sessions |
| `LedgerGap.StepCrashesExactly` | `src/domain/entities/platform-wallet.entity.ts:10-15` | a step crashes if and only if the balance before it does not cover what it moves |
| `LedgerGap.StepKeepsLedgerExactly` | `src/application/modules/booking/services/session-refund.service.ts:64-93` | a step keeps the difference between rows and balance if and only if it does not repeat a refund that has a row already, and the wallet covers what it pays out or collects |
| `LedgerGap.RunGapExactly` | `src/application/modules/booking/services/session-refund.service.ts:64-93` | over every run, crashes and cancellations included, the rows sum up to the balance plus what was moved without a row |
| `LedgerGap.RunLedgerExactly` | `src/application/modules/booking/services/session-refund.service.ts:64-93` | over every run the wallet covers, rows and balance agree if and only if no step repeats a recorded refund, which is to say no booking is refunded twice |
| `LedgerGap.LedgerExactWithoutRefunds` | `src/application/modules/booking/use-cases/create-booking.use-case.ts:132-153` | as long as no cancellation returns coins the platform balance is the sum of its rows |
| `LedgerGap.RunSlackExactly` | `src/application/modules/booking/use-cases/settle-ended-session.use-case.ts:33-92` | over every run, crashes and cancellations included, the balance is the money of unsettled sessions, plus what settlements released, minus what cancellations and crashes cost |
| `CancelledSessions.SecondRefundIsUnrecorded` | `src/application/modules/booking/services/session-refund.service.ts:64-93` | a run without failures after which the rows exceed the balance by 10,000: a cancelled session is refunded again as a no-show |
| `SettlementOnce.RunSettlesAtMostOnce` | `src/application/modules/booking/use-cases/settle-ended-session.use-case.ts:40-91` | over every run whose settlements of a booking are covered, that settlement credits somebody at most once, whatever happens to other bookings |
| `SettlementOnce.RunCancelsAtMostOnce` | `src/application/modules/booking/use-cases/cancel-booking.use-case.ts:30-71` | over every run at most one cancellation of a booking returns coins |
| `SettlementOnce.RunCreditsExact` | `src/application/modules/booking/use-cases/settle-ended-session.use-case.ts:65-89` | over every run, crashes included, the credits of a booking are those of its settlements and those of its cancellations |
| `SettlementOnce.SettlementPaysExactly` | `src/application/modules/booking/use-cases/settle-ended-session.use-case.ts:65-89` | a settlement credits coins if and only if the booking is paid and unsettled, its mentor is known, and the mentor joined and has a share or missed a second session and there is something to refund |
| `SettlementOnce.EarningOrRefundNeverBothExactly` | `src/application/modules/booking/use-cases/settle-ended-session.use-case.ts:65-89` | a booking whose settlements are covered is credited at most twice, and yields at most one of earning and refund if and only if no settlement of it pays anybody or no cancellation of it returns coins |
| `CancelledSessions.RefundedTwiceInFull` | `src/application/modules/booking/use-cases/cancel-booking-by-mentor.use-case.ts:35-74` | a run without failures that refunds a session in full as a no-show and again when the mentor cancels it, since it is still CONFIRMED |
| `CancelledSessions.RefundedMoreThanPaid` | `src/application/modules/booking/use-cases/refund-session-amount.use-case.ts:30-70` | a run without failures that returns 350 coins of a session of 200: 75 percent for the cancellation and everything for the no-show |
| `Counterexamples.CancellationDefeatsAtMostOnce` | `src/application/modules/booking/use-cases/settle-ended-session.use-case.ts:40-91` | a run with a cancellation after which the same booking credits the mentor twice: settlement does not look at CANCELLED |
| `SettlementOnce.SettleCrashesExactly` | `src/application/modules/booking/use-cases/settle-ended-session.use-case.ts:65-91` | a settlement fails if and only if the wallet does not cover it |
| `SettlementOnce.SettleTwiceExactly` | `src/application/modules/booking/use-cases/settle-ended-session.use-case.ts:40-91` | settling again changes nothing if and only if the wallet covered the first settlement |
| `Ranking.SortedUnique` | `src/shared/utilities/feed-scoring.util.ts:60-65` | the comparator admits one sorted arrangement, so any correct sort gives the same ranking |
| `Ranking.TopIgnoresInputOrder` | `src/shared/utilities/feed-scoring.util.ts:54-67` | the ranking does not depend on the order of the input |
| `Ranking.TopDistinct` | `src/shared/utilities/feed-scoring.util.ts:66-67` | it has min(limit, n) different ids |
| `Ranking.TopRespectsOrder` | `src/shared/utilities/feed-scoring.util.ts:60-67` | a true top-k: whoever ranks above a listed item is listed before it |
| `FeedScoring.FeedIgnoresStoreOrder` | `src/shared/utilities/feed-scoring.util.ts:49-68` | the article feed is the same for every order of the candidates |
| `FeedScoring.FeedRespectsDominance` | `src/shared/utilities/feed-scoring.util.ts:17-68` | no article is listed unless every article that dominates it in matches, views and recency is listed before it |
| `FeedScoring.MentorFeedRespectsDominance` | `src/shared/utilities/feed-scoring.util.ts:31-89` | the same for mentors, in matches, rating, sessions and recency |
| `FeedScoring.FeedOrderExactly` | `src/shared/utilities/feed-scoring.util.ts:17-67` | of two articles the one that is ahead is listed, and first: a shared interest is worth five days, ten times the views two, only the last ten days count, and ties go to the later one and then to the smaller id |
| `FeedScoring.ArticleLeadExactly` | `src/shared/utilities/feed-scoring.util.ts:17-28` | the comparator ranks one article above another if and only if it is ahead by these numbers |
| `FeedScoring.MentorFeedOrderExactly` | `src/shared/utilities/feed-scoring.util.ts:31-89` | the same for mentors: a shared interest is worth five days, a star ten, ten times the sessions one |
| `FeedScoring.MentorLeadExactly` | `src/shared/utilities/feed-scoring.util.ts:31-47` | the comparator ranks one mentor above another if and only if it is ahead by these numbers |
| `FeedScoring.MatchesExactly` | `src/shared/utilities/feed-scoring.util.ts:21-23` | shared interests are the entries of the list that the user has |
| `ArticleFeeds.PagesConcatenate` | `src/application/modules/article/use-cases/get-article-feed.usecase.ts:50-77` | pages 1 to `totalPages` concatenate to the ranking, without gaps or repeats |
| `ArticleFeeds.PageNonEmptyExactly` | `src/application/modules/article/use-cases/get-article-feed.usecase.ts:69-77` | a page is non-empty if and only if 1 <= page <= `totalPages`, or the page is negative and counts fewer than `totalPages` from the end |
| `ArticleFeeds.ReorderByIds` | `src/shared/utilities/reorder-by-ids.util.ts:1-19` | the items of the listed ids, in the order of the ids, the last one of an id winning |
| `ArticleFeeds.ReorderRestoresRanking` | `src/shared/utilities/reorder-by-ids.util.ts:5-18` | the surviving documents come in ranking order whatever order the store returned |
| `ArticleFeeds.LastWithExactly` | `src/shared/utilities/reorder-by-ids.util.ts:5-9` | the document kept for an id is the last one of the list with that id |
| `ArticleFeeds.FeedService.CachedRanking` | `src/application/modules/article/use-cases/get-article-feed.usecase.ts:49-67` | a cached ranking is served, a missing one is computed and stored, on the pointer-based cache |
| `ArticleFeeds.RankingLength` | `src/shared/utilities/feed-scoring.util.ts:49-67` | a ranking that is computed lists every candidate, or 150 of them |
| `ArticleFeeds.FeedService.GetArticleFeed` | `src/application/modules/article/use-cases/get-article-feed.usecase.ts:35-108` | unknown users, users without interests, empty and full pages; what is returned and how the cache changes |
| `ArticleFeeds.PagingYieldsRanking` | `src/application/modules/article/use-cases/get-article-feed.usecase.ts:49-108` | page 1 and the pages after it yield exactly the ranking page 1 was cut from, whatever other users and feeds do to the shared cache, as long as the ranking has not expired and fewer than `max` other feeds use the cache between two requests |
| `ArticleFeeds.PagingYieldsDocuments` | `src/application/modules/article/use-cases/get-article-feed.usecase.ts:49-108` | under the same conditions the documents on those pages are the surviving documents of that ranking, in its order, whatever order the store answers each page in |
| `ArticleFeeds.CachedRankingServed` | `src/application/modules/article/use-cases/get-article-feed.usecase.ts:52-67` | a ranking that has not expired is served unchanged and stays cached |
| `Dashboard.BuildBuckets` | `src/application/modules/dashboard/utils/dashboard-analytics.util.ts:167-226` | the week, the days of the month so far, or the months of the year so far |
| `Dashboard.BucketsDistinct` | `src/application/modules/dashboard/utils/dashboard-analytics.util.ts:167-226` | the keys differ pairwise and the last one is the key of now |
| `Dashboard.BucketRangeExact` | `src/application/modules/dashboard/utils/dashboard-analytics.util.ts:140-150` | the range of a bucket holds exactly the instants with its key, and ranges are adjacent |
| `Dashboard.WindowExact` | `src/application/modules/dashboard/utils/dashboard-analytics.util.ts:167-226` | the first n buckets cover exactly the instants from the first start to the last end |
| `Dashboard.PeriodExactly` | `src/application/modules/dashboard/utils/dashboard-analytics.util.ts:167-226` | the buckets cover the seven days up to today, the month up to today, or the year up to the end of this month |
| `Activity.LookupOf` | `src/application/modules/dashboard/utils/dashboard-analytics.util.ts:295-297` | the lookup maps exactly the bucket keys to their positions |
| `Activity.Accumulate` | `src/application/modules/dashboard/utils/dashboard-analytics.util.ts:299-330` | each entry counts the completed paid sessions of its bucket and sums their rounded hours and net coins |
| `Activity.BuildActivityOverview` | `src/application/modules/dashboard/utils/dashboard-analytics.util.ts:284-341` | the same for the buckets of the period, with earnings for mentors only; rounding the hours once more changes nothing |
| `Activity.PartsAgree` | `src/application/modules/dashboard/utils/dashboard-analytics.util.ts:299-330` | the buckets add up to all completed paid sessions that start in one of them: nothing is lost or counted twice |
| `Activity.OverviewTotals` | `src/application/modules/dashboard/utils/dashboard-analytics.util.ts:284-341` | what is shown adds up to the completed paid sessions between the start of the first and the end of the last bucket, their hours and their net coins |
| `Activity.NetCoinsArePaid` | `src/application/modules/dashboard/utils/dashboard-analytics.util.ts:85-90` | the earnings shown for a session are the coins its settlement pays |
| `Activity.ShareExactly` | `src/application/modules/dashboard/utils/dashboard-analytics.util.ts:299-330` | a session counts as one, with its length to the nearest hundredth of an hour and 85 percent of its coins |
| `Activity.SessionsCounted` | `src/application/modules/dashboard/utils/dashboard-analytics.util.ts:299-330` | the session total is the number of COMPLETED and paid bookings that start in the time |
| `LoginStreak.CalculateLoginStreak` | `src/application/modules/dashboard/utils/dashboard-analytics.util.ts:343-372` | the days up to the latest login day are login days, and the day before them is not |
| `LoginStreak.UniqueDaysExact` | `src/application/modules/dashboard/utils/dashboard-analytics.util.ts:347-353` | the different login days, each once, latest first |
| `LoginStreak.LoginDaysExactly` | `src/application/modules/dashboard/utils/dashboard-analytics.util.ts:347-353` | a session counts for the day it was created, without that for its last use, and without either for today |
| `LoginStreak.StreakUnique` | `src/application/modules/dashboard/utils/dashboard-analytics.util.ts:343-372` | the streak is determined by the set of login days, whatever the order and repetitions of the sessions |
| `Slugs.CreateUniqueSlug` | `src/application/shared/utilities/slug.util.ts:13-21` | stops with the first free candidate of base, base-1, base-2, ..., after at most one probe more than there are taken slugs |
| `Slugs.Pigeonhole` | `src/application/shared/utilities/slug.util.ts:16-19` | k taken candidates need k taken slugs |
| `Slugs.FirstFreeExactly` | `src/application/shared/utilities/slug.util.ts:13-21` | the result is the base if it is free, and otherwise the base with the smallest free number |
| `Slugs.FirstFreeUnique` | `src/application/shared/utilities/slug.util.ts:13-21` | the result is determined by the base and the taken slugs |

## Left out

- Dashboard.BuildBuckets: does not model `now` in a year below 100, which `Date.UTC` reads as a year from 1900 on, so the buckets would not be those of the current date.
- Activity.BuildActivityOverview: does not model years below 100 (as above) and the labels of the buckets.
- Slots.ComputeSlotsForDate: requires that duration plus buffer is positive, because the loop does not end otherwise; every stored rule satisfies this (`StoredRulesStep`).
- ArticleFeeds.FeedService.GetArticleFeed: requires a positive page size, as the request schema does; mapping documents to DTOs and image URLs is not modelled.
- Slugs.CreateUniqueSlug: starts from the slug that the `slugify` library made, and takes the taken slugs to be a finite set.
- Solvency.SolventWithoutRefunds: excludes cancellations that return coins, because with them it is false; `LedgerGap.RunSlackExactly` accounts for them.
- ArticleFeeds.PagingYieldsRanking: requires a cache of positive size, since any other keeps nothing between two requests.
- NoShows.RunBlockedExactly: starts with nobody blocked; blocking and unblocking by administrators is not modelled.
- Confirmation of card payments (`confirm-booking-payment.service.ts`), failed and expired checkouts, repaying a booking and the payment webhook: how a card-paid booking becomes paid, and what a late confirmation does to a booking that has moved on.
- Availability.RuleBook.CheckAndUpdate: does not model that `updateById` hands break times on as "HH:MM" strings where the stored schema has dates, so an update with breaks may fail there.
- Interleavings: the code reads, awaits and writes, and two requests may interleave; each use case is one step here.
- Job queues, reminders, settlement scheduling, notifications, events, mail and socket messages.
- Session revocation when a mentor is blocked, and the administrators' own blocking.
- The unchecked create, update and re-enable endpoints of availability rules, which do not keep rules free of conflicts.
- The use case that withholds booked slots from a listing: it looks at the first overlapping booking only.
- Names, descriptions, notes, feedback and meeting links.
- Floating point rounding, locale collation and the rendering of date keys by `Intl`; IST days and months are numbers here.
- The mentor feed use case around the ranking, growth percentages, top category and recent activity of the dashboard.
- Coin purchases beyond a positive top-up, appreciation and reward transactions.
- Chat, reactions, reviews, catalogues, moderation, authentication, storage and receipts: true but easy, or library calls.
