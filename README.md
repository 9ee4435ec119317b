# Monthsary page: state and calendar model

A Dafny model of the logic inside the `MonthsaryPage` component of a
passcode-gated greeting page. The React rendering and animation are left
out. Four pieces remain:

- **Counter** (module `Calendar`). This is the years/months/days difference
  between the fixed start date, 9 May 2021, and the current local date. It
  subtracts field by field. A negative day count borrows the length of the
  month before the current month. A negative month count borrows 12 months
  from the years. The hour, minute and second fields are copied from the
  current clock time. They are not an elapsed remainder.
- **Cursor trail** (module `Trail`). Each pointer move appends a sample
  after the previous six entries. A cleanup tick every 100 ms keeps only
  the samples that are under 3000 ms old.
- **Photo carousel** (module `Gallery`). A 3-second tick advances the index
  modulo the six photos. A dot click sets the index directly.
- **Passcode gate and page state** (module `Page`). Class `MonthsaryPage`
  holds the component's state as fields: the trail, the next trail id, the
  photo index, the authenticated flag, the typed passcode, the
  wrong-passcode flag and the counter value. Each event handler and timer
  callback is a method. The right passcode `050921` unlocks the page.
  Nothing locks it again. While the page is locked, the trail, carousel and
  counter effects are not registered, so their methods change nothing.

Dates are integer records: year, month 0-11 (as `Date.getMonth` returns
it), day, hour, minute and second. The current time is a parameter of the
methods that read it: a `DateTime` for the counter and a millisecond count
for the trail. The ghost field `pushed` records every trail sample ever
created. Sample `i` has id `i`. The class invariant `Valid` ties every
trail entry to its entry in that history. So ids are never reused, and the
trail is a subsequence of the history, oldest first.

Two facts about the page's markup shape the handlers:

- The dot buttons exist only on the unlocked page (src/app/page.tsx:307-309,
  663-672), so `SelectPhoto` is a no-op while locked.
- The passcode input has `maxLength={6}` (src/app/page.tsx:91), so
  `SetPasscode` requires at most 6 characters and `Valid` keeps that bound.

## Model

| member | source | states |
|---|---|---|
| `Calendar.DaysInMonth` | src/app/page.tsx:233 | month lengths are 28 to 31 days; February has 29 days exactly in Gregorian leap years |
| `Calendar.LastDayOfPreviousMonth` | src/app/page.tsx:233 | defined as `new Date(y, m, 0).getDate()`, the length of the month before month m (December of y-1 for January, years 0-99 read as 1900-1999 as the Date constructor does); ensures the result is 28 to 31 days |
| `Calendar.CalendarDifference` | src/app/page.tsx:222-258 | the month count is always in 0..11, and years*12 + months equals the completed calendar months from start to now |
| `Calendar.DifferenceIsMonthsDivided` | src/app/page.tsx:238-241 | years and months are the quotient and remainder of the completed months by 12, for every input |
| `Calendar.YearsNonNegativeIff` | src/app/page.tsx:226-241 | the year count is non-negative if and only if now's date is on or after the start date |
| `Calendar.DifferenceDaysInRange` | src/app/page.tsx:228-235 | for a start day of at most 28, the day count is at least 0 and below the length of the month it counts in: the month before now's month when it borrowed, otherwise now's month |
| `Calendar.DifferenceReconstructs` | src/app/page.tsx:226-241 | start plus years*12 + months months is a real date, the last monthly anniversary, in now's month or the month before; its day plus the day count equals now's day, plus the length of the month before now's month as `new Date(y, m, 0)` measures it when the days borrowed |
| `Calendar.TimeSinceStartRanges` | src/app/page.tsx:220-248 | for now on or after 2021-05-09: years >= 0, months in 0..11, days in 0..(length of the previous month - 1), and hours/minutes/seconds equal now's clock time |
| `Calendar.DifferenceIgnoresClock` | src/app/page.tsx:226-248 | years, months and days depend only on now's date, not on its clock time |
| `Calendar.OneMonthExample` | src/app/page.tsx:220-241 | 2021-06-09 gives 0 years, 1 month, 0 days, with the clock fields copied |
| `Trail.Push` | src/app/page.tsx:185 | a push yields the last seven of (trail + new sample): at most 7 entries, ending with the new sample |
| `Trail.PushAllKeepsLastSeven` | src/app/page.tsx:185 | pushing any number of samples onto a trail of at most 7 leaves exactly the last seven of the old trail followed by the pushed samples |
| `Trail.PushAllFromEmpty` | src/app/page.tsx:185 | after n pushes onto an empty trail it holds exactly the last min(n, 7) samples pushed, oldest first |
| `Trail.Fresh` | src/app/page.tsx:205-208 | a cleanup never lengthens the trail |
| `Trail.FreshMembers` | src/app/page.tsx:207 | a sample is in the cleaned trail if and only if it was in the trail and now - timestamp < 3000 |
| `Trail.FreshKeepsOrder` | src/app/page.tsx:207 | a cleanup keeps strictly increasing ids strictly increasing (original order) |
| `Trail.FreshLater` | src/app/page.tsx:205-208 | a cleanup at an earlier time followed by one at a later time equals the later cleanup alone |
| `Trail.FreshIdempotent` | src/app/page.tsx:205-208 | a second cleanup at the same time changes nothing |
| `Trail.ExpiredIsDropped` | src/app/page.tsx:207 | a sample 3000 ms old or older is absent after a cleanup |
| `Gallery.Advance` | src/app/page.tsx:193 | the next index stays in [0, 6): index + 1, or 0 after the last photo |
| `Gallery.AdvanceTimes` | src/app/page.tsx:192-194 | any number of rotation ticks keeps the index in [0, 6) |
| `Gallery.AdvanceTimesIsOffset` | src/app/page.tsx:193 | k ticks give (index + k) mod 6 |
| `Gallery.FullRotation` | src/app/page.tsx:153-160 | six ticks from any index return to that index |
| `Gallery.RotationReachesEveryPhoto` | src/app/page.tsx:192-194 | from any index, every photo is reached within the first six ticks |
| `Gallery.RotationRepeatsNoPhoto` | src/app/page.tsx:192-194 | the first six ticks from any index give six different indices |
| `Page.MonthsaryPage.constructor` | src/app/page.tsx:132-149 | initial state: locked, empty passcode, no wrong flag, empty trail, id counter 0, photo 0, zero counter |
| `Page.MonthsaryPage.SetPasscode` | src/app/page.tsx:84-91 | while locked the field becomes the typed value (at most 6 characters); once unlocked nothing changes |
| `Page.MonthsaryPage.SubmitPasscode` | src/app/page.tsx:280-289 | authenticated becomes old authenticated or (passcode == "050921"); a wrong attempt while locked sets the wrong flag and clears the passcode; otherwise the other fields are unchanged; the frame shows nothing else changes |
| `Page.MonthsaryPage.ResetWrongPasscode` | src/app/page.tsx:287 | the delayed timer clears the wrong flag and changes nothing else |
| `Page.MonthsaryPage.MouseMove` | src/app/page.tsx:177-186 | while unlocked: the sample gets the next id, the trail becomes Push(old trail, sample), the counter goes up by one, and the history grows by the sample; the invariant keeps ids unique and increasing; while locked nothing changes |
| `Page.MonthsaryPage.CleanupTrail` | src/app/page.tsx:198-214 | while unlocked the trail becomes Fresh(old trail, now), the id counter untouched; while locked nothing changes |
| `Page.MonthsaryPage.RotateGallery` | src/app/page.tsx:188-196 | while unlocked the index becomes Advance(old index); while locked nothing changes |
| `Page.MonthsaryPage.SelectPhoto` | src/app/page.tsx:663-672 | while unlocked the index becomes the clicked dot's index; while locked nothing changes |
| `Page.MonthsaryPage.ClockTick` | src/app/page.tsx:216-263 | while unlocked the counter becomes TimeSinceStart(now); while locked nothing changes |

The gate's "unlocking is permanent" property is in the frames. Only
`SubmitPasscode` may modify `authenticated`, and its contract makes the new
value `old(authenticated) || ...`. The client methods `LockedSession`,
`GateSession`, `RelockAttempt` and `UnlockedSession` in `Page` show
example sessions from the callers' side, using these contracts alone.

## Left out

- Rendering, framer-motion animation, CSS and the decorative hearts (random positions, floating point) are presentation only.
- The trail particles' opacity and scale are floating-point values computed from the wall clock.
- The audio toggle and volume call a foreign `HTMLAudioElement`, including an asynchronous `play()`.
- Window resize handling and DOM listener registration are I/O plumbing. Registration is modelled only as "the method does nothing while locked".
- Real timers (`setInterval`, `setTimeout`) are not modelled. Each callback is a method that the caller invokes. Relative timing is not modelled: the 100 ms, 1 s, 2 s and 3 s periods, the immediate first `updateTime` call on unlock, and an earlier wrong-attempt timer clearing the flag of a later attempt.
- `Date.now()` and `new Date()` become parameters. Parsing, time zones and daylight saving are not modelled. The start date is taken as the local date 2021-05-09 at 00:00:00.
- `totalMs` and `totalDays` (src/app/page.tsx:244-245) are computed and never used, so they are not modelled.
- Trail sample positions are integers; the model does not reason about them.
- Page.MonthsaryPage.MouseMove: the "last min(n, 7) pushed" property is stated for a run of pushes (`Trail.PushAllKeepsLastSeven`). Across interleaved cleanups the invariant only gives that the trail is a subsequence of the pushed history with at most 7 entries. `Date.now()` is not assumed monotone, so a cleanup need not remove a prefix.
- Calendar.DifferenceReconstructs: the borrowed month length is the one `new Date(y, m, 0)` gives, so for a date in year 0 (read as 1900, not a leap year) counting forward from the anniversary by the Gregorian calendar misses by one day; the lemma states the program's arithmetic.
- src/app/layout.tsx (fonts, metadata) and next.config.ts (build configuration) hold no logic.
