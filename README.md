# FlowParking credit scheduler and app core, in Dafny

This project models the core of the FlowParking "Área Azul Digital" app for the city of
Frutal. A driver buys minutes of parking credit. Those minutes are used up only while the
regulated zone operates: Monday to Friday 08:00–18:00, Saturday 08:00–12:00, closed on
Sunday. Credit left when a window closes rolls over to the next one.

The model covers these parts of the app:

- **The scheduler** (`services/parkingUtils.ts`). It has the operating calendar, the next
  opening, and the expiry of N paid minutes. It also has the countdown of operating minutes
  left.
- **The app state machine** (`App.tsx`). This covers recharging the wallet, adding a vehicle,
  buying a session and ending it.
- **The two price tables:**
  - the purchase screen (`components/BuyCredits.tsx`) with its balance check, rollover banner
    and confirm handoff;
  - the recharge screen (`components/RechargeView.tsx`) with its selection and payment steps.
- **The live session screen** (`components/ActiveSession.tsx`). It shows the running or
  suspended status, the hh:mm:00 countdown and the announced resume date.
- **The CPF and phone input masks** and the two form checks of the login screen
  (`components/LoginView.tsx`).

How the model is laid out:

- **Instants.** An instant is an integer number of local milliseconds since 1970-01-01T00:00,
  in one fixed zone (module `Instants`). The `Date` accessors and setters the source uses are
  written as functions on instants.
- **Calendar.** Module `Calendar` holds `OPERATING_HOURS`, `isOperatingTime` and
  `getNextOperatingStart`.
- **Operating time between two instants.** Module `OperatingMeasure` gives a closed form for
  it. It is proved equal to a brute-force count of the milliseconds that `isOperatingTime`
  calls open.
- **Expiry.** Module `ParkingUtils` specifies `calculateParkingEndTime` by `IsExpiry`. The
  expiry must lie inside a window, with exactly the paid minutes of operating time between the
  purchase and it. `ExpiryUnique` shows that this picks out one instant. The method runs the
  source's loop and is proved to return that instant.
- **Countdown.** `getRemainingWorkingMinutes` runs its own loop. It is proved against a
  recursive function that walks the same steps.
- **Money** is whole cents.

Three behaviours of the code stand out when its text is read against its own comments and
messages. The model keeps each as written:

- **The countdown does not always count the operating minutes left.** The comment at
  `services/parkingUtils.ts:87` says the loop adds up only the minutes in which the zone is
  active, but its skip ahead after a closed minute can overshoot.
  - Buying 60 minutes at Tuesday 07:00 gives an expiry of 09:00, with 60 operating minutes
    between 08:00 and 09:00.
  - Read at 07:00, the countdown shows 0: after the closed 07:00 it steps to 07:01, which is
    closed too, and its jump from there to Wednesday 08:00 lies past the expiry, so the loop
    stops.
  - Read at 08:00, it shows 60. So the countdown also grows as time passes
    (`ParkingExamples.CountdownSkipsMorningWindow`).
  - The countdown does match the purchase when that is made during opening hours on a whole
    minute (`ParkingUtils.CountdownAtPurchase`).
- **Non-positive purchases.** For `totalMinutes <= 0` the loop never runs, so the function
  returns the start, moved to 08:00 when it was earlier on a day other than Sunday. No error is
  raised. `CalculateParkingEndTime` states exactly this.
- **The resume banner can name the wrong day.** The banner at
  `components/ActiveSession.tsx:91` says the session resumes automatically on the date of the
  next operating start, at 08:00. When the session is suspended before 08:00 on Monday to
  Saturday, that date is a later day, although the zone opens, and the session runs again, at
  08:00 the same day (`ActiveSession.AnnouncedResumeBeforeOpening`).

## Model

| member | source | states |
|---|---|---|
| Instants.Hours | services/parkingUtils.ts:9 | `getHours()` is in 0..23 and is the hour of the day that holds the instant |
| Instants.Minutes | services/parkingUtils.ts:10 | `getMinutes()` is in 0..59, and hours * 60 + minutes is the whole minutes since midnight |
| Instants.Weekday | services/parkingUtils.ts:8 | `getDay()`, Sunday = 0; its range is stated by `Instants.WeekdayOfDay` and the calendar lemmas use it |
| Instants.WeekdayOfDay | services/parkingUtils.ts:8 | the weekday is in 0..6, and it is Sunday exactly on the days d with d % 7 == 3, so day 0 (1970-01-01) is a Thursday |
| Instants.SetTime | services/parkingUtils.ts:27 | `setHours(h, m, s, ms)` keeps the day; it is used and characterised through `Instants.DayDecomposition` |
| Instants.DayDecomposition | services/parkingUtils.ts:27 | an instant given as a day and an offset below a day has that day and that offset |
| Instants.TruncateToMinute | services/parkingUtils.ts:23 | `setSeconds(0, 0)` moves back less than a minute, to a whole minute of the same day |
| Instants.AddDays | services/parkingUtils.ts:26 | `setDate(getDate() + n)` moves n days on and keeps the time of day |
| Calendar.IsOperatingTime | services/parkingUtils.ts:7-19 | `isOperatingTime` on `hour + minutes / 60`, kept in integers; what it means is stated by `Calendar.OperatingTimeIsWindow` and `Calendar.OperatingTimeByMinute` |
| Calendar.WEEKDAY | services/parkingUtils.ts:3 | Monday to Friday window 8 to 18 |
| Calendar.SATURDAY | services/parkingUtils.ts:4 | Saturday window 8 to 12 |
| Calendar.OperatingTimeIsWindow | services/parkingUtils.ts:7-19 | `isOperatingTime` holds iff the day is not a Sunday and the instant lies in the half-open window [08:00, close) of its day |
| Calendar.OperatingTimeByMinute | services/parkingUtils.ts:13-18 | never open on Sunday; Saturday open iff minute of day in [480, 720); Monday–Friday iff in [480, 1080) |
| Calendar.OperatingTimeIgnoresSeconds | services/parkingUtils.ts:8-11 | seconds and milliseconds never change the answer of `isOperatingTime` |
| Calendar.NextOperatingStart | services/parkingUtils.ts:21-35 | the next start is 08:00:00.000 of a day that is not a Sunday: the next day, or two days later from a Saturday; it is strictly later |
| Calendar.NextOperatingStartIsOpen | services/parkingUtils.ts:21-35 | the next start is itself an operating instant at its day's opening |
| Calendar.GetNextOperatingStart | services/parkingUtils.ts:21-35 | the step-by-step mutation of the date copy returns exactly the next start described above |
| OperatingMeasure.OpenMsIsCount | services/parkingUtils.ts:7-19 | the closed-form operating time in [a, b) equals the number of milliseconds there that `isOperatingTime` calls open |
| OperatingMeasure.OpenStep | services/parkingUtils.ts:7-19 | the closed form grows by one exactly at each millisecond that is an operating instant |
| OperatingMeasure.OpenAcrossClosedHop | services/parkingUtils.ts:21-35 | from a Sunday or an after-close instant to the next start there is no operating time |
| OperatingMeasure.NoOperatingTimeMeansClosed | services/parkingUtils.ts:7-19 | an interval without operating time holds no operating instant |
| ParkingUtils.ClampedStart | services/parkingUtils.ts:42-44 | a start before 08:00 on a day other than Sunday becomes 08:00 of that day; any other start is kept; either way no operating time is skipped |
| ParkingUtils.ExpiryUnique | services/parkingUtils.ts:37-78 | two expiries of the same purchase are the same instant |
| ParkingUtils.WalkStarts | services/parkingUtils.ts:38-44 | after the clamp nothing is consumed and the loop invariant holds |
| ParkingUtils.WalkHops | services/parkingUtils.ts:50-65 | the Sunday hop and the after-close hop consume no credit and move to a state that is closer to consuming |
| ParkingUtils.WalkFinishes | services/parkingUtils.ts:69-71 | consuming the last minutes inside today's window ends at a valid expiry |
| ParkingUtils.WalkLeaves | services/parkingUtils.ts:72-75 | using up the rest of today's window and hopping from `current` to the next start lowers the remaining credit by exactly the time available today and keeps the loop invariant |
| ParkingUtils.HopClosed | services/parkingUtils.ts:50-65 | a hop from a closed instant lands on an opening, later, with no operating time skipped |
| ParkingUtils.LeaveWindow | services/parkingUtils.ts:72-75 | from inside a window to the next start there is exactly the rest of the window of operating time |
| ParkingUtils.FinishInWindow | services/parkingUtils.ts:69-71 | a purchase that fits the rest of the window ends inside it with exactly that much operating time |
| ParkingUtils.CalculateParkingEndTime | services/parkingUtils.ts:37-78 | for N > 0 the result is the expiry: not before the start, inside a window, with exactly N minutes of operating time in between; whole-minute starts give whole-minute expiries; a purchase that fits the (clamped) start's window ends at start + N minutes; N <= 0 gives the clamped start |
| ParkingUtils.SameWindowExpiry | services/parkingUtils.ts:67-71 | if the (clamped) start's window holds N minutes, the expiry is the clamped start plus N minutes |
| ParkingUtils.ExpiryWithinAWeek | services/parkingUtils.ts:37-78 | a purchase of at most 3000 minutes (the largest on sale) expires at most seven days after its start day |
| ParkingUtils.WorkingMinutesFrom | services/parkingUtils.ts:88-104 | the countdown walk from an instant is never negative, is 0 at or after the target, and counts at most one per minute step before the target |
| ParkingUtils.RemainingWorkingMinutes | services/parkingUtils.ts:80-106 | the value of `getRemainingWorkingMinutes` read at `now`; stated by `ParkingUtils.WorkingMinutesFrom`, `ParkingUtils.CountdownMatchesOperatingTime` and `ParkingUtils.CountdownAtPurchase` |
| ParkingUtils.GetRemainingWorkingMinutes | services/parkingUtils.ts:80-106 | the loop returns the countdown walk from `now`: 0 when now is at or past the end, and never negative |
| ParkingUtils.PositiveCountNeedsOperatingTime | services/parkingUtils.ts:89-92 | a positive countdown implies that operating time remains before the end |
| ParkingUtils.CountdownBoundedByOperatingTime | services/parkingUtils.ts:88-104 | between whole minutes, the countdown in minutes never exceeds the operating time left before the end |
| ParkingUtils.CountdownMatchesOperatingTime | services/parkingUtils.ts:88-104 | from an operating whole-minute instant to a whole-minute end, the countdown equals the operating time between them, in minutes |
| ParkingUtils.CountdownAtPurchase | services/parkingUtils.ts:80-106 | read at a purchase made inside opening hours on a whole minute, the countdown shows exactly the paid minutes |
| ParkingExamples.RolloverToNextMorning | services/parkingUtils.ts:67-75 | Monday 17:30 + 60 min expires on Tuesday at 08:30 |
| ParkingExamples.RolloverSkipsSunday | services/parkingUtils.ts:46-75 | Saturday 11:45 + 30 min expires on Monday at 08:15 |
| ParkingExamples.FitsInWindow | services/parkingUtils.ts:67-71 | Wednesday 09:00 + 45 min expires on Wednesday at 09:45 |
| ParkingExamples.StartAfterClose | services/parkingUtils.ts:62-65 | Tuesday 20:00 + 30 min is not clamped and expires on Wednesday at 08:30 |
| ParkingExamples.StartBeforeOpening | services/parkingUtils.ts:42-44 | Tuesday 07:00 + 60 min is clamped to 08:00 and expires at 09:00 |
| ParkingExamples.StartOnSunday | services/parkingUtils.ts:50-53 | Sunday 10:00 + 30 min is not clamped and expires on Monday at 08:30 |
| ParkingExamples.CountdownSkipsMorningWindow | services/parkingUtils.ts:95-102 | with expiry Tuesday 09:00, the countdown reads 0 at 07:00 and 60 at 08:00 |
| Text.NatToString | components/BuyCredits.tsx:21 | `String(n)`: a non-empty digit string with no leading zero that denotes n, of length 1 iff n < 10 and 2 iff 10 <= n < 100 |
| Text.SpellDecimal | components/BuyCredits.tsx:21 | any digit string without leading zero is the `String` of the number it denotes |
| Text.PadStart2 | components/ActiveSession.tsx:36 | `padStart(2, '0')` keeps the number a digit string denotes, and its length is at least 2 |
| Text.FixedTwo | components/BuyCredits.tsx:22 | `toFixed(2)` of a cent amount gives the whole reais without a leading zero, '.', then two digits, and they read back as the amount |
| Text.IntToString | App.tsx:112 | the template `${minutes}`: the decimal spelling, with '-' in front of a negative number |
| Text.Digits | components/LoginView.tsx:25 | `replace(/\D/g, '')` keeps only digits and never gets longer |
| Text.DigitsAppend | components/LoginView.tsx:25 | filtering digits distributes over concatenation |
| Text.ToUpperAscii | App.tsx:72 | `toUpperCase()` keeps the length, changes only the letters a–z, and leaves no lower-case ASCII letter |
| LoginView.MaskCPF | components/LoginView.tsx:23-30 | the four replaces of `maskCPF` in order; what they produce is stated by `LoginView.MaskCPFLayout` and the lemmas after it |
| LoginView.MaskPhone | components/LoginView.tsx:32-38 | the three replaces of `maskPhone` in order; what they produce is stated by `LoginView.MaskPhoneLayout` and the lemmas after it |
| LoginView.ReplaceRun | components/LoginView.tsx:26-27 | a non-global replace of `(\d{k})(\d)`; its effect on the digit strings it meets is stated by `LoginView.CpfFirstDot`, `LoginView.CpfSecondDot`, `LoginView.PhoneParens` and `LoginView.PhoneHyphen` |
| LoginView.ReplaceRunGreedy | components/LoginView.tsx:28 | the replace of `(\d{3})(\d{1,2})`; `LoginView.GreedyIsInsertion` shows it only inserts the separator |
| LoginView.TrimTail | components/LoginView.tsx:29 | the replace of `(-\d{k})\d+?$`; stated by `LoginView.CpfTrim` and `LoginView.PhoneTrim` |
| LoginView.FindRun | components/LoginView.tsx:26-28 | the regex search finds the leftmost run of the given number of digits, or reports that there is none |
| LoginView.GreedyDigits | components/LoginView.tsx:28 | `\d{1,2}` takes as many following digits as it may, up to 2 |
| LoginView.FindTail | components/LoginView.tsx:29 | the regex search finds the leftmost hyphen followed by more than k digits up to the end, or reports none |
| LoginView.GreedyIsInsertion | components/LoginView.tsx:28 | the hyphen replacement just inserts '-' after the three-digit run, whatever `\d{1,2}` took |
| LoginView.CpfFirstDot | components/LoginView.tsx:26 | the first replace puts '.' after the third digit once there are four |
| LoginView.CpfSecondDot | components/LoginView.tsx:27 | the second replace skips the first group and puts '.' after the sixth digit once there are seven |
| LoginView.CpfHyphen | components/LoginView.tsx:28 | the third replace puts '-' after the ninth digit once there are ten |
| LoginView.CpfTrim | components/LoginView.tsx:29 | the last replace cuts the part after the hyphen to two digits |
| LoginView.MaskCPFLayout | components/LoginView.tsx:23-30 | `maskCPF` is ddd.ddd.ddd-dd filled in as far as the digits typed go: '.' after the 3rd digit from 4 digits on, '.' after the 6th from 7 on, '-' after the 9th from 10 on, nothing past the 11th |
| LoginView.MaskCPFLength | components/LoginView.tsx:26-29 | the CPF field is at most 14 characters, and exactly 14, in the form ddd.ddd.ddd-dd, iff at least 11 digits were typed |
| LoginView.MaskCPFDigits | components/LoginView.tsx:23-30 | the digits of the masked CPF are the first 11 digits typed |
| LoginView.MaskCPFAlphabet | components/LoginView.tsx:23-30 | a masked CPF holds only digits, '.' and '-', so removing '.' and '-' leaves exactly its digits |
| LoginView.MaskCPFIdempotent | components/LoginView.tsx:25 | masking a masked CPF changes nothing |
| LoginView.PhoneParens | components/LoginView.tsx:35 | the first replace writes "(dd) " once there are three digits |
| LoginView.PhoneHyphen | components/LoginView.tsx:36 | the second replace puts '-' after the seventh digit once there are eight |
| LoginView.PhoneTrim | components/LoginView.tsx:37 | the last replace cuts the part after the hyphen to four digits |
| LoginView.MaskPhoneLayout | components/LoginView.tsx:32-38 | `maskPhone` is (dd) ddddd-dddd filled in as far as the digits typed go, keeping at most 11 digits |
| LoginView.MaskPhoneLength | components/LoginView.tsx:32-38 | the phone field is at most 15 characters, and exactly 15 iff at least 11 digits were typed |
| LoginView.MaskPhoneDigits | components/LoginView.tsx:32-38 | the digits of the masked phone are the first 11 digits typed |
| LoginView.MaskPhoneIdempotent | components/LoginView.tsx:34 | masking a masked phone changes nothing |
| LoginView.HandleForgot | components/LoginView.tsx:40-46 | accepted iff the CPF field has at least 14 characters; then the modal closes and the CPF field is cleared, otherwise nothing changes |
| LoginView.HandleRegister | components/LoginView.tsx:48-55 | accepted iff the CPF field has at least 14 characters and the phone field at least 15; then the modal closes and both fields are cleared, otherwise nothing changes |
| LoginView.ForgotNeedsElevenDigits | components/LoginView.tsx:42 | on a masked CPF field the recovery form goes through iff 11 digits were typed |
| LoginView.RegisterNeedsElevenDigitsEach | components/LoginView.tsx:50 | on masked fields, registration goes through iff 11 CPF digits and 11 phone digits were typed |
| App.PlateShown | App.tsx:110 | `vehicle?.plate \|\| '---'`; used by `App.AppState.BuyParking`, whose contract states the plate recorded |
| App.Credited | App.tsx:50-64 | the user a recharge produces; stated by `App.CreditedKeepsLedger` and `App.AppState.AddCredits` |
| App.WithVehicle | App.tsx:70-78 | the user with a new vehicle appended; stated by `App.AppState.AddVehicle` and `App.TransitionsKeepSessionRecorded` |
| App.Parked | App.tsx:95-117 | the user a purchase produces; stated by `App.ParkedKeepsLedger`, `App.BuyThenEnd` and `App.AppState.BuyParking` |
| App.Ended | App.tsx:124-128 | the user after ending a session; stated by `App.EndedKeepsLedger` and `App.EndedClosesEverything` |
| App.FindVehicle | App.tsx:89 | `find` returns the first vehicle with the id, and nothing iff no vehicle has it |
| App.CloseEntries | App.tsx:127 | `history.map` keeps the length, turns running entries into done ones and leaves every other entry as it was |
| App.CreditedKeepsLedger | App.tsx:50-64 | a recharge records its amount in the history: balance minus the history's total is unchanged |
| App.ParkedKeepsLedger | App.tsx:103-117 | a purchase records its cost in the history: balance minus the history's total is unchanged |
| App.CloseEntriesKeepsLedger | App.tsx:127 | closing the running entries does not change the history's total |
| App.EndedKeepsLedger | App.tsx:124-128 | ending a session keeps balance minus the history's total |
| App.EndedClosesEverything | App.tsx:124-128 | after `endParking` no entry is still running, and ending again changes nothing |
| App.TransitionsKeepSessionRecorded | App.tsx:48-130 | every handler keeps the invariant that a running session has a running history entry |
| App.BuyThenEnd | App.tsx:82-130 | ending a session just bought leaves no session, the price paid deducted, and its entry at the front marked done with that cost |
| App.AppState.constructor | App.tsx:20-31 | once loaded, the app holds the loaded user, on the dashboard |
| App.AppState.AddCredits | App.tsx:48-66 | without a user nothing changes; otherwise balance + amount, one 'Crédito Adicionado' entry for 'CARTEIRA' in front of the history, vehicles and session unchanged, back to the dashboard |
| App.AppState.AddVehicle | App.tsx:68-80 | without a user nothing changes; otherwise one vehicle with the upper-cased plate is appended and nothing else changes but the view |
| App.AppState.BuyParking | App.tsx:82-120 | without a user or with balance below the cost nothing changes; otherwise the balance drops by exactly the cost and stays non-negative, the session ends at the expiry of the minutes bought now, and one 'Em andamento' entry with the vehicle's plate (or '---') goes in front |
| App.AppState.EndParking | App.tsx:122-130 | without a user nothing changes; otherwise the session is cleared and running entries are marked 'Concluído' |
| BuyCredits.OptionAt | components/BuyCredits.tsx:17-28 | entry i of the table; stated by `BuyCredits.OptionsIncrease`, `BuyCredits.OptionsFlatRate` and `BuyCredits.OptionSubShowsPrice` |
| BuyCredits.HourLabel | components/BuyCredits.tsx:21 | the h-hour label; stated by `BuyCredits.HourLabelShape` |
| BuyCredits.PriceText | components/BuyCredits.tsx:22 | "R$ " and `toFixed(2)` of the price; stated by `BuyCredits.OptionSubShowsPrice` |
| BuyCredits.IsBalanceEnough | components/BuyCredits.tsx:32 | balance at least the selected price; stated by `BuyCredits.Confirm` |
| BuyCredits.IsRollover | components/BuyCredits.tsx:35-36 | the expiry falls on another day than now; stated by `BuyCredits.RolloverIffTodayTooShort` |
| BuyCredits.DefaultVehicle | components/BuyCredits.tsx:14 | the first vehicle's id, or '' without vehicles; stated by `BuyCredits.DefaultPurchase` |
| BuyCredits.DefaultPurchase | components/BuyCredits.tsx:14-15 | as the screen opens, with the first vehicle and one hour preselected, the button buys 60 minutes for 200 cents for the first vehicle iff the balance is at least 200, and offers a recharge otherwise |
| BuyCredits.GenerateOptions | components/BuyCredits.tsx:17-28 | 51 options: the 30-minute one for R$ 1.00, then h hours for 60h minutes and 200h cents, h = 1..50 |
| BuyCredits.OptionsIncrease | components/BuyCredits.tsx:18-25 | minutes and prices rise strictly along the table |
| BuyCredits.OptionsFlatRate | components/BuyCredits.tsx:18-25 | every option, the 30-minute one included, costs R$ 2.00 an hour |
| BuyCredits.OptionSubShowsPrice | components/BuyCredits.tsx:18-22 | each option's price text is "R$ " and its price with two decimals, and it reads back as the price |
| BuyCredits.HourLabelShape | components/BuyCredits.tsx:21 | the h-hour label starts with two digits that read back as h, zero-padded iff h < 10, followed by " Hora" for h = 1 and " Horas" otherwise |
| BuyCredits.RolloverIffTodayTooShort | components/BuyCredits.tsx:35-36 | the rollover banner shows iff now is a Sunday or less operating time is left today than is being bought |
| BuyCredits.OptionExpiresWithinAWeek | components/BuyCredits.tsx:35-36 | any option bought expires within seven days, so comparing days of the month tells the same as comparing days |
| BuyCredits.Confirm | components/BuyCredits.tsx:118-130 | the button activates the selected vehicle, minutes and price iff the balance covers the price; otherwise it offers a recharge |
| BuyCredits.ConfirmPassesBalanceGuard | components/BuyCredits.tsx:118-124 | a confirmed purchase passes the app's balance guard, leaves a non-negative balance and buys a positive number of minutes |
| RechargeView.RechargeOptionAt | components/RechargeView.tsx:20-29 | entry i of the recharge table; stated by `RechargeView.SameTableAsBuyCredits` |
| RechargeView.GenerateOptions | components/RechargeView.tsx:20-29 | 51 options: '30 Minutos' for R$ 1.00, then the h-hour label for 200h cents, h = 1..50 |
| RechargeView.SameTableAsBuyCredits | components/RechargeView.tsx:20-29 | every entry has the same label and the same price as the purchase table's entry |
| RechargeView.RechargeScreen.constructor | components/RechargeView.tsx:12-14 | the screen opens on '01 Hora' (R$ 2.00) with PIX chosen and the PIX step hidden |
| RechargeView.RechargeScreen.SelectedAmount | components/RechargeView.tsx:31-32 | the selected amount is the purchase table's price of the selected period, R$ 2.00 an hour |
| RechargeView.RechargeScreen.SelectOption | components/RechargeView.tsx:156 | clicking an option selects it and changes nothing else |
| RechargeView.RechargeScreen.SelectPaymentMethod | components/RechargeView.tsx:184 | clicking a method selects it and changes nothing else |
| RechargeView.RechargeScreen.Finalize | components/RechargeView.tsx:218-225 | with PIX only the PIX step opens and nothing is confirmed; with a card the selected amount is confirmed at once |
| RechargeView.RechargeScreen.ConfirmPix | components/RechargeView.tsx:120-123 | confirming on the PIX step confirms the selected amount |
| RechargeView.RechargeScreen.ClosePixScreen | components/RechargeView.tsx:69 | the back arrow hides the PIX step and keeps the selection |
| ActiveSession.FormatTime | components/ActiveSession.tsx:33-37 | hours field, ':', minutes field in 0..59, ':00'; hours * 60 + minutes reads back as the count; 8 characters iff under 100 hours, and a longer hours field has no leading zero |
| ActiveSession.UpdateTime | components/ActiveSession.tsx:17-26 | running iff the calendar is open now; the countdown is the remaining working minutes, never negative and 0 once expired |
| ActiveSession.AnnouncedResume | components/ActiveSession.tsx:40 | the announced resume is the next start: later than now, an operating instant at 08:00 |
| ActiveSession.SuspendedCases | components/ActiveSession.tsx:45-46 | the screen shows "suspended" exactly on a Sunday, before 08:00 or from the day's close on |
| ActiveSession.AnnouncedResumeAfterClose | components/ActiveSession.tsx:85-91 | suspended on a Sunday or after the close, the announced instant is the first operating instant from now on |
| ActiveSession.AnnouncedResumeBeforeOpening | components/ActiveSession.tsx:85-91 | suspended before 08:00 on Monday to Saturday, the announced day is a later day although today's 08:00 is an operating instant that comes first |

## Left out

- Time zones and daylight saving. `Date` local time is modelled as one fixed zone where every
  day is 24 hours long.
- Clock reads are parameters. This covers `new Date()` in `getRemainingWorkingMinutes`, in
  `buyParking` (twice: the session start and the history date) and in the purchase screen. It
  also covers the `updateTime` tick and the resume banner. The purchase screen reads the clock
  twice, once for the expiry and once for today; the model uses one `now` for both.
- The 10-second `setInterval` of the session screen, and the React state it sets.
  `UpdateTime` returns the two values instead.
- Random ids (`Math.random`) are parameters. `alert` messages are not modelled.
- Money is whole cents, not JavaScript floating-point numbers, and minutes are whole numbers.
  `toFixed(2)` is modelled on cents. Float rounding of the fractional minutes the scheduler can
  produce is not modelled: the model keeps the remaining credit in exact milliseconds.
- History dates are kept as instants. The `toISOString` text and the `toLocaleDateString` /
  `toLocaleTimeString` displays are left out.
- `toUpperCase` is modelled for the ASCII letters only.
- BuyCredits.IsRollover: compares day numbers, not `getDate()` days of the month. They agree
  because every option expires within seven days (`BuyCredits.OptionExpiresWithinAWeek`).
- ParkingUtils.GetRemainingWorkingMinutes: its link to the expiry is proved only for a
  purchase made during opening hours on a whole minute. The code does not satisfy the general
  round trip (see above).
- Loading and saving the user (`services/api.ts`, `localStorage`, the save effect), the login
  call and the loading flags.
- Navigation buttons that only switch `currentView`. The views the four handlers set are
  modelled.
- The login screen's name and password fields, its modal-opening buttons and its login form.
  No check depends on them. The masks on the typed values are modelled through the lemmas that
  take masked fields.
- The purchase screen's selection clicks. The selected vehicle and option are parameters of
  `Confirm`.
- The recharge screen's PIX copy-to-clipboard, the QR image and the back button.
- The percentage ring of the session screen (a floating-point ratio).
- The presentation-only screens: dashboard, history, profile, map, help, logo and the
  add-vehicle form. That form's guard, a non-empty plate and a non-empty nickname
  (`components/AddVehicle.tsx:14`), is not modelled: `AddVehicle` accepts any plate and
  nickname.
