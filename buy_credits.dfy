/**
  The purchase screen: the table of parking periods on sale, the balance check and the
  rollover banner, and what its confirm button hands to the app. Prices are in cents.
*/
module BuyCredits {
  import opened Text
  import opened Types
  import opened Instants
  import opened Calendar
  import opened OperatingMeasure
  import opened ParkingUtils

  /** One period on sale: its label (`label` is a Dafny keyword), its price text, its minutes and its price. */
  datatype CreditOption = CreditOption(labelText: string, sub: string, min: int, price: int)

  /** The first option, written out literally in the source. */
  const HALF_HOUR: CreditOption := CreditOption("30 Minutos", "R$ 1.00", 30, 100)

  /** The label of the h-hour option: the hours zero-padded to two places, then "Hora" or "Horas". */
  function HourLabel(h: nat): string
  {
    (if h < 10 then "0" + NatToString(h) else NatToString(h)) + " " + (if h == 1 then "Hora" else "Horas")
  }

  /** "R$ " followed by `price.toFixed(2)`. */
  function PriceText(cents: nat): string
  {
    "R$ " + FixedTwo(cents)
  }

  /** The option the loop pushes for h hours. */
  function HourOption(h: nat): CreditOption
  {
    CreditOption(HourLabel(h), PriceText(200 * h), 60 * h, 200 * h)
  }

  /** Entry i of the table. */
  function OptionAt(i: nat): CreditOption
  {
    if i == 0 then HALF_HOUR else HourOption(i)
  }

  /** `generateOptions`: 30 minutes, then 1 to 50 hours. */
  method GenerateOptions() returns (opts: seq<CreditOption>)
    ensures |opts| == 51
    ensures forall i :: 0 <= i < 51 ==> opts[i] == OptionAt(i)
  {
    opts := [HALF_HOUR];
    var h := 1;
    while h <= 50
      invariant 1 <= h <= 51 && |opts| == h
      invariant forall i :: 0 <= i < h ==> opts[i] == OptionAt(i)
    {
      ghost var prev := opts;
      opts := opts + [HourOption(h)];
      assert forall i :: 0 <= i < h ==> opts[i] == prev[i];
      assert opts[h] == OptionAt(h);
      h := h + 1;
    }
  }

  /** Longer periods cost more: minutes and prices rise strictly along the table. */
  lemma OptionsIncrease(i: nat, j: nat)
    requires i < j <= 50
    ensures OptionAt(i).min < OptionAt(j).min
    ensures OptionAt(i).price < OptionAt(j).price
  {
  }

  /** Every option, the 30-minute one included, is priced at R$ 2.00 an hour. */
  lemma OptionsFlatRate(i: nat)
    requires i <= 50
    ensures OptionAt(i).min > 0 && OptionAt(i).price * 60 == OptionAt(i).min * 200
  {
  }

  /** The price text of every option shows its price: "R$ ", the reais, '.', two digits of cents. */
  lemma OptionSubShowsPrice(i: nat)
    requires i <= 50
    ensures OptionAt(i).price >= 0 && OptionAt(i).sub == PriceText(OptionAt(i).price)
    ensures var t := OptionAt(i).sub[3..];
            OptionAt(i).sub[..3] == "R$ " && |t| >= 4 && t[|t| - 3] == '.'
            && DecimalValue(t[..|t| - 3]) * 100 + DecimalValue(t[|t| - 2..]) == OptionAt(i).price
  {
    if i == 0 {
      assert NatToString(1) == "1";
      assert FixedTwo(100) == "1.00";
    }
  }

  /**
    The label of the h-hour option reads back as h: two digits, zero-padded below 10, then
    " Hora" for one hour and " Horas" otherwise.
  */
  lemma HourLabelShape(h: nat)
    requires 1 <= h <= 50
    ensures var l := HourLabel(h);
            |l| >= 7 && AllDigits(l[..2]) && DecimalValue(l[..2]) == h
            && (l[0] == '0' <==> h < 10)
            && l[2..] == (if h == 1 then " Hora" else " Horas")
  {
    var l := HourLabel(h);
    var digits := if h < 10 then "0" + NatToString(h) else NatToString(h);
    assert l[..2] == digits && l[2..] == (if h == 1 then " Hora" else " Horas");
    if h < 10 {
      LeadingZero(NatToString(h));
    }
  }

  /** `isBalanceEnough`. */
  predicate IsBalanceEnough(balance: int, selection: CreditOption)
  {
    balance >= selection.price
  }

  /**
    `isRollover`: the expiry falls on another calendar day than now. The source compares
    `getDate()`, the day of the month; ExpiryWithinAWeek shows the expiry of any option is at
    most seven days later, where the day of the month differs exactly when the day does.
  */
  predicate IsRollover(now: int, expiry: int)
  {
    DayOf(expiry) != DayOf(now)
  }

  /**
    The banner shows exactly when today cannot hold the purchase: on a Sunday, or when less
    operating time is left today than was bought.
  */
  lemma RolloverIffTodayTooShort(now: int, minutes: int, e: int)
    requires minutes > 0 && IsExpiry(now, minutes, e)
    ensures IsRollover(now, e) <==>
              Weekday(now) == 0 || OpenMs(now, ClosingOfDay(DayOf(now))) < minutes * MINUTE_MS
  {
    var d := DayOf(now);
    var close := ClosingOfDay(d);
    if DayOf(e) == d {
      OpenMonotone(e, close);
      OpenAdditive(now, e, close);
    } else if Weekday(now) != 0 && OpenMs(now, close) >= minutes * MINUTE_MS {
      var c := ClampedStart(now);
      if now >= close {
        OpenMonotone(close, now);
        assert false;
      }
      OpenInWindow(c, close);
      OpenAdditive(now, c, close);
      SameWindowExpiry(now, minutes, e);
      DayDecomposition(d, MsOfDay(c) + minutes * MINUTE_MS);
      assert false;
    }
  }

  /** The periods on sale always end within a week, on a later day or the same one. */
  lemma OptionExpiresWithinAWeek(i: nat, now: int, e: int)
    requires i <= 50 && IsExpiry(now, OptionAt(i).min, e)
    ensures 0 <= DayOf(e) - DayOf(now) <= 7
  {
    ExpiryWithinAWeek(now, OptionAt(i).min, e);
  }

  /** What the confirm area does: activate the chosen period, or send the user to recharge. */
  datatype ConfirmAction = Activate(vehicleId: string, minutes: int, cost: int) | GoRecharge

  /** `useState(user.vehicles[0]?.id || '')`: the first vehicle is preselected. */
  function DefaultVehicle(u: UserState): string
  {
    if |u.vehicles| > 0 then u.vehicles[0].id else ""
  }

  /** `useState(1)`: one hour is preselected. */
  const DEFAULT_OPTION: nat := 1

  /**
    The button under the summary: with enough balance it calls `onConfirm(selectedVehicle,
    min, price)` of the selected option; otherwise it offers a recharge.
  */
  function Confirm(u: UserState, selectedVehicle: string, selectedOpt: nat): (r: ConfirmAction)
    requires selectedOpt <= 50
    ensures r.Activate? <==> u.balance >= OptionAt(selectedOpt).price
    ensures r.Activate? ==> r.minutes == OptionAt(selectedOpt).min && r.cost == OptionAt(selectedOpt).price
                            && r.vehicleId == selectedVehicle
  {
    var selection := OptionAt(selectedOpt);
    if IsBalanceEnough(u.balance, selection) then Activate(selectedVehicle, selection.min, selection.price)
    else GoRecharge
  }

  /**
    The screen as it opens: with the first vehicle and one hour preselected, the button buys
    60 minutes for R$ 2.00 for that vehicle when the balance covers it, and offers a recharge
    otherwise.
  */
  lemma DefaultPurchase(u: UserState)
    ensures u.balance >= 200 ==> Confirm(u, DefaultVehicle(u), DEFAULT_OPTION) == Activate(DefaultVehicle(u), 60, 200)
    ensures u.balance < 200 ==> Confirm(u, DefaultVehicle(u), DEFAULT_OPTION) == GoRecharge
    ensures |u.vehicles| > 0 ==> DefaultVehicle(u) == u.vehicles[0].id
  {
  }

  /**
    A confirmed purchase always passes the app's balance guard and leaves a balance that is
    not negative, for a positive number of minutes.
  */
  lemma ConfirmPassesBalanceGuard(u: UserState, selectedVehicle: string, selectedOpt: nat)
    requires selectedOpt <= 50
    ensures var r := Confirm(u, selectedVehicle, selectedOpt);
            r.Activate? ==> !(u.balance < r.cost) && u.balance - r.cost >= 0 && r.minutes > 0
  {
  }
}
