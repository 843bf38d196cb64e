/**
  The wallet recharge screen: its own copy of the price table, the selected amount, the payment
  method and the PIX step. Prices are in cents.
*/
module RechargeView {
  import opened Wrappers
  import opened Text
  import BuyCredits

  /** One recharge amount on offer. */
  datatype RechargeOption = RechargeOption(labelText: string, price: int)

  datatype PaymentMethod = Pix | Credit | Debit

  /** Entry i of the recharge table. */
  function RechargeOptionAt(i: nat): RechargeOption
  {
    if i == 0 then RechargeOption("30 Minutos", 100) else RechargeOption(BuyCredits.HourLabel(i), 200 * i)
  }

  /** `generateOptions`: 30 minutes, then 1 to 50 hours. */
  method GenerateOptions() returns (opts: seq<RechargeOption>)
    ensures |opts| == 51
    ensures forall i :: 0 <= i < 51 ==> opts[i] == RechargeOptionAt(i)
  {
    opts := [RechargeOption("30 Minutos", 100)];
    var h := 1;
    while h <= 50
      invariant 1 <= h <= 51 && |opts| == h
      invariant forall i :: 0 <= i < h ==> opts[i] == RechargeOptionAt(i)
    {
      opts := opts + [RechargeOption(BuyCredits.HourLabel(h), h * 200)];
      h := h + 1;
    }
  }

  /** The recharge table agrees with the purchase table, entry by entry, in label and price. */
  lemma SameTableAsBuyCredits(i: nat)
    requires i <= 50
    ensures RechargeOptionAt(i).labelText == BuyCredits.OptionAt(i).labelText
    ensures RechargeOptionAt(i).price == BuyCredits.OptionAt(i).price
  {
  }

  /** The screen's state fields. */
  class RechargeScreen {
    var selectedOptIndex: int
    var paymentMethod: PaymentMethod
    var showPixScreen: bool

    /** The selection always points into the table. */
    predicate Valid()
      reads this
    {
      0 <= selectedOptIndex <= 50
    }

    /** The initial state: one hour selected, PIX chosen, PIX step hidden. */
    constructor ()
      ensures Valid()
      ensures selectedOptIndex == 1 && paymentMethod == Pix && !showPixScreen
      ensures RechargeOptionAt(selectedOptIndex) == RechargeOption("01 Hora", 200)
    {
      selectedOptIndex := 1;
      paymentMethod := Pix;
      showPixScreen := false;
      assert NatToString(1) == "1";
    }

    /** `options[selectedOptIndex].price`: the price of the selected period in the purchase table. */
    method SelectedAmount() returns (amount: int)
      requires Valid()
      ensures amount == BuyCredits.OptionAt(selectedOptIndex).price
      ensures amount > 0 && amount * 60 == BuyCredits.OptionAt(selectedOptIndex).min * 200
    {
      var options := GenerateOptions();
      amount := options[selectedOptIndex].price;
      SameTableAsBuyCredits(selectedOptIndex);
      BuyCredits.OptionsFlatRate(selectedOptIndex);
    }

    /** Clicking option `index` of the grid. */
    method SelectOption(index: int)
      requires 0 <= index <= 50
      modifies this
      ensures Valid() && selectedOptIndex == index
      ensures paymentMethod == old(paymentMethod) && showPixScreen == old(showPixScreen)
    {
      selectedOptIndex := index;
    }

    /** Clicking one of the payment methods. */
    method SelectPaymentMethod(m: PaymentMethod)
      modifies this
      ensures paymentMethod == m
      ensures selectedOptIndex == old(selectedOptIndex) && showPixScreen == old(showPixScreen)
    {
      paymentMethod := m;
    }

    /**
      "FINALIZAR COMPRA": with PIX it only opens the PIX step and confirms nothing; with a card
      it confirms the selected amount at once.
    */
    method Finalize() returns (confirmed: Option<int>)
      requires Valid()
      modifies this
      ensures Valid() && selectedOptIndex == old(selectedOptIndex) && paymentMethod == old(paymentMethod)
      ensures old(paymentMethod) == Pix ==> confirmed == None && showPixScreen
      ensures old(paymentMethod) != Pix ==>
                confirmed == Some(BuyCredits.OptionAt(selectedOptIndex).price)
                && showPixScreen == old(showPixScreen)
    {
      if paymentMethod == Pix {
        showPixScreen := true;
        confirmed := None;
      } else {
        var amount := SelectedAmount();
        confirmed := Some(amount);
      }
    }

    /** "CONFIRMAR PAGAMENTO" on the PIX step: confirms the selected amount. */
    method ConfirmPix() returns (amount: int)
      requires Valid() && showPixScreen
      ensures amount == BuyCredits.OptionAt(selectedOptIndex).price
    {
      amount := SelectedAmount();
    }

    /** The back arrow of the PIX step. */
    method ClosePixScreen()
      modifies this
      ensures !showPixScreen
      ensures selectedOptIndex == old(selectedOptIndex) && paymentMethod == old(paymentMethod)
    {
      showPixScreen := false;
    }
  }
}
