/** The purchase dialog: when its shipping form counts as complete, when a
    purchase is sent, and the balance it shows afterwards. */
module PurchaseModal {
  import opened Common
  import ShippingInput

  datatype ShippingForm = ShippingForm(
    firstName: string, lastName: string, street1: string, street2: string, city: string,
    state: string, zipcode: string, country: string, phone: string)

  /** The fields that must not be blank: all but street2, in the order tested */
  function Required(f: ShippingForm): seq<string>
  {
    [f.firstName, f.lastName, f.street1, f.city, f.state, f.zipcode, f.country, f.phone]
  }

  /** isFormValid: every required field is non-blank after trimming, and the
      phone holds at least ten digits */
  predicate IsFormValid(f: ShippingForm)
  {
    (forall s :: s in Required(f) ==> Trim(s) != "") && |DigitsOnly(f.phone)| >= 10
  }

  /** A phone with a digit is never blank, so the ten-digit test alone decides
      the phone's part of the form check. */
  lemma PhoneDigitsImplyNonBlank(phone: string)
    requires |DigitsOnly(phone)| > 0
    ensures Trim(phone) != ""
  {
    var d := DigitsOnly(phone);
    assert d[0] in phone && IsDigit(d[0]);
    var i :| 0 <= i < |phone| && phone[i] == d[0];
    assert !IsSpace(phone[i]);
    TrimEmptyIff(phone);
  }

  /** The form's validity does not depend on the second street line, and the
      shipping input's tel normalisation never changes it. */
  lemma FormValidity(f: ShippingForm, street2: string)
    ensures IsFormValid(f.(street2 := street2)) == IsFormValid(f)
    ensures IsFormValid(f.(phone := ShippingInput.NormalizedPhone(f.phone))) == IsFormValid(f)
  {
    var p := ShippingInput.NormalizedPhone(f.phone);
    ShippingInput.PhoneKeepsDigits(f.phone);
    if |DigitsOnly(f.phone)| > 0 {
      PhoneDigitsImplyNonBlank(f.phone);
      PhoneDigitsImplyNonBlank(p);
    }
  }

  /** parseFloat(x) || 0, for the result of parseFloat (None for NaN) */
  function OrZero(parsed: Option<real>): real
  {
    if parsed.Some? then parsed.value else 0.0
  }

  /** What the purchase request came back with */
  datatype Outcome = Succeeded | Refused | Threw

  /** The dialog state handlePurchase updates */
  class Dialog {
    var isPurchasing: bool
    var purchaseSuccessful: bool
    var balance: real

    constructor(balance: real)
      ensures !isPurchasing && !purchaseSuccessful && this.balance == balance
    {
      isPurchasing := false;
      purchaseSuccessful := false;
      this.balance := balance;
    }

    /** handlePurchase: nothing happens for an invalid form or while a
        purchase is in flight; otherwise the request is sent with
        amountSpent = parseFloat(price) || 0, a success takes that amount off
        the shown balance and marks the purchase successful, and the
        in-flight flag is cleared whatever the outcome. */
    method HandlePurchase(form: ShippingForm, price: Option<real>, outcome: Outcome)
      returns (amountSent: Option<real>)
      modifies this
      ensures !IsFormValid(form) || old(isPurchasing) ==>
        amountSent == None && unchanged(this)
      ensures IsFormValid(form) && !old(isPurchasing) ==>
        && amountSent == Some(OrZero(price))
        && !isPurchasing
        && (outcome == Succeeded ==> balance == old(balance) - OrZero(price) && purchaseSuccessful)
        && (outcome != Succeeded ==> balance == old(balance) && purchaseSuccessful == old(purchaseSuccessful))
    {
      if !IsFormValid(form) || isPurchasing {
        return None;
      }
      isPurchasing := true;
      amountSent := Some(OrZero(price));
      if outcome == Succeeded {
        var purchaseAmount := OrZero(price);
        balance := balance - purchaseAmount;
        purchaseSuccessful := true;
      }
      isPurchasing := false;
    }
  }
}
