/** The shipping-form input: a tel input keeps only the digits typed and
    puts a "+" in front of them; other inputs are left as typed. */
module ShippingInput {
  import opened Common

  /** The value handlePhoneChange leaves in a tel input for what was typed:
      both of its branches prepend "+" to a non-empty digit string */
  function NormalizedPhone(typed: string): string
  {
    var digits := DigitsOnly(typed);
    if digits == "" then "" else "+" + digits
  }

  /** The result is empty, or a "+" followed by digits only; it is empty
      exactly when nothing typed was a digit. */
  lemma PhoneShape(typed: string)
    ensures var r := NormalizedPhone(typed);
      r == "" || (r[0] == '+' && forall i :: 1 <= i < |r| ==> IsDigit(r[i]))
    ensures NormalizedPhone(typed) == "" <==> forall i :: 0 <= i < |typed| ==> !IsDigit(typed[i])
  {
    var digits := DigitsOnly(typed);
    if digits != "" {
      var r := NormalizedPhone(typed);
      assert forall i :: 1 <= i < |r| ==> r[i] == digits[i - 1];
      assert IsDigit(digits[0]) && digits[0] in typed;
    }
  }

  /** The digits are kept, in order: the normalised phone has the same digits. */
  lemma PhoneKeepsDigits(typed: string)
    ensures DigitsOnly(NormalizedPhone(typed)) == DigitsOnly(typed)
  {
    var digits := DigitsOnly(typed);
    DigitsOnlyOfDigits(digits);
    if digits != "" {
      assert ("+" + digits)[1..] == digits;
    }
  }

  /** Normalising a normalised phone changes nothing. */
  lemma PhoneIdempotent(typed: string)
    ensures NormalizedPhone(NormalizedPhone(typed)) == NormalizedPhone(typed)
  {
    PhoneKeepsDigits(typed);
  }

  /** The DOM input element whose value the handler rewrites */
  class InputElement {
    var value: string

    constructor(value: string)
      ensures this.value == value
    {
      this.value := value;
    }
  }

  /** handlePhoneChange: strips the non-digits, then prepends "+" when the
      digits start with 1 and are more than one, or are non-empty and do not
      start with "+"; inputs of other types are not touched. */
  method HandlePhoneChange(kind: string, target: InputElement)
    modifies target
    ensures kind == "tel" ==> target.value == NormalizedPhone(old(target.value))
    ensures kind != "tel" ==> target.value == old(target.value)
  {
    if kind == "tel" {
      var value := DigitsOnly(target.value);
      if StartsWith(value, "1") && |value| > 1 {
        value := "+" + value;
      } else if |value| > 0 && !StartsWith(value, "+") {
        value := "+" + value;
      }
      target.value := value;
    }
  }

  /** The input's onChange: the tel normalisation, then the caller's
      onChange (when given), which sees the normalised value. */
  method OnChange(kind: string, target: InputElement, hasCallback: bool) returns (seen: Option<string>)
    modifies target
    ensures target.value == if kind == "tel" then NormalizedPhone(old(target.value)) else old(target.value)
    ensures seen.Some? <==> hasCallback
    ensures seen.Some? ==> seen.value == target.value
  {
    if kind == "tel" {
      HandlePhoneChange(kind, target);
    }
    seen := if hasCallback then Some(target.value) else None;
  }

  /** getMinLength: 10 for tel inputs, no minimum otherwise */
  function MinLength(kind: string): Option<nat>
  {
    if kind == "tel" then Some(10) else None
  }

  /** The minimum counts characters and the "+" is one of them: a normalised
      tel value meets it exactly when it carries at least nine digits, one
      fewer than the ten the purchase dialog's form check asks for. Other
      inputs have no minimum. */
  lemma MinLengthCountsThePlus(kind: string, typed: string)
    ensures MinLength(kind).Some? <==> kind == "tel"
    ensures kind == "tel" ==>
      (|NormalizedPhone(typed)| >= MinLength(kind).value <==> |DigitsOnly(typed)| >= 9)
  {
  }
}
