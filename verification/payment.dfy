/**
 * The student's fee payment: the amount guard shared by the three payment entry points,
 * the card dialog's input formatters (card number, expiry, CVV) and the card-detail
 * validation run before a card payment is sent.
 */
module Payment {
  import opened Text
  import opened Options

  /** The first `n` characters of `s` (all of it when shorter): `s.slice(0, n)`. */
  function Prefix(s: string, n: nat): (r: string)
    ensures |r| <= n && |r| <= |s|
    ensures r == s[..|r|]
    ensures |s| >= n ==> |r| == n
    ensures |s| <= n ==> r == s
  {
    if |s| <= n then s else s[..n]
  }

  // ---------------------------------------------------------------------------------
  // Card number

  /** `value.match(/.{1,4}/g).join(' ')`: `s` cut into runs of four characters (the last
      run possibly shorter) joined by single spaces. */
  function Group4(s: string): (r: string)
    ensures s == [] ==> r == []
    ensures s != [] ==> |r| == |s| + (|s| - 1) / 4
    decreases |s|
  {
    if |s| <= 4 then s else s[..4] + " " + Group4(s[4..])
  }

  /** Where every character of a grouped string comes from: position `i` is a separator
      exactly when `i % 5 == 4`, and otherwise holds character `i - i / 5` of the input. */
  lemma {:induction false} Group4Shape(s: string, i: int)
    requires 0 <= i < |Group4(s)|
    ensures i % 5 == 4 ==> Group4(s)[i] == ' '
    ensures i % 5 != 4 ==> 0 <= i - i / 5 < |s| && Group4(s)[i] == s[i - i / 5]
    decreases |s|
  {
    if |s| > 4 {
      var rest := Group4(s[4..]);
      assert Group4(s) == s[..4] + " " + rest;
      if i >= 5 {
        Group4Shape(s[4..], i - 5);
        assert (i - 5) % 5 == i % 5 && (i - 5) / 5 == i / 5 - 1;
      }
    }
  }

  /** Removing the separators from a grouped string gives the input back. */
  lemma {:induction false} Group4RemoveSpaces(s: string)
    requires NoSpaces(s)
    ensures RemoveSpaces(Group4(s)) == s
    decreases |s|
  {
    if |s| > 4 {
      Group4RemoveSpaces(s[4..]);
      RemoveSpacesAppend(s[..4] + " ", Group4(s[4..]));
      RemoveSpacesAppend(s[..4], " ");
      assert NoSpaces(s[..4]) by {
        forall k | 0 <= k < 4 ensures !IsSpace(s[..4][k]) { assert s[..4][k] == s[k]; }
      }
      assert s[..4] + s[4..] == s;
    }
  }

  /** A grouped string without whitespace: separators exactly every fifth position,
      never a trailing separator, and the input back once the separators are removed. */
  lemma Group4Facts(v: string)
    requires NoSpaces(v)
    ensures RemoveSpaces(Group4(v)) == v
    ensures forall i :: 0 <= i < |Group4(v)| ==> (Group4(v)[i] == ' ' <==> i % 5 == 4)
    ensures Group4(v) == [] || Group4(v)[|Group4(v)| - 1] != ' '
    ensures forall i :: 0 <= i < |Group4(v)| && i % 5 != 4 ==> !IsSpace(Group4(v)[i])
  {
    var r := Group4(v);
    Group4RemoveSpaces(v);
    forall i | 0 <= i < |r|
      ensures r[i] == ' ' <==> i % 5 == 4
      ensures i % 5 != 4 ==> !IsSpace(r[i])
    {
      Group4Shape(v, i);
    }
    if r != [] {
      Group4Shape(v, |r| - 1);
      assert (|r| - 1) % 5 != 4;
    }
  }

  /** A prefix of a whitespace-free string is whitespace-free. */
  lemma PrefixNoSpaces(s: string, n: nat)
    requires NoSpaces(s)
    ensures NoSpaces(Prefix(s, n))
  {
  }

  /** The card-number field's change handler: whitespace dropped, the first sixteen
      characters kept, grouped in fours. (When nothing is left the `|| value` fallback
      yields the same empty string.) */
  function FormatCardNumber(input: string): (r: string)
    ensures RemoveSpaces(r) == Prefix(RemoveSpaces(input), 16)
    ensures |r| <= 19
    ensures forall i :: 0 <= i < |r| ==> (r[i] == ' ' <==> i % 5 == 4)
    ensures r == [] || r[|r| - 1] != ' '
    ensures forall i :: 0 <= i < |r| && i % 5 != 4 ==> !IsSpace(r[i])
  {
    var v := Prefix(RemoveSpaces(input), 16);
    PrefixNoSpaces(RemoveSpaces(input), 16);
    Group4Facts(v);
    Group4(v)
  }

  /** Formatting an already formatted card number changes nothing. */
  lemma FormatCardNumberIdempotent(input: string)
    ensures FormatCardNumber(FormatCardNumber(input)) == FormatCardNumber(input)
  {
  }

  // ---------------------------------------------------------------------------------
  // Expiry date and CVV

  /** The expiry field's change handler: non-digits dropped; from two digits on, the
      first two, a slash, then the next two at most. */
  function FormatExpiry(input: string): (r: string)
    ensures |r| <= 5
    ensures forall i :: 0 <= i < |r| && i != 2 ==> IsDigit(r[i])
    ensures |r| > 2 ==> r[2] == '/'
    ensures KeepDigits(r) == Prefix(KeepDigits(input), 4)
    ensures |KeepDigits(input)| >= 2 ==> |r| >= 3
    ensures |KeepDigits(input)| < 2 ==> r == KeepDigits(input)
  {
    var d := KeepDigits(input);
    if |d| >= 2 then
      var t := d[2..if |d| < 4 then |d| else 4];
      KeepDigitsAppend(d[..2] + "/", t);
      KeepDigitsAppend(d[..2], "/");
      assert AllDigits(d[..2]) by { assert forall k :: 0 <= k < 2 ==> d[..2][k] == d[k]; }
      assert AllDigits(t) by {
        forall k | 0 <= k < |t| ensures IsDigit(t[k]) { assert t[k] == d[k + 2]; }
      }
      assert d[..2] + t == Prefix(d, 4);
      assert |d[..2] + "/" + t| >= 3;
      d[..2] + "/" + t
    else d
  }

  /** Formatting an already formatted expiry changes nothing. */
  lemma FormatExpiryIdempotent(input: string)
    ensures FormatExpiry(FormatExpiry(input)) == FormatExpiry(input)
  {
  }

  /** A value the CVV field can hold: at most four digits. */
  predicate CvvField(s: string) {
    AllDigits(s) && |s| <= 4
  }

  /** The CVV field's change handler: non-digits dropped; the result is taken only when it
      is at most four digits long, otherwise the field keeps its previous value. */
  function UpdateCvv(previous: string, input: string): (r: string)
    ensures CvvField(previous) ==> CvvField(r)
    ensures |KeepDigits(input)| <= 4 ==> r == KeepDigits(input)
    ensures |KeepDigits(input)| > 4 ==> r == previous
  {
    var d := KeepDigits(input);
    if |d| <= 4 then d else previous
  }

  /** Starting from the empty field, no sequence of edits makes the CVV anything but at
      most four digits. */
  lemma {:induction false} CvvAlwaysDigits(inputs: seq<string>)
    ensures CvvField(UpdateCvvAll("", inputs))
  {
    if inputs != [] {
      CvvAlwaysDigits(inputs[..|inputs| - 1]);
    }
  }

  /** The CVV field after a sequence of edits. */
  function UpdateCvvAll(start: string, inputs: seq<string>): string
  {
    if inputs == [] then start
    else UpdateCvv(UpdateCvvAll(start, inputs[..|inputs| - 1]), inputs[|inputs| - 1])
  }

  // ---------------------------------------------------------------------------------
  // Card validation

  datatype CardDetails = CardDetails(cardNumber: string, cardHolderName: string, expiryDate: string, cvv: string)

  datatype CardError = MissingField | BadNumber | BadExpiry | BadCvv {
    function Message(): string {
      match this
      case MissingField => "Please fill in all card details"
      case BadNumber => "Please enter a valid 16-digit card number"
      case BadExpiry => "Please enter expiry date in MM/YY format"
      case BadCvv => "Please enter a valid CVV (3 or 4 digits)"
    }
  }

  /** Either the first failed check, or acceptance with the last four digits recorded. */
  datatype CardCheck = CardRejected(error: CardError) | CardAccepted(lastFour: string)

  predicate AllFilled(c: CardDetails) {
    c.cardNumber != "" && c.cardHolderName != "" && c.expiryDate != "" && c.cvv != ""
  }

  /** Sixteen ASCII digits once whitespace is removed. */
  predicate NumberOk(number: string) {
    var clean := RemoveSpaces(number);
    |clean| == 16 && AllDigits(clean)
  }

  /** `^\d{2}\/\d{2}$` */
  predicate ExpiryOk(e: string) {
    |e| == 5 && IsDigit(e[0]) && IsDigit(e[1]) && e[2] == '/' && IsDigit(e[3]) && IsDigit(e[4])
  }

  /** `^\d{3,4}$` */
  predicate CvvOk(c: string) {
    3 <= |c| <= 4 && AllDigits(c)
  }

  lemma DigitsInBmp(s: string)
    ensures AllDigits(s) ==> Utf16Length(s) == |s|
  {
  }

  /** The card dialog's validation, in source order. The number test is written on the
      UTF-16 length and `/^\d+$/`; for an all-digit string the two lengths agree. */
  function ValidateCard(c: CardDetails): (r: CardCheck)
    ensures r == CardRejected(MissingField) <==> !AllFilled(c)
    ensures r == CardRejected(BadNumber) <==> AllFilled(c) && !NumberOk(c.cardNumber)
    ensures r == CardRejected(BadExpiry) <==>
      AllFilled(c) && NumberOk(c.cardNumber) && !ExpiryOk(c.expiryDate)
    ensures r == CardRejected(BadCvv) <==>
      AllFilled(c) && NumberOk(c.cardNumber) && ExpiryOk(c.expiryDate) && !CvvOk(c.cvv)
    ensures r.CardAccepted? <==>
      AllFilled(c) && NumberOk(c.cardNumber) && ExpiryOk(c.expiryDate) && CvvOk(c.cvv)
    ensures r.CardAccepted? ==>
      |r.lastFour| == 4 && AllDigits(r.lastFour) && RemoveSpaces(c.cardNumber) == RemoveSpaces(c.cardNumber)[..12] + r.lastFour
  {
    var clean := RemoveSpaces(c.cardNumber);
    DigitsInBmp(clean);
    if !AllFilled(c) then CardRejected(MissingField)
    else if Utf16Length(clean) != 16 || !(|clean| > 0 && AllDigits(clean)) then CardRejected(BadNumber)
    else if !ExpiryOk(c.expiryDate) then CardRejected(BadExpiry)
    else if !CvvOk(c.cvv) then CardRejected(BadCvv)
    else
      var last := clean[|clean| - 4..];
      assert AllDigits(last) by { forall k | 0 <= k < 4 ensures IsDigit(last[k]) { assert last[k] == clean[12 + k]; } }
      assert clean == clean[..12] + last;
      CardAccepted(last)
  }

  // ---------------------------------------------------------------------------------
  // Amount guard

  /** What the amount guard decides. `ExceedsBalance` carries the balance it quotes. */
  datatype AmountVerdict = InvalidAmount | ExceedsBalance(balance: int) | AmountOk(amount: int)

  /** The guard at the top of every payment entry point. The amount is the parsed text
      field, `None` when it does not parse (a NaN, falsy like zero). */
  function CheckAmount(amount: Option<int>, feeDue: int, amountPaid: int): (r: AmountVerdict)
    ensures r == InvalidAmount <==> amount == None || amount.value <= 0
    ensures r.ExceedsBalance? <==>
      amount.Some? && amount.value > 0 && amount.value > feeDue - amountPaid
    ensures r.ExceedsBalance? ==> r.balance == feeDue - amountPaid
    ensures r.AmountOk? <==> amount.Some? && 0 < amount.value <= feeDue - amountPaid
    ensures r.AmountOk? ==> r.amount == amount.value
  {
    match amount
    case None => InvalidAmount
    case Some(a) =>
      if a == 0 || a <= 0 then InvalidAmount
      else if a > feeDue - amountPaid then ExceedsBalance(feeDue - amountPaid)
      else AmountOk(a)
  }

  /** The three entry points: the gateway payment, the UPI link and the card dialog. */
  datatype Entry = Gateway | Upi | Card

  /** What pressing a payment button does: refuse with the guard's verdict, or go on
      (send the request, open the UPI link, open the card dialog) with the amount. */
  datatype Step = Refuse(verdict: AmountVerdict) | Proceed(entry: Entry, amount: int)

  function StartPayment(entry: Entry, amount: Option<int>, feeDue: int, amountPaid: int): (r: Step)
    ensures r.Proceed? <==> amount.Some? && 0 < amount.value <= feeDue - amountPaid
    ensures r.Proceed? ==> r.entry == entry && r.amount == amount.value
    ensures r.Refuse? ==> !r.verdict.AmountOk?
  {
    var v := CheckAmount(amount, feeDue, amountPaid);
    if v.AmountOk? then Proceed(entry, v.amount) else Refuse(v)
  }

  /** The guard is the same at all three entry points: they go on for the same amounts
      and refuse the rest with the same verdict. */
  lemma GuardIdentical(e1: Entry, e2: Entry, amount: Option<int>, feeDue: int, amountPaid: int)
    ensures StartPayment(e1, amount, feeDue, amountPaid).Proceed? == StartPayment(e2, amount, feeDue, amountPaid).Proceed?
    ensures StartPayment(e1, amount, feeDue, amountPaid).Refuse? ==>
      StartPayment(e1, amount, feeDue, amountPaid) == StartPayment(e2, amount, feeDue, amountPaid)
  {
  }

  /** Paying the whole balance is allowed; one more is not. */
  lemma BalanceBoundary(feeDue: int, amountPaid: int)
    requires amountPaid < feeDue
    ensures CheckAmount(Some(feeDue - amountPaid), feeDue, amountPaid) == AmountOk(feeDue - amountPaid)
    ensures CheckAmount(Some(feeDue - amountPaid + 1), feeDue, amountPaid) == ExceedsBalance(feeDue - amountPaid)
  {
  }

  // ---------------------------------------------------------------------------------
  // Formatters and validation together

  /** Fields produced by the dialog's own formatters pass validation once enough was
      typed: sixteen digits for the number, four for the expiry, three or four for the
      CVV, and any holder name. The recorded last four are the 13th to 16th digits typed. */
  lemma FormattedCardAccepted(numberInput: string, holder: string, expiryInput: string,
                              cvvPrevious: string, cvvInput: string)
    requires holder != ""
    requires |RemoveSpaces(numberInput)| >= 16 && AllDigits(RemoveSpaces(numberInput)[..16])
    requires |KeepDigits(expiryInput)| >= 4
    requires 3 <= |KeepDigits(cvvInput)| <= 4
    ensures var c := CardDetails(FormatCardNumber(numberInput), holder, FormatExpiry(expiryInput),
                                 UpdateCvv(cvvPrevious, cvvInput));
      ValidateCard(c) == CardAccepted(RemoveSpaces(numberInput)[12..16])
  {
  }
}
