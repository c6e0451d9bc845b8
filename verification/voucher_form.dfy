/** The fields of the three-step voucher form, the fixed option tables of its
    period selectors, and the required-field rules of each step. */
module VoucherForm {
  import opened Wrappers
  import opened Text
  import opened Numbers

  // ---------------------------------------------------------------------------
  // Option tables
  // ---------------------------------------------------------------------------

  /** An entry of the month selector. */
  datatype MonthOption = MonthOption(value: string, name: string)

  /** `MONTHS`: the month selector's entries, January to December. */
  const Months: seq<MonthOption> := [
    MonthOption("01", "Enero"), MonthOption("02", "Febrero"),
    MonthOption("03", "Marzo"), MonthOption("04", "Abril"),
    MonthOption("05", "Mayo"), MonthOption("06", "Junio"),
    MonthOption("07", "Julio"), MonthOption("08", "Agosto"),
    MonthOption("09", "Septiembre"), MonthOption("10", "Octubre"),
    MonthOption("11", "Noviembre"), MonthOption("12", "Diciembre")
  ]

  /** `value` is one of the month selector's values. */
  predicate IsMonthValue(value: string) {
    exists i :: 0 <= i < |Months| && Months[i].value == value
  }

  /** The `i`-th month value is month number `i + 1` written with two digits,
      which is exactly how the form's opening default is produced from the
      clock's month. */
  lemma MonthsTable(i: int)
    requires 0 <= i < 12
    ensures |Months| == 12
    ensures Months[i].value == PadStart(IntToDecimal(i + 1), 2, '0')
    ensures |Months[i].value| == 2 && AllDigits(Months[i].value)
    ensures DigitsValue(Months[i].value) == i + 1
  {
    var v := Months[i].value;
    if i < 9 {
      assert IntToDecimal(i + 1) == [DigitChar(i + 1)];
      assert v == ['0', DigitChar(i + 1)];
    } else {
      assert IntToDecimal(i + 1) == NatToDecimal((i + 1) / 10) + [DigitChar((i + 1) % 10)];
      assert v == ['1', DigitChar(i - 9)];
    }
    assert v[..1] == ['0'] || v[..1] == ['1'];
  }

  /** A month value is two digits. */
  lemma MonthValueShape(value: string)
    requires IsMonthValue(value)
    ensures |value| == 2 && AllDigits(value)
  {
    var i :| 0 <= i < |Months| && Months[i].value == value;
    MonthsTable(i);
  }

  /** `years`: the year selector's entries, the current year and the five
      before it, newest first. */
  function Years(currentYear: int): seq<string> {
    seq(6, i requires 0 <= i < 6 => IntToDecimal(currentYear - i))
  }

  /** The year entries read back as the six years counting down from the
      current one. */
  lemma YearsTable(currentYear: int)
    ensures |Years(currentYear)| == 6
    ensures forall i :: 0 <= i < 6 ==> ToNumber(Years(currentYear)[i]) == Finite((currentYear - i) as real)
  {
    forall i | 0 <= i < 6 ensures ToNumber(Years(currentYear)[i]) == Finite((currentYear - i) as real) {
      ToNumberOfDecimal(currentYear - i);
    }
  }

  /** Each year entry has four digits whenever the years listed do. */
  lemma YearsFourDigits(currentYear: int, i: int)
    requires 1005 <= currentYear <= 9999 && 0 <= i < 6
    ensures |Years(currentYear)[i]| == 4 && AllDigits(Years(currentYear)[i])
  {
    assert Pow10(3) == 1000 && Pow10(4) == 10000;
    var y: nat := currentYear - i;
    DecimalLength(y, 4);
    assert Years(currentYear)[i] == IntToDecimal(y) == NatToDecimal(y);
  }

  /** A number from `10^(k-1)` up to `10^k - 1` has `k` decimal digits. */
  lemma {:induction false} DecimalLength(n: nat, k: nat)
    requires 1 <= k && Pow10(k - 1) <= n < Pow10(k)
    ensures |NatToDecimal(n)| == k
  {
    if k > 1 {
      DecimalLength(n / 10, k - 1);
    }
  }

  // ---------------------------------------------------------------------------
  // Fields
  // ---------------------------------------------------------------------------

  /** The value of a searchable select (bank, affiliate). It starts as the
      empty text and becomes the chosen record's numeric id. */
  datatype Pick = NoPick | Picked(id: int)

  /** JavaScript truthiness of a select's value: the empty text and the id 0
      are both falsy. */
  predicate IsChosen(p: Pick) {
    p.Picked? && p.id != 0
  }

  /** `Number(value)` of a select's value: the empty text converts to 0. */
  function PickNumber(p: Pick): JsNumber {
    match p
    case NoPick => Finite(0.0)
    case Picked(id) => Finite(id as real)
  }

  /** The form's values. */
  datatype Form = Form(
    // step 1
    depositNumber: string,
    depositDate: string,
    amount: string,
    periodMonth: string,
    periodYear: string,
    // step 2
    bankId: Pick,
    newBankName: string,
    newBankCode: string,
    // step 3
    affiliateId: Pick,
    affFirstName: string,
    affSecondName: string,
    affPaternalSurname: string,
    affMaternalSurname: string,
    affIdentityCard: string)

  /** The form's free-text inputs and selectors (the bank and affiliate
      selects are handled separately, as `Pick`s). */
  datatype TextField =
    | DepositNumber | DepositDate | Amount | PeriodMonth | PeriodYear
    | NewBankName | NewBankCode
    | AffFirstName | AffSecondName | AffPaternalSurname | AffMaternalSurname | AffIdentityCard

  /** The step whose panel shows the input. */
  function StepOf(f: TextField): int {
    match f
    case DepositNumber | DepositDate | Amount | PeriodMonth | PeriodYear => 1
    case NewBankName | NewBankCode => 2
    case _ => 3
  }

  function Get(form: Form, f: TextField): string {
    match f
    case DepositNumber => form.depositNumber
    case DepositDate => form.depositDate
    case Amount => form.amount
    case PeriodMonth => form.periodMonth
    case PeriodYear => form.periodYear
    case NewBankName => form.newBankName
    case NewBankCode => form.newBankCode
    case AffFirstName => form.affFirstName
    case AffSecondName => form.affSecondName
    case AffPaternalSurname => form.affPaternalSurname
    case AffMaternalSurname => form.affMaternalSurname
    case AffIdentityCard => form.affIdentityCard
  }

  /** Typing into one input changes that input's value and nothing else. */
  function Set(form: Form, f: TextField, v: string): (r: Form)
    ensures Get(r, f) == v
    ensures forall g :: g != f ==> Get(r, g) == Get(form, g)
    ensures r.bankId == form.bankId && r.affiliateId == form.affiliateId
  {
    match f
    case DepositNumber => form.(depositNumber := v)
    case DepositDate => form.(depositDate := v)
    case Amount => form.(amount := v)
    case PeriodMonth => form.(periodMonth := v)
    case PeriodYear => form.(periodYear := v)
    case NewBankName => form.(newBankName := v)
    case NewBankCode => form.(newBankCode := v)
    case AffFirstName => form.(affFirstName := v)
    case AffSecondName => form.(affSecondName := v)
    case AffPaternalSurname => form.(affPaternalSurname := v)
    case AffMaternalSurname => form.(affMaternalSurname := v)
    case AffIdentityCard => form.(affIdentityCard := v)
  }

  // ---------------------------------------------------------------------------
  // Required-field rules
  // ---------------------------------------------------------------------------

  /** The amount rule `min: 0.01`: the amount's numeric value is at least one
      cent. Text that is not a number fails it. */
  predicate MeetsAmountMinimum(amount: string) {
    ToNumber(amount).Finite? && ToNumber(amount).value >= 0.01
  }

  /** Step 1: deposit number, deposit date, amount, period month and year are
      all filled in, and the amount is at least 0.01. */
  predicate DepositStepValid(f: Form) {
    && f.depositNumber != ""
    && f.depositDate != ""
    && f.amount != "" && MeetsAmountMinimum(f.amount)
    && f.periodMonth != ""
    && f.periodYear != ""
  }

  /** Step 2: a new bank needs a name and a code; otherwise a bank must be chosen. */
  predicate BankStepValid(isNewBank: bool, f: Form) {
    if isNewBank then f.newBankName != "" && f.newBankCode != "" else IsChosen(f.bankId)
  }

  /** Step 3: a new affiliate needs a first name and an identity card;
      otherwise an affiliate must be chosen. */
  predicate AffiliateStepValid(isNewAffiliate: bool, f: Form) {
    if isNewAffiliate then f.affFirstName != "" && f.affIdentityCard != "" else IsChosen(f.affiliateId)
  }

  /** An amount of "0" is refused. */
  lemma AmountZeroRefused()
    ensures !MeetsAmountMinimum("0")
  {
    UnsignedOfDigits("0");
    assert DigitsValue("0") == 0;
  }

  /** An amount of "0.01", the minimum itself, is accepted. */
  lemma AmountCentAccepted()
    ensures MeetsAmountMinimum("0.01")
  {
    var cent := "0.01";
    assert ExponentMark(cent) == 4;
    assert cent[..4] == cent;
    assert Text.BeforeFirst(cent, '.') == "0";
    assert cent[2..] == "01";
    assert DigitsValue("0") == 0;
    assert DigitsValue("01") == 1;
    assert Pow10(2) == 100 && Pow10(0) == 1;
    assert ParseSignificand(cent) == Some(0.01);
    assert ParseUnsigned(cent) == Some(0.01);
  }

  /** A negative amount is refused. */
  lemma AmountNegativeRefused()
    ensures !MeetsAmountMinimum("-5")
  {
    UnsignedOfDigits("5");
    assert DigitsValue("5") == 5;
    assert "-5"[1..] == "5";
  }
}
