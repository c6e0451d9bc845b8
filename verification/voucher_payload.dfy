/** The request body the form sends when it registers a voucher: text
    clean-up, the deposit date-time and period strings, and the new-versus-
    existing shapes of the nested bank and affiliate objects. */
module VoucherPayloads {
  import opened Wrappers
  import opened Text
  import opened Numbers
  import opened VoucherForm

  // ---------------------------------------------------------------------------
  // toUpperClean
  // ---------------------------------------------------------------------------

  /** Text as it is stored: no outer whitespace and no lower-case letter. */
  predicate IsCleanUpper(s: string) {
    HasNoOuterSpace(s) && forall i :: 0 <= i < |s| ==> !IsAsciiLower(s[i])
  }

  /** `toUpperClean`: trim, then upper-case; the empty text stays empty.
      Inner whitespace is kept as it is. */
  function ToUpperClean(text: string): (r: string)
    ensures |r| <= |text|
    ensures IsCleanUpper(r)
  {
    if text == "" then ""
    else
      var t := Trim(text);
      UpperKeepsSpaces(t);
      Upper(t)
  }

  /** Cleaning keeps exactly the trimmed block of the input, in order, with its
      letters upper-cased: for any description of the input as whitespace,
      then a block `t` without outer whitespace, then whitespace, the result
      is `t` upper-cased. */
  lemma ToUpperCleanKeepsInterior(text: string, t: string)
    requires IsTrimmingOf(t, text)
    ensures ToUpperClean(text) == Upper(t)
  {
    TrimmingIsUnique(text, t);
  }

  /** Clean text is left as it is. */
  lemma CleanIsFixpoint(s: string)
    requires IsCleanUpper(s)
    ensures ToUpperClean(s) == s
  {
    if s != [] {
      assert TrimmedAt(s, s, 0, |s|) by {
        assert s[..0] == [] && s[|s|..] == [] && s[0..|s|] == s;
      }
      TrimmingIsUnique(s, s);
    }
  }

  /** Cleaning twice is the same as cleaning once. */
  lemma ToUpperCleanIdempotent(text: string)
    ensures ToUpperClean(ToUpperClean(text)) == ToUpperClean(text)
  {
    CleanIsFixpoint(ToUpperClean(text));
  }

  /** Outer spaces go, the inner double space stays. */
  lemma ToUpperCleanExample()
    ensures ToUpperClean("  banco  ganadero  ") == "BANCO  GANADERO"
  {
    var s := "  banco  ganadero  ";
    var t := "banco  ganadero";
    assert Trim(s) == t by {
      assert TrimmedAt(t, s, 2, 17) by {
        assert s[2..17] == t;
        assert s[..2] == "  " && s[17..] == "  ";
      }
      TrimmingIsUnique(s, t);
    }
    UpperOfExample();
  }

  lemma UpperOfExample()
    ensures Upper("banco  ganadero") == "BANCO  GANADERO"
  {
    assert UpperChar('b') == 'B' && UpperChar('a') == 'A' && UpperChar('n') == 'N' && UpperChar('c') == 'C';
    assert UpperChar('o') == 'O' && UpperChar('g') == 'G' && UpperChar('d') == 'D' && UpperChar('e') == 'E';
    assert UpperChar('r') == 'R' && UpperChar(' ') == ' ';
  }

  // ---------------------------------------------------------------------------
  // Date-time and period text
  // ---------------------------------------------------------------------------

  /** `now.toTimeString().split(' ')[0]`: the clock's "HH:MM:SS". */
  function TimeOfDay(timeString: string): string {
    BeforeFirst(timeString, ' ')
  }

  /** The stored deposit date-time: the chosen date, "T", the current time. */
  function DepositDateTime(date: string, timeString: string): string {
    date + "T" + TimeOfDay(timeString)
  }

  /** The stored period: the first day of the chosen month. */
  function PeriodDate(year: string, month: string): string {
    year + "-" + month + "-01"
  }

  /** The deposit date-time splits back, at its first "T", into the chosen
      date and a clock time that holds no space. */
  lemma DepositDateTimeSplits(date: string, timeString: string)
    requires 'T' !in date
    ensures var dt := DepositDateTime(date, timeString);
      && BeforeFirst(dt, 'T') == date
      && dt[|date| + 1..] == TimeOfDay(timeString)
      && ' ' !in dt[|date| + 1..]
  {
    var dt := DepositDateTime(date, timeString);
    BeforeFirstOfJoin(date, 'T', TimeOfDay(timeString));
    assert dt == date + ['T'] + TimeOfDay(timeString);
    assert dt[|date| + 1..] == TimeOfDay(timeString);
  }

  /** With a month from the selector and a four-digit year the period is a
      ten-character `YYYY-MM-01` from which year and month read back. */
  lemma PeriodDateShape(year: string, month: string)
    requires IsMonthValue(month)
    requires |year| == 4
    ensures var p := PeriodDate(year, month);
      && |p| == 10
      && p[..4] == year && p[4] == '-' && p[5..7] == month && p[7..] == "-01"
  {
    PeriodDateEnds(year, month);
  }

  /** A period text ending in `-MM-01` for a month `MM` of the selector. */
  predicate IsFirstOfMonth(p: string) {
    && |p| >= 6
    && p[|p| - 6] == '-'
    && IsMonthValue(p[|p| - 5..|p| - 3])
    && p[|p| - 3..] == "-01"
  }

  /** Whatever the year text, the period built with a month of the selector
      is the year, a dash, the month and "-01", so it is the first day of
      that month. */
  lemma PeriodDateEnds(year: string, month: string)
    requires IsMonthValue(month)
    ensures var p := PeriodDate(year, month);
      && |p| == |year| + 6
      && p[..|year|] == year
      && p[|year|] == '-'
      && p[|year| + 1..|year| + 3] == month
      && p[|year| + 3..] == "-01"
      && IsFirstOfMonth(p)
  {
    MonthValueShape(month);
    var p := PeriodDate(year, month);
    var n := |year|;
    assert p == year + ['-'] + month + ['-', '0', '1'];
    assert p[..n] == year;
    assert p[n + 1..n + 3] == month;
    assert p[n + 3..] == "-01";
  }

  // ---------------------------------------------------------------------------
  // The payload
  // ---------------------------------------------------------------------------

  /** The nested bank object: `id` is `None` (null) for a new bank. */
  datatype BankPayload = BankPayload(id: Option<JsNumber>, name: string, bankCode: string)

  /** The nested affiliate object: `id` is `None` (null) for a new affiliate. */
  datatype AffiliatePayload = AffiliatePayload(
    id: Option<JsNumber>,
    firstName: string,
    secondName: string,
    paternalSurname: string,
    maternalSurname: string,
    identityCard: string)

  datatype VoucherPayload = VoucherPayload(
    depositNumber: JsNumber,
    depositDate: string,
    amount: JsNumber,
    period: string,
    bank: BankPayload,
    affiliate: AffiliatePayload)

  function BankPart(isNewBank: bool, f: Form): BankPayload {
    if isNewBank then BankPayload(None, ToUpperClean(f.newBankName), ToUpperClean(f.newBankCode))
    else BankPayload(Some(PickNumber(f.bankId)), "", "")
  }

  function AffiliatePart(isNewAffiliate: bool, f: Form): AffiliatePayload {
    if isNewAffiliate then
      AffiliatePayload(None, ToUpperClean(f.affFirstName), ToUpperClean(f.affSecondName),
        ToUpperClean(f.affPaternalSurname), ToUpperClean(f.affMaternalSurname), ToUpperClean(f.affIdentityCard))
    else AffiliatePayload(Some(PickNumber(f.affiliateId)), "", "", "", "", "")
  }

  /** The request body built from the form, the two toggles and the clock's
      `toTimeString()`. */
  function BuildPayload(f: Form, isNewBank: bool, isNewAffiliate: bool, timeString: string): VoucherPayload {
    VoucherPayload(
      ToNumber(f.depositNumber),
      DepositDateTime(f.depositDate, timeString),
      ToNumber(f.amount),
      PeriodDate(f.periodYear, f.periodMonth),
      BankPart(isNewBank, f),
      AffiliatePart(isNewAffiliate, f))
  }

  /** A number that is the id of a stored record: a non-zero integer. */
  predicate IsRecordId(n: JsNumber) {
    n.Finite? && n.value != 0.0 && n.value == n.value.Floor as real
  }

  /** A new bank travels with a null id and cleaned text; an existing one with
      the chosen id and empty text. */
  predicate IsCompleteBank(b: BankPayload) {
    match b.id
    case None => IsCleanUpper(b.name) && IsCleanUpper(b.bankCode)
    case Some(id) => IsRecordId(id) && b.name == "" && b.bankCode == ""
  }

  /** Likewise for the affiliate, over its five text fields. */
  predicate IsCompleteAffiliate(a: AffiliatePayload) {
    match a.id
    case None =>
      && IsCleanUpper(a.firstName) && IsCleanUpper(a.secondName)
      && IsCleanUpper(a.paternalSurname) && IsCleanUpper(a.maternalSurname)
      && IsCleanUpper(a.identityCard)
    case Some(id) =>
      && IsRecordId(id)
      && a.firstName == "" && a.secondName == "" && a.paternalSurname == ""
      && a.maternalSurname == "" && a.identityCard == ""
  }

  /** What the backend can rely on: an amount of at least one cent, a period
      on the first day of a month, and bank and affiliate objects each either
      fully new or a real stored id. */
  predicate IsCompletePayload(p: VoucherPayload) {
    && p.amount.Finite? && p.amount.value >= 0.01
    && IsFirstOfMonth(p.period)
    && IsCompleteBank(p.bank)
    && IsCompleteAffiliate(p.affiliate)
  }

  /** The bank object is new (null id) exactly in new-bank mode; an existing
      bank that was really chosen travels as its numeric id with empty text. */
  lemma BankPartBranches(isNewBank: bool, f: Form)
    ensures BankPart(isNewBank, f).id.None? <==> isNewBank
    ensures !isNewBank && f.bankId.Picked? ==> BankPart(isNewBank, f).id == Some(Finite(f.bankId.id as real))
    ensures BankStepValid(isNewBank, f) ==> IsCompleteBank(BankPart(isNewBank, f))
  {
  }

  /** The affiliate object is new (null id) exactly in new-affiliate mode; an
      existing affiliate that was really chosen travels as its numeric id. */
  lemma AffiliatePartBranches(isNewAffiliate: bool, f: Form)
    ensures AffiliatePart(isNewAffiliate, f).id.None? <==> isNewAffiliate
    ensures !isNewAffiliate && f.affiliateId.Picked? ==> AffiliatePart(isNewAffiliate, f).id == Some(Finite(f.affiliateId.id as real))
    ensures AffiliateStepValid(isNewAffiliate, f) ==> IsCompleteAffiliate(AffiliatePart(isNewAffiliate, f))
  {
  }

  /** The bank step only asks for non-empty text, so a new bank name made of
      whitespace alone passes it and is then sent as the empty name. */
  lemma BlankBankNameSentEmpty(f: Form)
    requires f.newBankName != "" && AllSpace(f.newBankName)
    requires f.newBankCode != ""
    ensures BankStepValid(true, f)
    ensures BankPart(true, f).name == ""
  {
    TrimOfAllSpace(f.newBankName);
  }

  /** A form that passed all three steps, with a month from the selector,
      yields a complete payload. */
  lemma ValidFormGivesCompletePayload(f: Form, isNewBank: bool, isNewAffiliate: bool, timeString: string)
    ensures
      && DepositStepValid(f) && IsMonthValue(f.periodMonth)
      && BankStepValid(isNewBank, f)
      && AffiliateStepValid(isNewAffiliate, f)
      ==> IsCompletePayload(BuildPayload(f, isNewBank, isNewAffiliate, timeString))
  {
    if IsMonthValue(f.periodMonth) {
      PeriodDateEnds(f.periodYear, f.periodMonth);
    }
    BankPartBranches(isNewBank, f);
    AffiliatePartBranches(isNewAffiliate, f);
  }
}
