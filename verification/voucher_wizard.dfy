/** The "Nuevo Voucher" wizard as a state machine: opening resets it, Next
    validates the current step's fields before moving on, Back moves back
    without validation, and the final Submit re-checks the affiliate step and
    sends the request body. A successful registration refetches the lists
    whose contents it changed. */
module VoucherWizard {
  import opened Wrappers
  import opened Text
  import opened Numbers
  import opened VoucherForm
  import opened VoucherPayloads

  /** The modal's local state and form values. `manualShake` is the modal's
      own counter, raised when Next or `onSubmit` refuses; `submitCount` is
      the form library's count of Save clicks. The inputs shake whenever
      their sum, `ShakeKey`, changes. */
  datatype Wizard = Wizard(
    step: int,
    manualShake: nat,
    submitCount: nat,
    isNewBank: bool,
    isNewAffiliate: bool,
    form: Form)

  /** `submitCount + manualShake`, the key the inputs shake on. */
  function ShakeKey(w: Wizard): nat {
    w.submitCount + w.manualShake
  }

  /** What every state reachable from an opened form satisfies: the step is
      one of the three panels, the month is a selector value, and every step
      behind the current one holds valid input. */
  predicate Inv(w: Wizard) {
    && 1 <= w.step <= 3
    && IsMonthValue(w.form.periodMonth)
    && (w.step >= 2 ==> DepositStepValid(w.form))
    && (w.step == 3 ==> BankStepValid(w.isNewBank, w.form))
  }

  // ---------------------------------------------------------------------------
  // Opening
  // ---------------------------------------------------------------------------

  /** The reset when the modal opens. The clock is passed in as its ISO text
      (`toISOString()`), its month index (`getMonth()`, 0 for January) and its
      year (`getFullYear()`). */
  function Open(isoNow: string, monthIndex: int, year: int): (w: Wizard)
    requires 0 <= monthIndex < 12
    ensures w.step == 1 && w.manualShake == 0 && w.submitCount == 0
    ensures !w.isNewBank && !w.isNewAffiliate
    ensures w.form.depositNumber == "" && w.form.amount == ""
    ensures w.form.bankId == NoPick && w.form.affiliateId == NoPick
    ensures w.form.newBankName == "" && w.form.newBankCode == ""
    ensures w.form.affFirstName == "" && w.form.affSecondName == "" && w.form.affPaternalSurname == ""
    ensures w.form.affMaternalSurname == "" && w.form.affIdentityCard == ""
    ensures |w.form.depositDate| <= |isoNow| && isoNow[..|w.form.depositDate|] == w.form.depositDate
    ensures 'T' !in w.form.depositDate
    ensures |w.form.depositDate| < |isoNow| ==> isoNow[|w.form.depositDate|] == 'T'
    ensures w.form.periodMonth == Months[monthIndex].value
    ensures w.form.periodYear == Years(year)[0] && ToNumber(w.form.periodYear) == Finite(year as real)
    ensures Inv(w)
  {
    Wizard(1, 0, 0, false, false,
      Form(
        "", BeforeFirst(isoNow, 'T'), "", CurrentMonth(monthIndex), CurrentYear(year),
        NoPick, "", "",
        NoPick, "", "", "", "", ""))
  }

  /** `(getMonth() + 1).toString().padStart(2, '0')`: the month selector's
      entry for the clock's month. */
  function CurrentMonth(monthIndex: int): (m: string)
    requires 0 <= monthIndex < 12
    ensures m == Months[monthIndex].value && IsMonthValue(m)
  {
    MonthsTable(monthIndex);
    PadStart(IntToDecimal(monthIndex + 1), 2, '0')
  }

  /** `getFullYear().toString()`: the year selector's first entry, which
      reads back as the clock's year. */
  function CurrentYear(year: int): (y: string)
    ensures y == Years(year)[0] && ToNumber(y) == Finite(year as real)
  {
    YearsTable(year);
    IntToDecimal(year)
  }

  // ---------------------------------------------------------------------------
  // Field validation (react-hook-form `trigger`)
  // ---------------------------------------------------------------------------

  /** Whether a field's value passes the rules it is registered with: the
      step-1 inputs are required and the amount has a minimum of 0.01; the new
      bank's name and code and the new affiliate's first name and identity card
      are required only while their toggle is on; the other affiliate names
      carry no rule. */
  predicate PassesRules(w: Wizard, f: TextField) {
    var v := Get(w.form, f);
    match f
    case Amount => v != "" && MeetsAmountMinimum(v)
    case NewBankName | NewBankCode => !w.isNewBank || v != ""
    case AffFirstName | AffIdentityCard => !w.isNewAffiliate || v != ""
    case AffSecondName | AffPaternalSurname | AffMaternalSurname => true
    case _ => v != ""
  }

  /** `trigger(names)`: every named field passes its rules. */
  predicate Trigger(w: Wizard, names: seq<TextField>) {
    forall i :: 0 <= i < |names| ==> PassesRules(w, names[i])
  }

  /** The fields the Next button validates on step 1. */
  const DepositFields: seq<TextField> := [DepositNumber, DepositDate, Amount, PeriodMonth, PeriodYear]

  /** The fields the Next button validates on step 2 for a new bank. */
  const NewBankFields: seq<TextField> := [NewBankName, NewBankCode]

  /** `isValid` as `handleNext` computes it. On step 2 with an existing bank
      the select has no rules, so only the truthiness of its value counts. */
  predicate NextIsValid(w: Wizard) {
    if w.step == 1 then Trigger(w, DepositFields)
    else if w.step == 2 then
      if w.isNewBank then Trigger(w, NewBankFields) else IsChosen(w.form.bankId)
    else false
  }

  /** The Next button's validation agrees with the required-field rules of
      the step being left: step 1's five fields and amount minimum, step 2's
      bank rule; there is nothing past step 3. */
  lemma NextIsValidIff(w: Wizard)
    ensures NextIsValid(w) <==>
      || (w.step == 1 && DepositStepValid(w.form))
      || (w.step == 2 && BankStepValid(w.isNewBank, w.form))
  {
    if w.step == 1 {
      DepositTriggerIff(w);
    } else if w.step == 2 && w.isNewBank {
      NewBankTriggerIff(w);
    }
  }

  /** Step 1's `trigger` passes exactly when step 1 is valid. */
  lemma DepositTriggerIff(w: Wizard)
    ensures Trigger(w, DepositFields) <==> DepositStepValid(w.form)
  {
    var fs := DepositFields;
    assert fs == [DepositNumber, DepositDate, Amount, PeriodMonth, PeriodYear];
    if DepositStepValid(w.form) {
      forall i | 0 <= i < |fs| ensures PassesRules(w, fs[i]) {
      }
    } else {
      var k := if w.form.depositNumber == "" then 0
        else if w.form.depositDate == "" then 1
        else if w.form.periodMonth == "" then 3
        else if w.form.periodYear == "" then 4
        else 2;
      assert !PassesRules(w, fs[k]);
    }
  }

  /** In new-bank mode step 2's `trigger` passes exactly when step 2 is valid. */
  lemma NewBankTriggerIff(w: Wizard)
    requires w.isNewBank
    ensures Trigger(w, NewBankFields) <==> BankStepValid(w.isNewBank, w.form)
  {
    assert NewBankFields[0] == NewBankName && NewBankFields[1] == NewBankCode;
    assert Trigger(w, NewBankFields) <==> PassesRules(w, NewBankName) && PassesRules(w, NewBankCode);
  }

  // ---------------------------------------------------------------------------
  // Navigation
  // ---------------------------------------------------------------------------

  /** `handleNext`: move on and clear the modal's shake counter when the step
      is valid, otherwise stay and raise it by one. */
  function HandleNext(w: Wizard): (r: Wizard)
    ensures r.isNewBank == w.isNewBank && r.isNewAffiliate == w.isNewAffiliate && r.form == w.form
    ensures r.submitCount == w.submitCount
    ensures r.step == w.step + 1 <==>
      || (w.step == 1 && DepositStepValid(w.form))
      || (w.step == 2 && BankStepValid(w.isNewBank, w.form))
    ensures r.step == w.step + 1 ==> r.manualShake == 0
    ensures r.step != w.step + 1 ==> r.step == w.step && r.manualShake == w.manualShake + 1
    ensures Inv(w) ==> Inv(r)
  {
    NextIsValidIff(w);
    if NextIsValid(w) then w.(step := w.step + 1, manualShake := 0)
    else w.(manualShake := w.manualShake + 1)
  }

  /** On step 1 an amount of "0" is refused: Next stays on step 1 and
      shakes once more. */
  lemma NextRefusesZeroAmount(w: Wizard)
    requires w.step == 1 && w.form.amount == "0"
    ensures HandleNext(w).step == 1
    ensures HandleNext(w).manualShake == w.manualShake + 1
  {
    AmountZeroRefused();
  }

  /** `handleBack`: one step back, with no validation and nothing else
      changed; from any step but the first this keeps the invariant. */
  function HandleBack(w: Wizard): (r: Wizard)
    ensures r.step == w.step - 1
    ensures r.manualShake == w.manualShake && r.submitCount == w.submitCount
    ensures r.isNewBank == w.isNewBank && r.isNewAffiliate == w.isNewAffiliate
    ensures r.form == w.form
    ensures Inv(w) && w.step > 1 ==> Inv(r)
  {
    w.(step := w.step - 1)
  }

  // ---------------------------------------------------------------------------
  // Submitting
  // ---------------------------------------------------------------------------

  /** The state after an event, and the request body sent, if any. */
  datatype Outcome = Outcome(wizard: Wizard, sent: Option<VoucherPayload>)

  /** Whether `onSubmit` returns early: for a new affiliate when the first
      name or the identity card is empty, for an existing one when no
      affiliate is chosen. */
  predicate SubmitBlocked(w: Wizard) {
    if w.isNewAffiliate then w.form.affFirstName == "" || w.form.affIdentityCard == ""
    else !IsChosen(w.form.affiliateId)
  }

  /** The validation `handleSubmit` runs before it calls `onSubmit`: every
      mounted input passes the rules it is registered with. The step-1 inputs
      stay mounted on the hidden panels; the new-bank and new-affiliate
      inputs are mounted only while their toggle is on, which `PassesRules`
      already takes into account; the two search selects are not registered. */
  predicate FormRulesPass(w: Wizard) {
    forall f: TextField :: PassesRules(w, f)
  }

  /** The library's validation at Save asks for a valid step 1 and, for
      whichever of bank and affiliate is new, its required inputs. */
  lemma FormRulesPassIff(w: Wizard)
    ensures FormRulesPass(w) <==> SaveRulesHold(w)
  {
    SaveRulesGiveFormRules(w);
    FormRulesGiveSaveRules(w);
  }

  /** What the rules registered on the mounted inputs amount to. */
  predicate SaveRulesHold(w: Wizard) {
    && DepositStepValid(w.form)
    && (w.isNewBank ==> w.form.newBankName != "" && w.form.newBankCode != "")
    && (w.isNewAffiliate ==> w.form.affFirstName != "" && w.form.affIdentityCard != "")
  }

  lemma FormRulesGiveSaveRules(w: Wizard)
    ensures FormRulesPass(w) ==> SaveRulesHold(w)
  {
    if FormRulesPass(w) {
      var f := w.form;
      assert PassesRules(w, Amount);
      assert Get(f, Amount) == f.amount;
      assert f.amount != "" && MeetsAmountMinimum(f.amount);
      assert PassesRules(w, DepositNumber) && PassesRules(w, DepositDate);
      assert PassesRules(w, PeriodMonth) && PassesRules(w, PeriodYear);
      assert DepositStepValid(f);
      assert PassesRules(w, NewBankName) && PassesRules(w, NewBankCode);
      assert PassesRules(w, AffFirstName) && PassesRules(w, AffIdentityCard);
    }
  }

  lemma SaveRulesGiveFormRules(w: Wizard)
    ensures SaveRulesHold(w) ==> FormRulesPass(w)
  {
    if SaveRulesHold(w) {
      forall f: TextField ensures PassesRules(w, f) {
        if f == Amount {
          assert MeetsAmountMinimum(w.form.amount);
        }
      }
    }
  }

  /** `handleSubmit(onSubmit)`, with the clock's `toTimeString()` passed in.
      Every Save click raises the library's `submitCount`. When the library's
      own validation fails, `onSubmit` does not run: nothing is sent and the
      modal's counter stays. Otherwise `onSubmit` either refuses, which can
      only happen for an existing affiliate that was not chosen, and raises
      the modal's counter, or sends the request body and leaves the rest of
      the state as it is. */
  function HandleSubmit(w: Wizard, timeString: string): (o: Outcome)
    ensures o.wizard.submitCount == w.submitCount + 1
    ensures o.wizard.step == w.step && o.wizard.form == w.form
    ensures o.wizard.isNewBank == w.isNewBank && o.wizard.isNewAffiliate == w.isNewAffiliate
    ensures o.sent.Some? <==> FormRulesPass(w) && AffiliateStepValid(w.isNewAffiliate, w.form)
    ensures !FormRulesPass(w) ==> o.wizard.manualShake == w.manualShake
    ensures FormRulesPass(w) && !AffiliateStepValid(w.isNewAffiliate, w.form) ==>
      !w.isNewAffiliate && o.wizard.manualShake == w.manualShake + 1
    ensures o.sent.Some? ==> o.wizard.manualShake == w.manualShake
    ensures ShakeKey(o.wizard) == ShakeKey(w) + (if FormRulesPass(w) && o.sent.None? then 2 else 1)
    ensures o.sent.Some? ==> o.sent.value.bank == BankPart(w.isNewBank, w.form)
    ensures o.sent.Some? ==> o.sent.value.affiliate == AffiliatePart(w.isNewAffiliate, w.form)
    ensures o.sent.Some? ==> o.sent.value.depositDate == DepositDateTime(w.form.depositDate, timeString)
    ensures o.sent.Some? ==> o.sent.value.period == PeriodDate(w.form.periodYear, w.form.periodMonth)
    ensures Inv(w) && w.step == 3 ==> (o.sent.Some? <==> AffiliateStepValid(w.isNewAffiliate, w.form))
    ensures o.sent.Some? && Inv(w) && w.step == 3 ==> IsCompletePayload(o.sent.value)
    ensures Inv(w) ==> Inv(o.wizard)
  {
    FormRulesPassIff(w);
    var clicked := w.(submitCount := w.submitCount + 1);
    if !FormRulesPass(w) then Outcome(clicked, None)
    else if SubmitBlocked(w) then Outcome(clicked.(manualShake := w.manualShake + 1), None)
    else
      var p := BuildPayload(w.form, w.isNewBank, w.isNewAffiliate, timeString);
      ValidFormGivesCompletePayload(w.form, w.isNewBank, w.isNewAffiliate, timeString);
      Outcome(clicked, Some(p))
  }

  /** A new affiliate without a first name is caught by the form library's
      `required` rule before `onSubmit` runs: nothing is sent, the modal's
      counter stays, and the inputs shake once, through `submitCount`. */
  lemma BlockedNewAffiliateShakesOnce(w: Wizard, timeString: string)
    requires w.isNewAffiliate && w.form.affFirstName == ""
    ensures var o := HandleSubmit(w, timeString);
      && o.sent.None?
      && o.wizard.manualShake == w.manualShake
      && ShakeKey(o.wizard) == ShakeKey(w) + 1
  {
    FormRulesPassIff(w);
  }

  /** An existing affiliate that was not chosen passes the library's
      validation from a consistent last step, and is refused by `onSubmit`
      itself: the inputs' shake key grows by two. */
  lemma UnchosenAffiliateShakesTwice(w: Wizard, timeString: string)
    ensures Inv(w) && w.step == 3 && !w.isNewAffiliate && w.form.affiliateId == NoPick ==>
      var o := HandleSubmit(w, timeString);
      && o.sent.None?
      && o.wizard.manualShake == w.manualShake + 1
      && ShakeKey(o.wizard) == ShakeKey(w) + 2
  {
    FormRulesPassIff(w);
  }

  // ---------------------------------------------------------------------------
  // Events
  // ---------------------------------------------------------------------------

  /** What the user can do in the modal: the navigation buttons, or a
      change to the form's values. */
  datatype Action =
    | Next
    | Back
    | Submit(timeString: string)
    | Change(edit: Edit)

  /** A change that stays on the current panel: a toggle, a search select,
      or typing into an input. */
  datatype Edit =
    | ChooseNewBank(isNew: bool)
    | ChooseNewAffiliate(isNew: bool)
    | PickBank(id: int)
    | PickAffiliate(id: int)
    | Type(field: TextField, value: string)

  /** Whether an input is on screen: it belongs to the current panel and, for
      the new-bank and new-affiliate inputs, its toggle is on. */
  predicate Shows(w: Wizard, f: TextField) {
    && StepOf(f) == w.step
    && match f
       case NewBankName | NewBankCode => w.isNewBank
       case AffFirstName | AffSecondName | AffPaternalSurname | AffMaternalSurname | AffIdentityCard => w.isNewAffiliate
       case _ => true
  }

  /** Whether the screen offers the change: each toggle and search select on
      its own panel, typing into a shown input, and choosing only the month
      selector's own values. */
  predicate EditOffered(w: Wizard, e: Edit) {
    match e
    case ChooseNewBank(_) => w.step == 2
    case ChooseNewAffiliate(_) => w.step == 3
    case PickBank(_) => w.step == 2 && !w.isNewBank
    case PickAffiliate(_) => w.step == 3 && !w.isNewAffiliate
    case Type(f, v) => Shows(w, f) && (f == PeriodMonth ==> IsMonthValue(v))
  }

  /** Whether the screen offers the action: Back from step 2 on, Next before
      step 3 and Save on step 3. */
  predicate Offered(w: Wizard, a: Action) {
    match a
    case Next => w.step < 3
    case Back => w.step > 1
    case Submit(_) => w.step == 3
    case Change(e) => EditOffered(w, e)
  }

  /** A change to the values: it keeps the step and both shake counters, and a change
      the screen offers never touches a step behind the current one, so it
      keeps the invariant. */
  function ApplyEdit(w: Wizard, e: Edit): (r: Wizard)
    ensures r.step == w.step && r.manualShake == w.manualShake && r.submitCount == w.submitCount
    ensures Inv(w) && EditOffered(w, e) ==> Inv(r)
  {
    match e
    case ChooseNewBank(b) => w.(isNewBank := b)
    case ChooseNewAffiliate(b) => w.(isNewAffiliate := b)
    case PickBank(id) => w.(form := w.form.(bankId := Picked(id)))
    case PickAffiliate(id) => w.(form := w.form.(affiliateId := Picked(id)))
    case Type(f, v) =>
      TypingKeepsInv(w, f, v);
      w.(form := Set(w.form, f, v))
  }

  /** Typing into a shown input never touches a step behind the current one;
      the month selector only offers its own values. */
  lemma TypingKeepsInv(w: Wizard, f: TextField, v: string)
    ensures Inv(w) && EditOffered(w, Type(f, v)) ==> Inv(w.(form := Set(w.form, f, v)))
  {
    if Inv(w) && EditOffered(w, Type(f, v)) {
      var r := Set(w.form, f, v);
      assert Get(r, PeriodMonth) == r.periodMonth;
      if w.step >= 2 {
        assert Get(r, DepositNumber) == Get(w.form, DepositNumber);
        assert Get(r, DepositDate) == Get(w.form, DepositDate);
        assert Get(r, Amount) == Get(w.form, Amount);
        assert Get(r, PeriodMonth) == Get(w.form, PeriodMonth);
        assert Get(r, PeriodYear) == Get(w.form, PeriodYear);
      }
      if w.step == 3 {
        assert Get(r, NewBankName) == Get(w.form, NewBankName);
        assert Get(r, NewBankCode) == Get(w.form, NewBankCode);
      }
    }
  }

  /** One event. An action the screen does not offer changes nothing. The
      step moves by at most one and never leaves 1..3 from a consistent state;
      the shake only falls when Next succeeds; a request body is only sent by
      Save on the last step, and from a consistent state it is complete. */
  function Dispatch(w: Wizard, a: Action): (o: Outcome)
    ensures !Offered(w, a) ==> o == Outcome(w, None)
    ensures Inv(w) ==> Inv(o.wizard)
    ensures -1 <= o.wizard.step - w.step <= 1
    ensures o.wizard.manualShake < w.manualShake ==> a == Next && o.wizard.step == w.step + 1 && o.wizard.manualShake == 0
    ensures o.sent.Some? ==> a.Submit? && w.step == 3
    ensures o.wizard.submitCount == w.submitCount + (if a.Submit? && Offered(w, a) then 1 else 0)
    ensures o.sent.Some? && Inv(w) ==> IsCompletePayload(o.sent.value)
  {
    if !Offered(w, a) then Outcome(w, None)
    else match a
      case Next => Outcome(HandleNext(w), None)
      case Back => Outcome(HandleBack(w), None)
      case Submit(clock) => HandleSubmit(w, clock)
      case Change(e) => Outcome(ApplyEdit(w, e), None)
  }

  /** The final state and every request body sent along a run of events. */
  datatype Trace = Trace(final: Wizard, sent: seq<VoucherPayload>)

  /** The number of Save clicks in a run of events. */
  function Submits(acts: seq<Action>): nat {
    if acts == [] then 0 else (if acts[0].Submit? then 1 else 0) + Submits(acts[1..])
  }

  /** A run of events from `w`. Started from a consistent state, it ends in
      one, and every body it sends is complete;
      there are never more bodies than Save clicks. */
  function Run(w: Wizard, acts: seq<Action>): (t: Trace)
    ensures |t.sent| <= Submits(acts)
    ensures Inv(w) ==> Inv(t.final)
    ensures Inv(w) ==> forall k :: 0 <= k < |t.sent| ==> IsCompletePayload(t.sent[k])
    decreases |acts|
  {
    if acts == [] then Trace(w, [])
    else
      var o := Dispatch(w, acts[0]);
      var rest := Run(o.wizard, acts[1..]);
      Trace(rest.final, (if o.sent.Some? then [o.sent.value] else []) + rest.sent)
  }

  /** From the freshly opened modal, whatever the user does, the wizard stays
      consistent and every request body it sends is complete. */
  lemma EverySentPayloadIsComplete(isoNow: string, monthIndex: int, year: int, acts: seq<Action>)
    requires 0 <= monthIndex < 12
    ensures var t := Run(Open(isoNow, monthIndex, year), acts);
      && 1 <= t.final.step <= 3
      && forall k :: 0 <= k < |t.sent| ==> IsCompletePayload(t.sent[k])
  {
  }

  // ---------------------------------------------------------------------------
  // After a successful registration
  // ---------------------------------------------------------------------------

  /** The cached lists of the finance screens. */
  datatype QueryKey = VouchersKey | BanksKey | AffiliatesKey

  /** `onSuccess`: the lists to refetch, given the two toggles as they stand
      when the reply arrives. The voucher list always; the bank and affiliate
      lists only while their toggle is on "new". */
  function InvalidatedOnSuccess(isNewBank: bool, isNewAffiliate: bool): (ks: seq<QueryKey>)
    ensures |ks| >= 1 && ks[0] == VouchersKey
    ensures BanksKey in ks <==> isNewBank
    ensures AffiliatesKey in ks <==> isNewAffiliate
    ensures forall i, j :: 0 <= i < j < |ks| ==> ks[i] != ks[j]
  {
    [VouchersKey]
      + (if isNewBank then [BanksKey] else [])
      + (if isNewAffiliate then [AffiliatesKey] else [])
  }

  /** When the toggles are still as they were at sending, the lists refetched
      are exactly those the sent body adds to: the bank list iff the body's
      bank has a null id, the affiliate list iff the body's affiliate has one. */
  lemma RefetchMatchesPayload(w: Wizard, timeString: string)
    requires HandleSubmit(w, timeString).sent.Some?
    ensures var p := HandleSubmit(w, timeString).sent.value;
      var ks := InvalidatedOnSuccess(w.isNewBank, w.isNewAffiliate);
      && (BanksKey in ks <==> p.bank.id.None?)
      && (AffiliatesKey in ks <==> p.affiliate.id.None?)
  {
    BankPartBranches(w.isNewBank, w.form);
    AffiliatePartBranches(w.isNewAffiliate, w.form);
  }
}
