# Voucher search and voucher wizard, modelled in Dafny

This project models two pieces of the finance screens of the mumanal UI.

- **The quick search of the vouchers page** (`filteredVouchers`). One free-text term is lower-cased. It is matched as a substring against four texts of each voucher: the affiliate's full name, the affiliate's identity card, the deposit number written in decimal, and the bank's name. The page keeps the matching vouchers in their original order and shows how many it kept.
- **The "Nuevo Voucher" wizard** (`VoucherFormModal`). It is a three-step form: deposit, bank, affiliate.
  - Opening resets it, with the clock's date, month and year as defaults.
  - Next validates the current step. On success it moves on and clears the modal's shake counter. On failure it stays and raises that counter.
  - Back moves back without validating.
  - Save counts the click, runs the form library's validation of the mounted inputs, re-checks the affiliate step and builds the request body. Text is cleaned: trimmed, then upper-cased. Dates and periods are assembled as text. A bank or affiliate is sent either as a new record (null id) or as the chosen id.
  - After a successful save, the voucher list is refetched. So is the bank list or the affiliate list when its toggle is on "new" at the moment the reply arrives.

Modules:

| module | file | content |
|---|---|---|
| `Wrappers` | wrappers.dfy | `Option` |
| `Text` | text.dfy | ASCII case mapping, JavaScript whitespace, `trim`, `includes`, `split(sep)[0]`, `padStart` |
| `Numbers` | numbers.dfy | `toString()` of integers; `Number(text)` on the numerals a number input can hold |
| `FinanceTypes` | finance_types.dfy | `Bank`, `Affiliate`, `Voucher` records |
| `Selection` | selection.dfy | `Array.prototype.filter` as an order-keeping selection |
| `VoucherSearch` | voucher_search.dfy | the search predicate, the filtered list, the shown count |
| `VoucherForm` | voucher_form.dfy | month and year option tables, form fields, per-step required-field rules |
| `VoucherPayloads` | voucher_payload.dfy | `toUpperClean`, date-time and period text, the request body |
| `VoucherWizard` | voucher_wizard.dfy | the wizard's state machine, runs of events, cache invalidation |

The clock is never read. The ISO date text, the month index, the year and the `toTimeString()` text are all parameters. The wizard's invariant `VoucherWizard.Inv` says three things:

- the step is in 1..3;
- the month is one of the selector's values;
- every step behind the current one holds valid input.

`Open` establishes the invariant and every event keeps it. As a result, every request body the wizard sends is complete: it has an amount of at least one cent and a first-of-month period, and its bank and affiliate are each either a cleaned new record or a real chosen id.

## Model

| member | source | states |
|---|---|---|
| `Selection.Select` | src/features/finance/pages/VouchersPage.tsx:27 | `Array.prototype.filter`: never longer than the input; its meaning is stated by `Selection.SelectMembers`, `Selection.SelectAtIndices` and the lemmas after them |
| `Selection.SelectMembers` | src/features/finance/pages/VouchersPage.tsx:27 | an element is in the filtered list iff it is in the input and the callback accepts it |
| `Selection.SelectAtIndices` | src/features/finance/pages/VouchersPage.tsx:27 | the filtered list is the input read at the accepted positions, which are strictly increasing and are all of the accepted ones |
| `Selection.SelectKeepsAllIff` | src/features/finance/pages/VouchersPage.tsx:27 | nothing is dropped iff every element is accepted, and then the result is the input itself |
| `Selection.SelectNoneIff` | src/features/finance/pages/VouchersPage.tsx:27 | the result is empty iff no element is accepted |
| `Selection.SelectNarrowing` | src/features/finance/pages/VouchersPage.tsx:27 | filtering with a looser callback and then a stricter one equals filtering with the stricter one |
| `Text.Includes` | src/features/finance/pages/VouchersPage.tsx:32-35 | `includes` returns true iff the term occurs as a contiguous block at some position |
| `Text.Trim` | src/features/finance/components/VoucherFormModal.tsx:174 | `trim` drops a whitespace prefix and suffix and keeps the block between them unchanged; the result has no outer whitespace |
| `Text.TrimmingIsUnique` | src/features/finance/components/VoucherFormModal.tsx:174 | any description of the text as whitespace, then a block without outer whitespace, then whitespace determines that block, and it is what `trim` returns |
| `Text.Lower` | src/features/finance/pages/VouchersPage.tsx:28-35 | `toLowerCase` on ASCII letters, character by character; `Text.SameUpToCaseLower` states that letter case no longer matters after it |
| `Text.Upper` | src/features/finance/components/VoucherFormModal.tsx:174 | `toUpperCase` on ASCII letters, character by character; `VoucherPayloads.ToUpperClean` states that no lower-case letter is left and `VoucherPayloads.ToUpperCleanKeepsInterior` that nothing else changes |
| `Text.SameUpToCaseLower` | src/features/finance/pages/VouchersPage.tsx:28 | texts that differ only in ASCII letter case lower-case to the same text |
| `Text.BeforeFirst` | src/features/finance/components/VoucherFormModal.tsx:97 | `split(sep)[0]` is the longest prefix without the separator, and the separator follows it when it is shorter than the text |
| `Text.PadStart` | src/features/finance/components/VoucherFormModal.tsx:93 | `padStart` gives at least the requested width, ends with the original text and has only fill characters in front |
| `Numbers.IntToDecimal` | src/features/finance/pages/VouchersPage.tsx:34 | `toString()` of an integer: at least one character, a leading `-` exactly for negative numbers, digits otherwise |
| `Numbers.ToNumber` | src/features/finance/components/VoucherFormModal.tsx:186-188 | `Number(text)`: the empty text is 0, a numeral is its exact value, anything else is NaN; `Numbers.ToNumberOfDecimal` reads back `toString()` through it |
| `Numbers.NatToDecimalRoundTrip` | src/features/finance/pages/VouchersPage.tsx:34 | reading back the decimal digits of a rendered number gives the number |
| `Numbers.ToNumberOfDecimal` | src/features/finance/components/VoucherFormModal.tsx:54 | `Number(n.toString())` is `n` for every integer |
| `Numbers.IntToDecimalInjective` | src/features/finance/pages/VouchersPage.tsx:34 | two deposit numbers render to the same text only if they are equal |
| `Numbers.IntToDecimalChars` | src/features/finance/pages/VouchersPage.tsx:34 | a rendered integer holds only digits and `-`, so it needs no lower-casing |
| `VoucherSearch.Matches` | src/features/finance/pages/VouchersPage.tsx:28-36 | the search callback: the lower-cased term occurs in the lower-cased full name, the lower-cased identity card, the deposit number's decimal text or the lower-cased bank name; `VoucherSearch.MatchesIffSubstring` states it as substring occurrence |
| `VoucherSearch.Filter` | src/features/finance/pages/VouchersPage.tsx:26-38 | `filteredVouchers`: `Array.prototype.filter` with that callback; its meaning is stated by `VoucherSearch.FilterIsOrderedSelection` and the lemmas after it |
| `VoucherSearch.FilterIsOrderedSelection` | src/features/finance/pages/VouchersPage.tsx:26-38 | the filtered list is an order-preserving selection of the input: it adds, repeats and alters nothing, and it holds exactly the matching vouchers |
| `VoucherSearch.MatchesIffSubstring` | src/features/finance/pages/VouchersPage.tsx:31-36 | a voucher is kept iff the lower-case term is a substring of one of the four lower-cased searched texts |
| `VoucherSearch.FilterEmptyTerm` | src/features/finance/pages/VouchersPage.tsx:28-36 | the empty term keeps every voucher: the filter is the identity |
| `VoucherSearch.FilterIgnoresCase` | src/features/finance/pages/VouchersPage.tsx:28-35 | terms differing only in ASCII letter case give the same list |
| `VoucherSearch.DepositNumberPieceMatches` | src/features/finance/pages/VouchersPage.tsx:34 | any substring of a voucher's deposit number in decimal finds that voucher |
| `VoucherSearch.IdentityCardPieceMatches` | src/features/finance/pages/VouchersPage.tsx:33 | any substring of the affiliate's identity card finds the voucher, whatever its letter case |
| `VoucherSearch.KeepNarrowing` | src/features/finance/pages/VouchersPage.tsx:31-36 | a voucher kept for a term is kept for every substring of that term |
| `VoucherSearch.FilterNarrowing` | src/features/finance/pages/VouchersPage.tsx:26-38 | filtering the list for a term by a longer term that contains it equals filtering for the longer term directly |
| `VoucherSearch.ShownCount` | src/features/finance/pages/VouchersPage.tsx:188-195 | the shown count is at most the number of vouchers; it equals that number iff every voucher matches, in particular for the empty term; it is 0 iff none matches |
| `VoucherForm.Years` | src/features/finance/components/VoucherFormModal.tsx:53-55 | the six year texts, counting down from the current year; `VoucherForm.YearsTable` reads them back |
| `VoucherForm.MeetsAmountMinimum` | src/features/finance/components/VoucherFormModal.tsx:303 | the `min: 0.01` rule: the amount's number is finite and at least 0.01 |
| `VoucherForm.DepositStepValid` | src/features/finance/components/VoucherFormModal.tsx:279-328 | step 1's registered rules: the five inputs are required and the amount has the 0.01 minimum |
| `VoucherForm.BankStepValid` | src/features/finance/components/VoucherFormModal.tsx:127-130 | step 2: a new bank needs name and code, an existing bank a truthy selected id |
| `VoucherForm.AffiliateStepValid` | src/features/finance/components/VoucherFormModal.tsx:162-170 | step 3 as `onSubmit` checks it: a new affiliate needs first name and identity card, an existing one a truthy selected id |
| `VoucherForm.IsChosen` | src/features/finance/components/VoucherFormModal.tsx:129 | truthiness of a selected id, here and in `onSubmit` at line 167: the empty value and the id 0 count as nothing chosen; `VoucherWizard.NextIsValidIff` and `VoucherWizard.HandleSubmit` state its role |
| `VoucherForm.PickNumber` | src/features/finance/components/VoucherFormModal.tsx:197-209 | `Number(data.bankId)` and `Number(data.affiliateId)`: the empty value gives 0, an id its own number; `VoucherPayloads.BankPartBranches` and `VoucherPayloads.AffiliatePartBranches` state what is sent |
| `VoucherForm.MonthsTable` | src/features/finance/components/VoucherFormModal.tsx:28-35 | the `i`-th month value is month `i + 1` as two digits, which is what `padStart` makes of the clock's month |
| `VoucherForm.MonthValueShape` | src/features/finance/components/VoucherFormModal.tsx:28-35 | every month value is two digits |
| `VoucherForm.YearsTable` | src/features/finance/components/VoucherFormModal.tsx:53-55 | there are six year entries, and they read back as the current year counting down by one |
| `VoucherForm.YearsFourDigits` | src/features/finance/components/VoucherFormModal.tsx:53-55 | for four-digit years each entry is four digits |
| `VoucherForm.AmountZeroRefused` | src/features/finance/components/VoucherFormModal.tsx:303 | an amount of "0" fails `min: 0.01` |
| `VoucherForm.AmountCentAccepted` | src/features/finance/components/VoucherFormModal.tsx:303 | an amount of "0.01" passes `min: 0.01` |
| `VoucherForm.AmountNegativeRefused` | src/features/finance/components/VoucherFormModal.tsx:303 | a negative amount fails `min: 0.01` |
| `VoucherPayloads.TimeOfDay` | src/features/finance/components/VoucherFormModal.tsx:178 | `toTimeString().split(' ')[0]`, the clock time before the first space |
| `VoucherPayloads.DepositDateTime` | src/features/finance/components/VoucherFormModal.tsx:179 | the chosen date, `T`, the clock time; `VoucherPayloads.DepositDateTimeSplits` splits it back |
| `VoucherPayloads.PeriodDate` | src/features/finance/components/VoucherFormModal.tsx:182 | year, `-`, month, `-01`; `VoucherPayloads.PeriodDateEnds` states its shape |
| `VoucherPayloads.BankPart` | src/features/finance/components/VoucherFormModal.tsx:192-198 | the bank object: null id and cleaned name and code for a new bank, otherwise `Number(bankId)` and empty texts; `VoucherPayloads.BankPartBranches` states its branches |
| `VoucherPayloads.AffiliatePart` | src/features/finance/components/VoucherFormModal.tsx:201-215 | the affiliate object, new or existing, in the same way; `VoucherPayloads.AffiliatePartBranches` states its branches |
| `VoucherPayloads.BuildPayload` | src/features/finance/components/VoucherFormModal.tsx:184-216 | the request body: `Number` of deposit number and amount, the date-time and period texts, the bank and affiliate objects; `VoucherPayloads.ValidFormGivesCompletePayload` states when it is complete |
| `VoucherPayloads.ToUpperClean` | src/features/finance/components/VoucherFormModal.tsx:174 | the cleaned text is no longer than the input, has no outer whitespace and no lower-case letter |
| `VoucherPayloads.ToUpperCleanKeepsInterior` | src/features/finance/components/VoucherFormModal.tsx:174 | cleaning keeps exactly the block between the outer whitespace, in order, inner spaces included, upper-cased |
| `VoucherPayloads.CleanIsFixpoint` | src/features/finance/components/VoucherFormModal.tsx:174 | clean text is left unchanged |
| `VoucherPayloads.ToUpperCleanIdempotent` | src/features/finance/components/VoucherFormModal.tsx:174 | cleaning twice equals cleaning once |
| `VoucherPayloads.ToUpperCleanExample` | src/features/finance/components/VoucherFormModal.tsx:174 | `"  banco  ganadero  "` becomes `"BANCO  GANADERO"` |
| `VoucherPayloads.DepositDateTimeSplits` | src/features/finance/components/VoucherFormModal.tsx:177-179 | the deposit date-time splits back at its first "T" into the chosen date and a clock time without spaces |
| `VoucherPayloads.PeriodDateShape` | src/features/finance/components/VoucherFormModal.tsx:182 | with a month value and a four-digit year the period is ten characters `YYYY-MM-01`, and year and month read back |
| `VoucherPayloads.PeriodDateEnds` | src/features/finance/components/VoucherFormModal.tsx:182 | for any year text the period is the year, "-", the month and "-01", so it is the first day of a selector month |
| `VoucherPayloads.BankPartBranches` | src/features/finance/components/VoucherFormModal.tsx:192-198 | the bank object has a null id iff the new-bank toggle is on; a chosen bank travels as its numeric id; a valid bank step gives a complete bank object |
| `VoucherPayloads.AffiliatePartBranches` | src/features/finance/components/VoucherFormModal.tsx:201-215 | the affiliate object has a null id iff the new-affiliate toggle is on; a chosen affiliate travels as its numeric id; a valid affiliate step gives a complete affiliate object |
| `VoucherPayloads.BlankBankNameSentEmpty` | src/features/finance/components/VoucherFormModal.tsx:192-198 | a new bank name of whitespace only passes the bank step, yet is sent as the empty name |
| `VoucherPayloads.ValidFormGivesCompletePayload` | src/features/finance/components/VoucherFormModal.tsx:184-216 | a form that passes all three steps, with a selector month, yields a complete request body |
| `VoucherWizard.Open` | src/features/finance/components/VoucherFormModal.tsx:85-115 | opening gives step 1, `manualShake` 0, both toggles on "existing", empty ids and entry fields, today's date as the part of the ISO text before its first "T", `submitCount` 0, the selector's entry for the current month, and the first year entry, which reads back as the current year; the result satisfies the invariant |
| `VoucherWizard.CurrentMonth` | src/features/finance/components/VoucherFormModal.tsx:93 | the padded clock month is the month selector's entry for that month |
| `VoucherWizard.CurrentYear` | src/features/finance/components/VoucherFormModal.tsx:102 | the year text is the year selector's first entry and reads back as the clock's year |
| `VoucherWizard.ShakeKey` | src/features/finance/components/VoucherFormModal.tsx:277 | `submitCount + manualShake`, the key every input shakes on; `VoucherWizard.HandleSubmit` states how it grows on Save |
| `VoucherWizard.Inv` | src/features/finance/components/VoucherFormModal.tsx:118-141 | the invariant Next and Back keep: step 1..3, a selector month, and valid input on every step behind the current one |
| `VoucherWizard.PassesRules` | src/features/finance/components/VoucherFormModal.tsx:279-434 | one input against the rules it is registered with: required step-1 inputs and the amount minimum, new-bank and new-affiliate inputs required only while their toggle is on, the other names free |
| `VoucherWizard.NextIsValid` | src/features/finance/components/VoucherFormModal.tsx:119-131 | Next's `isValid`: `trigger` on step 1's five inputs, on the new bank's two inputs, or the truthiness of the selected bank; false on step 3; `VoucherWizard.NextIsValidIff` states it in terms of the step rules |
| `VoucherWizard.NextIsValidIff` | src/features/finance/components/VoucherFormModal.tsx:119-131 | Next's `isValid` holds iff the step is 1 with step 1 valid, or 2 with the bank step valid |
| `VoucherWizard.DepositTriggerIff` | src/features/finance/components/VoucherFormModal.tsx:123 | validating step 1's five registered fields passes iff all are filled in and the amount is at least 0.01 |
| `VoucherWizard.NewBankTriggerIff` | src/features/finance/components/VoucherFormModal.tsx:126 | in new-bank mode, validating name and code passes iff both are filled in |
| `VoucherWizard.HandleNext` | src/features/finance/components/VoucherFormModal.tsx:118-139 | Next advances exactly when the step being left is valid, and then resets `manualShake`; otherwise the step stays and `manualShake` grows by one; nothing else, `submitCount` included, changes; the invariant is kept |
| `VoucherWizard.NextRefusesZeroAmount` | src/features/finance/components/VoucherFormModal.tsx:133-138 | on step 1 with amount "0", Next stays on step 1 and `manualShake` grows by one |
| `VoucherWizard.HandleBack` | src/features/finance/components/VoucherFormModal.tsx:141 | Back lowers the step by one without validating and changes nothing else; from step 2 or 3 it keeps the invariant |
| `VoucherWizard.SubmitBlocked` | src/features/finance/components/VoucherFormModal.tsx:162-170 | `onSubmit` returns early for a new affiliate without first name or identity card, and for an existing affiliate that is not chosen |
| `VoucherWizard.FormRulesPass` | src/features/finance/components/VoucherFormModal.tsx:255 | the validation `handleSubmit` runs before `onSubmit`: every mounted input passes its registered rules; `VoucherWizard.FormRulesPassIff` states what that amounts to |
| `VoucherWizard.FormRulesPassIff` | src/features/finance/components/VoucherFormModal.tsx:279-434 | `handleSubmit`'s own validation of the mounted inputs passes iff step 1 is valid and the required inputs of whichever bank and affiliate are new are filled in |
| `VoucherWizard.BlockedNewAffiliateShakesOnce` | src/features/finance/components/VoucherFormModal.tsx:403 | a new affiliate without first name is stopped by the library before `onSubmit`: nothing is sent, `manualShake` stays, and the shake key grows by one through `submitCount` |
| `VoucherWizard.UnchosenAffiliateShakesTwice` | src/features/finance/components/VoucherFormModal.tsx:166-168 | an unchosen existing affiliate passes the library's validation and is refused by `onSubmit`: `manualShake` grows, and the shake key grows by two |
| `VoucherWizard.HandleSubmit` | src/features/finance/components/VoucherFormModal.tsx:160-218 | every Save raises `submitCount`; a body is sent iff the library's validation passes and the affiliate step is valid, and from a consistent step 3 iff the affiliate step is valid; `manualShake` grows only when `onSubmit` itself refuses, so the shake key grows by two then and by one otherwise; the body carries the bank and affiliate objects, date-time and period as built; from a consistent step 3 it is complete |
| `VoucherWizard.TypingKeepsInv` | src/features/finance/components/VoucherFormModal.tsx:279-434 | typing into an input on screen never touches a step behind the current one, so it keeps the invariant |
| `VoucherWizard.ApplyEdit` | src/features/finance/components/VoucherFormModal.tsx:341-378 | toggles, search selects and typing keep the step and both shake counters; an offered change keeps the invariant |
| `VoucherWizard.Offered` | src/features/finance/components/VoucherFormModal.tsx:246-257 | Back is shown from step 2, Next before step 3 and Save on step 3; `VoucherWizard.Dispatch` states that anything not shown changes nothing |
| `VoucherWizard.EditOffered` | src/features/finance/components/VoucherFormModal.tsx:262-455 | what each panel offers: the toggles and search selects on their own panel, typing into an input on screen, the month select's own values; `VoucherWizard.ApplyEdit` states that such a change keeps the invariant |
| `VoucherWizard.Dispatch` | src/features/finance/components/VoucherFormModal.tsx:246-257 | an action not on screen changes nothing; the step moves by at most one; `manualShake` falls only on a successful Next; `submitCount` grows exactly on an offered Save; only Save on step 3 sends, and from a consistent state what it sends is complete |
| `VoucherWizard.Run` | src/features/finance/components/VoucherFormModal.tsx:246-257 | along any run of events from a consistent state the wizard stays consistent, every body sent is complete, and there are no more bodies than Save clicks |
| `VoucherWizard.EverySentPayloadIsComplete` | src/features/finance/components/VoucherFormModal.tsx:85-218 | from the freshly opened form, whatever the user does, the step stays in 1..3 and every sent body is complete |
| `VoucherWizard.InvalidatedOnSuccess` | src/features/finance/components/VoucherFormModal.tsx:146-149 | given the toggles as `onSuccess` reads them, the voucher list is always refetched first; the bank list iff the new-bank toggle is on; the affiliate list iff the new-affiliate toggle is on; no list twice |
| `VoucherWizard.RefetchMatchesPayload` | src/features/finance/components/VoucherFormModal.tsx:146-149 | with the toggles still as they were when the body was sent, the bank list is refetched iff the sent bank has a null id, and the affiliate list iff the sent affiliate has one |

## Left out

- The HTTP services, the react-query hooks and their staleness settings, routing and the auth guard: network I/O and library configuration. The create call is treated as opaque: the model stops at the request body.
- JSX rendering, the `ToggleTab` component, the stepper, toasts and console logging: presentation only.
- Currency formatting with `Intl.NumberFormat` and date formatting with `date-fns`: locale and floating-point formatting.
- The row actions `handleEdit` and `handleDelete`: they only log.
- The asynchronous mutation, `isPending`, `onError` and closing the modal after success. `onSuccess` is modelled only as the list of keys it invalidates.
- react-hook-form's validation is modelled through the registered rules only: `FormRulesPass` takes the inputs on the hidden step-1 panel as mounted and the conditional new-bank and new-affiliate inputs as mounted exactly while their toggle is on. Error messages and the library's other form state are not modelled.
- The page's only filter state is the search term (src/features/finance/pages/VouchersPage.tsx:24). The modal only creates vouchers (src/features/finance/components/VoucherFormModal.tsx:145): there is no edit mode. The amount rule is `min: 0.01` (line 303 of the same file).
- Clearing a search select: the model only lets a select be set to an id.
- The free text of the year select: a year value is any text. The month select only offers its own values.
- Letter case is ASCII only. JavaScript's full Unicode case mapping (e.g. `ß` upper-cases to `SS`, which changes the length) is not modelled. Whitespace for `trim` is the exact ECMAScript set.
- `Number(text)` is modelled on what a number input can hold: the empty text, which gives 0, and a valid floating-point numeral in the sense of the HTML standard. Any other text gives NaN. Values are exact reals with no binary rounding.
- `VoucherForm.MeetsAmountMinimum`: NaN fails the minimum. A number input never holds text that is not a numeral, so the case does not arise in the form.
- `Numbers.IntToDecimal`: its digits are exact for every integer, while JavaScript's `toString()` is exact only up to 2^53. Above that it prints the shortest digits that read back to the same double, padded with zeros (2^60 prints as `1152921504606847000`), and from 10^21 on it uses an exponent. Searching deposit numbers above 2^53 is therefore not modelled: for them `VoucherSearch.Matches` may keep a voucher the page would not.
- The id 0: a chosen record with id 0 is falsy in JavaScript, so the wizard treats it as "nothing chosen", as the code does.
- `toISOString()` gives the UTC date, while `getMonth()` and `getFullYear()` give local time. Near midnight the default date and the default period can therefore disagree. The model takes the three clock readings as independent parameters.
- `VoucherPayloads.IsCompletePayload` does not require new names to be non-empty after cleaning. `VoucherPayloads.BlankBankNameSentEmpty` shows why: the code's validation accepts a whitespace-only name.
- `VoucherWizard.RefetchMatchesPayload`: the model reads both toggles at the moment of sending. `onSuccess` reads them when the reply arrives. While the request is pending, the affiliate toggle and Back (which leads back to the bank toggle) stay enabled. A toggle flipped in that window changes which lists are refetched, and then the refetch no longer matches the sent body. The asynchronous mutation is not modelled.
