# Easyloans landing page: payment estimator and application form

The Easyloans page (`App.tsx`) is a React component. Nearly all of it is
static layout. It holds two pieces of behaviour, and this project models
both in Dafny and proves properties of them.

* **Payment estimator** (module `Estimator`, `estimator.dfy`). This is the
  quick-estimate widget's fixed-rate amortisation formula. The monthly rate is
  `r = annualRate / 100 / 12` and the number of payments is `n = years * 12`.
  With `r == 0` the payment is `principal / n`. Otherwise it is
  `principal * (r (1+r)^n / ((1+r)^n - 1))`. The total payable is the monthly
  payment times `years * 12`. The model works over exact `real` numbers and a
  recursive `Pow`. Its reference definition is `Balance`, the loan balance
  after `k` months: interest accrues each month and then one payment is
  deducted. The central lemma, `PaymentRepaysLoan`, says the estimator's
  payment leaves a zero balance after the last payment, and that no other
  payment does so. The lemmas beside it cover:
  * the zero-rate case;
  * when the formula is defined (a positive bottom term for positive rates);
  * a positive payment for a positive principal;
  * monotonicity in the principal and in the term;
  * how the total payable compares with the principal;
  * the page's default quote (50,000 over 3 years at 12.5%).
* **Application form controller** (module `Application`, `application.dfy`).
  This is a class `ApplicationForm` with the component's three pieces of
  state: the draft `form`, the `submitted` flag and the `error` message. It
  has these methods:
  * `HandleApply`: the submit handler. It clears the error, rejects missing
    contact details, then rejects a non-positive amount, and otherwise sets
    `submitted`.
  * `Reset`: restores the empty draft and clears the error.
  * One editor per field: `SetName`, `SetEmail`, `SetPhone`, `SetAmount`,
    `SetPurpose`.

  The pure function `Validate` states the submission rules, and
  `HandleApply` is proved against it. The object invariant `Valid()` says
  `submitted ==> Complete(form)`. Every method keeps it. The editors and
  `Reset` are only rendered while the form is not submitted, so they require
  `!submitted`. As a consequence, the confirmation text (`Confirmation`)
  always greets the applicant by the submitted name and never falls back to
  "applicant". The verified client method `SubmissionWalkthrough` walks the controller
  through three submissions: a missing name, a zero amount, and an accepted
  application. It shows what a caller can derive from these contracts.

The model's inputs are the values the page's inputs deliver. The slider
values and the typed field values become method and function parameters.
There is no I/O in the model.

Choices the model makes where the code leaves room:
* Only the empty string counts as missing. A name, email or phone made of
  spaces alone is accepted (`App.tsx:35`).
* The estimator does not guard a zero term. The model requires `years >= 1`
  (part of `Defined`). This matches the term slider's minimum of 1
  (`App.tsx:108`), and it keeps the number of payments a natural number, as
  the recursive `Pow` needs.
* The model does not restrict the rate to non-negative values. Besides the
  term bound, `Defined` asks only for a non-zero bottom term whenever the
  compound branch is taken. `DefinedForPositiveGrowth` shows that every
  rate above -1200% satisfies this, which includes the slider's range of 1
  to 24.

## Model

| member | source | states |
|---|---|---|
| Estimator.MonthlyPayment | App.tsx:20-27 | defined for every term of at least a year with a non-zero bottom term; with a zero monthly rate the payment times the number of months is exactly the principal |
| Estimator.ZeroRatePayment | App.tsx:21-23 | with a zero rate the payment is exactly principal / (years * 12) |
| Estimator.TotalPayable | App.tsx:29-30 | the total payable is the monthly payment times the number of months; paid in that many equal instalments it leaves a zero balance; at a zero rate it equals the principal; for a positive principal at a positive rate it exceeds the principal |
| Estimator.PaymentsExceedPrincipal | App.tsx:20-30 | at a positive rate, the n monthly payments together exceed a positive principal |
| Estimator.TotalCoversPrincipal | App.tsx:29-30 | for a positive principal and a non-negative rate, the total payable equals the principal at a zero rate and strictly exceeds it at a positive rate |
| Estimator.BottomPositive | App.tsx:24-26 | for a positive rate and at least one year the bottom term (1+r)^n - 1 is strictly positive, so the division is defined |
| Estimator.DefinedForPositiveGrowth | App.tsx:21-26 | for any rate above -1200% (monthly growth factor 1 + r positive) and any term of at least a year, both branches of the formula are defined |
| Estimator.PaymentByAnnuity | App.tsx:21-26 | both branches compute principal * x^n / (x^0 + ... + x^(n-1)) with x = 1 + r, and that sum is non-zero |
| Estimator.BalanceClosedForm | App.tsx:20-27 | the loan balance after k months is the principal grown by x^k less the payments grown by the annuity sum |
| Estimator.PaymentRepaysLoan | App.tsx:20-27 | a payment leaves a zero balance after the n-th month if and only if it equals the estimator's monthly payment |
| Estimator.PaymentPositive | App.tsx:20-27 | a positive principal gives a strictly positive payment |
| Estimator.PaymentProportional | App.tsx:26 | the payment is the principal times the payment on a unit principal |
| Estimator.PaymentIncreasingInPrincipal | App.tsx:20-27 | for fixed term and rate, a larger principal gives a strictly larger payment |
| Estimator.PaymentDecreasingInTerm | App.tsx:20-27 | for a positive principal and fixed rate, a longer term gives a strictly smaller payment |
| Estimator.DefaultQuote | App.tsx:5-30 | for the page's defaults (50,000, 3 years, 12.5%) the payment lies in [1672.5, 1673.5) and the total in [60216.5, 60217.5), so they display as 1,673 and 60,217 |
| Application.Validate | App.tsx:34-43 | accepts exactly the drafts whose name, email and phone are non-empty and whose amount is positive; missing contact details give the contact message whatever the amount; otherwise a non-positive amount gives the amount message |
| Application.ApplicationForm.constructor | App.tsx:10-18 | the initial state is the draft {"", "", "", 50000, unset}, not submitted, no error |
| Application.ApplicationForm.HandleApply | App.tsx:32-44 | the draft is unchanged; the error is the contact message, the amount message or empty as the draft fails the contact check, fails the amount check or passes; submitted becomes true exactly when the draft passes and is otherwise unchanged; the invariant is kept |
| Application.ApplicationForm.Reset | App.tsx:193 | the draft becomes {"", "", "", 50000, unset}, the error is cleared, submitted is unchanged |
| Application.ApplicationForm.SetName | App.tsx:160 | only the name field changes; error and submitted are unchanged |
| Application.ApplicationForm.SetEmail | App.tsx:165 | only the email field changes; error and submitted are unchanged |
| Application.ApplicationForm.SetPhone | App.tsx:170 | only the phone field changes; error and submitted are unchanged |
| Application.ApplicationForm.SetAmount | App.tsx:175 | only the amount field changes; error and submitted are unchanged |
| Application.ApplicationForm.SetPurpose | App.tsx:180-186 | only the purpose field changes; error and submitted are unchanged |
| Application.ApplicationForm.Confirmation | App.tsx:151-155 | once submitted, the addressee is the submitted name itself, so the "applicant" fallback is unreachable; the text is exactly "Thanks, ", the name, ". We'll be in touch at ", the email, " or ", the phone, " with the next steps."; it begins with the greeting and the name and mentions the name, email and phone |
| Application.ConfirmationNamesApplicant | App.tsx:154 | for any draft the confirmation greets a non-empty name, falls back to "applicant" for an empty one, and repeats the email and the phone |

## Left out

- Layout, styling, static copy, navigation anchors, the FAQ and the footer (`App.tsx:46-270`): these are presentation, not behaviour. This includes the inline display of the error (`App.tsx:189`).
- Currency formatting with `toLocaleString` and display rounding with `Math.round` (`App.tsx:103, 122, 124, 214`): these are locale-dependent library calls. `DefaultQuote` bounds the exact values around the rounding points instead.
- IEEE floating point: `Math.pow`, `/` and `Number(...)` are modelled as exact real arithmetic. `NaN` from non-numeric input (for which `amount <= 0` is false) and overflow are not modelled.
- The calculator's slider handlers (`App.tsx:102, 108, 114`): they store the slider value unchanged. The model takes principal, rate and term as parameters, and the browser-enforced slider bounds appear only as the `Defined` precondition.
- `e.preventDefault()`, React's batching of `setError("")` followed by `setError(message)`, re-rendering, and `new Date()` in the footer: these are framework and environment plumbing. The model applies the state updates in order, which gives the same final state.
- The purpose field stores the `<select>` option's string value in the source. The model uses the enumeration `Purpose`, one constructor per option; `Unset` stands for the empty string.
- There is no way back from the submitted state. The source offers none; the editors and `Reset` require `!submitted`, mirroring that they are only rendered before submission (`App.tsx:151, 157`).
