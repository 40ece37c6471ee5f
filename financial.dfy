/**
 * The bookkeeping page: the new-transaction form with its amount filter and
 * validation, appending and deleting transactions, and the totals, partner
 * split, per-day sums and per-category expense breakdown.
 *
 * Amounts are integer cents: the amount field only ever holds a decimal with
 * at most two fraction digits, so `parseFloat` of it is an exact number of
 * cents (binary floating point is not modelled).
 */
module Financial {
  import opened Common
  import Text
  import Calendar

  // =====================================================================
  // Records
  // =====================================================================

  datatype TxType = Income | Expense
  datatype TxStatus = TxPending | TxCompleted | TxFailed

  datatype Transaction = Transaction(
    id: string,
    date: string,
    amountCents: int,
    paymentMethod: string,
    description: string,
    txType: TxType,
    status: TxStatus,
    referenceId: Option<string>,
    notes: Option<string>,
    category: string)

  /** The new-transaction form, every field as the inputs hold it. */
  datatype TransactionForm = TransactionForm(
    amount: string,
    paymentMethod: string,
    description: string,
    txType: TxType,
    date: string,
    referenceId: string,
    notes: string,
    category: string)

  /** The form after a reset: empty fields, income, today's date, category 'other'. */
  function DefaultForm(today: string): TransactionForm {
    TransactionForm("", "", "", Income, today, "", "", "other")
  }

  /** The ids of `PAYMENT_METHODS`. */
  const PaymentMethodIds: seq<string> := ["bkash", "nagad", "rocket", "binance", "cash"]

  /** The ids of `EXPENSE_CATEGORIES`, in display order. */
  const ExpenseCategoryIds: seq<string> := ["facebook_ads", "promotional_videos", "poster_design", "adobe_console", "other"]

  /** One billion, the largest accepted amount, in cents. */
  const MaxAmountCents: int := 100_000_000_000

  // =====================================================================
  // The amount pattern ^\d*\.?\d{0,2}$
  // =====================================================================

  /** The pattern as a decomposition: digits, an optional '.', then at most two digits. */
  ghost predicate MatchesAmountRegex(s: string) {
    exists i, j | 0 <= i <= j <= |s| ::
      && Text.AllDigits(s[..i])
      && (j == i || (j == i + 1 && s[i] == '.'))
      && Text.AllDigits(s[j..])
      && |s| - j <= 2
  }

  /** Length of the run of digits that starts the string. */
  function LeadingDigits(s: string): (k: nat)
    ensures k <= |s| && Text.AllDigits(s[..k])
    ensures k == |s| || !Text.IsDigit(s[k])
  {
    if s == [] || !Text.IsDigit(s[0]) then 0
    else
      var k := LeadingDigits(s[1..]);
      assert s[..k + 1] == [s[0]] + s[1..][..k];
      k + 1
  }

  /** The digits that a string starts with are exactly a leading digit block followed by a non-digit. */
  lemma {:induction false} LeadingDigitsOfConcat(a: string, b: string)
    requires Text.AllDigits(a) && (b == [] || !Text.IsDigit(b[0]))
    ensures LeadingDigits(a + b) == |a|
  {
    if a != [] {
      assert (a + b)[1..] == a[1..] + b;
      LeadingDigitsOfConcat(a[1..], b);
    }
  }

  /** The filter as the input handler applies it: scan the leading digits, then allow '.' and up to two digits. */
  predicate AmountPattern(s: string) {
    var k := LeadingDigits(s);
    k == |s| || (s[k] == '.' && Text.AllDigits(s[k + 1..]) && |s| - (k + 1) <= 2)
  }

  /** The scanner accepts exactly the strings the regular expression matches. */
  lemma {:induction false} AmountPatternMatchesRegex(s: string)
    ensures AmountPattern(s) <==> MatchesAmountRegex(s)
  {
    if AmountPattern(s) {
      PatternGivesRegex(s);
    }
    if MatchesAmountRegex(s) {
      var i, j :| 0 <= i <= j <= |s| && Text.AllDigits(s[..i]) && (j == i || (j == i + 1 && s[i] == '.'))
        && Text.AllDigits(s[j..]) && |s| - j <= 2;
      RegexGivesPattern(s, i, j);
    }
  }

  lemma {:induction false} PatternGivesRegex(s: string)
    requires AmountPattern(s)
    ensures MatchesAmountRegex(s)
  {
    var k := LeadingDigits(s);
    if k == |s| {
      assert s[k..] == [];
      assert Text.AllDigits(s[..k]) && Text.AllDigits(s[k..]) && |s| - k <= 2;
    } else {
      assert Text.AllDigits(s[..k]) && s[k] == '.' && Text.AllDigits(s[k + 1..]);
    }
  }

  lemma {:induction false} RegexGivesPattern(s: string, i: int, j: int)
    requires 0 <= i <= j <= |s| && Text.AllDigits(s[..i]) && (j == i || (j == i + 1 && s[i] == '.'))
    requires Text.AllDigits(s[j..]) && |s| - j <= 2
    ensures AmountPattern(s)
  {
    var k := LeadingDigits(s);
    if j == i {
      assert Text.AllDigits(s) by {
        forall p | 0 <= p < |s| ensures Text.IsDigit(s[p]) {
          if p < i { assert s[..i][p] == s[p]; } else { assert s[j..][p - j] == s[p]; }
        }
      }
      assert s == s + [];
      LeadingDigitsOfConcat(s, []);
    } else {
      assert s == s[..i] + s[i..];
      LeadingDigitsOfConcat(s[..i], s[i..]);
      assert k == i;
      assert s[k + 1..] == s[j..];
    }
  }

  /** The empty string passes the pattern, so the explicit `value === ''` test adds nothing. */
  lemma EmptyAmountMatches()
    ensures AmountPattern("")
  {
  }

  /** An accepted amount has at most one '.', and at most two characters follow it. */
  lemma {:induction false} AcceptedAmountShape(s: string, p: int)
    requires AmountPattern(s) && 0 <= p < |s| && s[p] == '.'
    ensures |s| - (p + 1) <= 2
    ensures forall q :: 0 <= q < |s| && q != p ==> s[q] != '.'
  {
    var k := LeadingDigits(s);
    assert forall q :: 0 <= q < k ==> Text.IsDigit(s[q]) by {
      forall q | 0 <= q < k ensures Text.IsDigit(s[q]) {
        assert s[..k][q] == s[q];
      }
    }
    assert k < |s| ==> forall q :: k < q < |s| ==> Text.IsDigit(s[q]) by {
      if k < |s| {
        forall q | k < q < |s| ensures Text.IsDigit(s[q]) {
          assert s[k + 1..][q - k - 1] == s[q];
        }
      }
    }
  }

  /** The value of zero to two fraction digits, in cents. */
  function FractionCents(f: string): (c: nat)
    requires Text.AllDigits(f) && |f| <= 2
    ensures c < 100
  {
    if |f| == 0 then 0
    else if |f| == 1 then 10 * Text.DigitValue(f[0])
    else 10 * Text.DigitValue(f[0]) + Text.DigitValue(f[1])
  }

  /**
   * `parseFloat` of an accepted amount, in cents: `None` (NaN) when there is
   * no digit at all ("" or "."), otherwise the whole part times 100 plus the
   * fraction digits.
   */
  function ParseAmountCents(s: string): (r: Option<nat>)
    requires AmountPattern(s)
    ensures r.None? <==> s == "" || s == "."
  {
    var k := LeadingDigits(s);
    var whole := s[..k];
    var frac := if k == |s| then "" else s[k + 1..];
    if whole == "" && frac == "" then
      assert k == 0;
      None
    else Some(Text.DigitsValue(whole) * 100 + FractionCents(frac))
  }

  /** A cent amount written the way `toFixed(2)` writes it. */
  function FormatCents(c: nat): string {
    Text.NatToString(c / 100) + "." + Text.TwoDigits(c % 100)
  }

  /** Every two-decimal rendering of a cent amount is accepted by the amount field and parses back to that amount. */
  lemma {:induction false} FormatCentsRoundTrip(c: nat)
    ensures AmountPattern(FormatCents(c))
    ensures ParseAmountCents(FormatCents(c)) == Some(c)
  {
    var w := Text.NatToString(c / 100);
    var t := Text.TwoDigits(c % 100);
    var s := FormatCents(c);
    assert s == w + ("." + t);
    LeadingDigitsOfConcat(w, "." + t);
    assert s[..|w|] == w;
    assert s[|w| + 1..] == t;
    Text.NatToStringValue(c / 100);
    assert FractionCents(t) == c % 100 by {
      assert Text.DigitValue(t[0]) == (c % 100) / 10 && Text.DigitValue(t[1]) == (c % 100) % 10;
    }
  }

  // =====================================================================
  // Validation
  // =====================================================================

  datatype AmountError = InvalidAmount | AmountOverLimit
  datatype DescriptionError = MissingDescription | DescriptionTooLong

  /** The `errors` object: one optional message per field. */
  datatype FormErrors = FormErrors(
    amount: Option<AmountError>,
    paymentMethodMissing: bool,
    description: Option<DescriptionError>,
    referenceIdTooLong: bool)

  const NoFormErrors: FormErrors := FormErrors(None, false, None, false)

  /** The errors `validateTransaction` records for a form, field by field. */
  function ErrorsFor(f: TransactionForm): (e: FormErrors)
    requires AmountPattern(f.amount)
    ensures e.amount.None? <==> ParseAmountCents(f.amount).Some? && 0 < ParseAmountCents(f.amount).value <= MaxAmountCents
    ensures e.paymentMethodMissing <==> f.paymentMethod == ""
    ensures e.description.None? <==> !Text.IsBlank(f.description) && |f.description| <= 500
    ensures e.referenceIdTooLong <==> |f.referenceId| > 100
  {
    Text.TrimEmptyIffBlank(f.description);
    var cents := ParseAmountCents(f.amount);
    FormErrors(
      if cents.None? || cents.value <= 0 then Some(InvalidAmount)
      else if cents.value > MaxAmountCents then Some(AmountOverLimit)
      else None,
      f.paymentMethod == "",
      if Text.Trim(f.description) == "" then Some(MissingDescription)
      else if |f.description| > 500 then Some(DescriptionTooLong)
      else None,
      f.referenceId != "" && |f.referenceId| > 100)
  }

  /** A form the page accepts, stated on the fields themselves. */
  predicate AcceptableForm(f: TransactionForm)
    requires AmountPattern(f.amount)
  {
    && f.amount != "" && f.amount != "."
    && 0 < ParseAmountCents(f.amount).value <= MaxAmountCents
    && f.paymentMethod != ""
    && !Text.IsBlank(f.description) && |f.description| <= 500
    && |f.referenceId| <= 100
  }

  /** Validation succeeds exactly for an amount in (0, 1e9], a chosen method, a non-blank description of at most 500 characters and a reference of at most 100. */
  lemma {:induction false} NoErrorsIff(f: TransactionForm)
    requires AmountPattern(f.amount)
    ensures ErrorsFor(f) == NoFormErrors <==> AcceptableForm(f)
  {
    Text.TrimEmptyIffBlank(f.description);
  }

  /** The record the page creates from a valid form. */
  function TransactionFrom(f: TransactionForm, id: string): (t: Transaction)
    requires AmountPattern(f.amount) && AcceptableForm(f)
    ensures 0 < t.amountCents <= MaxAmountCents && Some(t.amountCents) == ParseAmountCents(f.amount)
    ensures t.id == id && t.paymentMethod == f.paymentMethod
    ensures t.status == TxCompleted && t.txType == f.txType && t.date == f.date && t.category == f.category
    ensures t.description == Text.Trim(f.description) && t.description != ""
    ensures t.referenceId.None? <==> Text.IsBlank(f.referenceId)
    ensures t.referenceId.Some? ==> t.referenceId.value == Text.Trim(f.referenceId)
    ensures t.notes.None? <==> Text.IsBlank(f.notes)
    ensures t.notes.Some? ==> t.notes.value == Text.Trim(f.notes)
  {
    Text.TrimEmptyIffBlank(f.description);
    Text.TrimEmptyIffBlank(f.referenceId);
    Text.TrimEmptyIffBlank(f.notes);
    var reference := Text.Trim(f.referenceId);
    var notes := Text.Trim(f.notes);
    Transaction(id, f.date, ParseAmountCents(f.amount).value, f.paymentMethod, Text.Trim(f.description),
      f.txType, TxCompleted,
      if reference == "" then None else Some(reference),
      if notes == "" then None else Some(notes),
      f.category)
  }

  // =====================================================================
  // Aggregations
  // =====================================================================

  /** `filter(t => t.type === ty).reduce((sum, t) => sum + t.amount, 0)`. */
  function SumOfType(txs: seq<Transaction>, ty: TxType): (total: int)
    ensures (forall k :: 0 <= k < |txs| ==> txs[k].txType != ty) ==> total == 0
    ensures (forall k :: 0 <= k < |txs| ==> txs[k].amountCents >= 0) ==> total >= 0
  {
    if txs == [] then 0
    else (if txs[0].txType == ty then txs[0].amountCents else 0) + SumOfType(txs[1..], ty)
  }

  lemma {:induction false} SumOfTypeAppend(xs: seq<Transaction>, ys: seq<Transaction>, ty: TxType)
    ensures SumOfType(xs + ys, ty) == SumOfType(xs, ty) + SumOfType(ys, ty)
  {
    if xs == [] {
      assert xs + ys == ys;
    } else {
      assert (xs + ys)[0] == xs[0];
      assert (xs + ys)[1..] == xs[1..] + ys;
      SumOfTypeAppend(xs[1..], ys, ty);
    }
  }

  /** Sum of every amount, whatever its type. */
  function SumAll(txs: seq<Transaction>): int {
    if txs == [] then 0 else txs[0].amountCents + SumAll(txs[1..])
  }

  /** Income and expenses partition the transactions. */
  lemma {:induction false} IncomeExpensePartition(txs: seq<Transaction>)
    ensures SumOfType(txs, Income) + SumOfType(txs, Expense) == SumAll(txs)
  {
    if txs != [] {
      IncomeExpensePartition(txs[1..]);
    }
  }

  /** The summary `calculatePartnerProfits` returns; the page-level totals are the same sums. */
  datatype PartnerProfits = PartnerProfits(totalIncome: int, totalExpenses: int, netProfit: int, partnerShare: real)

  function PartnerProfitsOf(txs: seq<Transaction>): (p: PartnerProfits)
    ensures p.netProfit == p.totalIncome - p.totalExpenses
    ensures p.partnerShare * 2.0 == p.netProfit as real
    ensures p.totalIncome + p.totalExpenses == SumOfType(txs, Income) + SumOfType(txs, Expense)
  {
    var income := SumOfType(txs, Income);
    var expenses := SumOfType(txs, Expense);
    PartnerProfits(income, expenses, income - expenses, (income - expenses) as real / 2.0)
  }

  /** Each transaction's effect on the books: income adds its amount, an expense subtracts it. */
  function SignedSum(txs: seq<Transaction>): int {
    if txs == [] then 0
    else (if txs[0].txType == Income then txs[0].amountCents else -txs[0].amountCents) + SignedSum(txs[1..])
  }

  /**
   * The net profit is the signed sum of all transactions, and each of the two
   * partners gets exactly half of it.
   */
  lemma {:induction false} NetProfitIsSignedSum(txs: seq<Transaction>)
    ensures PartnerProfitsOf(txs).netProfit == SignedSum(txs)
    ensures PartnerProfitsOf(txs).partnerShare * 2.0 == SignedSum(txs) as real
  {
    if txs != [] {
      NetProfitIsSignedSum(txs[1..]);
      assert txs == [txs[0]] + txs[1..];
      SumOfTypeCons(txs[0], txs[1..], Income);
      SumOfTypeCons(txs[0], txs[1..], Expense);
    }
  }

  /** Appending a transaction moves the net profit by its amount: up for income, down for an expense. */
  lemma {:induction false} NetProfitAfterAppend(txs: seq<Transaction>, t: Transaction)
    ensures PartnerProfitsOf(txs + [t]).netProfit ==
      PartnerProfitsOf(txs).netProfit + (if t.txType == Income then t.amountCents else -t.amountCents)
  {
    SumOfTypeAppend(txs, [t], Income);
    SumOfTypeAppend(txs, [t], Expense);
  }

  /** The transactions whose key is one of `keys`, in list order. */
  function WithKeyIn(txs: seq<Transaction>, key: Transaction -> string, keys: seq<string>): (r: seq<Transaction>)
    ensures |r| <= |txs|
  {
    if txs == [] then []
    else (if key(txs[0]) in keys then [txs[0]] else []) + WithKeyIn(txs[1..], key, keys)
  }

  /** `WithKeyIn` keeps exactly the transactions whose key is listed, each as often as in the list. */
  lemma {:induction false} WithKeyInCounts(txs: seq<Transaction>, key: Transaction -> string, keys: seq<string>)
    ensures forall t :: multiset(WithKeyIn(txs, key, keys))[t] == if key(t) in keys then multiset(txs)[t] else 0
  {
    if txs != [] {
      WithKeyInCounts(txs[1..], key, keys);
      assert txs == [txs[0]] + txs[1..];
    }
  }

  /** A type's total depends only on which transactions there are, not on their order. */
  lemma {:induction false} SumOfTypePermutation(xs: seq<Transaction>, ys: seq<Transaction>, ty: TxType)
    requires multiset(xs) == multiset(ys)
    ensures SumOfType(xs, ty) == SumOfType(ys, ty)
    decreases |xs|
  {
    if xs == [] {
      assert |ys| == |multiset(ys)| == 0;
    } else {
      var x := xs[0];
      assert x in multiset(ys);
      var k :| 0 <= k < |ys| && ys[k] == x;
      var rest := ys[..k] + ys[k + 1..];
      assert ys == ys[..k] + ([x] + ys[k + 1..]);
      assert xs == [x] + xs[1..];
      assert multiset(ys) == multiset(ys[..k]) + multiset{x} + multiset(ys[k + 1..]);
      assert multiset(xs) == multiset{x} + multiset(xs[1..]);
      assert multiset(rest) == multiset(ys[..k]) + multiset(ys[k + 1..]);
      assert multiset(xs[1..]) == multiset(xs) - multiset{x};
      assert multiset(rest) == multiset(ys) - multiset{x};
      SumOfTypePermutation(xs[1..], rest, ty);
      SumOfTypeAppend(ys[..k], [x] + ys[k + 1..], ty);
      SumOfTypeCons(x, ys[k + 1..], ty);
      SumOfTypeAppend(ys[..k], ys[k + 1..], ty);
      SumOfTypeCons(x, xs[1..], ty);
    }
  }

  function DateOf(t: Transaction): string { t.date }
  function CategoryOf(t: Transaction): string { t.category }

  /** Adding a key not yet listed adds exactly the sum of the transactions carrying that key. */
  lemma {:induction false} WithKeyInSplit(txs: seq<Transaction>, key: Transaction -> string, keys: seq<string>, k: string, ty: TxType)
    requires k !in keys
    ensures SumOfType(WithKeyIn(txs, key, keys + [k]), ty) ==
      SumOfType(WithKeyIn(txs, key, keys), ty) + SumOfType(WithKeyIn(txs, key, [k]), ty)
  {
    if txs != [] {
      WithKeyInSplit(txs[1..], key, keys, k, ty);
      var head := txs[0];
      var restAll := WithKeyIn(txs[1..], key, keys + [k]);
      var restKeys := WithKeyIn(txs[1..], key, keys);
      var restK := WithKeyIn(txs[1..], key, [k]);
      SumOfTypeAppend(if key(head) in keys + [k] then [head] else [], restAll, ty);
      SumOfTypeAppend(if key(head) in keys then [head] else [], restKeys, ty);
      SumOfTypeAppend(if key(head) in [k] then [head] else [], restK, ty);
    }
  }

  /** The per-key sums over a list of keys, added up. */
  function SumPerKey(txs: seq<Transaction>, key: Transaction -> string, keys: seq<string>, ty: TxType): int {
    if keys == [] then 0
    else SumPerKey(txs, key, keys[..|keys| - 1], ty) + SumOfType(WithKeyIn(txs, key, [keys[|keys| - 1]]), ty)
  }

  predicate DistinctKeys(keys: seq<string>) {
    forall i, j :: 0 <= i < j < |keys| ==> keys[i] != keys[j]
  }

  /** Over distinct keys, adding the per-key sums counts each transaction once: it is the sum over all listed keys. */
  lemma {:induction false} SumPerKeyDistinct(txs: seq<Transaction>, key: Transaction -> string, keys: seq<string>, ty: TxType)
    requires DistinctKeys(keys)
    ensures SumPerKey(txs, key, keys, ty) == SumOfType(WithKeyIn(txs, key, keys), ty)
  {
    if keys == [] {
      WithKeyInNone(txs, key, ty);
    } else {
      var init := keys[..|keys| - 1];
      var last := keys[|keys| - 1];
      assert keys == init + [last];
      assert last !in init by {
        forall i | 0 <= i < |init| ensures init[i] != last {
          assert keys[i] == init[i];
        }
      }
      SumPerKeyDistinct(txs, key, init, ty);
      WithKeyInSplit(txs, key, init, last, ty);
    }
  }

  lemma {:induction false} WithKeyInNone(txs: seq<Transaction>, key: Transaction -> string, ty: TxType)
    ensures SumOfType(WithKeyIn(txs, key, []), ty) == 0
  {
    if txs != [] {
      WithKeyInNone(txs[1..], key, ty);
      assert WithKeyIn(txs, key, []) == WithKeyIn(txs[1..], key, []);
    }
  }

  predicate NonNegativeAmounts(txs: seq<Transaction>) {
    forall i :: 0 <= i < |txs| ==> txs[i].amountCents >= 0
  }

  /** With non-negative amounts a keyed sum is at most the full sum of that type, and equal when every such key is listed. */
  lemma {:induction false} WithKeyInBounded(txs: seq<Transaction>, key: Transaction -> string, keys: seq<string>, ty: TxType)
    requires NonNegativeAmounts(txs)
    ensures SumOfType(WithKeyIn(txs, key, keys), ty) <= SumOfType(txs, ty)
    ensures (forall i :: 0 <= i < |txs| && txs[i].txType == ty ==> key(txs[i]) in keys) ==>
      SumOfType(WithKeyIn(txs, key, keys), ty) == SumOfType(txs, ty)
  {
    if txs != [] {
      assert NonNegativeAmounts(txs[1..]) by {
        forall i | 0 <= i < |txs[1..]| ensures txs[1..][i].amountCents >= 0 {
          assert txs[1..][i] == txs[i + 1];
        }
      }
      WithKeyInBounded(txs[1..], key, keys, ty);
      var head := txs[0];
      SumOfTypeAppend(if key(head) in keys then [head] else [], WithKeyIn(txs[1..], key, keys), ty);
      if forall i :: 0 <= i < |txs| && txs[i].txType == ty ==> key(txs[i]) in keys {
        assert forall i :: 0 <= i < |txs[1..]| && txs[1..][i].txType == ty ==> key(txs[1..][i]) in keys by {
          forall i | 0 <= i < |txs[1..]| && txs[1..][i].txType == ty ensures key(txs[1..][i]) in keys {
            assert txs[1..][i] == txs[i + 1];
          }
        }
      }
    }
  }

  // ---------------------------------------------------------------------
  // Per-day sums of the selected month
  // ---------------------------------------------------------------------

  datatype DayTotals = DayTotals(date: string, income: int, expenses: int)

  /** The 'yyyy-MM-dd' strings of every day of a month, first to last. */
  function MonthDates(year: int, month: int): (ds: seq<string>)
    requires 0 <= month < 12
    ensures |ds| == Calendar.DaysInMonth(year, month)
  {
    seq(Calendar.DaysInMonth(year, month), d requires 0 <= d < Calendar.DaysInMonth(year, month) =>
      Calendar.FormatDay(year, month, d + 1))
  }

  lemma {:induction false} MonthDatesDistinct(year: int, month: int)
    requires 0 <= month < 12
    ensures DistinctKeys(MonthDates(year, month))
  {
    var ds := MonthDates(year, month);
    var n := Calendar.DaysInMonth(year, month);
    forall i, j | 0 <= i < j < |ds| ensures ds[i] != ds[j] {
      assert ds[i] == Calendar.FormatDay(year, month, i + 1);
      assert ds[j] == Calendar.FormatDay(year, month, j + 1);
      if ds[i] == ds[j] {
        Calendar.FormatDayInjective(year, month, i + 1, j + 1);
      }
    }
  }

  /** `dailyData`: one row per day of the month, each with the income and expense sums of that exact date. */
  function DailyData(txs: seq<Transaction>, year: int, month: int): (rows: seq<DayTotals>)
    requires 0 <= month < 12
    ensures |rows| == Calendar.DaysInMonth(year, month)
    ensures forall d :: 0 <= d < |rows| ==> rows[d].date == Calendar.FormatDay(year, month, d + 1)
  {
    var ds := MonthDates(year, month);
    seq(|ds|, d requires 0 <= d < |ds| => TotalsOn(txs, ds[d]))
  }

  /** The income and expenses of the transactions dated `date`. */
  function TotalsOn(txs: seq<Transaction>, date: string): DayTotals {
    var day := WithKeyIn(txs, DateOf, [date]);
    DayTotals(date, SumOfType(day, Income), SumOfType(day, Expense))
  }

  function SumIncomeRows(rows: seq<DayTotals>): int {
    if rows == [] then 0 else SumIncomeRows(rows[..|rows| - 1]) + rows[|rows| - 1].income
  }

  function SumExpenseRows(rows: seq<DayTotals>): int {
    if rows == [] then 0 else SumExpenseRows(rows[..|rows| - 1]) + rows[|rows| - 1].expenses
  }

  /** The daily rows add up to the month's totals: each transaction dated in the month is counted on exactly one day. */
  lemma {:induction false} DailyDataAddsUpToMonth(txs: seq<Transaction>, year: int, month: int)
    requires 0 <= month < 12
    ensures SumIncomeRows(DailyData(txs, year, month)) == SumOfType(WithKeyIn(txs, DateOf, MonthDates(year, month)), Income)
    ensures SumExpenseRows(DailyData(txs, year, month)) == SumOfType(WithKeyIn(txs, DateOf, MonthDates(year, month)), Expense)
  {
    var ds := MonthDates(year, month);
    MonthDatesDistinct(year, month);
    var rows := DailyData(txs, year, month);
    forall d | 0 <= d < |rows|
      ensures rows[d].income == SumOfType(WithKeyIn(txs, DateOf, [ds[d]]), Income)
      ensures rows[d].expenses == SumOfType(WithKeyIn(txs, DateOf, [ds[d]]), Expense)
    {
      DailyRow(txs, year, month, d);
    }
    RowsMatchPerKey(txs, rows, ds, |ds|);
    assert ds[..|ds|] == ds;
    assert rows[..|ds|] == rows;
    SumPerKeyDistinct(txs, DateOf, ds, Income);
    SumPerKeyDistinct(txs, DateOf, ds, Expense);
  }

  /** Rows that each hold the sums of their own key add up, prefix by prefix, to the per-key sums. */
  lemma {:induction false} RowsMatchPerKey(txs: seq<Transaction>, rows: seq<DayTotals>, ds: seq<string>, n: nat)
    requires |rows| == |ds| && n <= |ds|
    requires forall d :: 0 <= d < |rows| ==>
      rows[d].income == SumOfType(WithKeyIn(txs, DateOf, [ds[d]]), Income) &&
      rows[d].expenses == SumOfType(WithKeyIn(txs, DateOf, [ds[d]]), Expense)
    ensures SumIncomeRows(rows[..n]) == SumPerKey(txs, DateOf, ds[..n], Income)
    ensures SumExpenseRows(rows[..n]) == SumPerKey(txs, DateOf, ds[..n], Expense)
  {
    if n > 0 {
      RowsMatchPerKey(txs, rows, ds, n - 1);
      RowSumsStep(rows, n);
      assert ds[..n][..n - 1] == ds[..n - 1] && ds[..n][n - 1] == ds[n - 1];
    }
  }

  /** The row of one day holds that date's sums. */
  lemma DailyRow(txs: seq<Transaction>, year: int, month: int, d: nat)
    requires 0 <= month < 12 && d < Calendar.DaysInMonth(year, month)
    ensures var day := WithKeyIn(txs, DateOf, [MonthDates(year, month)[d]]);
      DailyData(txs, year, month)[d] == DayTotals(MonthDates(year, month)[d], SumOfType(day, Income), SumOfType(day, Expense))
  {
  }

  /**
   * The row of day `d` holds the income and expense totals of exactly the
   * transactions dated that day: `day` is any list of them, in any order.
   */
  lemma {:induction false} DailyRowIsDaySum(txs: seq<Transaction>, year: int, month: int, d: nat, day: seq<Transaction>)
    requires 0 <= month < 12 && d < Calendar.DaysInMonth(year, month)
    requires forall t :: multiset(day)[t] == if t.date == Calendar.FormatDay(year, month, d + 1) then multiset(txs)[t] else 0
    ensures DailyData(txs, year, month)[d].date == Calendar.FormatDay(year, month, d + 1)
    ensures DailyData(txs, year, month)[d].income == SumOfType(day, Income)
    ensures DailyData(txs, year, month)[d].expenses == SumOfType(day, Expense)
  {
    var date := MonthDates(year, month)[d];
    var kept := WithKeyIn(txs, DateOf, [date]);
    DailyRow(txs, year, month, d);
    WithKeyInCounts(txs, DateOf, [date]);
    assert forall t :: multiset(kept)[t] == multiset(day)[t];
    assert multiset(kept) == multiset(day);
    SumOfTypePermutation(kept, day, Income);
    SumOfTypePermutation(kept, day, Expense);
  }

  lemma RowSumsStep(rows: seq<DayTotals>, n: nat)
    requires 0 < n <= |rows|
    ensures SumIncomeRows(rows[..n]) == SumIncomeRows(rows[..n - 1]) + rows[n - 1].income
    ensures SumExpenseRows(rows[..n]) == SumExpenseRows(rows[..n - 1]) + rows[n - 1].expenses
  {
    assert rows[..n][..n - 1] == rows[..n - 1];
  }

  // ---------------------------------------------------------------------
  // Expense breakdown
  // ---------------------------------------------------------------------

  datatype CategoryTotal = CategoryTotal(category: string, total: int)

  /** `calculateExpenseBreakdown`: the expense sum of each category, in the fixed category order. */
  function ExpenseBreakdown(txs: seq<Transaction>): (rows: seq<CategoryTotal>)
    ensures |rows| == |ExpenseCategoryIds|
    ensures forall i :: 0 <= i < |rows| ==> rows[i].category == ExpenseCategoryIds[i]
  {
    seq(|ExpenseCategoryIds|, i requires 0 <= i < |ExpenseCategoryIds| =>
      CategoryTotal(ExpenseCategoryIds[i], SumOfType(WithKeyIn(txs, CategoryOf, [ExpenseCategoryIds[i]]), Expense)))
  }

  /**
   * Row i of the breakdown holds the expense total of exactly the
   * transactions of category i: `exp` is any list of them, in any order.
   */
  lemma {:induction false} BreakdownRowIsCategorySum(txs: seq<Transaction>, i: nat, exp: seq<Transaction>)
    requires i < |ExpenseCategoryIds|
    requires forall t :: multiset(exp)[t] == if t.category == ExpenseCategoryIds[i] then multiset(txs)[t] else 0
    ensures ExpenseBreakdown(txs)[i].total == SumOfType(exp, Expense)
  {
    var c := ExpenseCategoryIds[i];
    var kept := WithKeyIn(txs, CategoryOf, [c]);
    WithKeyInCounts(txs, CategoryOf, [c]);
    assert forall t :: multiset(kept)[t] == multiset(exp)[t];
    assert multiset(kept) == multiset(exp);
    SumOfTypePermutation(kept, exp, Expense);
  }

  function SumCategoryRows(rows: seq<CategoryTotal>): int {
    if rows == [] then 0 else SumCategoryRows(rows[..|rows| - 1]) + rows[|rows| - 1].total
  }

  /**
   * With non-negative amounts the category totals add up to at most the
   * total expenses, and exactly to them when every expense has a listed category.
   */
  lemma {:induction false} BreakdownWithinTotal(txs: seq<Transaction>)
    requires NonNegativeAmounts(txs)
    ensures SumCategoryRows(ExpenseBreakdown(txs)) <= SumOfType(txs, Expense)
    ensures (forall i :: 0 <= i < |txs| && txs[i].txType == Expense ==> txs[i].category in ExpenseCategoryIds) ==>
      SumCategoryRows(ExpenseBreakdown(txs)) == SumOfType(txs, Expense)
  {
    var cs := ExpenseCategoryIds;
    assert DistinctKeys(cs);
    CategoryRowsMatchPerKey(txs, |cs|);
    assert cs[..|cs|] == cs;
    assert ExpenseBreakdown(txs)[..|cs|] == ExpenseBreakdown(txs);
    SumPerKeyDistinct(txs, CategoryOf, cs, Expense);
    WithKeyInBounded(txs, CategoryOf, cs, Expense);
  }

  lemma {:induction false} CategoryRowsMatchPerKey(txs: seq<Transaction>, n: nat)
    requires n <= |ExpenseCategoryIds|
    ensures SumCategoryRows(ExpenseBreakdown(txs)[..n]) == SumPerKey(txs, CategoryOf, ExpenseCategoryIds[..n], Expense)
  {
    if n > 0 {
      var rows := ExpenseBreakdown(txs);
      CategoryRowsMatchPerKey(txs, n - 1);
      assert rows[..n][..n - 1] == rows[..n - 1];
      assert ExpenseCategoryIds[..n][..n - 1] == ExpenseCategoryIds[..n - 1];
    }
  }

  // ---------------------------------------------------------------------
  // Deletion
  // ---------------------------------------------------------------------

  /** `transactions.filter(t => t.id !== id)`. */
  function RemoveTransaction(txs: seq<Transaction>, id: string): (r: seq<Transaction>)
    ensures forall t :: multiset(r)[t] == if t.id == id then 0 else multiset(txs)[t]
  {
    if txs == [] then []
    else
      assert txs == [txs[0]] + txs[1..];
      (if txs[0].id == id then [] else [txs[0]]) + RemoveTransaction(txs[1..], id)
  }

  /** The transactions carrying `id`. */
  function WithId(txs: seq<Transaction>, id: string): seq<Transaction> {
    if txs == [] then [] else (if txs[0].id == id then [txs[0]] else []) + WithId(txs[1..], id)
  }

  /** A delete lowers each total by exactly the amounts of the removed transactions. */
  lemma {:induction false} RemoveTransactionSum(txs: seq<Transaction>, id: string, ty: TxType)
    ensures SumOfType(txs, ty) == SumOfType(RemoveTransaction(txs, id), ty) + SumOfType(WithId(txs, id), ty)
  {
    if txs != [] {
      var t := txs[0];
      var kept := RemoveTransaction(txs[1..], id);
      var gone := WithId(txs[1..], id);
      RemoveTransactionSum(txs[1..], id, ty);
      if t.id == id {
        assert RemoveTransaction(txs, id) == kept;
        assert WithId(txs, id) == [t] + gone;
        SumOfTypeCons(t, gone, ty);
      } else {
        assert RemoveTransaction(txs, id) == [t] + kept;
        assert WithId(txs, id) == gone;
        SumOfTypeCons(t, kept, ty);
      }
    }
  }

  lemma SumOfTypeCons(t: Transaction, txs: seq<Transaction>, ty: TxType)
    ensures SumOfType([t] + txs, ty) == (if t.txType == ty then t.amountCents else 0) + SumOfType(txs, ty)
  {
    assert ([t] + txs)[1..] == txs;
  }

  // =====================================================================
  // Page state
  // =====================================================================

  /** One change to one form field, as its input's handler makes it. */
  datatype FormEdit =
    | EditAmount(value: string)
    | EditDate(value: string)
    | EditPaymentMethod(value: string)
    | EditType(txType: TxType)
    | EditDescription(value: string)
    | EditReferenceId(value: string)
    | EditNotes(value: string)
    | EditCategory(value: string)

  class FinancialPage {
    var transactions: seq<Transaction>
    var form: TransactionForm
    var errors: FormErrors
    var deleteTransactionId: Option<string>
    var showDeleteDialog: bool

    /** The amount field only ever holds text the pattern accepts. */
    ghost predicate Valid()
      reads this
    {
      AmountPattern(form.amount)
    }

    constructor (today: string)
      ensures Valid()
      ensures transactions == [] && form == DefaultForm(today) && errors == NoFormErrors
      ensures deleteTransactionId == None && !showDeleteDialog
    {
      transactions := [];
      form := DefaultForm(today);
      errors := NoFormErrors;
      deleteTransactionId := None;
      showDeleteDialog := false;
    }

    /** `loadTransactions`: `None` stands for a `getTransactions` that threw, which keeps the list. */
    method LoadTransactions(loaded: Option<seq<Transaction>>)
      modifies this`transactions
      ensures transactions == if loaded.Some? then loaded.value else old(transactions)
    {
      if loaded.Some? {
        transactions := loaded.value;
      }
    }

    /** The input handlers; an amount the pattern refuses is dropped and the field keeps its text. */
    method Edit(edit: FormEdit)
      requires Valid()
      modifies this`form
      ensures Valid()
      ensures match edit
        case EditAmount(v) => form == if AmountPattern(v) then old(form).(amount := v) else old(form)
        case EditDate(v) => form == old(form).(date := v)
        case EditPaymentMethod(v) => form == old(form).(paymentMethod := v)
        case EditType(ty) => form == old(form).(txType := ty)
        case EditDescription(v) => form == old(form).(description := v)
        case EditReferenceId(v) => form == old(form).(referenceId := v)
        case EditNotes(v) => form == old(form).(notes := v)
        case EditCategory(v) => form == old(form).(category := v)
    {
      match edit {
        case EditAmount(v) =>
          if v == "" || AmountPattern(v) {
            form := form.(amount := v);
          }
        case EditDate(v) => form := form.(date := v);
        case EditPaymentMethod(v) => form := form.(paymentMethod := v);
        case EditType(ty) => form := form.(txType := ty);
        case EditDescription(v) => form := form.(description := v);
        case EditReferenceId(v) => form := form.(referenceId := v);
        case EditNotes(v) => form := form.(notes := v);
        case EditCategory(v) => form := form.(category := v);
      }
    }

    /** `validateTransaction`: records one error per failing field and reports whether there were none. */
    method ValidateTransaction() returns (ok: bool)
      requires Valid()
      modifies this`errors
      ensures errors == ErrorsFor(form)
      ensures ok <==> AcceptableForm(form)
    {
      var e := NoFormErrors;
      var cents := ParseAmountCents(form.amount);
      if cents.None? || cents.value <= 0 {
        e := e.(amount := Some(InvalidAmount));
      } else if cents.value > MaxAmountCents {
        e := e.(amount := Some(AmountOverLimit));
      }
      if form.paymentMethod == "" {
        e := e.(paymentMethodMissing := true);
      }
      if Text.Trim(form.description) == "" {
        e := e.(description := Some(MissingDescription));
      } else if |form.description| > 500 {
        e := e.(description := Some(DescriptionTooLong));
      }
      if form.referenceId != "" && |form.referenceId| > 100 {
        e := e.(referenceIdTooLong := true);
      }
      errors := e;
      NoErrorsIff(form);
      ok := e == NoFormErrors;
    }

    /**
     * `handleAddTransaction`: an invalid form only records its errors; a
     * valid one is appended with id `newId` unless `createTransaction`
     * threw, and on success the form resets for `today`.
     */
    method HandleAddTransaction(newId: string, today: string, createThrew: bool) returns (added: bool)
      requires Valid()
      modifies this`transactions, this`form, this`errors
      ensures Valid()
      ensures added <==> AcceptableForm(old(form)) && !createThrew
      ensures added ==>
        transactions == old(transactions) + [TransactionFrom(old(form), newId)] &&
        form == DefaultForm(today) && errors == NoFormErrors
      ensures !added ==>
        transactions == old(transactions) && form == old(form) && errors == ErrorsFor(old(form))
    {
      var ok := ValidateTransaction();
      added := ok && !createThrew;
      if added {
        var t := TransactionFrom(form, newId);
        transactions := transactions + [t];
        form := DefaultForm(today);
        errors := NoFormErrors;
      }
    }

    /** The trash button: remembers the id and opens the confirmation. */
    method RequestDelete(id: string)
      modifies this`deleteTransactionId, this`showDeleteDialog
      ensures deleteTransactionId == Some(id) && showDeleteDialog
    {
      deleteTransactionId := Some(id);
      showDeleteDialog := true;
    }

    /** `handleDeleteTransaction`: the list loses the id only when `deleteTransaction` did not throw; the dialog closes either way. */
    method HandleDeleteTransaction(id: string, threw: bool)
      modifies this`transactions, this`deleteTransactionId, this`showDeleteDialog
      ensures transactions == if threw then old(transactions) else RemoveTransaction(old(transactions), id)
      ensures !showDeleteDialog && deleteTransactionId == None
    {
      if !threw {
        transactions := RemoveTransaction(transactions, id);
      }
      showDeleteDialog := false;
      deleteTransactionId := None;
    }

    /** The confirm button: `deleteTransactionId && handleDeleteTransaction(...)`; a missing or empty id does nothing. */
    method ConfirmDelete(threw: bool) returns (called: bool)
      modifies this`transactions, this`deleteTransactionId, this`showDeleteDialog
      ensures called == (old(deleteTransactionId).Some? && old(deleteTransactionId).value != "")
      ensures called ==>
        transactions == (if threw then old(transactions) else RemoveTransaction(old(transactions), old(deleteTransactionId).value)) &&
        !showDeleteDialog && deleteTransactionId == None
      ensures !called ==>
        transactions == old(transactions) && showDeleteDialog == old(showDeleteDialog) &&
        deleteTransactionId == old(deleteTransactionId)
    {
      if deleteTransactionId.None? || deleteTransactionId.value == "" {
        return false;
      }
      called := true;
      HandleDeleteTransaction(deleteTransactionId.value, threw);
    }
  }
}
