/**
 * The submission record shared by the admin dashboard, the expired-accounts
 * view and the CSV import, and the time arithmetic they apply to it.
 * Instants are integer milliseconds since the epoch.
 */
module Submissions {
  import opened Common

  datatype Status = Pending | Successful | Canceled

  /**
   * The `endDate` field: absent (or empty), the literal sentinel 'unlimited'
   * (which JavaScript parses to an invalid date, so every comparison on it
   * is false), or an instant.
   */
  datatype EndDate = NoEndDate | Unlimited | At(instant: int)

  /**
   * A subscription request. `storageId` is the document `_id` the store may
   * attach beside the string `id`; `updatedAt` is the instant of the last change.
   */
  datatype Submission = Submission(
    id: string,
    storageId: Option<string>,
    customerEmail: string,
    resellerId: string,
    resellerName: string,
    profileName: Option<string>,
    requestedPlanId: string,
    durationMonths: int,
    status: Status,
    requestDate: int,
    endDate: EndDate,
    updatedAt: int)

  /** Milliseconds in a day and in an hour. */
  const DayMs: int := 86_400_000
  const HourMs: int := 3_600_000

  /** `Math.trunc(ms / DayMs)`: a duration in whole days, rounded toward zero. */
  function WholeDays(ms: int): (q: int)
    ensures ms >= 0 ==> 0 <= q * DayMs <= ms < q * DayMs + DayMs
    ensures ms < 0 ==> q * DayMs - DayMs < ms <= q * DayMs <= 0
  {
    if ms >= 0 then ms / DayMs else -((-ms) / DayMs)
  }

  /** Whole days are monotone in the duration. */
  lemma {:induction false} WholeDaysMonotone(a: int, b: int)
    requires a <= b
    ensures WholeDays(a) <= WholeDays(b)
  {
  }

  /** date-fns `differenceInDays(later, earlier)`: whole days between the instants, truncated toward zero. */
  function DifferenceInDays(later: int, earlier: int): (d: int)
    ensures later >= earlier ==> d >= 0 && d * DayMs <= later - earlier < d * DayMs + DayMs
    ensures later < earlier ==> d <= 0 && d * DayMs - DayMs < later - earlier <= d * DayMs
  {
    WholeDays(later - earlier)
  }

  /** The whole-day difference is negative exactly when `later` lies at least one full day before `earlier`. */
  lemma {:induction false} DifferenceInDaysNegativeIff(later: int, earlier: int)
    ensures DifferenceInDays(later, earlier) < 0 <==> later - earlier <= -DayMs
  {
    var q := DifferenceInDays(later, earlier);
    if later - earlier <= -DayMs {
      assert q * DayMs - DayMs < later - earlier;
    }
  }

  /** The whole-day difference is at most `k` (for `k >= 0`) exactly when the gap is under `k + 1` days. */
  lemma {:induction false} DifferenceInDaysAtMostIff(later: int, earlier: int, k: nat)
    ensures DifferenceInDays(later, earlier) <= k <==> later - earlier < (k + 1) * DayMs
  {
    var q := DifferenceInDays(later, earlier);
    if q <= k {
      assert q * DayMs <= k * DayMs;
    } else {
      assert q >= k + 1;
      assert q * DayMs >= (k + 1) * DayMs;
    }
  }

  /**
   * The renewal-months input: `parseInt(value) || 1`. A parse that fails
   * (`None`, JavaScript's NaN) or gives 0 falls back to 1; any other number,
   * negative ones included, is taken as is.
   */
  function RenewalMonthsFromInput(parsed: Option<int>): (months: int)
    ensures months != 0
    ensures parsed.Some? && parsed.value != 0 ==> months == parsed.value
    ensures parsed == None || parsed == Some(0) ==> months == 1
  {
    match parsed
    case Some(v) => if v != 0 then v else 1
    case None => 1
  }

  /** What `updateSubmissionStatus(id, 'Successful', months)` produced for a renewal: a record, null, or a thrown error. */
  datatype RenewReply = Renewed(submission: Submission) | NotRenewed | RenewThrew

  /** The arguments of one `updateSubmissionStatus` call made by a renewal dialog. */
  datatype RenewCall = RenewCall(id: string, status: Status, months: int)

  /** `Math.min(100, Math.max(0, x))` (equivalently `Math.max(0, Math.min(100, x))`) for a number that is not NaN. */
  function ClampPercent(x: real): (r: real)
    ensures 0.0 <= r <= 100.0
    ensures 0.0 <= x <= 100.0 ==> r == x
    ensures x < 0.0 ==> r == 0.0
    ensures x > 100.0 ==> r == 100.0
  {
    if x < 0.0 then 0.0 else if x > 100.0 then 100.0 else x
  }

  /** Clamping keeps order. */
  lemma ClampPercentMonotone(x: real, y: real)
    requires x <= y
    ensures ClampPercent(x) <= ClampPercent(y)
  {
  }
}
