/**
 * The bulk-import endpoint: an administrator uploads a CSV of customer
 * emails with a plan, a duration and a start date, and every row with an
 * email becomes a Successful submission ending `durationMonths` after the
 * start date.
 *
 * The signed-in user, the multipart form, the CSV parse, the parsed start
 * date and each `addSubmission` outcome are parameters.
 */
module ImportCustomers {
  import opened Common
  import opened Submissions
  import Calendar

  // =====================================================================
  // Inputs
  // =====================================================================

  /** The user record; an absent `name` is the empty string. */
  datatype User = User(id: string, name: string, email: string, role: string)

  /** What `getCurrentUser` produced: a throw, no session, or a user. */
  datatype CurrentUser = LookupThrew | SignedOut | SignedIn(user: User)

  /**
   * The multipart fields. A missing text field is the empty string; a missing
   * file is `None`. `durationMonths` is `parseInt` of its field, `None` for NaN.
   */
  datatype ImportForm = ImportForm(
    csvFile: Option<string>,
    requestedPlanId: string,
    durationMonths: Option<int>,
    subscriptionStartDate: string)

  /** One parsed CSV row; an absent or empty `email` column is the empty string. */
  datatype CsvRecord = CsvRecord(email: string, columns: map<string, string>)

  /**
   * `new Date(subscriptionStartDate)`: an invalid date, or a local civil date
   * with the time of day in milliseconds.
   */
  datatype Instant = InvalidInstant | LocalInstant(date: Calendar.Date, timeOfDayMs: int)

  /** What one `addSubmission` call produced: a record, null, or a throw with its message. */
  datatype AddOutcome = AddedRecord(submissionId: string) | AddedNull | AddThrew(message: string)

  // =====================================================================
  // Outputs
  // =====================================================================

  /** The object handed to `addSubmission`. */
  datatype SubmissionData = SubmissionData(
    customerEmail: string,
    requestedPlanId: string,
    durationMonths: int,
    status: Status,
    requestDate: string,
    startDate: string,
    endDate: Instant,
    resellerId: string,
    resellerName: string)

  datatype ImportError = MissingEmail(record: CsvRecord) | ImportFailed(email: string, message: string)

  /** The JSON response; `errors` is omitted (`None`) when there are none. */
  datatype Response =
    | Unauthorized
    | MissingFields
    | ServerError
    | Imported(importedCount: nat, errorCount: nat, errors: Option<seq<ImportError>>)

  /** The message `toISOString` throws for an invalid date. */
  const InvalidTimeValue: string := "Invalid time value"

  // =====================================================================
  // Gating and the shared end date
  // =====================================================================

  /** Only a signed-in administrator gets past the first check. */
  predicate Authorized(u: CurrentUser) {
    u.SignedIn? && u.user.role == "admin"
  }

  /** Every required field is present and truthy; a duration that parses to 0 or NaN counts as missing. */
  predicate HasRequiredFields(f: ImportForm) {
    && f.csvFile.Some?
    && f.requestedPlanId != ""
    && f.durationMonths.Some? && f.durationMonths.value != 0
    && f.subscriptionStartDate != ""
  }

  /** The largest magnitude of a time value in milliseconds; `TimeClip` turns anything beyond it into an invalid date. */
  const MaxTimeMs: int := 8_640_000_000_000_000

  /** The time value of a civil date and time of day (local time taken as UTC) lies in the range `TimeClip` keeps. */
  predicate InTimeRange(d: Calendar.Date, timeOfDayMs: int)
    requires Calendar.ValidDate(d)
  {
    -MaxTimeMs <= Calendar.DaysFromEpoch(d) * DayMs + timeOfDayMs <= MaxTimeMs
  }

  /**
   * `setMonth(getMonth() + months)` on a copy of the start: an invalid date
   * stays invalid; otherwise the month moves as `AddMonths` says, the time of
   * day is kept, and a result beyond the time-value range is an invalid date.
   */
  function EndInstant(start: Instant, months: int): (e: Instant)
    requires start.LocalInstant? ==> Calendar.ValidDate(start.date)
    ensures start.InvalidInstant? ==> e.InvalidInstant?
    ensures start.LocalInstant? ==>
      (e.LocalInstant? <==> InTimeRange(Calendar.AddMonths(start.date, months), start.timeOfDayMs))
    ensures e.LocalInstant? ==> e.date == Calendar.AddMonths(start.date, months) && e.timeOfDayMs == start.timeOfDayMs
    ensures e.LocalInstant? ==> Calendar.ValidDate(e.date) && InTimeRange(e.date, e.timeOfDayMs)
  {
    match start
    case InvalidInstant => InvalidInstant
    case LocalInstant(d, t) =>
      var end := Calendar.AddMonths(d, months);
      if InTimeRange(end, t) then LocalInstant(end, t) else InvalidInstant
  }

  /** A year's subscription from 2024-01-01 ends on 2025-01-01 at the same time of day. */
  lemma YearFromNewYear()
    ensures EndInstant(LocalInstant(Calendar.Date(2024, 0, 1), 0), 12) == LocalInstant(Calendar.Date(2025, 0, 1), 0)
  {
  }

  /** Four million months after 2024-01-01 is past the last representable instant, so the end date is invalid. */
  lemma FarEndIsInvalid()
    ensures EndInstant(LocalInstant(Calendar.Date(2024, 0, 1), 0), 4_000_000) == InvalidInstant
  {
    assert Calendar.AddMonths(Calendar.Date(2024, 0, 1), 4_000_000) == Calendar.Date(335357, 4, 1);
  }

  /** What the loop needs besides the records: the user, the form values and the end date. */
  datatype ImportContext = ImportContext(user: User, planId: string, months: int, startText: string, end: Instant)

  /** The submission built for one email. */
  function DataFor(email: string, ctx: ImportContext): SubmissionData {
    SubmissionData(email, ctx.planId, ctx.months, Successful, ctx.startText, ctx.startText, ctx.end,
      ctx.user.id, if ctx.user.name != "" then ctx.user.name else ctx.user.email)
  }

  // =====================================================================
  // The per-record loop as a function of the records seen so far
  // =====================================================================

  datatype Tally = Tally(imported: nat, errors: seq<ImportError>, calls: seq<SubmissionData>)

  /** A record the loop will hand to `addSubmission`. */
  predicate Submits(r: CsvRecord, ctx: ImportContext) {
    r.email != "" && ctx.end.LocalInstant?
  }

  function CountSubmitting(records: seq<CsvRecord>, ctx: ImportContext): (n: nat)
    ensures n <= |records|
  {
    if records == [] then 0
    else CountSubmitting(records[..|records| - 1], ctx) + (if Submits(records[|records| - 1], ctx) then 1 else 0)
  }

  /** The emails handed to `addSubmission`, in record order: those of the submitting records. */
  function EmailsToSubmit(records: seq<CsvRecord>, ctx: ImportContext): (es: seq<string>)
    ensures |es| == CountSubmitting(records, ctx)
    ensures forall k :: 0 <= k < |es| ==> es[k] != ""
  {
    if records == [] then []
    else
      var last := records[|records| - 1];
      EmailsToSubmit(records[..|records| - 1], ctx) + (if Submits(last, ctx) then [last.email] else [])
  }

  /** The number of submitting records whose call returns a record. */
  function CountImported(records: seq<CsvRecord>, outcomes: seq<AddOutcome>, ctx: ImportContext): (n: nat)
    requires |outcomes| == |records|
    ensures n <= CountSubmitting(records, ctx)
  {
    if records == [] then 0
    else
      var i := |records| - 1;
      CountImported(records[..i], outcomes[..i], ctx) + (if Submits(records[i], ctx) && outcomes[i].AddedRecord? then 1 else 0)
  }

  /** The number of submitting records whose call resolves to null. */
  function CountNull(records: seq<CsvRecord>, outcomes: seq<AddOutcome>, ctx: ImportContext): (n: nat)
    requires |outcomes| == |records|
    ensures n <= CountSubmitting(records, ctx)
  {
    if records == [] then 0
    else
      var i := |records| - 1;
      CountNull(records[..i], outcomes[..i], ctx) + (if Submits(records[i], ctx) && outcomes[i].AddedNull? then 1 else 0)
  }

  /** The effect of one record: an error without an email or with an invalid end date, else one call whose outcome decides. */
  function Step(t: Tally, r: CsvRecord, outcome: AddOutcome, ctx: ImportContext): (next: Tally)
    ensures t.calls <= next.calls && |next.calls| <= |t.calls| + 1
    ensures t.errors <= next.errors && |next.errors| <= |t.errors| + 1
    ensures next.imported == t.imported || next.imported == t.imported + 1
    ensures next.imported > t.imported ==> |next.calls| > |t.calls| && next.errors == t.errors
    ensures |next.calls| == |t.calls| ==> |next.errors| == |t.errors| + 1
  {
    if r.email == "" then t.(errors := t.errors + [MissingEmail(r)])
    else if ctx.end.InvalidInstant? then t.(errors := t.errors + [ImportFailed(r.email, InvalidTimeValue)])
    else
      var t1 := t.(calls := t.calls + [DataFor(r.email, ctx)]);
      match outcome
      case AddedRecord(_) => t1.(imported := t1.imported + 1)
      case AddedNull => t1
      case AddThrew(msg) => t1.(errors := t1.errors + [ImportFailed(r.email, msg)])
  }

  /**
   * The tally after the records, in order. The k-th call is for the k-th
   * submitting record's email and carries the shared plan, duration, dates
   * and reseller. A record is imported when its call returns a record, is
   * in neither count when the call resolves to null, and is one error
   * otherwise (no email, an invalid end date, or a throw).
   */
  function Run(records: seq<CsvRecord>, outcomes: seq<AddOutcome>, ctx: ImportContext): (t: Tally)
    requires |outcomes| == |records|
    ensures t.imported == CountImported(records, outcomes, ctx)
    ensures t.imported + |t.errors| + CountNull(records, outcomes, ctx) == |records|
    ensures |t.calls| == CountSubmitting(records, ctx) == |EmailsToSubmit(records, ctx)|
    ensures forall k :: 0 <= k < |t.calls| ==> t.calls[k].customerEmail == EmailsToSubmit(records, ctx)[k]
    ensures forall c :: c in t.calls ==>
      c.status == Successful && c.requestDate == ctx.startText && c.startDate == ctx.startText &&
      c.endDate == ctx.end && c.resellerId == ctx.user.id &&
      c.resellerName == (if ctx.user.name != "" then ctx.user.name else ctx.user.email) &&
      c.requestedPlanId == ctx.planId && c.durationMonths == ctx.months
  {
    if records == [] then Tally(0, [], [])
    else
      var n := |records| - 1;
      var prev := Run(records[..n], outcomes[..n], ctx);
      var t := Step(prev, records[n], outcomes[n], ctx);
      assert forall k :: 0 <= k < |prev.calls| ==> t.calls[k] == prev.calls[k];
      t
  }

  /** Without a valid end date nothing is submitted and every row is an error. */
  lemma {:induction false} InvalidStartFailsEveryRow(records: seq<CsvRecord>, outcomes: seq<AddOutcome>, ctx: ImportContext)
    requires |outcomes| == |records| && ctx.end.InvalidInstant?
    ensures Run(records, outcomes, ctx) == Tally(0, Run(records, outcomes, ctx).errors, [])
    ensures |Run(records, outcomes, ctx).errors| == |records|
  {
    if records != [] {
      var n := |records| - 1;
      InvalidStartFailsEveryRow(records[..n], outcomes[..n], ctx);
    }
  }

  /**
   * With a start of 2024-01-01 and a duration of four million months, the end
   * date is invalid: no record is submitted and every record is an error.
   */
  lemma {:induction false} FarEndFailsEveryRow(records: seq<CsvRecord>, outcomes: seq<AddOutcome>, ctx: ImportContext)
    requires |outcomes| == |records|
    requires ctx.end == EndInstant(LocalInstant(Calendar.Date(2024, 0, 1), 0), 4_000_000)
    ensures Run(records, outcomes, ctx).calls == [] && Run(records, outcomes, ctx).imported == 0
    ensures |Run(records, outcomes, ctx).errors| == |records|
  {
    FarEndIsInvalid();
    InvalidStartFailsEveryRow(records, outcomes, ctx);
  }

  /** A row without an email adds one error, makes no call and leaves the imports as they were. */
  lemma MissingEmailSkipsRow(t: Tally, r: CsvRecord, outcome: AddOutcome, ctx: ImportContext)
    requires r.email == ""
    ensures Step(t, r, outcome, ctx) == Tally(t.imported, t.errors + [MissingEmail(r)], t.calls)
  {
  }

  /** When every call returns a record and every row has an email, everything is imported and nothing fails. */
  lemma {:induction false} AllSucceed(records: seq<CsvRecord>, outcomes: seq<AddOutcome>, ctx: ImportContext)
    requires |outcomes| == |records| && ctx.end.LocalInstant?
    requires forall i :: 0 <= i < |records| ==> records[i].email != "" && outcomes[i].AddedRecord?
    ensures Run(records, outcomes, ctx).imported == |records| && Run(records, outcomes, ctx).errors == []
  {
    if records != [] {
      var n := |records| - 1;
      AllSucceed(records[..n], outcomes[..n], ctx);
    }
  }

  // =====================================================================
  // The route
  // =====================================================================

  /**
   * `POST`: 401 unless an administrator is signed in (nothing else is read),
   * 400 when a required field is missing, 500 when the user lookup, the form
   * read or the CSV parse throws, and otherwise the import counts. `form` is
   * `None` when reading the form threw; `records` is `None` when reading or
   * parsing the file threw; `outcomes[i]` is what `addSubmission` gives for
   * the i-th row when it is called. `calls` lists the objects handed to
   * `addSubmission`, in order.
   */
  method Post(currentUser: CurrentUser, form: Option<ImportForm>, records: Option<seq<CsvRecord>>,
              start: Instant, outcomes: seq<AddOutcome>)
    returns (response: Response, calls: seq<SubmissionData>)
    requires start.LocalInstant? ==> Calendar.ValidDate(start.date)
    requires records.Some? ==> |outcomes| == |records.value|
    ensures currentUser.LookupThrew? ==> response == ServerError && calls == []
    ensures !currentUser.LookupThrew? && !Authorized(currentUser) ==> response == Unauthorized && calls == []
    ensures Authorized(currentUser) && form.None? ==> response == ServerError && calls == []
    ensures Authorized(currentUser) && form.Some? && !HasRequiredFields(form.value) ==>
      response == MissingFields && calls == []
    ensures Authorized(currentUser) && form.Some? && HasRequiredFields(form.value) && records.None? ==>
      response == ServerError && calls == []
    ensures Authorized(currentUser) && form.Some? && HasRequiredFields(form.value) && records.Some? ==>
      var ctx := ImportContext(currentUser.user, form.value.requestedPlanId, form.value.durationMonths.value,
        form.value.subscriptionStartDate, EndInstant(start, form.value.durationMonths.value));
      var t := Run(records.value, outcomes, ctx);
      calls == t.calls &&
      response == Imported(t.imported, |t.errors|, if |t.errors| > 0 then Some(t.errors) else None)
    ensures response.Imported? ==> response.importedCount + response.errorCount <= |records.value|
    ensures response.Imported? ==> (response.errors.None? <==> response.errorCount == 0)
  {
    calls := [];
    if currentUser.LookupThrew? {
      return ServerError, calls;
    }
    if !Authorized(currentUser) {
      return Unauthorized, calls;
    }
    var user := currentUser.user;
    if form.None? {
      return ServerError, calls;
    }
    var f := form.value;
    if f.csvFile.None? || f.requestedPlanId == "" || f.durationMonths.None? || f.durationMonths.value == 0
      || f.subscriptionStartDate == "" {
      return MissingFields, calls;
    }
    if records.None? {
      return ServerError, calls;
    }
    var rows := records.value;
    var months := f.durationMonths.value;

    var end := EndInstant(start, months);
    var ctx := ImportContext(user, f.requestedPlanId, months, f.subscriptionStartDate, end);

    var importedCount, errors;
    importedCount, errors, calls := ImportRows(rows, outcomes, ctx);
    response := Imported(importedCount, |errors|, if |errors| > 0 then Some(errors) else None);
  }

  /** One more record extends the run by one step. */
  lemma RunStep(rows: seq<CsvRecord>, outcomes: seq<AddOutcome>, ctx: ImportContext, i: nat)
    requires |outcomes| == |rows| && i < |rows|
    ensures Run(rows[..i + 1], outcomes[..i + 1], ctx) == Step(Run(rows[..i], outcomes[..i], ctx), rows[i], outcomes[i], ctx)
  {
    assert rows[..i + 1][..i] == rows[..i] && outcomes[..i + 1][..i] == outcomes[..i];
  }

  /** The `for` loop over the records: one `addSubmission` call per submitting record, in order. */
  method ImportRows(rows: seq<CsvRecord>, outcomes: seq<AddOutcome>, ctx: ImportContext)
    returns (importedCount: nat, errors: seq<ImportError>, calls: seq<SubmissionData>)
    requires |outcomes| == |rows|
    ensures Tally(importedCount, errors, calls) == Run(rows, outcomes, ctx)
  {
    importedCount, errors, calls := 0, [], [];
    var i := 0;
    while i < |rows|
      invariant 0 <= i <= |rows|
      invariant Tally(importedCount, errors, calls) == Run(rows[..i], outcomes[..i], ctx)
    {
      var record := rows[i];
      RunStep(rows, outcomes, ctx, i);
      ghost var next := Step(Tally(importedCount, errors, calls), record, outcomes[i], ctx);
      if record.email == "" {
        errors := errors + [MissingEmail(record)];
      } else if ctx.end.InvalidInstant? {
        errors := errors + [ImportFailed(record.email, InvalidTimeValue)];
      } else {
        calls := calls + [DataFor(record.email, ctx)];
        match outcomes[i] {
          case AddedRecord(_) => importedCount := importedCount + 1;
          case AddedNull =>
          case AddThrew(msg) => errors := errors + [ImportFailed(record.email, msg)];
        }
      }
      assert Tally(importedCount, errors, calls) == next;
      i := i + 1;
    }
    assert rows[..i] == rows && outcomes[..i] == outcomes;
  }
}
