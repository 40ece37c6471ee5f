/**
 * The expired-accounts screen: the expired and expiring-soon counters, the
 * status badge, the 30-day progress bar, the three tabs and the renewal
 * dialog. Unlike the submission table it measures time in fractional days.
 * The instant at which a handler or a render reads the clock is a parameter.
 */
module ExpiredAccounts {
  import opened Common
  import opened Submissions

  // =====================================================================
  // Fractional days and the two buckets
  // =====================================================================

  /** `(endDate.getTime() - now.getTime()) / (1000 * 60 * 60 * 24)`, a fractional number of days. */
  function DaysLeft(end: int, now: int): (d: real)
    ensures d < 0.0 <==> end < now
    ensures d == 0.0 <==> end == now
    ensures d <= 7.0 <==> end - now <= 7 * DayMs
    ensures d >= 30.0 <==> end - now >= 30 * DayMs
  {
    (end - now) as real / DayMs as real
  }

  /** The expired counter and tab: an end date strictly before now. The 'unlimited' sentinel compares false. */
  function CountsAsExpired(endDate: EndDate, now: int): (expired: bool)
    ensures expired <==> endDate.At? && DaysLeft(endDate.instant, now) < 0.0
  {
    endDate.At? && endDate.instant < now
  }

  /** The expiring-soon counter and tab: `0 < daysLeft <= 7`. NaN for 'unlimited' fails both comparisons. */
  function CountsAsExpiringSoon(endDate: EndDate, now: int): (soon: bool)
    ensures soon <==> endDate.At? && now < endDate.instant && endDate.instant - now <= 7 * DayMs
  {
    endDate.At? && DaysLeft(endDate.instant, now) > 0.0 && DaysLeft(endDate.instant, now) <= 7.0
  }

  /** An account is never in both buckets. */
  lemma BucketsDisjoint(endDate: EndDate, now: int)
    ensures !(CountsAsExpired(endDate, now) && CountsAsExpiringSoon(endDate, now))
  {
  }

  /** `accounts.filter(...)` with the expired predicate: the Expired tab, and the list the counter measures. */
  function ExpiredOf(accounts: seq<Submission>, now: int): (r: seq<Submission>)
    ensures |r| <= |accounts|
    ensures forall s :: multiset(r)[s] == if CountsAsExpired(s.endDate, now) then multiset(accounts)[s] else 0
  {
    if accounts == [] then []
    else
      assert accounts == [accounts[0]] + accounts[1..];
      (if CountsAsExpired(accounts[0].endDate, now) then [accounts[0]] else []) + ExpiredOf(accounts[1..], now)
  }

  /** `accounts.filter(...)` with the expiring-soon predicate: the Expiring Soon tab and its counter's list. */
  function ExpiringSoonOf(accounts: seq<Submission>, now: int): (r: seq<Submission>)
    ensures |r| <= |accounts|
    ensures forall s :: multiset(r)[s] == if CountsAsExpiringSoon(s.endDate, now) then multiset(accounts)[s] else 0
  {
    if accounts == [] then []
    else
      assert accounts == [accounts[0]] + accounts[1..];
      (if CountsAsExpiringSoon(accounts[0].endDate, now) then [accounts[0]] else []) + ExpiringSoonOf(accounts[1..], now)
  }

  /** Because the buckets are disjoint, the two counters together never exceed the number of accounts. */
  lemma {:induction false} CountersBounded(accounts: seq<Submission>, now: int)
    ensures |ExpiredOf(accounts, now)| + |ExpiringSoonOf(accounts, now)| <= |accounts|
  {
    if accounts != [] {
      CountersBounded(accounts[1..], now);
      BucketsDisjoint(accounts[0].endDate, now);
    }
  }

  /** The Expired tab only grows as time passes: a render after the fetch lists at least as many rows as the counter. */
  lemma {:induction false} ExpiredTabGrowsOverTime(accounts: seq<Submission>, now1: int, now2: int)
    requires now1 <= now2
    ensures |ExpiredOf(accounts, now1)| <= |ExpiredOf(accounts, now2)|
  {
    if accounts != [] {
      ExpiredTabGrowsOverTime(accounts[1..], now1, now2);
    }
  }

  /** 'unlimited' and missing end dates fall in neither bucket at any instant. */
  lemma NoDateInNoBucket(endDate: EndDate, now: int)
    requires !endDate.At?
    ensures !CountsAsExpired(endDate, now) && !CountsAsExpiringSoon(endDate, now)
  {
  }

  // =====================================================================
  // Badge
  // =====================================================================

  datatype Badge = NoBadge | ExpiredBadge | ExpiringSoonBadge | ActiveBadge

  /**
   * `getStatusBadge`: none without an end date; Expired below 0 days,
   * Expiring Soon up to 7 days, Active otherwise. The 'unlimited' sentinel
   * gives NaN days, which fails both tests and lands on Active.
   */
  function StatusBadge(endDate: EndDate, now: int): (b: Badge)
    ensures b == NoBadge <==> endDate.NoEndDate?
    ensures b == ExpiredBadge <==> endDate.At? && endDate.instant < now
    ensures b == ExpiringSoonBadge <==> endDate.At? && now <= endDate.instant <= now + 7 * DayMs
    ensures b == ActiveBadge <==> endDate.Unlimited? || (endDate.At? && endDate.instant > now + 7 * DayMs)
  {
    match endDate
    case NoEndDate => NoBadge
    case Unlimited => ActiveBadge
    case At(end) =>
      var daysLeft := DaysLeft(end, now);
      if daysLeft < 0.0 then ExpiredBadge
      else if daysLeft <= 7.0 then ExpiringSoonBadge
      else ActiveBadge
  }

  /** The badge agrees with the buckets except at the exact end instant, which only the badge calls expiring soon. */
  lemma BadgeAgreesWithBuckets(endDate: EndDate, now: int)
    ensures StatusBadge(endDate, now) == ExpiredBadge <==> CountsAsExpired(endDate, now)
    ensures StatusBadge(endDate, now) == ExpiringSoonBadge <==>
      CountsAsExpiringSoon(endDate, now) || endDate == At(now)
  {
  }

  /** At `endDate == now` the account is counted in neither bucket, yet its badge says Expiring Soon. */
  lemma EndInstantIsUncounted(now: int)
    ensures !CountsAsExpired(At(now), now) && !CountsAsExpiringSoon(At(now), now)
    ensures StatusBadge(At(now), now) == ExpiringSoonBadge
  {
  }

  // =====================================================================
  // Progress bar and the rows of the All tab
  // =====================================================================

  /** `Math.max(0, Math.min(100, (daysLeft / 30) * 100))`: the share of a 30-day month still ahead. */
  function RemainingProgress(end: int, now: int): (p: real)
    ensures 0.0 <= p <= 100.0
    ensures end <= now ==> p == 0.0
    ensures end - now >= 30 * DayMs ==> p == 100.0
  {
    ClampPercent(DaysLeft(end, now) / 30.0 * 100.0)
  }

  /** The bar never shrinks when more time remains. */
  lemma {:induction false} RemainingProgressMonotone(end1: int, end2: int, now: int)
    requires end1 <= end2
    ensures RemainingProgress(end1, now) <= RemainingProgress(end2, now)
  {
    ClampPercentMonotone(DaysLeft(end1, now) / 30.0 * 100.0, DaysLeft(end2, now) / 30.0 * 100.0);
  }

  /** The row tint of the All tab and the bar tint of its progress cell. */
  datatype Tint = RedTint | YellowTint | NoTint

  function TintFor(end: int, now: int): (t: Tint)
    ensures t == RedTint <==> CountsAsExpired(At(end), now)
    ensures t == YellowTint <==> CountsAsExpiringSoon(At(end), now)
  {
    var daysLeft := DaysLeft(end, now);
    if daysLeft < 0.0 then RedTint
    else if daysLeft <= 7.0 && daysLeft > 0.0 then YellowTint
    else NoTint
  }

  datatype EndCell = UnlimitedEnd | EndOn(instant: int)
  datatype ProgressCell = UnlimitedProgress | Bar(value: real, tint: Tint)

  datatype AllTabRow = AllTabRow(account: Submission, endCell: EndCell, badge: Badge, progressCell: ProgressCell, rowTint: Tint)

  /** One row of the All tab, for an account that has an end date. */
  function RowFor(account: Submission, now: int): (row: AllTabRow)
    requires !account.endDate.NoEndDate?
    ensures row.endCell.UnlimitedEnd? <==> account.endDate.Unlimited?
    ensures row.progressCell.UnlimitedProgress? <==> account.endDate.Unlimited?
    ensures row.progressCell.Bar? ==> 0.0 <= row.progressCell.value <= 100.0
    ensures row.rowTint == RedTint <==> CountsAsExpired(account.endDate, now)
    ensures row.rowTint == YellowTint <==> CountsAsExpiringSoon(account.endDate, now)
    ensures row.account == account && row.badge == StatusBadge(account.endDate, now)
    ensures account.endDate.At? ==>
      row.endCell == EndOn(account.endDate.instant) &&
      row.progressCell == Bar(RemainingProgress(account.endDate.instant, now), row.rowTint)
  {
    match account.endDate
    case Unlimited =>
      AllTabRow(account, UnlimitedEnd, StatusBadge(account.endDate, now), UnlimitedProgress, NoTint)
    case At(end) =>
      var tint := TintFor(end, now);
      AllTabRow(account, EndOn(end), StatusBadge(account.endDate, now), Bar(RemainingProgress(end, now), tint), tint)
  }

  /** The accounts that have an end date, in list order. */
  function WithEndDate(accounts: seq<Submission>): (kept: seq<Submission>)
    ensures |kept| <= |accounts|
    ensures forall k :: 0 <= k < |kept| ==> !kept[k].endDate.NoEndDate?
  {
    if accounts == [] then []
    else (if accounts[0].endDate.NoEndDate? then [] else [accounts[0]]) + WithEndDate(accounts[1..])
  }

  /** The kept accounts are exactly those with an end date, each as often as in the list. */
  lemma {:induction false} WithEndDateCounts(accounts: seq<Submission>)
    ensures forall a :: multiset(WithEndDate(accounts))[a] == if a.endDate.NoEndDate? then 0 else multiset(accounts)[a]
  {
    if accounts != [] {
      WithEndDateCounts(accounts[1..]);
      assert accounts == [accounts[0]] + accounts[1..];
    }
  }

  /** Skipping accounts keeps the order of the rest: the filter distributes over concatenation. */
  lemma {:induction false} WithEndDateConcat(a: seq<Submission>, b: seq<Submission>)
    ensures WithEndDate(a + b) == WithEndDate(a) + WithEndDate(b)
  {
    if a == [] {
      assert a + b == b;
    } else {
      var h := if a[0].endDate.NoEndDate? then [] else [a[0]];
      assert (a + b)[0] == a[0];
      assert (a + b)[1..] == a[1..] + b;
      assert WithEndDate(a + b) == h + WithEndDate(a[1..] + b);
      assert WithEndDate(a) == h + WithEndDate(a[1..]);
      WithEndDateConcat(a[1..], b);
    }
  }

  /**
   * The All tab: the row of each account with an end date, in list order;
   * accounts without one are skipped.
   */
  function AllTabRows(accounts: seq<Submission>, now: int): (rows: seq<AllTabRow>)
    ensures |rows| == |WithEndDate(accounts)|
    ensures forall k :: 0 <= k < |rows| ==> rows[k] == RowFor(WithEndDate(accounts)[k], now)
    ensures forall a :: a in accounts && !a.endDate.NoEndDate? ==> RowFor(a, now) in rows
  {
    var kept := WithEndDate(accounts);
    var rows := seq(|kept|, k requires 0 <= k < |kept| => RowFor(kept[k], now));
    assert forall a :: a in accounts && !a.endDate.NoEndDate? ==> RowFor(a, now) in rows by {
      WithEndDateCounts(accounts);
      forall a | a in accounts && !a.endDate.NoEndDate? ensures RowFor(a, now) in rows {
        assert multiset(kept)[a] > 0;
        var k :| 0 <= k < |kept| && kept[k] == a;
        assert rows[k] == RowFor(a, now);
      }
    }
    rows
  }

  /** What the dialog shows as the current end: 'Unlimited' or "Expired on" a date; nothing without an end date. */
  datatype DialogEnd = DialogHidden | DialogUnlimited | DialogExpiredOn(instant: int)

  function DialogEndFor(selected: Option<Submission>): (d: DialogEnd)
    ensures d.DialogHidden? <==> selected.None? || selected.value.endDate.NoEndDate?
    ensures d.DialogUnlimited? <==> selected.Some? && selected.value.endDate.Unlimited?
    ensures selected.Some? && selected.value.endDate.At? ==> d == DialogExpiredOn(selected.value.endDate.instant)
  {
    match selected
    case None => DialogHidden
    case Some(a) =>
      match a.endDate
      case NoEndDate => DialogHidden
      case Unlimited => DialogUnlimited
      case At(end) => DialogExpiredOn(end)
  }

  // =====================================================================
  // Component state
  // =====================================================================

  class ExpiredAccountsView {
    var accounts: seq<Submission>
    var expiredCount: nat
    var expiringSoonCount: nat
    var selected: Option<Submission>
    var renewDialogOpen: bool
    var renewalMonths: int

    /** The counters agree with the list they were taken from, at the instant of that fetch. */
    ghost predicate CountersTakenAt(now: int)
      reads this
    {
      expiredCount == CountOfExpired(accounts, now) && expiringSoonCount == CountOfExpiringSoon(accounts, now)
    }

    static function CountOfExpired(accounts: seq<Submission>, now: int): nat {
      |ExpiredOf(accounts, now)|
    }

    static function CountOfExpiringSoon(accounts: seq<Submission>, now: int): nat {
      |ExpiringSoonOf(accounts, now)|
    }

    constructor ()
      ensures accounts == [] && expiredCount == 0 && expiringSoonCount == 0
      ensures selected == None && !renewDialogOpen && renewalMonths == 1
    {
      accounts := [];
      expiredCount := 0;
      expiringSoonCount := 0;
      selected := None;
      renewDialogOpen := false;
      renewalMonths := 1;
    }

    /**
     * `fetchExpiredAccounts`: `fetched` is the list `getExpiringSubmissions`
     * returned, or `None` when it threw, which leaves the state as it was.
     */
    method FetchExpiredAccounts(fetched: Option<seq<Submission>>, now: int)
      modifies this`accounts, this`expiredCount, this`expiringSoonCount
      ensures fetched.Some? ==> accounts == fetched.value && CountersTakenAt(now)
      ensures fetched.Some? ==> expiredCount + expiringSoonCount <= |accounts|
      ensures fetched.None? ==>
        accounts == old(accounts) && expiredCount == old(expiredCount) && expiringSoonCount == old(expiringSoonCount)
    {
      if fetched.Some? {
        accounts := fetched.value;
        expiredCount := |ExpiredOf(accounts, now)|;
        expiringSoonCount := |ExpiringSoonOf(accounts, now)|;
        CountersBounded(accounts, now);
      }
    }

    /** A Renew button: selects the row's account and opens the dialog. */
    method SelectForRenewal(account: Submission)
      modifies this`selected, this`renewDialogOpen
      ensures selected == Some(account) && renewDialogOpen
    {
      selected := Some(account);
      renewDialogOpen := true;
    }

    /** The Cancel button closes the dialog and keeps the selection. */
    method CancelDialog()
      modifies this`renewDialogOpen
      ensures !renewDialogOpen
    {
      renewDialogOpen := false;
    }

    /** The months field: `parseInt(value) || 1`. */
    method SetMonthsInput(parsed: Option<int>)
      modifies this`renewalMonths
      ensures renewalMonths == RenewalMonthsFromInput(parsed)
    {
      renewalMonths := RenewalMonthsFromInput(parsed);
    }

    /**
     * `handleRenew`: no call when nothing with an end date is selected;
     * otherwise one `updateSubmissionStatus(id, 'Successful', renewalMonths)`
     * call for the selected account. A renewed record refetches (with
     * `refetched` as that fetch's outcome), closes the dialog, clears the
     * selection and resets the months to 1; a null record or a throw changes
     * nothing.
     */
    method HandleRenew(reply: RenewReply, refetched: Option<seq<Submission>>, now: int) returns (call: Option<RenewCall>)
      modifies this
      ensures call == if old(selected).Some? && !old(selected).value.endDate.NoEndDate?
        then Some(RenewCall(old(selected).value.id, Successful, old(renewalMonths))) else None
      ensures call.Some? && reply.Renewed? ==>
        !renewDialogOpen && selected == None && renewalMonths == 1 &&
        (refetched.Some? ==> accounts == refetched.value && CountersTakenAt(now)) &&
        (refetched.None? ==>
          accounts == old(accounts) && expiredCount == old(expiredCount) && expiringSoonCount == old(expiringSoonCount))
      ensures !(call.Some? && reply.Renewed?) ==>
        accounts == old(accounts) && expiredCount == old(expiredCount) && expiringSoonCount == old(expiringSoonCount)
        && selected == old(selected) && renewDialogOpen == old(renewDialogOpen) && renewalMonths == old(renewalMonths)
    {
      if selected.None? || selected.value.endDate.NoEndDate? {
        return None;
      }
      call := Some(RenewCall(selected.value.id, Successful, renewalMonths));
      if reply.Renewed? {
        FetchExpiredAccounts(refetched, now);
        renewDialogOpen := false;
        selected := None;
        renewalMonths := 1;
      }
    }
  }
}
