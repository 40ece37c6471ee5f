/**
 * The administrator's submission table: a working set of submissions keyed
 * by `id`, the selection of ids, the search/status/reseller filters with
 * newest-first ordering and paging, the status counters, and the per-row
 * expiry display, renew button and renewal progress bar.
 *
 * Every backend call is replaced by its outcome, passed in as a parameter;
 * each handler runs as one atomic step.
 */
module DashboardClient {
  import opened Common
  import opened Submissions
  import Text

  // =====================================================================
  // Collaborator outcomes and small records
  // =====================================================================

  /** What `updateSubmission` produced: a reply whose `submission` may be null, or a thrown error. */
  datatype UpdateReply = Replied(submission: Option<Submission>) | UpdateThrew

  /** What `deleteUserAccount` produced: its boolean result, or a thrown error. */
  datatype DeleteReply = Answered(deleted: bool) | DeleteThrew

  /** The account chosen in the delete dialog. */
  datatype DeleteTarget = DeleteTarget(email: string, name: Option<string>, id: string)

  /** The state returned by the profile-name form action; `hasErrors` is "an `errors` object is present". */
  datatype ProfileNameFormState = ProfileNameFormState(message: string, hasErrors: bool, submission: Option<Submission>)

  datatype StatusFilter = AllStatuses | OnlyStatus(status: Status)
  datatype ResellerFilter = AllResellers | OnlyReseller(resellerId: string)

  // =====================================================================
  // Keyed updates of the working set
  // =====================================================================

  predicate HasId(subs: seq<Submission>, id: string) {
    exists i :: 0 <= i < |subs| && subs[i].id == id
  }

  /** No two entries share an `id`. */
  predicate UniqueIds(subs: seq<Submission>) {
    forall i, j :: 0 <= i < |subs| && 0 <= j < |subs| && subs[i].id == subs[j].id ==> i == j
  }

  /** `subs.find(sub => sub.id === id)`: the first entry with that id. */
  function FindById(subs: seq<Submission>, id: string): (r: Option<Submission>)
    ensures r.Some? <==> HasId(subs, id)
    ensures r.Some? ==> r.value in subs && r.value.id == id
    ensures r.Some? ==> exists k :: 0 <= k < |subs| && subs[k] == r.value && forall j :: 0 <= j < k ==> subs[j].id != id
  {
    if subs == [] then None
    else if subs[0].id == id then Some(subs[0])
    else
      var r := FindById(subs[1..], id);
      assert r.Some? ==> exists k :: 0 <= k < |subs| && subs[k] == r.value && forall j :: 0 <= j < k ==> subs[j].id != id by {
        if r.Some? {
          var k :| 0 <= k < |subs[1..]| && subs[1..][k] == r.value && forall j :: 0 <= j < k ==> subs[1..][j].id != id;
          assert subs[k + 1] == r.value;
          forall j | 0 <= j < k + 1 ensures subs[j].id != id {
            if j > 0 { assert subs[j] == subs[1..][j - 1]; }
          }
        }
      }
      assert HasId(subs, id) ==> HasId(subs[1..], id) by {
        if HasId(subs, id) {
          var i :| 0 <= i < |subs| && subs[i].id == id;
          assert subs[1..][i - 1].id == id;
        }
      }
      assert HasId(subs[1..], id) ==> HasId(subs, id) by {
        if HasId(subs[1..], id) {
          var i :| 0 <= i < |subs[1..]| && subs[1..][i].id == id;
          assert subs[i + 1].id == id;
        }
      }
      r
  }

  /** `subs.map(sub => sub.id === id ? replacement : sub)`. */
  function ReplaceById(subs: seq<Submission>, id: string, replacement: Submission): (r: seq<Submission>)
    ensures |r| == |subs|
    ensures forall s :: s in r ==> s == replacement || s in subs
    ensures (exists k :: 0 <= k < |subs| && subs[k].id == id) ==> replacement in r
  {
    var r := seq(|subs|, i requires 0 <= i < |subs| => if subs[i].id == id then replacement else subs[i]);
    assert forall k :: 0 <= k < |subs| && subs[k].id == id ==> r[k] == replacement;
    assert forall k :: 0 <= k < |r| ==> r[k] == replacement || r[k] == subs[k];
    r
  }

  /** The optimistic step: every entry with `id` gets the new status and the update instant. */
  function MarkStatus(subs: seq<Submission>, id: string, status: Status, now: int): (r: seq<Submission>)
    ensures |r| == |subs|
    ensures forall k :: 0 <= k < |r| ==> r[k].id == subs[k].id
  {
    seq(|subs|, i requires 0 <= i < |subs| =>
      if subs[i].id == id then subs[i].(status := status, updatedAt := now) else subs[i])
  }

  /** The optimistic step keeps length and order and touches only `status` and `updatedAt` of matching entries. */
  lemma OptimisticStepFrame(subs: seq<Submission>, id: string, status: Status, now: int)
    ensures |MarkStatus(subs, id, status, now)| == |subs|
    ensures forall i :: 0 <= i < |subs| && subs[i].id != id ==> MarkStatus(subs, id, status, now)[i] == subs[i]
    ensures forall i :: 0 <= i < |subs| && subs[i].id == id ==>
      var e := MarkStatus(subs, id, status, now)[i];
      e.status == status && e.updatedAt == now &&
      e.(status := subs[i].status, updatedAt := subs[i].updatedAt) == subs[i]
  {
  }

  /** Committing the server's record after the optimistic step: matching entries become exactly that record, the rest are the originals. */
  lemma CommitReplacesEntry(subs: seq<Submission>, id: string, status: Status, now: int, record: Submission)
    ensures var r := ReplaceById(MarkStatus(subs, id, status, now), id, record);
      |r| == |subs| &&
      (forall i :: 0 <= i < |subs| ==> r[i] == if subs[i].id == id then record else subs[i])
  {
  }

  /** With unique ids, rolling back to the snapshot found before the optimistic step restores the working set exactly. */
  lemma {:induction false} RollbackRestoresSnapshot(subs: seq<Submission>, id: string, status: Status, now: int)
    requires UniqueIds(subs) && HasId(subs, id)
    ensures ReplaceById(MarkStatus(subs, id, status, now), id, FindById(subs, id).value) == subs
  {
    var snapshot := FindById(subs, id).value;
    var r := ReplaceById(MarkStatus(subs, id, status, now), id, snapshot);
    var k :| 0 <= k < |subs| && subs[k] == snapshot;
    forall i | 0 <= i < |subs| ensures r[i] == subs[i] {
      if subs[i].id == id {
        assert subs[i].id == subs[k].id;
      }
    }
  }

  /** Without unique ids the rollback is not exact: every entry with the id becomes the first one. */
  lemma RollbackWithDuplicateIds(a: Submission, b: Submission)
    requires a.id == b.id && a != b
    ensures ReplaceById(MarkStatus([a, b], a.id, Canceled, 0), a.id, FindById([a, b], a.id).value) == [a, a] != [a, b]
  {
    assert [a, a][1] != [a, b][1];
  }

  // =====================================================================
  // Removal
  // =====================================================================

  /** The id a delete uses: the store's `_id` when it is present and non-empty, otherwise `id`. */
  function DeleteId(sub: Submission): string {
    match sub.storageId
    case Some(sid) => if sid != "" then sid else sub.id
    case None => sub.id
  }

  function DeleteTargetFor(sub: Submission): DeleteTarget {
    DeleteTarget(sub.customerEmail, sub.profileName, DeleteId(sub))
  }

  /** `subs.filter(s => s.id !== id)`. */
  function RemoveId(subs: seq<Submission>, id: string): (r: seq<Submission>)
    ensures forall s :: multiset(r)[s] == if s.id == id then 0 else multiset(subs)[s]
  {
    if subs == [] then []
    else
      assert subs == [subs[0]] + subs[1..];
      (if subs[0].id == id then [] else [subs[0]]) + RemoveId(subs[1..], id)
  }

  /** Removing an id nobody carries changes nothing. */
  lemma {:induction false} RemoveAbsentId(subs: seq<Submission>, id: string)
    requires !HasId(subs, id)
    ensures RemoveId(subs, id) == subs
  {
    if subs != [] {
      assert subs[0].id != id;
      assert !HasId(subs[1..], id) by {
        forall i | 0 <= i < |subs[1..]| ensures subs[1..][i].id != id {
          assert subs[1..][i] == subs[i + 1];
        }
      }
      RemoveAbsentId(subs[1..], id);
      assert subs == [subs[0]] + subs[1..];
    }
  }

  /**
   * The delete dialog takes the store's `_id` when there is one, but the list
   * is filtered on `id`: when that `_id` is no entry's `id`, a successful
   * delete leaves the working set as it was.
   */
  lemma StorageIdDeleteRemovesNothing(subs: seq<Submission>, sub: Submission)
    requires sub.storageId.Some? && sub.storageId.value != ""
    requires !HasId(subs, sub.storageId.value)
    ensures RemoveId(subs, DeleteTargetFor(sub).id) == subs
  {
    RemoveAbsentId(subs, sub.storageId.value);
  }

  /** `subs.filter(sub => !ids.includes(sub.id))`. */
  function RemoveIds(subs: seq<Submission>, ids: seq<string>): (r: seq<Submission>)
    ensures forall s :: multiset(r)[s] == if s.id in ids then 0 else multiset(subs)[s]
  {
    if subs == [] then []
    else
      assert subs == [subs[0]] + subs[1..];
      (if subs[0].id in ids then [] else [subs[0]]) + RemoveIds(subs[1..], ids)
  }

  /** No delete call in the batch threw. */
  predicate NoThrow(replies: seq<DeleteReply>) {
    forall i :: 0 <= i < |replies| ==> !replies[i].DeleteThrew?
  }

  // =====================================================================
  // Selection
  // =====================================================================

  /** `sel.filter(x => x !== id)`. */
  function Without(sel: seq<string>, id: string): (r: seq<string>)
    ensures forall x :: x in r <==> x in sel && x != id
    ensures NoDuplicates(sel) ==> NoDuplicates(r)
    ensures |r| <= |sel|
  {
    if sel == [] then []
    else
      var rest := Without(sel[1..], id);
      assert sel[0] !in sel[1..] ==> sel[0] !in rest;
      (if sel[0] == id then [] else [sel[0]]) + rest
  }

  predicate NoDuplicates(sel: seq<string>) {
    forall i, j :: 0 <= i < j < |sel| ==> sel[i] != sel[j]
  }

  /** `toggleSelect`: drop every occurrence of a selected id, or append an unselected one. */
  function Toggled(sel: seq<string>, id: string): (r: seq<string>)
    ensures forall x :: x in r ==> x in sel || x == id
    ensures |r| <= |sel| + 1
  {
    if id in sel then Without(sel, id) else sel + [id]
  }

  /** Toggling flips the membership of `id` and of nothing else, and never creates a duplicate. */
  lemma {:induction false} ToggleFlipsMembership(sel: seq<string>, id: string)
    ensures id in Toggled(sel, id) <==> id !in sel
    ensures forall x :: x != id ==> (x in Toggled(sel, id) <==> x in sel)
    ensures NoDuplicates(sel) ==> NoDuplicates(Toggled(sel, id))
  {
    if id !in sel {
      var t := sel + [id];
      if NoDuplicates(sel) {
        forall i, j | 0 <= i < j < |t| ensures t[i] != t[j] {
          if j == |sel| {
            assert t[i] == sel[i];
          }
        }
      }
    }
  }

  /** Toggling twice restores membership; when the id was not selected it restores the exact selection. */
  lemma {:induction false} ToggleTwice(sel: seq<string>, id: string)
    ensures forall x :: x in Toggled(Toggled(sel, id), id) <==> x in sel
    ensures id !in sel ==> Toggled(Toggled(sel, id), id) == sel
  {
    ToggleFlipsMembership(sel, id);
    ToggleFlipsMembership(Toggled(sel, id), id);
    if id !in sel {
      WithoutAbsent(sel, id);
      WithoutAppended(sel, id);
    }
  }

  lemma {:induction false} WithoutAbsent(sel: seq<string>, id: string)
    requires id !in sel
    ensures Without(sel, id) == sel
  {
    if sel != [] {
      WithoutAbsent(sel[1..], id);
      assert sel == [sel[0]] + sel[1..];
    }
  }

  lemma {:induction false} WithoutAppended(sel: seq<string>, id: string)
    requires id !in sel
    ensures Without(sel + [id], id) == Without(sel, id)
  {
    if sel == [] {
      assert Without([id], id) == [] + Without([], id);
    } else {
      assert (sel + [id])[1..] == sel[1..] + [id];
      WithoutAppended(sel[1..], id);
    }
  }

  /** The ids of a list, in order. */
  function IdsOf(subs: seq<Submission>): (ids: seq<string>)
    ensures |ids| == |subs|
    ensures forall k :: 0 <= k < |subs| ==> ids[k] == subs[k].id
  {
    seq(|subs|, i requires 0 <= i < |subs| => subs[i].id)
  }

  /** `allSelected`: the filtered list is non-empty and the selection has as many ids as it has entries. */
  predicate AllSelectedFor(filtered: seq<Submission>, sel: seq<string>) {
    |filtered| > 0 && |sel| == |filtered|
  }

  /** `someSelected`. */
  predicate SomeSelectedFor(filtered: seq<Submission>, sel: seq<string>) {
    |sel| > 0 && !AllSelectedFor(filtered, sel)
  }

  /** After `selectAll` the header checkbox is checked exactly when the filtered list is non-empty. */
  lemma SelectAllChecksHeader(filtered: seq<Submission>)
    ensures AllSelectedFor(filtered, IdsOf(filtered)) <==> |filtered| > 0
    ensures !SomeSelectedFor(filtered, IdsOf(filtered))
  {
  }

  /** `allSelected` compares lengths only: it can hold while a selected id is not in the filtered list. */
  lemma {:induction false} AllSelectedIsLengthOnly(sub: Submission, other: string)
    requires other != sub.id
    ensures AllSelectedFor([sub], [other]) && other !in IdsOf([sub])
  {
    assert IdsOf([sub]) == [sub.id];
  }

  // =====================================================================
  // Search, filters, ordering and paging
  // =====================================================================

  /** The case-insensitive search over email, reseller name and a non-empty profile name. */
  function SearchMatches(sub: Submission, term: string): (matches: bool)
    ensures term == "" ==> matches
  {
    var t := Text.ToLower(term);
    Text.EveryStringIncludesEmpty(Text.ToLower(sub.customerEmail));
    Text.Includes(Text.ToLower(sub.customerEmail), t)
    || Text.Includes(Text.ToLower(sub.resellerName), t)
    || (sub.profileName.Some? && sub.profileName.value != ""
        && Text.Includes(Text.ToLower(sub.profileName.value), t))
  }

  function MatchesFilters(sub: Submission, term: string, sf: StatusFilter, rf: ResellerFilter): (keep: bool)
    ensures keep ==> SearchMatches(sub, term)
    ensures term == "" && sf.AllStatuses? && rf.AllResellers? ==> keep
  {
    && SearchMatches(sub, term)
    && (sf.AllStatuses? || sub.status == sf.status)
    && (rf.AllResellers? || sub.resellerId == rf.resellerId)
  }

  /** The `filter` part of `filteredSubmissions`: exactly the matching entries, in list order. */
  function KeepMatching(subs: seq<Submission>, term: string, sf: StatusFilter, rf: ResellerFilter): (r: seq<Submission>)
    ensures forall s :: multiset(r)[s] == if MatchesFilters(s, term, sf, rf) then multiset(subs)[s] else 0
  {
    if subs == [] then []
    else
      assert subs == [subs[0]] + subs[1..];
      (if MatchesFilters(subs[0], term, sf, rf) then [subs[0]] else []) + KeepMatching(subs[1..], term, sf, rf)
  }

  /** Ordered by `requestDate`, newest first. */
  predicate NewestFirst(s: seq<Submission>) {
    forall i, j :: 0 <= i < j < |s| ==> s[i].requestDate >= s[j].requestDate
  }

  /** Inserts `x` in front of the first entry that is not newer than it. */
  function InsertByDate(x: Submission, s: seq<Submission>): (r: seq<Submission>)
    requires NewestFirst(s)
    ensures NewestFirst(r)
    ensures multiset(r) == multiset(s) + multiset{x}
    ensures |r| == |s| + 1
  {
    if s == [] || s[0].requestDate <= x.requestDate then
      ConsNewestFirst(x, s);
      [x] + s
    else
      assert s == [s[0]] + s[1..];
      var rest := InsertByDate(x, s[1..]);
      HeadBoundsInsertion(x, s, rest);
      ConsNewestFirst(s[0], rest);
      [s[0]] + rest
  }

  /** Putting an entry no older than any other in front keeps the order. */
  lemma ConsNewestFirst(h: Submission, s: seq<Submission>)
    requires NewestFirst(s)
    requires forall j :: 0 <= j < |s| ==> s[j].requestDate <= h.requestDate
    ensures NewestFirst([h] + s)
  {
    var r := [h] + s;
    forall i, j | 0 <= i < j < |r| ensures r[i].requestDate >= r[j].requestDate {
      assert r[j] == s[j - 1];
      if i > 0 {
        assert r[i] == s[i - 1];
      }
    }
  }

  /** What was inserted after the head of a sorted list is no newer than that head. */
  lemma HeadBoundsInsertion(x: Submission, s: seq<Submission>, rest: seq<Submission>)
    requires NewestFirst(s) && s != [] && x.requestDate < s[0].requestDate
    requires multiset(rest) == multiset(s[1..]) + multiset{x}
    ensures forall j :: 0 <= j < |rest| ==> rest[j].requestDate <= s[0].requestDate
  {
    forall j | 0 <= j < |rest| ensures rest[j].requestDate <= s[0].requestDate {
      var e := rest[j];
      assert multiset(rest)[e] > 0;
      if e != x {
        assert e in multiset(s[1..]);
        var k :| 0 <= k < |s[1..]| && s[1..][k] == e;
        assert s[k + 1] == e;
      }
    }
  }

  /** The `sort` of `filteredSubmissions`: newest first, a permutation of its input. */
  function SortNewestFirst(s: seq<Submission>): (r: seq<Submission>)
    ensures NewestFirst(r)
    ensures multiset(r) == multiset(s)
  {
    if s == [] then []
    else
      assert s == [s[0]] + s[1..];
      InsertByDate(s[0], SortNewestFirst(s[1..]))
  }

  /** `filteredSubmissions`: the matching entries, every one of them and nothing else, newest first. */
  function FilteredSubmissions(subs: seq<Submission>, term: string, sf: StatusFilter, rf: ResellerFilter): (r: seq<Submission>)
    ensures NewestFirst(r)
    ensures multiset(r) <= multiset(subs)
    ensures forall s :: multiset(r)[s] == if MatchesFilters(s, term, sf, rf) then multiset(subs)[s] else 0
    ensures forall s :: s in r <==> s in subs && MatchesFilters(s, term, sf, rf)
  {
    SortNewestFirst(KeepMatching(subs, term, sf, rf))
  }

  /** With an empty search and both filters on "all", every submission is listed. */
  lemma {:induction false} NoFilterListsEverything(subs: seq<Submission>)
    ensures multiset(FilteredSubmissions(subs, "", AllStatuses, AllResellers)) == multiset(subs)
  {
    forall s ensures MatchesFilters(s, "", AllStatuses, AllResellers) {
      Text.EveryStringIncludesEmpty(Text.ToLower(s.customerEmail));
    }
  }

  /**
   * `array.slice(start, end)`: negative positions count from the end, both
   * are clamped to the length, and an empty range gives the empty list.
   */
  function JsSlice<T>(s: seq<T>, start: int, end: int): (r: seq<T>)
    ensures |r| <= |s|
    ensures 0 <= start <= end <= |s| ==> r == s[start..end]
    ensures 0 <= end <= start ==> r == []
    ensures forall x :: x in r ==> x in s
  {
    var from := if start < 0 then (if |s| + start < 0 then 0 else |s| + start)
                else (if start < |s| then start else |s|);
    var to := if end < 0 then (if |s| + end < 0 then 0 else |s| + end)
              else (if end < |s| then end else |s|);
    if from < to then s[from..to] else []
  }

  /** The rows of page `page` (1-based) at `perPage` rows per page. */
  function PageItems<T>(s: seq<T>, page: int, perPage: nat): (r: seq<T>)
    ensures |r| <= perPage
  {
    var start := (page - 1) * perPage;
    JsSlice(s, start, start + perPage)
  }

  /** `Math.ceil(count / perPage)`. */
  function TotalPages(count: nat, perPage: nat): nat
    requires perPage > 0
  {
    (count + perPage - 1) / perPage
  }

  /** Every page between 1 and the page count is the non-empty block that starts at `(page - 1) * perPage`. */
  lemma {:induction false} PageInRange<T>(s: seq<T>, page: int, perPage: nat)
    requires perPage > 0 && 1 <= page <= TotalPages(|s|, perPage)
    ensures var start := (page - 1) * perPage;
      0 <= start < |s| &&
      PageItems(s, page, perPage) == s[start..if start + perPage < |s| then start + perPage else |s|]
  {
    var start := (page - 1) * perPage;
    var total := TotalPages(|s|, perPage);
    assert total * perPage <= |s| + perPage - 1;
    assert (page - 1) * perPage <= (total - 1) * perPage by {
      MultiplyMonotone(page - 1, total - 1, perPage);
    }
    assert 0 <= start by {
      MultiplyMonotone(0, page - 1, perPage);
    }
  }

  lemma {:induction false} MultiplyMonotone(a: int, b: int, c: nat)
    requires a <= b
    ensures a * c <= b * c
  {
    var d := b - a;
    assert b * c == a * c + d * c;
  }

  /** Pages 1..k concatenated, in order. */
  function PagesUpTo<T>(s: seq<T>, perPage: nat, k: nat): seq<T> {
    if k == 0 then [] else PagesUpTo(s, perPage, k - 1) + PageItems(s, k, perPage)
  }

  /** Reading every page in turn shows each row once and in order: the pages concatenate to the whole list. */
  lemma {:induction false} PagesCoverList<T>(s: seq<T>, perPage: nat)
    requires perPage > 0
    ensures PagesUpTo(s, perPage, TotalPages(|s|, perPage)) == s
  {
    var total := TotalPages(|s|, perPage);
    PagesPrefix(s, perPage, total);
    assert total * perPage >= |s|;
  }

  lemma {:induction false} PagesPrefix<T>(s: seq<T>, perPage: nat, k: nat)
    requires perPage > 0 && k <= TotalPages(|s|, perPage)
    ensures PagesUpTo(s, perPage, k) == s[..if k * perPage < |s| then k * perPage else |s|]
  {
    if k > 0 {
      PagesPrefix(s, perPage, k - 1);
      PageInRange(s, k, perPage);
      assert (k - 1) * perPage + perPage == k * perPage;
      var start := (k - 1) * perPage;
      assert start < |s|;
      assert s[..start] + s[start..if k * perPage < |s| then k * perPage else |s|]
          == s[..if k * perPage < |s| then k * perPage else |s|];
    }
  }

  /** Page 0, which the last-page button selects on an empty list, shows no rows whatever the list holds. */
  lemma PageZeroIsEmpty<T>(s: seq<T>, perPage: nat)
    ensures PageItems(s, 0, perPage) == []
  {
  }

  /** The page sizes the "Show" selector offers. */
  const PageSizes: set<nat> := {10, 20, 50, 100}

  // =====================================================================
  // Status counters
  // =====================================================================

  function CountStatus(subs: seq<Submission>, st: Status): (n: nat)
    ensures n <= |subs|
  {
    if subs == [] then 0 else (if subs[0].status == st then 1 else 0) + CountStatus(subs[1..], st)
  }

  /** Every submission is counted under exactly one of the three statuses. */
  lemma {:induction false} StatusCountsPartition(subs: seq<Submission>)
    ensures CountStatus(subs, Successful) + CountStatus(subs, Pending) + CountStatus(subs, Canceled) == |subs|
  {
    if subs != [] {
      StatusCountsPartition(subs[1..]);
    }
  }

  datatype Stats = Stats(total: nat, successful: nat, pending: nat, canceled: nat, successRate: real)

  /** `stats`: the counters and the success rate in percent (0 for an empty list). */
  function StatsOf(subs: seq<Submission>): (r: Stats)
    ensures r.total == |subs| == r.successful + r.pending + r.canceled
    ensures r.successful == CountStatus(subs, Successful) && r.pending == CountStatus(subs, Pending)
    ensures r.canceled == CountStatus(subs, Canceled)
    ensures r.total > 0 ==> r.successRate * r.total as real == 100.0 * r.successful as real
    ensures 0.0 <= r.successRate <= 100.0
    ensures r.total == 0 ==> r.successRate == 0.0
    ensures r.total > 0 && r.successful == r.total ==> r.successRate == 100.0
  {
    StatusCountsPartition(subs);
    var total := |subs|;
    var successful := CountStatus(subs, Successful);
    var rate := if total > 0 then RatioPercent(successful, total) else 0.0;
    Stats(total, successful, CountStatus(subs, Pending), CountStatus(subs, Canceled), rate)
  }

  /** `part / whole * 100` for `0 <= part <= whole`, `whole > 0`. */
  function RatioPercent(part: nat, whole: nat): (p: real)
    requires 0 < whole && part <= whole
    ensures 0.0 <= p <= 100.0
    ensures p * whole as real == 100.0 * part as real
    ensures part == whole ==> p == 100.0
  {
    QuotientOfWhole(part as real, whole as real);
    part as real / whole as real * 100.0
  }

  /** Over the reals alone (no integer casts in scope), a part of a positive whole is a fraction in [0,1]. */
  lemma QuotientOfWhole(a: real, w: real)
    requires 0.0 <= a <= w && 0.0 < w
    ensures 0.0 <= a / w <= 1.0
    ensures (a / w * 100.0) * w == 100.0 * a
  {
  }

  // =====================================================================
  // Expiry column (whole-day differences)
  // =====================================================================

  /**
   * What `ExpiryDisplay` renders. `RenderThrows` is a render that throws: the
   * 'unlimited' sentinel parses to an invalid date, its day count is NaN, both
   * tests fail, and the Active branch's `format` raises a RangeError.
   */
  datatype ExpiryView =
    | ExpiryNotApplicable
    | Expired(endedOn: int)
    | ExpiringSoon(daysLeft: int, hoursLeft: int, endsOn: int)
    | Active(daysLeft: int, endsOn: int)
    | RenderThrows

  /** JavaScript's `%`: the remainder takes the sign of the dividend. */
  function JsRemainder(a: int, m: int): int
    requires m > 0
  {
    if a >= 0 then a % m else -((-a) % m)
  }

  /**
   * `ExpiryDisplay`: N/A unless the submission is Successful with an end date;
   * otherwise, on whole days left, below 0 is Expired, 0 to 7 is expiring soon
   * and above 7 is Active. Stated on the raw gap: Expired needs a full day past.
   */
  function ExpiryDisplay(endDate: EndDate, status: Status, now: int): (v: ExpiryView)
    ensures v.ExpiryNotApplicable? <==> endDate.NoEndDate? || status != Successful
    ensures v.RenderThrows? <==> endDate.Unlimited? && status == Successful
    ensures v.Expired? <==> status == Successful && endDate.At? && endDate.instant - now <= -DayMs
    ensures v.ExpiringSoon? <==> status == Successful && endDate.At? && -DayMs < endDate.instant - now < 8 * DayMs
    ensures v.Active? <==> status == Successful && endDate.At? && endDate.instant - now >= 8 * DayMs
    ensures v.Expired? ==> v.endedOn == endDate.instant
    ensures v.ExpiringSoon? ==>
      v.endsOn == endDate.instant && v.daysLeft == DifferenceInDays(endDate.instant, now) && 0 <= v.daysLeft <= 7 &&
      v.hoursLeft == JsRemainder((endDate.instant - now) / HourMs, 24)
    ensures v.Active? ==> v.endsOn == endDate.instant && v.daysLeft == DifferenceInDays(endDate.instant, now) > 7
  {
    if endDate.NoEndDate? || status != Successful then ExpiryNotApplicable
    else match endDate
      case Unlimited => RenderThrows
      case At(end) =>
        var daysLeft := DifferenceInDays(end, now);
        var hoursLeft := JsRemainder((end - now) / HourMs, 24);
        DifferenceInDaysNegativeIff(end, now);
        DifferenceInDaysAtMostIff(end, now, 7);
        if daysLeft < 0 then Expired(end)
        else if daysLeft <= 7 then ExpiringSoon(daysLeft, hoursLeft, end)
        else Active(daysLeft, end)
  }

  /** As written, the expiry cell of any Successful 'unlimited' subscription throws while rendering. */
  lemma UnlimitedEndThrows(now: int)
    ensures ExpiryDisplay(Unlimited, Successful, now) == RenderThrows
  {
  }

  /** The cell as evidently intended: 'unlimited' shows an Unlimited cell, as the expired-accounts screen does. */
  datatype IntendedExpiryView = AsWritten(view: ExpiryView) | UnlimitedCell

  /**
   * The corrected expiry cell: an 'unlimited' end shows Unlimited instead of
   * reaching `format`; every dated or missing end renders as written.
   */
  function IntendedExpiryDisplay(endDate: EndDate, status: Status, now: int): (v: IntendedExpiryView)
    ensures v.UnlimitedCell? <==> endDate.Unlimited? && status == Successful
    ensures v.AsWritten? ==> v.view == ExpiryDisplay(endDate, status, now) && !v.view.RenderThrows?
  {
    if endDate.Unlimited? && status == Successful then UnlimitedCell
    else AsWritten(ExpiryDisplay(endDate, status, now))
  }

  /** While time remains, the expiring-soon days and hours are the exact whole-hour count split at 24. */
  lemma {:induction false} ExpiringSoonSplitsHours(end: int, now: int)
    requires 0 <= end - now < 8 * DayMs
    ensures var v := ExpiryDisplay(At(end), Successful, now);
      v.ExpiringSoon? && 0 <= v.hoursLeft < 24 && v.daysLeft * 24 + v.hoursLeft == (end - now) / HourMs
  {
    var x := end - now;
    var h := x / HourMs;
    var d := DifferenceInDays(end, now);
    assert d * DayMs <= x < d * DayMs + DayMs;
    assert h * HourMs <= x < h * HourMs + HourMs;
    assert 24 * d <= h < 24 * d + 24;
  }

  /** An end date less than a day past is still shown as expiring soon, with 0 days and a non-positive hour count. */
  lemma {:induction false} JustExpiredShowsExpiringSoon(end: int, now: int)
    requires -DayMs < end - now < 0
    ensures var v := ExpiryDisplay(At(end), Successful, now);
      v.ExpiringSoon? && v.daysLeft == 0 && -23 <= v.hoursLeft <= 0
  {
    var x := end - now;
    var h := x / HourMs;
    assert h * HourMs <= x < h * HourMs + HourMs;
    assert -24 <= h < 0;
  }

  /** `RenewalButton`'s gate: an end date at least one whole day past; the status is not consulted. */
  function ShowsRenewButton(endDate: EndDate, now: int): (shown: bool)
    ensures shown <==> endDate.At? && endDate.instant - now <= -DayMs
  {
    if endDate.At? then DifferenceInDaysNegativeIff(endDate.instant, now); DifferenceInDays(endDate.instant, now) < 0
    else false
  }

  /** For a Successful submission the Renew button is shown exactly when the expiry column says Expired. */
  lemma {:induction false} RenewButtonMatchesExpired(sub: Submission, now: int)
    requires sub.status == Successful
    ensures ShowsRenewButton(sub.endDate, now) <==> ExpiryDisplay(sub.endDate, sub.status, now).Expired?
    ensures ShowsRenewButton(sub.endDate, now) <==> (var v := IntendedExpiryDisplay(sub.endDate, sub.status, now); v.AsWritten? && v.view.Expired?)
  {
    if sub.endDate.At? {
      DifferenceInDaysNegativeIff(sub.endDate.instant, now);
    }
  }

  /** A Canceled submission whose end date is long past still shows the Renew button beside an N/A expiry. */
  lemma {:induction false} RenewButtonIgnoresStatus(sub: Submission, now: int)
    requires sub.status == Canceled && sub.endDate.At? && sub.endDate.instant <= now - DayMs
    ensures ShowsRenewButton(sub.endDate, now)
    ensures ExpiryDisplay(sub.endDate, sub.status, now) == ExpiryNotApplicable
  {
    DifferenceInDaysNegativeIff(sub.endDate.instant, now);
  }

  // =====================================================================
  // Renewal progress column
  // =====================================================================

  /** What `RenewalProgress` renders: N/A, a percentage, or NaN (JavaScript's 0/0 or an unparseable end date). */
  datatype Progress = ProgressNotApplicable | Percent(value: real) | NotANumber

  /**
   * `RenewalProgress`: the whole days elapsed since `requestDate` over the
   * whole days from `requestDate` to the end, as a clamped percentage. A zero
   * day window divides by zero as JavaScript does: +Infinity clamps to 100,
   * -Infinity to 0, and 0/0 is NaN.
   */
  function RenewalProgress(sub: Submission, now: int): (p: Progress)
    ensures p.ProgressNotApplicable? <==> sub.endDate.NoEndDate? || sub.status != Successful
    ensures p.Percent? ==> 0.0 <= p.value <= 100.0
    ensures p.NotANumber? <==>
      (sub.status == Successful && (sub.endDate.Unlimited? ||
        (sub.endDate.At? && DifferenceInDays(sub.endDate.instant, sub.requestDate) == 0
                         && DifferenceInDays(now, sub.requestDate) == 0)))
  {
    if sub.endDate.NoEndDate? || sub.status != Successful then ProgressNotApplicable
    else match sub.endDate
      case Unlimited => NotANumber
      case At(end) =>
        var total := DifferenceInDays(end, sub.requestDate);
        var elapsed := DifferenceInDays(now, sub.requestDate);
        if total == 0 then
          (if elapsed > 0 then Percent(100.0) else if elapsed < 0 then Percent(0.0) else NotANumber)
        else Percent(ClampPercent(elapsed as real / total as real * 100.0))
  }

  /** With a window of at least one day, progress never decreases as time passes. */
  lemma {:induction false} RenewalProgressMonotone(sub: Submission, now1: int, now2: int)
    requires sub.status == Successful && sub.endDate.At? && now1 <= now2
    requires DifferenceInDays(sub.endDate.instant, sub.requestDate) > 0
    ensures RenewalProgress(sub, now1).Percent? && RenewalProgress(sub, now2).Percent?
    ensures RenewalProgress(sub, now1).value <= RenewalProgress(sub, now2).value
  {
    var total := DifferenceInDays(sub.endDate.instant, sub.requestDate);
    var e1 := DifferenceInDays(now1, sub.requestDate);
    var e2 := DifferenceInDays(now2, sub.requestDate);
    WholeDaysMonotone(now1 - sub.requestDate, now2 - sub.requestDate);
    DivideMonotone(e1 as real, e2 as real, total as real);
  }

  lemma {:induction false} DivideMonotone(a: real, b: real, t: real)
    requires a <= b && t > 0.0
    ensures a / t * 100.0 <= b / t * 100.0
  {
    assert (b - a) / t >= 0.0;
    assert b / t - a / t == (b - a) / t;
  }

  /** Once the end date is reached (window of at least one day), progress is 100. */
  lemma {:induction false} RenewalProgressFullAtEnd(sub: Submission, now: int)
    requires sub.status == Successful && sub.endDate.At? && now >= sub.endDate.instant
    requires DifferenceInDays(sub.endDate.instant, sub.requestDate) > 0
    ensures RenewalProgress(sub, now) == Percent(100.0)
  {
    var total := DifferenceInDays(sub.endDate.instant, sub.requestDate);
    var elapsed := DifferenceInDays(now, sub.requestDate);
    WholeDaysMonotone(sub.endDate.instant - sub.requestDate, now - sub.requestDate);
    DivideMonotone(total as real, elapsed as real, total as real);
    assert total as real / total as real == 1.0;
    assert elapsed as real / total as real * 100.0 >= 100.0;
  }

  /**
   * A window of zero whole days (end less than a day from `requestDate` either
   * way): 100 once a full day has passed, 0 a full day before, NaN in between.
   */
  lemma {:induction false} ZeroLengthWindow(sub: Submission, now: int)
    requires sub.status == Successful && sub.endDate.At? && -DayMs < sub.endDate.instant - sub.requestDate < DayMs
    ensures now - sub.requestDate >= DayMs ==> RenewalProgress(sub, now) == Percent(100.0)
    ensures now - sub.requestDate <= -DayMs ==> RenewalProgress(sub, now) == Percent(0.0)
    ensures -DayMs < now - sub.requestDate < DayMs ==> RenewalProgress(sub, now) == NotANumber
  {
    DifferenceInDaysNegativeIff(sub.endDate.instant, sub.requestDate);
    DifferenceInDaysAtMostIff(sub.endDate.instant, sub.requestDate, 0);
    DifferenceInDaysNegativeIff(now, sub.requestDate);
    DifferenceInDaysAtMostIff(now, sub.requestDate, 0);
  }

  datatype ProgressColor = Red | Yellow | Green

  /** The bar colour, decided on the unrounded percentage; NaN compares false and gets green. */
  function ProgressColorOf(p: Progress): (c: ProgressColor)
    requires !p.ProgressNotApplicable?
    ensures c == Red ==> p.Percent? && p.value >= 90.0
    ensures c == Yellow ==> p.Percent? && 75.0 <= p.value < 90.0
    ensures c == Green <==> p.NotANumber? || p.value < 75.0
  {
    match p
    case Percent(v) => if v >= 90.0 then Red else if v >= 75.0 then Yellow else Green
    case NotANumber => Green
  }

  /**
   * `progress.toFixed(0)` for a percentage in [0, 100]: the nearest whole
   * number, a tie going to the larger one.
   */
  function ShownPercent(v: real): (n: int)
    requires 0.0 <= v <= 100.0
    ensures n as real - 0.5 <= v < n as real + 0.5
  {
    (v + 0.5).Floor
  }

  /**
   * The colour is decided on the unrounded value, so the label and the
   * colour disagree exactly on [89.5, 90) (shown as 90%, yet yellow) and on
   * [74.5, 75) (shown as 75%, yet green); elsewhere red means a label of at
   * least 90 and yellow a label from 75 to 89.
   */
  lemma {:induction false} ColorUsesUnroundedValue(v: real)
    requires 0.0 <= v <= 100.0
    ensures ShownPercent(v) >= 90 && ProgressColorOf(Percent(v)) != Red <==> 89.5 <= v < 90.0
    ensures 75 <= ShownPercent(v) < 90 && ProgressColorOf(Percent(v)) != Yellow <==> 74.5 <= v < 75.0
    ensures ProgressColorOf(Percent(v)) == Red ==> ShownPercent(v) >= 90
    ensures ProgressColorOf(Percent(v)) == Yellow ==> 75 <= ShownPercent(v) <= 90
  {
    var n := ShownPercent(v);
    assert n >= 90 <==> v >= 89.5;
    assert n >= 75 <==> v >= 74.5;
  }

  // =====================================================================
  // The working set
  // =====================================================================

  /** The component state of the submission table. */
  class Dashboard {
    var submissions: seq<Submission>
    var searchTerm: string
    var statusFilter: StatusFilter
    var resellerFilter: ResellerFilter
    var currentPage: int
    var itemsPerPage: nat
    var selectedIds: seq<string>
    var accountToDelete: Option<DeleteTarget>

    ghost predicate Valid()
      reads this
    {
      itemsPerPage in PageSizes
    }

    constructor (initial: seq<Submission>)
      ensures Valid()
      ensures submissions == initial && selectedIds == [] && accountToDelete == None
      ensures searchTerm == "" && statusFilter == AllStatuses && resellerFilter == AllResellers
      ensures currentPage == 1 && itemsPerPage == 10
    {
      submissions := initial;
      searchTerm := "";
      statusFilter := AllStatuses;
      resellerFilter := AllResellers;
      currentPage := 1;
      itemsPerPage := 10;
      selectedIds := [];
      accountToDelete := None;
    }

    /** The list after search, filters and ordering. */
    function Filtered(): seq<Submission>
      reads this
    {
      FilteredSubmissions(submissions, searchTerm, statusFilter, resellerFilter)
    }

    /** `totalPages`: the number of pages of the filtered list. */
    function PageCount(): nat
      reads this
      requires Valid()
    {
      assert itemsPerPage > 0;
      TotalPages(|Filtered()|, itemsPerPage)
    }

    /** The rows on the current page. */
    function CurrentSubmissions(): seq<Submission>
      reads this
    {
      PageItems(Filtered(), currentPage, itemsPerPage)
    }

    /** A new server list replaces the working set. */
    method ReceiveSubmissions(incoming: seq<Submission>)
      modifies this`submissions
      ensures submissions == incoming
    {
      submissions := incoming;
    }

    /**
     * `handleStatusUpdate`: a no-op when the id is not in the working set;
     * otherwise the optimistic step, then either the server's record or the
     * snapshot taken before the optimistic step (on a null record or a throw).
     */
    method HandleStatusUpdate(id: string, newStatus: Status, now: int, reply: UpdateReply) returns (called: bool)
      modifies this`submissions
      ensures called == HasId(old(submissions), id)
      ensures !called ==> submissions == old(submissions)
      ensures called ==> submissions == ReplaceById(
        MarkStatus(old(submissions), id, newStatus, now), id,
        if reply.Replied? && reply.submission.Some? then reply.submission.value
        else FindById(old(submissions), id).value)
    {
      var original := FindById(submissions, id);
      if original.None? {
        return false;
      }
      called := true;
      submissions := MarkStatus(submissions, id, newStatus, now);
      match reply {
        case Replied(Some(record)) =>
          submissions := ReplaceById(submissions, id, record);
        case Replied(None) =>
          submissions := ReplaceById(submissions, id, original.value);
        case UpdateThrew =>
          submissions := ReplaceById(submissions, id, original.value);
      }
    }

    /** The profile-name effect: an error-free state carrying a submission replaces the entries with its id. */
    method ApplyProfileNameFormState(state: ProfileNameFormState)
      modifies this`submissions
      ensures if state.message != "" && !state.hasErrors && state.submission.Some?
        then submissions == ReplaceById(old(submissions), state.submission.value.id, state.submission.value)
        else submissions == old(submissions)
    {
      if state.message != "" && !state.hasErrors && state.submission.Some? {
        var record := state.submission.value;
        submissions := ReplaceById(submissions, record.id, record);
      }
    }

    /** `handleDeleteClick`: remembers the account, keyed by its store `_id` when it has one. */
    method HandleDeleteClick(sub: Submission)
      modifies this`accountToDelete
      ensures accountToDelete == Some(DeleteTargetFor(sub))
    {
      accountToDelete := Some(DeleteTargetFor(sub));
    }

    /**
     * `handleDeleteConfirm`: without a chosen account nothing happens and no
     * call is made; otherwise a `true` result removes the entries whose `id`
     * equals the chosen id, a `false` or a throw leaves the list, and the
     * choice is cleared in every case.
     */
    method HandleDeleteConfirm(reply: DeleteReply) returns (called: bool)
      modifies this`submissions, this`accountToDelete
      ensures called == old(accountToDelete).Some?
      ensures accountToDelete == None
      ensures called && reply == Answered(true) ==> submissions == RemoveId(old(submissions), old(accountToDelete).value.id)
      ensures !(called && reply == Answered(true)) ==> submissions == old(submissions)
    {
      if accountToDelete.None? {
        return false;
      }
      called := true;
      var target := accountToDelete.value;
      if reply == Answered(true) {
        submissions := RemoveId(submissions, target.id);
      }
      accountToDelete := None;
    }

    /**
     * `handleBulkDelete`: one delete call per selected id, in order. The
     * boolean results are ignored; the first throw ends the loop and leaves
     * both the list and the selection as they were. Without a throw every
     * selected id leaves the list and the selection is cleared.
     * `replies[i]` is the outcome of the i-th call.
     */
    method HandleBulkDelete(replies: seq<DeleteReply>) returns (attempted: seq<string>)
      requires |replies| == |selectedIds|
      modifies this`submissions, this`selectedIds
      ensures |attempted| <= |old(selectedIds)| && attempted == old(selectedIds)[..|attempted|]
      ensures NoThrow(replies) ==>
        attempted == old(selectedIds) && selectedIds == [] &&
        submissions == RemoveIds(old(submissions), old(selectedIds))
      ensures !NoThrow(replies) ==>
        |attempted| > 0 && replies[|attempted| - 1].DeleteThrew? && NoThrow(replies[..|attempted| - 1]) &&
        submissions == old(submissions) && selectedIds == old(selectedIds)
    {
      attempted := [];
      var i := 0;
      while i < |selectedIds|
        invariant 0 <= i <= |selectedIds|
        invariant attempted == selectedIds[..i]
        invariant NoThrow(replies[..i])
      {
        attempted := attempted + [selectedIds[i]];
        if replies[i].DeleteThrew? {
          assert attempted == selectedIds[..i + 1];
          return;
        }
        assert replies[..i + 1] == replies[..i] + [replies[i]];
        i := i + 1;
      }
      assert replies[..i] == replies;
      assert attempted == selectedIds;
      submissions := RemoveIds(submissions, selectedIds);
      selectedIds := [];
    }

    /** `toggleSelect`. */
    method ToggleSelect(id: string)
      modifies this`selectedIds
      ensures selectedIds == Toggled(old(selectedIds), id)
    {
      selectedIds := Toggled(selectedIds, id);
    }

    /** `selectAll`: the selection becomes the ids of the filtered list, in its order. */
    method SelectAll()
      modifies this`selectedIds
      ensures selectedIds == IdsOf(Filtered())
      ensures AllSelectedFor(Filtered(), selectedIds) <==> |Filtered()| > 0
    {
      selectedIds := IdsOf(Filtered());
    }

    /** `deselectAll`. */
    method DeselectAll()
      modifies this`selectedIds
      ensures selectedIds == []
    {
      selectedIds := [];
    }

    /** The search box; the page is not reset. */
    method SetSearchTerm(term: string)
      modifies this`searchTerm
      ensures searchTerm == term
    {
      searchTerm := term;
    }

    /** The status and reseller selectors; the page is not reset. */
    method SetFilters(sf: StatusFilter, rf: ResellerFilter)
      modifies this`statusFilter, this`resellerFilter
      ensures statusFilter == sf && resellerFilter == rf
    {
      statusFilter, resellerFilter := sf, rf;
    }

    /** `handlePageChange`, as the first/previous/next/last buttons call it. */
    method HandlePageChange(page: int)
      modifies this`currentPage
      ensures currentPage == page
    {
      currentPage := page;
    }

    /** The page-number box: a parsed number between 1 and the page count is taken, anything else ignored. */
    method HandlePageInput(parsed: Option<int>)
      requires Valid()
      modifies this`currentPage
      ensures var total := old(PageCount());
        if parsed.Some? && 0 < parsed.value <= total then currentPage == parsed.value
        else currentPage == old(currentPage)
    {
      var total := PageCount();
      if parsed.Some? && 0 < parsed.value <= total {
        currentPage := parsed.value;
      }
    }

    /** `handleItemsPerPageChange`: a new page size sends the table back to page 1. */
    method HandleItemsPerPageChange(size: nat)
      requires size in PageSizes
      modifies this`itemsPerPage, this`currentPage
      ensures Valid()
      ensures itemsPerPage == size && currentPage == 1
      ensures CurrentSubmissions() == PageItems(Filtered(), 1, size)
    {
      itemsPerPage := size;
      currentPage := 1;
    }
  }

  /** The dialog state of one row's `RenewalButton`. */
  class RenewalButton {
    var dialogOpen: bool
    var renewalMonths: int

    constructor ()
      ensures !dialogOpen && renewalMonths == 1
    {
      dialogOpen := false;
      renewalMonths := 1;
    }

    method OpenDialog()
      modifies this`dialogOpen
      ensures dialogOpen
    {
      dialogOpen := true;
    }

    /** The months field: `parseInt(value) || 1`. */
    method SetMonthsInput(parsed: Option<int>)
      modifies this`renewalMonths
      ensures renewalMonths == RenewalMonthsFromInput(parsed)
    {
      renewalMonths := RenewalMonthsFromInput(parsed);
    }

    /**
     * `handleRenew` for the row's submission: no call without an end date;
     * otherwise one `updateSubmissionStatus(id, 'Successful', renewalMonths)`
     * call. A renewed record closes the dialog and resets the months to 1; a
     * null record or a throw leaves both.
     */
    method HandleRenew(sub: Submission, reply: RenewReply) returns (call: Option<RenewCall>)
      modifies this`dialogOpen, this`renewalMonths
      ensures call == if sub.endDate.NoEndDate? then None else Some(RenewCall(sub.id, Successful, old(renewalMonths)))
      ensures call.Some? && reply.Renewed? ==> !dialogOpen && renewalMonths == 1
      ensures !(call.Some? && reply.Renewed?) ==> dialogOpen == old(dialogOpen) && renewalMonths == old(renewalMonths)
    {
      if sub.endDate.NoEndDate? {
        return None;
      }
      call := Some(RenewCall(sub.id, Successful, renewalMonths));
      if reply.Renewed? {
        dialogOpen := false;
        renewalMonths := 1;
      }
    }
  }
}
