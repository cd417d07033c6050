/** `IndentService` (features/purchase-indents/services/indent.service.ts):
    indent numbering, creation with line totals, the filtered and paged
    list, the approve/reject/status rewrites and deletion. The two tables
    are an `IndentStore`; the database-generated id and timestamp, the
    clock's year, and the success of each query are parameters. */
module IndentService {
  import opened Common
  import opened Text
  import opened Time
  import opened Paging
  import opened Numbering
  import opened IndentModel

  const IndentPrefix: string := "IND"
  const IndentSerialWidth: nat := 3

  // ---------------------------------------------------------------- numbering

  /** Midnight at the start of 31 December, the upper bound the count query
      uses. */
  function LastDayMidnight(year: int): DateTime {
    DateTime(Date(year, 12, 31), 0)
  }

  /** The `created_at` window of the count query as written: from 1 January
      00:00 up to and including 31 December 00:00. */
  predicate InCountWindowAsWritten(t: DateTime, year: int) {
    Ticks(StartOfYear(year)) <= Ticks(t) <= Ticks(LastDayMidnight(year))
  }

  function CreatedInWindowAsWritten(year: int): Indent -> bool {
    (i: Indent) => InCountWindowAsWritten(i.createdAt, year)
  }

  /** Indents created in calendar year `year`. */
  function CreatedIn(year: int): Indent -> bool {
    (i: Indent) => i.createdAt.date.year == year
  }

  /** `"IND-" + year + "-" + pad3(count + 1)`, where a failed count reads as 0. */
  function NumberFromCount(year: nat, count: Option<nat>): string {
    DocumentNumber(IndentPrefix, year, count.GetOr(0) + 1, IndentSerialWidth)
  }

  /** `generateIndentNumber`, with the count query as written: the window
      runs from 1 January 00:00 to 31 December 00:00, so the count misses
      everything created on 31 December after midnight. The number reads
      back as the year and one more than the indents in that window (1 when
      the count fails). */
  function GenerateIndentNumberAsWritten(indents: seq<Indent>, year: nat, countOk: bool): (r: string)
    ensures countOk ==>
      ParseDocumentNumber(IndentPrefix, r) == Some((year, Count(indents, CreatedInWindowAsWritten(year)) + 1))
    ensures !countOk ==> ParseDocumentNumber(IndentPrefix, r) == Some((year, 1))
  {
    var count := if countOk then Some(Count(indents, CreatedInWindowAsWritten(year))) else None;
    var n := count.GetOr(0) + 1;
    assert n == if countOk then Count(indents, CreatedInWindowAsWritten(year)) + 1 else 1;
    DocumentNumberRoundTrip(IndentPrefix, year, n, IndentSerialWidth);
    assert NumberFromCount(year, count) == DocumentNumber(IndentPrefix, year, n, IndentSerialWidth);
    NumberFromCount(year, count)
  }

  /** `generateIndentNumber` with the count corrected to the whole calendar
      year. The number reads back as the year and one more than the indents
      of that year (1 when the count fails). */
  function GenerateIndentNumberCorrected(indents: seq<Indent>, year: nat, countOk: bool): (r: string)
    ensures countOk ==> ParseDocumentNumber(IndentPrefix, r) == Some((year, Count(indents, CreatedIn(year)) + 1))
    ensures !countOk ==> ParseDocumentNumber(IndentPrefix, r) == Some((year, 1))
  {
    var count := if countOk then Some(Count(indents, CreatedIn(year))) else None;
    var n := count.GetOr(0) + 1;
    assert n == if countOk then Count(indents, CreatedIn(year)) + 1 else 1;
    DocumentNumberRoundTrip(IndentPrefix, year, n, IndentSerialWidth);
    assert NumberFromCount(year, count) == DocumentNumber(IndentPrefix, year, n, IndentSerialWidth);
    NumberFromCount(year, count)
  }

  /** Created on 31 December of `year`, after midnight: the instants the
      query as written leaves out. */
  predicate LateOnLastDay(t: DateTime, year: int) {
    t.date == Date(year, 12, 31) && t.ms > 0
  }

  /** The window as written is the calendar year less 31 December after
      midnight. */
  lemma {:induction false} WindowAsWrittenIsYearLessLastDay(t: DateTime, year: int)
    requires Valid(t)
    ensures InCountWindowAsWritten(t, year) <==> t.date.year == year && !LateOnLastDay(t, year)
  {
    var y := t.date.year;
    var off := (t.date.month - 1) * 31 + (t.date.day - 1);
    InYearWindow(t, y);
    assert Ticks(StartOfYear(year)) == year * 372 * MsPerDay;
    assert Ticks(LastDayMidnight(year)) == year * 372 * MsPerDay + 371 * MsPerDay;
    assert Ticks(t) == y * 372 * MsPerDay + off * MsPerDay + t.ms;
    if y < year {
      StartOfYearMonotone(y + 1, year);
    } else if y > year {
      StartOfYearMonotone(year + 1, y);
      assert Ticks(StartOfYear(year + 1)) == year * 372 * MsPerDay + 372 * MsPerDay;
    } else if off < 371 {
      assert off * MsPerDay <= 370 * MsPerDay;
    } else {
      assert t.date.month == 12 && t.date.day == 31;
    }
  }

  /** Both counts agree unless some indent of the year was created on
      31 December after midnight. */
  lemma {:induction false} AsWrittenAgreesOffLastDay(indents: seq<Indent>, year: nat, countOk: bool)
    requires forall i :: 0 <= i < |indents| ==> Valid(indents[i].createdAt)
    requires forall i :: 0 <= i < |indents| ==> !LateOnLastDay(indents[i].createdAt, year)
    ensures GenerateIndentNumberAsWritten(indents, year, countOk) == GenerateIndentNumberCorrected(indents, year, countOk)
  {
    forall i | 0 <= i < |indents| {
      WindowAsWrittenIsYearLessLastDay(indents[i].createdAt, year);
    }
    CountSame(indents, CreatedInWindowAsWritten(year), CreatedIn(year));
  }

  /** The serial has exactly three digits while the year has fewer than 999
      indents, and is never truncated beyond that. */
  lemma IndentSerialWidthHolds(year: nat, count: nat)
    ensures |Serial(count + 1, IndentSerialWidth)| == 3 <==> count + 1 <= 999
    ensures |Serial(count + 1, IndentSerialWidth)| >= 3
  {
    SerialDigits(count + 1, IndentSerialWidth);
    assert Pow10(3) == 1000;
  }

  /** The corrected count is the half-open window from 1 January of `year`
      to 1 January of the next year. */
  lemma {:induction false} CountThisYearIsWindow(indents: seq<Indent>, year: int)
    requires forall i :: 0 <= i < |indents| ==> Valid(indents[i].createdAt)
    ensures Count(indents, CreatedIn(year))
         == Count(indents, (i: Indent) => Ticks(StartOfYear(year)) <= Ticks(i.createdAt) < Ticks(StartOfYear(year + 1)))
  {
    forall i | 0 <= i < |indents| {
      InYearWindow(indents[i].createdAt, year);
    }
    CountSame(indents, CreatedIn(year),
      (i: Indent) => Ticks(StartOfYear(year)) <= Ticks(i.createdAt) < Ticks(StartOfYear(year + 1)));
  }

  /** As written, an indent created on 31 December after midnight is not
      counted, so the next indent of that day receives the same number. */
  lemma DecemberIndentRepeatsNumber(indents: seq<Indent>, year: nat, ind: Indent)
    requires ind.createdAt.date == Date(year, 12, 31) && 0 < ind.createdAt.ms
    ensures GenerateIndentNumberAsWritten(indents + [ind], year, true)
         == GenerateIndentNumberAsWritten(indents, year, true)
  {
    assert Ticks(ind.createdAt) == Ticks(LastDayMidnight(year)) + ind.createdAt.ms;
    assert !CreatedInWindowAsWritten(year)(ind);
    CountAppend(indents, [ind], CreatedInWindowAsWritten(year));
    assert [ind][1..] == [];
    assert Count(indents + [ind], CreatedInWindowAsWritten(year)) == Count(indents, CreatedInWindowAsWritten(year));
  }

  /** With the corrected count, recording an indent of the year always
      changes the next number, whatever day it was created on. */
  lemma NextNumberAdvances(indents: seq<Indent>, year: nat, ind: Indent)
    requires ind.createdAt.date.year == year
    ensures GenerateIndentNumberCorrected(indents + [ind], year, true) != GenerateIndentNumberCorrected(indents, year, true)
  {
    CountAppend(indents, [ind], CreatedIn(year));
    assert [ind][1..] == [];
  }

  // ----------------------------------------------------------------- creation

  datatype IndentStore = IndentStore(indents: seq<Indent>, items: seq<IndentItem>)

  /** A line of the creation request, as the form sends it. */
  datatype ItemInput = ItemInput(
    itemId: Option<string>,
    itemName: string,
    description: Option<string>,
    quantity: int,
    unit: string,
    estimatedPrice: Option<int>)

  /** The payload of `createIndent`. `status`, `approvedBy`, `approvedAt` and
      `assignedTo` are sent by the form but are not part of the stored row. */
  datatype CreateIndentRequest = CreateIndentRequest(
    title: Option<string>,
    department: string,
    priority: string,
    requiredDate: string,
    requestedBy: Option<string>,
    assignedTo: string,
    notes: Option<string>,
    status: IndentStatus,
    approvedBy: Option<string>,
    approvedAt: Option<DateTime>,
    items: seq<ItemInput>)

  /** `total_price`: quantity times price when a non-zero price is given,
      otherwise absent. */
  function LineTotal(it: ItemInput): (r: Option<int>)
    ensures r.None? <==> it.estimatedPrice.None? || it.estimatedPrice.value == 0
    ensures r.Some? ==> r.value == it.quantity * it.estimatedPrice.value
  {
    if it.estimatedPrice.Some? && it.estimatedPrice.value != 0
    then Some(it.quantity * it.estimatedPrice.value)
    else None
  }

  /** A request line as a row, not yet linked to an indent. */
  function PrepareItem(it: ItemInput): IndentItem {
    IndentItem(None, it.itemId, it.itemName, it.description, it.quantity, it.unit, it.estimatedPrice, LineTotal(it))
  }

  /** `total_price ?? 0`. */
  function StoredLineTotal(it: IndentItem): int {
    it.totalPrice.GetOr(0)
  }

  /** `quantity * price`, with a missing price as 0. */
  function EstimatedValue(it: ItemInput): int {
    it.quantity * it.estimatedPrice.GetOr(0)
  }

  /** `total_amount` is the sum of quantity times price over the lines:
      leaving out the lines without a price loses nothing. */
  lemma {:induction false} TotalAmountIsPriceSum(inputs: seq<ItemInput>)
    ensures SumOf(Map(inputs, PrepareItem), StoredLineTotal) == SumOf(inputs, EstimatedValue)
  {
    if |inputs| > 0 {
      TotalAmountIsPriceSum(inputs[1..]);
      assert Map(inputs, PrepareItem)[1..] == Map(inputs[1..], PrepareItem);
    }
  }

  /** Lines linked to indent `id`. */
  function LinkItem(id: string): IndentItem -> IndentItem {
    (it: IndentItem) => it.(indentId := Some(id))
  }

  /** The row `createIndent` inserts. */
  function NewIndent(req: CreateIndentRequest, number: string, id: string, now: DateTime, total: int): Indent {
    Indent(id, number, req.title, req.department, req.priority, req.requiredDate, Pending, total,
      req.notes, req.requestedBy, None, None, None, now, None)
  }

  datatype CreateOutcome = CreateOutcome(result: Result<Indent>, store: IndentStore)

  /** `createIndent`. The stored indent is always pending with no approver,
      whatever the request says. A failed indent insert changes nothing; a
      failed item insert reports failure but leaves the indent in place. */
  function CreateIndent(store: IndentStore, req: CreateIndentRequest, year: nat, newId: string, now: DateTime,
                        countOk: bool, insertOk: bool, itemsOk: bool): (o: CreateOutcome)
    ensures !insertOk ==> o.result.Failure? && o.store == store
    ensures insertOk ==>
      |o.store.indents| == |store.indents| + 1 && o.store.indents[..|store.indents|] == store.indents
    ensures insertOk ==>
      var c := o.store.indents[|store.indents|];
      c.id == newId && c.status == Pending
      && c.approvedBy.None? && c.approvedAt.None? && c.rejectionReason.None?
      && c.indentNumber == GenerateIndentNumberAsWritten(store.indents, year, countOk)
      && c.totalAmount == SumOf(req.items, EstimatedValue)
      && c.createdAt == now && c.updatedAt.None?
      && c.title == req.title && c.department == req.department && c.priority == req.priority
      && c.requiredDate == req.requiredDate && c.notes == req.notes && c.requestedBy == req.requestedBy
    ensures insertOk && itemsOk ==>
      o.result == Success(o.store.indents[|store.indents|])
      && |o.store.items| == |store.items| + |req.items|
      && o.store.items[..|store.items|] == store.items
      && forall k :: 0 <= k < |req.items| ==>
           o.store.items[|store.items| + k] == PrepareItem(req.items[k]).(indentId := Some(newId))
    ensures insertOk && !itemsOk ==> o.result.Failure? && o.store.items == store.items
  {
    var number := GenerateIndentNumberAsWritten(store.indents, year, countOk);
    var ready := Map(req.items, PrepareItem);
    TotalAmountIsPriceSum(req.items);
    var created := NewIndent(req, number, newId, now, SumOf(ready, StoredLineTotal));
    if !insertOk then CreateOutcome(Failure("indent insert failed"), store)
    else
      var withIndent := store.(indents := store.indents + [created]);
      if !itemsOk then CreateOutcome(Failure("item insert failed"), withIndent)
      else
        var linked := Map(ready, LinkItem(newId));
        assert (store.items + linked)[..|store.items|] == store.items;
        CreateOutcome(Success(created), withIndent.(items := store.items + linked))
  }

  /** The status, approver, approval time and assignee in the request have
      no effect on what is stored. */
  lemma CreateIgnoresRequestedApproval(store: IndentStore, req: CreateIndentRequest, year: nat, newId: string,
      now: DateTime, countOk: bool, insertOk: bool, itemsOk: bool,
      status: IndentStatus, approvedBy: Option<string>, approvedAt: Option<DateTime>, assignedTo: string)
    ensures CreateIndent(store, req.(status := status, approvedBy := approvedBy, approvedAt := approvedAt, assignedTo := assignedTo),
                         year, newId, now, countOk, insertOk, itemsOk)
         == CreateIndent(store, req, year, newId, now, countOk, insertOk, itemsOk)
  {
  }

  /** Some indent of the store has id `id`. */
  predicate HasIndent(indents: seq<Indent>, id: string) {
    exists i :: 0 <= i < |indents| && indents[i].id == id
  }

  /** Every linked item refers to an existing indent. */
  predicate NoOrphans(store: IndentStore) {
    forall k :: 0 <= k < |store.items| && store.items[k].indentId.Some? ==>
      HasIndent(store.indents, store.items[k].indentId.value)
  }

  /** Creation never leaves an item pointing at a missing indent. */
  lemma CreatePreservesNoOrphans(store: IndentStore, req: CreateIndentRequest, year: nat, newId: string,
      now: DateTime, countOk: bool, insertOk: bool, itemsOk: bool)
    requires NoOrphans(store)
    ensures NoOrphans(CreateIndent(store, req, year, newId, now, countOk, insertOk, itemsOk).store)
  {
    var o := CreateIndent(store, req, year, newId, now, countOk, insertOk, itemsOk);
    if insertOk {
      var n := |store.indents|;
      assert o.store.indents[n].id == newId;
      forall k | 0 <= k < |o.store.items| && o.store.items[k].indentId.Some?
        ensures HasIndent(o.store.indents, o.store.items[k].indentId.value)
      {
        if k < |store.items| {
          assert o.store.items[k] == store.items[k];
          var x := store.items[k].indentId.value;
          var j :| 0 <= j < |store.indents| && store.indents[j].id == x;
          assert o.store.indents[j] == store.indents[j];
        }
      }
    }
  }

  // ------------------------------------------------------------------ listing

  /** The query of `list`; absent fields take their defaults. */
  datatype IndentQuery = IndentQuery(
    role: Option<string>,
    userId: Option<string>,
    page: Option<int>,
    pageSize: Option<int>,
    search: Option<string>,
    status: Option<string>,
    priority: Option<string>)

  /** The query used when none is given. */
  const DefaultQuery: IndentQuery :=
    IndentQuery(Some("all"), Some("all"), None, None, None, None, None)

  const DefaultPage: int := 1
  const DefaultPageSize: int := 20

  /** The inclusive row range: page `page` (from 1) of `pageSize` rows. */
  function ListRange(q: IndentQuery): (r: (int, int))
    ensures r == PageRange(q.page.GetOr(DefaultPage) - 1, q.pageSize.GetOr(DefaultPageSize))
  {
    var page := q.page.GetOr(DefaultPage);
    var size := q.pageSize.GetOr(DefaultPageSize);
    var from := (page - 1) * size;
    (from, from + size - 1)
  }

  /** A text filter that is present and not `'all'`. */
  predicate Selective(v: Option<string>) {
    Truthy(v) && v.value != "all"
  }

  /** Whether the query restricts the list to one requester. */
  predicate StaffScoped(q: IndentQuery) {
    q.role == Some("staff") && Truthy(q.userId)
  }

  predicate IndentMatches(q: IndentQuery, ind: Indent) {
    (!Truthy(q.search) || Trim(q.search.value) == ""
      || ContainsIgnoreCase(ind.indentNumber, q.search.value)
      || ContainsIgnoreCase(ind.department, q.search.value))
    && (!Selective(q.status) || StatusName(ind.status) == q.status.value)
    && (!Selective(q.priority) || ind.priority == q.priority.value)
    && (!StaffScoped(q) || ind.requestedBy == q.userId)
  }

  function MatchesQuery(q: IndentQuery): Indent -> bool {
    (i: Indent) => IndentMatches(q, i)
  }

  datatype IndentPage = IndentPage(rows: seq<Indent>, total: nat)

  /** `list` over the indents in `created_at`-descending order; `ok` is false
      when the query fails, which is reported as an error. */
  function ListIndents(indents: seq<Indent>, q: IndentQuery, ok: bool): (r: Result<IndentPage>)
    ensures r.Failure? <==> !ok
    ensures ok ==> r.value.total == Count(indents, MatchesQuery(q))
    ensures ok ==> forall i :: 0 <= i < |r.value.rows| ==> IndentMatches(q, r.value.rows[i]) && r.value.rows[i] in indents
    ensures ok && StaffScoped(q) ==> forall i :: 0 <= i < |r.value.rows| ==> r.value.rows[i].requestedBy == q.userId
    ensures ok && q.pageSize.GetOr(DefaultPageSize) >= 0 ==> |r.value.rows| <= q.pageSize.GetOr(DefaultPageSize)
    ensures ok && ListRange(q).0 >= 0 ==>
      var matching, from := Filter(indents, MatchesQuery(q)), Min(ListRange(q).0, Count(indents, MatchesQuery(q)));
      from + |r.value.rows| <= |matching| && r.value.rows == matching[from..from + |r.value.rows|]
    ensures ok && ListRange(q).0 >= 0 && q.pageSize.GetOr(DefaultPageSize) >= 0 ==>
      var from, size, n := ListRange(q).0, q.pageSize.GetOr(DefaultPageSize), Count(indents, MatchesQuery(q));
      |r.value.rows| == if from >= n then 0 else Min(size, n - from)
  {
    if !ok then Failure("indent list query failed")
    else
      var matching := Filter(indents, MatchesQuery(q));
      var range := ListRange(q);
      var size := q.pageSize.GetOr(DefaultPageSize);
      assert range.1 == range.0 + size - 1;
      assert |matching| == Count(indents, MatchesQuery(q));
      SliceLength(matching, range.0, size);
      Success(IndentPage(Slice(matching, range.0, range.1), |matching|))
  }

  /** Only a staff query with a user id narrows the list: every other role,
      viewer included, sees every indent. */
  lemma NonStaffUnfiltered(indents: seq<Indent>, q: IndentQuery, ok: bool)
    requires !StaffScoped(q)
    ensures ListIndents(indents, q, ok) == ListIndents(indents, q.(userId := None), ok)
  {
    var b := q.(userId := None);
    assert !StaffScoped(b) && ListRange(q) == ListRange(b);
    assert forall i :: 0 <= i < |indents| ==> IndentMatches(q, indents[i]) == IndentMatches(b, indents[i]);
    FilterSame(indents, MatchesQuery(q), MatchesQuery(b));
  }

  /** A status or priority of `'all'` filters nothing. */
  lemma AllFiltersNothing(indents: seq<Indent>, q: IndentQuery, ok: bool)
    ensures ListIndents(indents, q.(status := Some("all"), priority := Some("all")), ok)
         == ListIndents(indents, q.(status := None, priority := None), ok)
  {
    var a := q.(status := Some("all"), priority := Some("all"));
    var b := q.(status := None, priority := None);
    assert !Selective(a.status) && !Selective(a.priority);
    assert StaffScoped(a) == StaffScoped(b) && ListRange(a) == ListRange(b);
    assert forall i :: 0 <= i < |indents| ==> IndentMatches(a, indents[i]) == IndentMatches(b, indents[i]);
    FilterSame(indents, MatchesQuery(a), MatchesQuery(b));
  }

  /** The default query lists the first 20 indents. */
  lemma DefaultRange()
    ensures ListRange(DefaultQuery) == (0, 19)
  {
  }

  /** The page number selects rows but filters nothing. */
  lemma PageFiltersNothing(indents: seq<Indent>, q: IndentQuery, page: Option<int>)
    ensures Filter(indents, MatchesQuery(q.(page := page))) == Filter(indents, MatchesQuery(q))
  {
    var q' := q.(page := page);
    assert StaffScoped(q') == StaffScoped(q);
    assert forall i :: 0 <= i < |indents| ==> IndentMatches(q', indents[i]) == IndentMatches(q, indents[i]);
    FilterSame(indents, MatchesQuery(q'), MatchesQuery(q));
  }

  /** A successful list returns the requested range of the matching indents. */
  lemma ListRowsAreSlice(indents: seq<Indent>, q: IndentQuery)
    ensures ListIndents(indents, q, true).value.rows
         == Slice(Filter(indents, MatchesQuery(q)), ListRange(q).0, ListRange(q).1)
  {
  }

  /** Page `j + 1` of the list, as a successful `list` returns it. */
  function ListPage(indents: seq<Indent>, q: IndentQuery): nat -> seq<Indent> {
    (j: nat) => ListIndents(indents, q.(page := Some(j + 1)), true).value.rows
  }

  /** Paging through the list from page 1 to page k reads the matching
      indents in order, each exactly once: the first `span` of them, where
      `span` is the `k * size` rows the k pages cover. */
  lemma ListPagesAreFilter(indents: seq<Indent>, q: IndentQuery, size: nat, k: nat, span: nat)
    requires q.pageSize.GetOr(DefaultPageSize) == size && span == k * size
    ensures var matching := Filter(indents, MatchesQuery(q));
      ReadAll(ListPage(indents, q), k) == matching[..Min(span, |matching|)]
  {
    var matching := Filter(indents, MatchesQuery(q));
    forall j: nat
      ensures ListPage(indents, q)(j) == Slice(matching, PageRange(j, size).0, PageRange(j, size).1)
    {
      var q' := q.(page := Some(j + 1));
      assert ListPage(indents, q)(j) == Slice(matching, PageRange(j, size).0, PageRange(j, size).1) by {
        assert ListPage(indents, q)(j) == ListIndents(indents, q', true).value.rows;
        ListRowsAreSlice(indents, q');
        PageFiltersNothing(indents, q, Some(j + 1));
        assert ListRange(q') == PageRange(j, size);
      }
    }
    ReadAllTiles(matching, size, ListPage(indents, q), k);
  }

  // ------------------------------------------------------------------- review

  /** `approve`: approved by `approverId` at `now`, with any earlier rejection
      reason cleared; nothing else changes and the prior status is not
      consulted. */
  function Approve(ind: Indent, approverId: string, now: DateTime): (r: Indent)
    ensures r.status == Approved && r.approvedBy == Some(approverId) && r.approvedAt == Some(now)
    ensures r.rejectionReason.None?
    ensures r.(status := ind.status, approvedBy := ind.approvedBy, approvedAt := ind.approvedAt,
               rejectionReason := ind.rejectionReason) == ind
  {
    ind.(status := Approved, approvedBy := Some(approverId), approvedAt := Some(now), rejectionReason := None)
  }

  /** `reject`: rejected with `reason`, with any earlier approval cleared;
      nothing else changes. */
  function Reject(ind: Indent, reason: string): (r: Indent)
    ensures r.status == Rejected && r.rejectionReason == Some(reason)
    ensures r.approvedBy.None? && r.approvedAt.None?
    ensures r.(status := ind.status, approvedBy := ind.approvedBy, approvedAt := ind.approvedAt,
               rejectionReason := ind.rejectionReason) == ind
  {
    ind.(status := Rejected, rejectionReason := Some(reason), approvedBy := None, approvedAt := None)
  }

  /** The last decision wins: approving after a rejection is the same as
      approving, and the other way round; repeating a decision changes nothing. */
  lemma LastDecisionWins(ind: Indent, approverId: string, now: DateTime, reason: string)
    ensures Approve(Reject(ind, reason), approverId, now) == Approve(ind, approverId, now)
    ensures Reject(Approve(ind, approverId, now), reason) == Reject(ind, reason)
    ensures Approve(Approve(ind, approverId, now), approverId, now) == Approve(ind, approverId, now)
    ensures Reject(Reject(ind, reason), reason) == Reject(ind, reason)
  {
  }

  /** Neither decision depends on the prior status: a completed or already
      rejected indent can be approved, and so on. */
  lemma DecisionsIgnorePriorStatus(ind: Indent, s: IndentStatus, approverId: string, now: DateTime, reason: string)
    ensures Approve(ind.(status := s), approverId, now) == Approve(ind, approverId, now)
    ensures Reject(ind.(status := s), reason) == Reject(ind, reason)
  {
  }

  /** `updateIndentStatus`. Status and `updated_at` always change. Approval
      records the time and, when an approver is given, the approver (an
      absent approver leaves the column as it was); it keeps any rejection
      reason. Rejection stores the reason, or nothing for an empty one. */
  function UpdateIndentStatus(ind: Indent, status: IndentStatus, reason: Option<string>,
                              approverId: Option<string>, now: DateTime): (r: Indent)
    ensures r.status == status && r.updatedAt == Some(now)
    ensures status == Approved ==> r.approvedAt == Some(now)
    ensures status == Approved && approverId.Some? ==> r.approvedBy == approverId
    ensures status != Approved || approverId.None? ==> r.approvedBy == ind.approvedBy
    ensures status != Approved ==> r.approvedAt == ind.approvedAt
    ensures status == Rejected ==> (r.rejectionReason.Some? <==> Truthy(reason))
    ensures status == Rejected && Truthy(reason) ==> r.rejectionReason == reason
    ensures status != Rejected ==> r.rejectionReason == ind.rejectionReason
    ensures r.(status := ind.status, updatedAt := ind.updatedAt, approvedBy := ind.approvedBy,
               approvedAt := ind.approvedAt, rejectionReason := ind.rejectionReason) == ind
  {
    var base := ind.(status := status, updatedAt := Some(now));
    var approved :=
      if status == Approved then
        base.(approvedBy := if approverId.Some? then approverId else ind.approvedBy, approvedAt := Some(now))
      else base;
    if status == Rejected then approved.(rejectionReason := if Truthy(reason) then reason else None)
    else approved
  }

  /** Unlike `approve`, approving through `updateIndentStatus` keeps an
      earlier rejection reason, and a rejection through it keeps an earlier
      approver. */
  lemma UpdateKeepsStaleFields(ind: Indent, approverId: string, now: DateTime, reason: string)
    requires ind.rejectionReason.Some? && ind.approvedBy.Some?
    ensures UpdateIndentStatus(ind, Approved, None, Some(approverId), now).rejectionReason == ind.rejectionReason
    ensures Approve(ind, approverId, now).rejectionReason.None?
    ensures UpdateIndentStatus(ind, Rejected, Some(reason), None, now).approvedBy == ind.approvedBy
    ensures Reject(ind, reason).approvedBy.None?
  {
  }

  /** The update does not depend on the prior status. */
  lemma UpdateIgnoresPriorStatus(ind: Indent, s: IndentStatus, status: IndentStatus, reason: Option<string>,
                                 approverId: Option<string>, now: DateTime)
    ensures UpdateIndentStatus(ind.(status := s), status, reason, approverId, now)
         == UpdateIndentStatus(ind, status, reason, approverId, now)
  {
  }

  /** Rows whose id is `id`. */
  function IsIndent(id: string): Indent -> bool {
    (i: Indent) => i.id == id
  }

  /** An `update ... eq('id', id)` on the indent table; a failed update is
      reported and changes nothing. */
  function UpdateWhereId(indents: seq<Indent>, id: string, f: Indent -> Indent, ok: bool): (r: Result<seq<Indent>>)
    ensures r.Failure? <==> !ok
    ensures ok ==> |r.value| == |indents|
    ensures ok ==> forall i :: 0 <= i < |indents| ==>
      r.value[i] == if indents[i].id == id then f(indents[i]) else indents[i]
  {
    if ok then Success(MapWhere(indents, IsIndent(id), f)) else Failure("indent update failed")
  }

  // ----------------------------------------------------------------- deletion

  /** Items of indent `id`. */
  function BelongsTo(id: string): IndentItem -> bool {
    (it: IndentItem) => it.indentId == Some(id)
  }

  function Not<T>(p: T -> bool): T -> bool {
    (x: T) => !p(x)
  }

  datatype DeleteOutcome = DeleteOutcome(result: Result<bool>, store: IndentStore)

  /** `deleteIndent`: first the items of the indent, then the indent. A
      failed item delete touches nothing; a failed indent delete leaves the
      indent without its items. */
  function DeleteIndent(store: IndentStore, id: string, itemsOk: bool, indentOk: bool): (o: DeleteOutcome)
    ensures o.result.Success? <==> itemsOk && indentOk
    ensures o.result.Success? ==> o.result.value
    ensures !itemsOk ==> o.store == store
    ensures itemsOk ==> o.store.items == Filter(store.items, Not(BelongsTo(id)))
    ensures itemsOk ==> forall k :: 0 <= k < |o.store.items| ==> o.store.items[k].indentId != Some(id)
    ensures !indentOk ==> o.store.indents == store.indents
    ensures itemsOk && indentOk ==> o.store.indents == Filter(store.indents, Not(IsIndent(id)))
    ensures itemsOk && indentOk ==> !HasIndent(o.store.indents, id)
  {
    if !itemsOk then DeleteOutcome(Failure("item delete failed"), store)
    else
      var withoutItems := store.(items := Filter(store.items, Not(BelongsTo(id))));
      if !indentOk then DeleteOutcome(Failure("indent delete failed"), withoutItems)
      else DeleteOutcome(Success(true), withoutItems.(indents := Filter(store.indents, Not(IsIndent(id)))))
  }

  /** Because items go first, no outcome of a delete leaves an item whose
      indent is gone. */
  lemma DeletePreservesNoOrphans(store: IndentStore, id: string, itemsOk: bool, indentOk: bool)
    requires NoOrphans(store)
    ensures NoOrphans(DeleteIndent(store, id, itemsOk, indentOk).store)
  {
    var o := DeleteIndent(store, id, itemsOk, indentOk);
    if itemsOk && indentOk {
      forall k | 0 <= k < |o.store.items| && o.store.items[k].indentId.Some?
        ensures HasIndent(o.store.indents, o.store.items[k].indentId.value)
      {
        var it := o.store.items[k];
        var x := it.indentId.value;
        assert it in store.items;
        var m :| 0 <= m < |store.items| && store.items[m] == it;
        var j :| 0 <= j < |store.indents| && store.indents[j].id == x;
        assert x != id;
        assert Not(IsIndent(id))(store.indents[j]);
        assert store.indents[j] in o.store.indents;
      }
    } else if itemsOk {
      forall k | 0 <= k < |o.store.items| && o.store.items[k].indentId.Some?
        ensures HasIndent(o.store.indents, o.store.items[k].indentId.value)
      {
        var it := o.store.items[k];
        var m :| 0 <= m < |store.items| && store.items[m] == it;
      }
    }
  }
}
