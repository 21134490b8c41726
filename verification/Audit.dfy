/** The audit reader (filter, stable sort, clamp, slice) and the export that pages through it. */
module Audit {
  import opened Wrappers

  /** A parsed audit line; `time` is None when the timestamp cannot be read. Instants are in microseconds. */
  datatype Entry = Entry(
    eventId: string,
    time: Option<int>,
    actorId: Option<string>,
    action: Option<string>,
    outcome: Option<string>,
    targetType: Option<string>,
    targetId: Option<string>,
    correlationId: Option<string>)

  /** Empty text and None mean "do not filter on this". */
  datatype Filters = Filters(
    actorId: string,
    action: string,
    outcome: string,
    targetType: string,
    targetId: string,
    correlationId: string,
    eventId: string,
    since: Option<int>,
    until: Option<int>)

  datatype Query = Query(filters: Filters, order: string, limit: int, offset: int)

  /** A log line that is not an audit row parses to None. */
  type Log = seq<Option<Entry>>

  type Lower = string -> string

  const MIN_INSTANT: int := -62135596800000000
  const DEFAULT_LIMIT: int := 50
  const MAX_LIMIT: int := 200
  const EXPORT_PAGE: int := 500

  // ----- Filtering -----

  predicate FoundAt(text: string, part: string, i: nat) {
    i + |part| <= |text| && text[i..i + |part|] == part
  }

  predicate Contains(text: string, part: string) {
    exists i :: 0 <= i <= |text| && FoundAt(text, part, i)
  }

  predicate Asked(wanted: string, actual: Option<string>) {
    wanted == [] || actual == Some(wanted)
  }

  predicate Matches(row: Entry, f: Filters, lower: Lower) {
    && (f.actorId != [] ==> Contains(lower(row.actorId.UnwrapOr([])), lower(f.actorId)))
    && Asked(f.action, row.action)
    && Asked(f.outcome, row.outcome)
    && Asked(f.targetType, row.targetType)
    && Asked(f.targetId, row.targetId)
    && Asked(f.correlationId, row.correlationId)
    && Asked(f.eventId, Some(row.eventId))
    && (f.since.Some? && row.time.Some? ==> f.since.value <= row.time.value)
    && (f.until.Some? && row.time.Some? ==> row.time.value <= f.until.value)
  }

  /** The matching rows in log order. */
  function Matching(log: Log, f: Filters, lower: Lower): seq<Entry> {
    if log == [] then []
    else
      var front, last := Matching(log[..|log| - 1], f, lower), log[|log| - 1];
      if last.Some? && Matches(last.value, f, lower) then front + [last.value] else front
  }

  /** `text` with `part` taken out between `before` and `after`. */
  predicate Around(text: string, part: string, before: string, after: string) {
    text == before + part + after
  }

  ghost predicate Within(part: string, text: string) {
    exists before, after :: Around(text, part, before, after)
  }

  lemma ContainsMeans(text: string, part: string)
    ensures Contains(text, part) <==> Within(part, text)
  {
    if Contains(text, part) {
      var i :| 0 <= i <= |text| && FoundAt(text, part, i);
      assert Around(text, part, text[..i], text[i + |part|..]);
    }
    if before, after :| Around(text, part, before, after) {
      assert FoundAt(text, part, |before|);
    }
  }

  /**
   * A row is kept iff it passes each filter that is set: the actor's id contains the text sought, cases
   * aside; the other texts are equal; and a row that has an instant has it within the bounds.
   */
  lemma MatchesIff(row: Entry, f: Filters, lower: Lower)
    ensures Matches(row, f, lower) <==>
      && (f.actorId == "" ||
          Within(lower(f.actorId), lower(if row.actorId.Some? then row.actorId.value else "")))
      && (f.action == "" || row.action == Some(f.action))
      && (f.outcome == "" || row.outcome == Some(f.outcome))
      && (f.targetType == "" || row.targetType == Some(f.targetType))
      && (f.targetId == "" || row.targetId == Some(f.targetId))
      && (f.correlationId == "" || row.correlationId == Some(f.correlationId))
      && (f.eventId == "" || row.eventId == f.eventId)
      && !(f.since.Some? && row.time.Some? && row.time.value < f.since.value)
      && !(f.until.Some? && row.time.Some? && row.time.value > f.until.value)
  {
    ContainsMeans(lower(if row.actorId.Some? then row.actorId.value else ""), lower(f.actorId));
  }

  /** Matching works line by line: logs one after the other match one after the other. */
  lemma {:induction false} MatchingConcat(a: Log, b: Log, f: Filters, lower: Lower)
    ensures Matching(a + b, f, lower) == Matching(a, f, lower) + Matching(b, f, lower)
  {
    if b == [] {
      assert a + b == a;
    } else {
      MatchingConcat(a, b[..|b| - 1], f, lower);
      assert (a + b)[..|a + b| - 1] == a + b[..|b| - 1];
    }
  }

  lemma MatchingOne(line: Option<Entry>, f: Filters, lower: Lower)
    ensures Matching([line], f, lower) ==
      if line.Some? && Matches(line.value, f, lower) then [line.value] else []
  {
    assert [line][..0] == [];
  }

  // ----- The stable sort -----

  /** A row without a time sorts as the earliest instant. */
  function SortKey(row: Entry): int {
    row.time.UnwrapOr(MIN_INSTANT)
  }

  predicate MayPrecede(x: Entry, y: Entry, reverse: bool) {
    if reverse then SortKey(x) >= SortKey(y) else SortKey(x) <= SortKey(y)
  }

  predicate Ordered(rows: seq<Entry>, reverse: bool) {
    forall i, j :: 0 <= i < j < |rows| ==> MayPrecede(rows[i], rows[j], reverse)
  }

  function Insert(x: Entry, rows: seq<Entry>, reverse: bool): seq<Entry> {
    if rows == [] || MayPrecede(x, rows[0], reverse) then [x] + rows
    else [rows[0]] + Insert(x, rows[1..], reverse)
  }

  /** Rows with equal keys keep their order, whichever way the sort goes. */
  function StableSort(rows: seq<Entry>, reverse: bool): seq<Entry> {
    if rows == [] then [] else Insert(rows[0], StableSort(rows[1..], reverse), reverse)
  }

  /** The rows with one key, in their order of appearance. */
  function WithKey(rows: seq<Entry>, key: int): seq<Entry> {
    if rows == [] then []
    else (if SortKey(rows[0]) == key then [rows[0]] else []) + WithKey(rows[1..], key)
  }

  ghost predicate SameRuns(a: seq<Entry>, b: seq<Entry>) {
    forall key :: WithKey(a, key) == WithKey(b, key)
  }

  lemma {:induction false} InsertPermutes(x: Entry, rows: seq<Entry>, reverse: bool)
    ensures multiset(Insert(x, rows, reverse)) == multiset{x} + multiset(rows)
  {
    if !(rows == [] || MayPrecede(x, rows[0], reverse)) {
      assert rows == [rows[0]] + rows[1..];
      InsertPermutes(x, rows[1..], reverse);
    }
  }

  lemma {:induction false} InsertOrders(x: Entry, rows: seq<Entry>, reverse: bool)
    requires Ordered(rows, reverse)
    ensures Ordered(Insert(x, rows, reverse), reverse)
  {
    if !(rows == [] || MayPrecede(x, rows[0], reverse)) {
      var rest := Insert(x, rows[1..], reverse);
      InsertOrders(x, rows[1..], reverse);
      InsertPermutes(x, rows[1..], reverse);
      forall y | y in rest ensures MayPrecede(rows[0], y, reverse) {
        assert y in multiset(rest);
        assert y == x || y in rows[1..];
      }
    }
  }

  lemma {:induction false} InsertKeepsRuns(x: Entry, rows: seq<Entry>, reverse: bool, key: int)
    ensures WithKey(Insert(x, rows, reverse), key) == WithKey([x] + rows, key)
  {
    assert ([x] + rows)[1..] == rows;
    if !(rows == [] || MayPrecede(x, rows[0], reverse)) {
      InsertKeepsRuns(x, rows[1..], reverse, key);
      var rest := Insert(x, rows[1..], reverse);
      assert ([rows[0]] + rest)[1..] == rest;
      assert ([x] + rows[1..])[1..] == rows[1..];
    }
  }

  /** The sort is an ordered permutation that keeps the order of rows with equal keys. */
  lemma {:induction false} SortIsStable(rows: seq<Entry>, reverse: bool)
    ensures multiset(StableSort(rows, reverse)) == multiset(rows)
    ensures Ordered(StableSort(rows, reverse), reverse)
    ensures SameRuns(StableSort(rows, reverse), rows)
  {
    if rows != [] {
      var rest := StableSort(rows[1..], reverse);
      SortIsStable(rows[1..], reverse);
      InsertPermutes(rows[0], rest, reverse);
      InsertOrders(rows[0], rest, reverse);
      assert rows == [rows[0]] + rows[1..];
      forall key ensures WithKey(StableSort(rows, reverse), key) == WithKey(rows, key) {
        InsertKeepsRuns(rows[0], rest, reverse, key);
        assert ([rows[0]] + rest)[1..] == rest;
      }
    }
  }

  lemma {:induction false} RunHasMembers(rows: seq<Entry>, key: int)
    ensures WithKey(rows, key) != [] <==> exists i :: 0 <= i < |rows| && SortKey(rows[i]) == key
  {
    if rows != [] {
      RunHasMembers(rows[1..], key);
      if i :| 0 <= i < |rows| && SortKey(rows[i]) == key {
        assert i > 0 ==> rows[1..][i - 1] == rows[i];
      }
    }
  }

  /** In an ordered sequence whose runs are those of `b`, nothing of `b` may come strictly before the head. */
  lemma HeadComesFirst(a: seq<Entry>, b: seq<Entry>, reverse: bool)
    requires a != [] && b != [] && Ordered(a, reverse) && SameRuns(a, b)
    ensures MayPrecede(a[0], b[0], reverse)
  {
    var key := SortKey(b[0]);
    RunHasMembers(b, key);
    RunHasMembers(a, key);
    assert WithKey(a, key) == WithKey(b, key);
    var i :| 0 <= i < |a| && SortKey(a[i]) == key;
    assert i > 0 ==> MayPrecede(a[0], a[i], reverse);
  }

  lemma EmptyTogether(a: seq<Entry>, b: seq<Entry>)
    requires SameRuns(a, b)
    ensures a == [] ==> b == []
  {
    if b != [] {
      assert WithKey(a, SortKey(b[0])) == WithKey(b, SortKey(b[0]));
    }
  }

  /** Order and runs leave no choice: there is one stable arrangement. */
  lemma {:induction false} StableUnique(a: seq<Entry>, b: seq<Entry>, reverse: bool)
    requires Ordered(a, reverse) && Ordered(b, reverse) && SameRuns(a, b)
    ensures a == b
  {
    EmptyTogether(a, b);
    EmptyTogether(b, a);
    if a != [] {
      HeadComesFirst(a, b, reverse);
      HeadComesFirst(b, a, reverse);
      var key := SortKey(a[0]);
      assert WithKey(a, key) == WithKey(b, key);
      assert a[0] == WithKey(a, key)[0] == b[0];
      forall k ensures WithKey(a[1..], k) == WithKey(b[1..], k) {
        assert WithKey(a, k) == WithKey(b, k);
        var head := if SortKey(a[0]) == k then [a[0]] else [];
        assert WithKey(a[1..], k) == WithKey(a, k)[|head|..];
        assert WithKey(b[1..], k) == WithKey(b, k)[|head|..];
      }
      StableUnique(a[1..], b[1..], reverse);
      assert a == [a[0]] + a[1..] && b == [b[0]] + b[1..];
    }
  }

  // ----- The query -----

  /** The row's instant; a row without one counts as written at the start of year 1. */
  function InstantOf(row: Entry): int {
    match row.time
    case Some(t) => t
    case None => -62135596800000000
  }

  predicate NewestFirst(order: string, lower: Lower) {
    lower(if order == "" then "desc" else order) != "asc"
  }

  /** All rows a query matches, in the order it asks for. */
  function Ranking(log: Log, f: Filters, order: string, lower: Lower): seq<Entry> {
    StableSort(Matching(log, f, lower), NewestFirst(order, lower))
  }

  function Min(a: int, b: int): int {
    if a <= b then a else b
  }

  function Max(a: int, b: int): int {
    if a <= b then b else a
  }

  /** The page size the reader grants. */
  function Clamp(limit: int): (n: nat)
    ensures 1 <= n <= MAX_LIMIT
  {
    Max(1, Min(if limit == 0 then DEFAULT_LIMIT else limit, MAX_LIMIT))
  }

  /** rows[offset : offset + size] with out-of-range bounds cut off. */
  function Window<T>(rows: seq<T>, offset: nat, size: nat): seq<T> {
    rows[Min(offset, |rows|)..Min(offset + size, |rows|)]
  }

  /** From the oldest row to the newest. */
  predicate Rising(page: seq<Entry>) {
    forall i, j :: 0 <= i < j < |page| ==> InstantOf(page[i]) <= InstantOf(page[j])
  }

  /** From the newest row to the oldest. */
  predicate Falling(page: seq<Entry>) {
    forall i, j :: 0 <= i < j < |page| ==> InstantOf(page[i]) >= InstantOf(page[j])
  }

  /** The default limit is 50; a limit counts as at least 1 and at most 200, and an offset as at least 0. */
  function PageLength(total: nat, offset: int, limit: int): nat {
    var skipped := if offset < 0 then 0 else offset;
    var size := if limit == 0 then 50 else if limit < 1 then 1 else if limit > 200 then 200 else limit;
    if total <= skipped then 0 else if total < skipped + size then total - skipped else size
  }

  lemma PageIsInOrder(log: Log, q: Query, lower: Lower)
    ensures var page := Window(Ranking(log, q.filters, q.order, lower), Max(0, q.offset), Clamp(q.limit));
      if lower(if q.order == "" then "desc" else q.order) == "asc" then Rising(page) else Falling(page)
  {
    var reverse := NewestFirst(q.order, lower);
    SortIsStable(Matching(log, q.filters, lower), reverse);
    WindowIsInOrder(Ranking(log, q.filters, q.order, lower), reverse, Max(0, q.offset), Clamp(q.limit));
  }

  lemma InOrderMeans(rows: seq<Entry>, reverse: bool)
    ensures Ordered(rows, reverse) <==> if reverse then Falling(rows) else Rising(rows)
  {
    assert forall row: Entry :: SortKey(row) == InstantOf(row);
    if (reverse && Falling(rows)) || (!reverse && Rising(rows)) {
      forall i, j | 0 <= i < j < |rows| ensures MayPrecede(rows[i], rows[j], reverse) {
      }
    }
    if Ordered(rows, reverse) {
      forall i, j | 0 <= i < j < |rows| ensures MayPrecede(rows[i], rows[j], reverse) {
      }
    }
  }

  lemma WindowIsInOrder(rows: seq<Entry>, reverse: bool, offset: nat, size: nat)
    requires Ordered(rows, reverse)
    ensures if reverse then Falling(Window(rows, offset, size)) else Rising(Window(rows, offset, size))
  {
    var page, skipped := Window(rows, offset, size), Min(offset, |rows|);
    forall i, j | 0 <= i < j < |page| ensures MayPrecede(page[i], page[j], reverse) {
      assert page[i] == rows[skipped + i] && page[j] == rows[skipped + j];
    }
    assert forall row: Entry :: SortKey(row) == InstantOf(row);
  }

  lemma PageIsMatching(log: Log, q: Query, lower: Lower)
    ensures var page := Window(Ranking(log, q.filters, q.order, lower), Max(0, q.offset), Clamp(q.limit));
      forall row :: row in page ==> Some(row) in log && Matches(row, q.filters, lower)
  {
    var ranking := Ranking(log, q.filters, q.order, lower);
    RankingIsComplete(log, q.filters, q.order, lower);
    assert forall row :: row in Window(ranking, Max(0, q.offset), Clamp(q.limit)) ==> row in ranking;
  }

  /** One page of the ranking, with the number of matching rows. */
  method RunQuery(log: Log, q: Query, lower: Lower) returns (page: seq<Entry>, total: nat)
    ensures total == |Ranking(log, q.filters, q.order, lower)|
    ensures page == Window(Ranking(log, q.filters, q.order, lower), Max(0, q.offset), Clamp(q.limit))
    ensures forall row :: row in page ==> Some(row) in log && Matches(row, q.filters, lower)
    ensures (q.order != "" && lower(q.order) == "asc") || (q.order == "" && lower("desc") == "asc") ==> Rising(page)
    ensures (q.order != "" && lower(q.order) != "asc") || (q.order == "" && lower("desc") != "asc") ==> Falling(page)
    ensures |page| == PageLength(total, q.offset, q.limit)
  {
    var matches := [];
    for i := 0 to |log|
      invariant matches == Matching(log[..i], q.filters, lower)
    {
      assert log[..i + 1][..i] == log[..i];
      if log[i].None? {
        continue;
      }
      if Matches(log[i].value, q.filters, lower) {
        matches := matches + [log[i].value];
      }
    }
    assert log[..|log|] == log;
    var reverse := NewestFirst(q.order, lower);
    matches := StableSort(matches, reverse);
    total := |matches|;
    var limit := Max(1, Min(if q.limit == 0 then DEFAULT_LIMIT else q.limit, MAX_LIMIT));
    var offset := Max(0, q.offset);
    page := matches[Min(offset, |matches|)..Min(offset + limit, |matches|)];
    PageIsInOrder(log, q, lower);
    PageIsMatching(log, q, lower);
  }

  /**
   * What a query ranks: exactly the matching rows, in time order, rows with equal times in log order; and
   * no other sequence is all of this.
   */
  lemma RankingIsTheStableOrder(log: Log, f: Filters, order: string, lower: Lower, rows: seq<Entry>)
    ensures rows == Ranking(log, f, order, lower) <==>
      && (if lower(if order == "" then "desc" else order) == "asc" then Rising(rows) else Falling(rows))
      && SameRuns(rows, Matching(log, f, lower))
  {
    var reverse := NewestFirst(order, lower);
    var ranking := Ranking(log, f, order, lower);
    SortIsStable(Matching(log, f, lower), reverse);
    InOrderMeans(rows, reverse);
    if Ordered(rows, reverse) && SameRuns(rows, Matching(log, f, lower)) {
      assert SameRuns(rows, ranking);
      StableUnique(rows, ranking, reverse);
    }
  }

  /** No row is lost, added or repeated by ranking. */
  lemma RankingIsComplete(log: Log, f: Filters, order: string, lower: Lower)
    ensures multiset(Ranking(log, f, order, lower)) == multiset(Matching(log, f, lower))
    ensures forall row :: row in Ranking(log, f, order, lower) <==> Some(row) in log && Matches(row, f, lower)
  {
    var ranking := Ranking(log, f, order, lower);
    SortIsStable(Matching(log, f, lower), NewestFirst(order, lower));
    forall row ensures row in ranking <==> Some(row) in log && Matches(row, f, lower) {
      MatchingMember(log, f, lower, row);
      assert row in ranking <==> row in multiset(ranking);
    }
  }

  lemma {:induction false} MatchingMember(log: Log, f: Filters, lower: Lower, row: Entry)
    ensures row in Matching(log, f, lower) <==> Some(row) in log && Matches(row, f, lower)
  {
    if log != [] {
      MatchingMember(log[..|log| - 1], f, lower, row);
      assert log == log[..|log| - 1] + [log[|log| - 1]];
    }
  }

  // ----- Paging -----

  function Pages<T>(rows: seq<T>, size: nat, count: nat): seq<T> {
    if count == 0 then [] else Pages(rows, size, count - 1) + Window(rows, (count - 1) * size, size)
  }

  /** Consecutive pages of one size tile the ranking: no gap, no repeat, whatever the size. */
  lemma {:induction false} PagesTile<T>(rows: seq<T>, size: nat, count: nat)
    ensures Pages(rows, size, count) == rows[..Min(count * size, |rows|)]
  {
    if count > 0 {
      PagesTile(rows, size, count - 1);
      var from := (count - 1) * size;
      assert count * size == from + size;
      var lo, hi := Min(from, |rows|), Min(from + size, |rows|);
      assert rows[..lo] + rows[lo..hi] == rows[..hi];
    }
  }

  /** How many of `total` rows an export with this page size yields. */
  function Exported(total: nat, pageSize: int): nat {
    if pageSize > MAX_LIMIT then Min(total, MAX_LIMIT) else total
  }

  /**
   * The export, for any page size. It ends, yields a prefix of the ranking, and yields all of it exactly
   * when the page size is within the reader's limit or the ranking fits one granted page.
   */
  method IterAllMatching(log: Log, base: Query, pageSize: int, lower: Lower) returns (out: seq<Entry>)
    ensures var ranking := Ranking(log, base.filters, base.order, lower);
      && out == ranking[..Exported(|ranking|, pageSize)]
      && (out == ranking <==> pageSize <= MAX_LIMIT || |ranking| <= MAX_LIMIT)
      && (pageSize == EXPORT_PAGE ==> out == ranking[..Min(|ranking|, 200)])
  {
    ghost var ranking := Ranking(log, base.filters, base.order, lower);
    out := [];
    var offset, seen := 0, 0;
    while true
      invariant offset == seen == |out| <= |ranking|
      invariant out == ranking[..offset]
      invariant offset > 0 ==> pageSize <= MAX_LIMIT && offset < |ranking|
      decreases |ranking| - offset
    {
      var rows, total := RunQuery(log, Query(base.filters, base.order, pageSize, offset), lower);
      if rows == [] {
        break;
      }
      ghost var hi := Min(offset + Clamp(pageSize), |ranking|);
      assert ranking[..offset] + ranking[offset..hi] == ranking[..hi];
      out := out + rows;
      seen := seen + |rows|;
      offset := offset + |rows|;
      if seen >= total {
        break;
      }
      if |rows| < pageSize {
        break;
      }
    }
    assert out == ranking[..Exported(|ranking|, pageSize)];
  }

  const NO_FILTERS := Filters([], [], [], [], [], [], [], None, None)

  lemma {:induction false} UnfilteredMatching(row: Entry, count: nat, lower: Lower)
    ensures |Matching(seq(count, _ => Some(row)), NO_FILTERS, lower)| == count
  {
    if count > 0 {
      var log: Log := seq(count, _ => Some(row));
      var front: Log := seq(count - 1, _ => Some(row));
      UnfilteredMatching(row, count - 1, lower);
      assert log[..count - 1] == front;
    }
  }

  /** The export as shipped loses rows: of more than 200 matching rows it yields the first 200. */
  lemma ShippedExportTruncates(row: Entry, count: nat, order: string, lower: Lower)
    requires count > MAX_LIMIT
    ensures var ranking := Ranking(seq(count, _ => Some(row)), NO_FILTERS, order, lower);
      |ranking| == count && Exported(|ranking|, EXPORT_PAGE) == 200 < |ranking|
  {
    var log: Log := seq(count, _ => Some(row));
    UnfilteredMatching(row, count, lower);
    SortIsStable(Matching(log, NO_FILTERS, lower), NewestFirst(order, lower));
    var ranking := Ranking(log, NO_FILTERS, order, lower);
    assert |multiset(ranking)| == |multiset(Matching(log, NO_FILTERS, lower))|;
  }
}
