/**
 * What the history handlers make of the rows: the two shapes of a JSON row,
 * the tokens of the four queries, and the answers.
 */
module Views {
  import opened Text
  import opened Wrappers
  import opened Json
  import opened HistoryTable
  import Dates

  // ---------- rows as JSON ----------

  /** Every member, with unused ones blanked: GET_HISTORY and GET_HISTORY_BY_DATE_RANGE. */
  function FullRow(round: real -> real, h: History): Object {
    map["id" := Int(h.id), "date" := Text(h.date), "image_path" := Text(h.imagePath),
        "plate_number" := Text(h.plateNumber), "event_type" := Int(h.eventType),
        "start_snapshot" := Text(if h.eventType == 0 then h.startSnapshot else ""),
        "end_snapshot" := Text(if h.eventType == 0 then h.endSnapshot else ""),
        "speed" := if h.eventType == 1 && h.speed.Some? then Number(round(h.speed.value)) else Null]
  }

  /** Only the members the event type uses: the two queries by event type.  Other types give no row. */
  function TypedRow(round: real -> real, h: History): Option<Object> {
    if h.eventType == 0 then
      Some(map["id" := Int(h.id), "date" := Text(h.date), "image_path" := Text(h.imagePath),
               "plate_number" := Text(h.plateNumber), "event_type" := Int(h.eventType),
               "start_snapshot" := Text(h.startSnapshot), "end_snapshot" := Text(h.endSnapshot)])
    else if h.eventType == 1 then
      var row := map["id" := Int(h.id), "date" := Text(h.date), "image_path" := Text(h.imagePath),
                     "plate_number" := Text(h.plateNumber), "event_type" := Int(h.eventType)];
      Some(if h.speed.Some? then row["speed" := Number(round(h.speed.value))] else row)
    else if h.eventType == 2 then
      Some(map["id" := Int(h.id), "date" := Text(h.date), "image_path" := Text(h.imagePath),
               "event_type" := Int(h.eventType)])
    else None
  }

  function FullRows(round: real -> real, hs: seq<History>): seq<Object> {
    Map(h => FullRow(round, h), hs)
  }

  function TypedRows(round: real -> real, hs: seq<History>): seq<Object> {
    if hs == [] then []
    else
      var n := |hs| - 1;
      TypedRows(round, hs[..n]) +
      (match TypedRow(round, hs[n])
       case Some(row) => [row]
       case None => [])
  }

  /** What a full object says: snapshots of a parking event, the speed of a speeding one. */
  lemma FullMembers(round: real -> real, h: History)
    ensures var o := FullRow(round, h);
            && o.Keys == {"id", "date", "image_path", "plate_number", "event_type", "start_snapshot", "end_snapshot",
                          "speed"}
            && o["id"] == Int(h.id) && o["date"] == Text(h.date) && o["image_path"] == Text(h.imagePath)
            && o["plate_number"] == Text(h.plateNumber) && o["event_type"] == Int(h.eventType)
            && (h.eventType == 0 ==>
                  o["start_snapshot"] == Text(h.startSnapshot) && o["end_snapshot"] == Text(h.endSnapshot))
            && (h.eventType != 0 ==> o["start_snapshot"] == Text("") && o["end_snapshot"] == Text(""))
            && o["speed"] == if h.eventType == 1 && h.speed.Some? then Number(round(h.speed.value)) else Null
  {}

  // ---------- queries ----------

  /** A query as its tokens give it; the dates of `view` are still days. */
  datatype Query = Query(email: string, view: View, limit: int, offset: int)

  datatype Kind = AllKind | TypeKind | DatesKind | TypeAndDatesKind

  /** The default page. */
  const LIMIT := 10
  const OFFSET := 0

  function ParseQuery(kind: Kind, payload: string): Query {
    var (s1, email) := Open(payload).Word();
    match kind
    case AllKind =>
      var (s2, limit) := s1.Int(LIMIT);
      Query(email, All, limit, s2.Int(OFFSET).1)
    case TypeKind =>
      var (s2, t) := s1.Int(0);
      var (s3, limit) := s2.Int(LIMIT);
      Query(email, ByType(t), limit, s3.Int(OFFSET).1)
    case DatesKind =>
      var (s2, a) := s1.Word();
      var (s3, b) := s2.Word();
      var (s4, limit) := s3.Int(LIMIT);
      Query(email, ByDates(a, b), limit, s4.Int(OFFSET).1)
    case TypeAndDatesKind =>
      var (s2, t) := s1.Int(0);
      var (s3, a) := s2.Word();
      var (s4, b) := s3.Word();
      var (s5, limit) := s4.Int(LIMIT);
      Query(email, ByTypeAndDates(t, a, b), limit, s5.Int(OFFSET).1)
  }

  predicate ViewOk(view: View) {
    match view
    case All => true
    case ByType(t) => t >= 0
    case ByDates(a, b) => a != "" && b != ""
    case ByTypeAndDates(t, a, b) => t >= 0 && a != "" && b != ""
  }

  predicate QueryOk(q: Query) {
    q.email != "" && q.limit > 0 && q.offset >= 0 && ViewOk(q.view)
  }

  /** Whole days become the moments compared with. */
  function Widen(view: View): View {
    match view
    case ByDates(a, b) => ByDates(Dates.FirstMoment(a), Dates.LastMoment(b))
    case ByTypeAndDates(t, a, b) => ByTypeAndDates(t, Dates.FirstMoment(a), Dates.LastMoment(b))
    case _ => view
  }

  /** The rows a query's repository method returns. */
  function Fetch(tie: Tie, rows: seq<History>, view: View, limit: nat, offset: nat): seq<History> {
    var selected := Select(tie, rows, Widen(view), limit, offset);
    if view.All? then selected else Map(Clean, selected)
  }

  /** The "data" of a query's answer. */
  function Data(tie: Tie, round: real -> real, rows: seq<History>, view: View, limit: nat, offset: nat): seq<Object> {
    var fetched := Fetch(tie, rows, view, limit, offset);
    if view.All? || view.ByDates? then FullRows(round, fetched) else TypedRows(round, fetched)
  }

  /** A cleaned row has snapshots only for type 0 and a speed only for type 1; all else is as it was. */
  lemma Cleaned(h: History)
    ensures var c := Clean(h);
            && c.id == h.id && c.date == h.date && c.imagePath == h.imagePath && c.plateNumber == h.plateNumber
            && c.eventType == h.eventType
            && c.startSnapshot == (if h.eventType == 0 then h.startSnapshot else "")
            && c.endSnapshot == (if h.eventType == 0 then h.endSnapshot else "")
            && c.speed == if h.eventType == 1 then h.speed else None
  {}

  // ---------- the views agree ----------

  /** Cleaning in the repository does not show: the handlers blank the same fields. */
  lemma CleaningUnseen(round: real -> real, h: History)
    ensures FullRow(round, Clean(h)) == FullRow(round, h)
    ensures TypedRow(round, Clean(h)) == TypedRow(round, h)
  {}

  /** GET_HISTORY and a date range that covers every stored date give the same data. */
  lemma AllAndDatesAgree(tie: Tie, round: real -> real, rows: seq<History>, from: string, to: string,
                         limit: nat, offset: nat)
    requires forall h | h in rows :: Widen(ByDates(from, to)).Admits(h)
    ensures Data(tie, round, rows, ByDates(from, to), limit, offset) == Data(tie, round, rows, All, limit, offset)
  {
    FilterAll(rows, Widen(ByDates(from, to)));
    FilterAll(rows, All);
    var selected := Select(tie, rows, All, limit, offset);
    forall i | 0 <= i < |selected|
      ensures FullRows(round, Map(Clean, selected))[i] == FullRows(round, selected)[i]
    {
      CleaningUnseen(round, selected[i]);
    }
  }

  lemma {:induction false} FilterAll(rows: seq<History>, view: View)
    requires forall h | h in rows :: view.Admits(h)
    ensures Filter(rows, view) == rows
  {
    if rows != [] {
      FilterAll(rows[..|rows| - 1], view);
      assert rows == rows[..|rows| - 1] + [rows[|rows| - 1]];
    }
  }

  lemma {:induction false} FilterCount(rows: seq<History>, view: View, h: History)
    ensures multiset(Filter(rows, view))[h] == if view.Admits(h) then multiset(rows)[h] else 0
  {
    if rows != [] {
      var n := |rows| - 1;
      FilterCount(rows[..n], view, h);
      assert rows == rows[..n] + [rows[n]];
    }
  }

  lemma {:induction false} FilterInOrder(tie: Tie, s: seq<History>, view: View)
    requires InOrder(tie, s)
    ensures InOrder(tie, Filter(s, view))
    ensures forall h | h in Filter(s, view) :: h in s
  {
    hide Before;
    if s != [] {
      var n := |s| - 1;
      FilterInOrder(tie, s[..n], view);
      forall h | h in Filter(s[..n], view) ensures Before(tie, h, s[n]) {
        var k :| 0 <= k < n && s[k] == h;
      }
    }
  }

  lemma {:induction false} FilterDistinct(rows: seq<History>, view: View)
    requires DistinctIds(rows)
    ensures DistinctIds(Filter(rows, view))
    ensures forall h | h in Filter(rows, view) :: h in rows
  {
    if rows != [] {
      var n := |rows| - 1;
      FilterDistinct(rows[..n], view);
      forall h | h in Filter(rows[..n], view) ensures h.id != rows[n].id {
        var k :| 0 <= k < n && rows[k] == h;
      }
    }
  }

  /** Filtering an answer is the same as filtering the table before sorting. */
  lemma FilterSorted(tie: Tie, rows: seq<History>, view: View)
    requires StrictTotal(tie) && DistinctIds(rows)
    ensures Filter(Sorted(tie, rows), view) == Sorted(tie, Filter(rows, view))
  {
    var a, b := Filter(Sorted(tie, rows), view), Sorted(tie, Filter(rows, view));
    SortedCorrect(tie, rows);
    FilterInOrder(tie, Sorted(tie, rows), view);
    FilterDistinct(rows, view);
    SortedCorrect(tie, Filter(rows, view));
    forall h ensures multiset(a)[h] == multiset(b)[h] {
      FilterCount(Sorted(tie, rows), view, h);
      FilterCount(rows, view, h);
    }
    OrderIsUnique(tie, a, b);
  }

  lemma {:induction false} FilterTwice(rows: seq<History>, eventType: int, a: string, b: string)
    ensures Filter(rows, ByTypeAndDates(eventType, a, b)) == Filter(Filter(rows, ByType(eventType)), ByDates(a, b))
    ensures Filter(rows, ByTypeAndDates(eventType, a, b)) == Filter(Filter(rows, ByDates(a, b)), ByType(eventType))
  {
    hide Between, View.Admits;
    if rows != [] {
      var n := |rows| - 1;
      var byType, byDates := Filter(rows[..n], ByType(eventType)), Filter(rows[..n], ByDates(a, b));
      FilterTwice(rows[..n], eventType, a, b);
      FilterSnoc(byType, rows[n], ByDates(a, b));
      FilterSnoc(byDates, rows[n], ByType(eventType));
      BothConditions(rows[n], eventType, a, b);
      assert byType + [] == byType && byDates + [] == byDates;
      var both := Filter(rows[..n], ByTypeAndDates(eventType, a, b));
      assert both + [] == both;
    }
  }

  lemma BothConditions(h: History, eventType: int, a: string, b: string)
    ensures ByTypeAndDates(eventType, a, b).Admits(h) <==> ByType(eventType).Admits(h) && ByDates(a, b).Admits(h)
  {}

  lemma FilterSnoc(rows: seq<History>, h: History, view: View)
    ensures Filter(rows + [h], view) == Filter(rows, view) + (if view.Admits(h) then [h] else [])
  {
    assert (rows + [h])[..|rows|] == rows;
  }

  /**
   * The combined query's rows, before paging, are those of either single
   * query filtered by the other condition, in the same order.
   */
  lemma CombinedIsEither(tie: Tie, rows: seq<History>, eventType: int, a: string, b: string)
    requires StrictTotal(tie) && DistinctIds(rows)
    ensures var combined := Sorted(tie, Filter(rows, ByTypeAndDates(eventType, a, b)));
            && combined == Filter(Sorted(tie, Filter(rows, ByType(eventType))), ByDates(a, b))
            && combined == Filter(Sorted(tie, Filter(rows, ByDates(a, b))), ByType(eventType))
  {
    FilterTwice(rows, eventType, a, b);
    FilterDistinct(rows, ByType(eventType));
    FilterDistinct(rows, ByDates(a, b));
    FilterSorted(tie, Filter(rows, ByType(eventType)), ByDates(a, b));
    FilterSorted(tie, Filter(rows, ByDates(a, b)), ByType(eventType));
  }

  /** When every type is known no row is dropped, and row `i` of the data is row `i` of the query. */
  lemma {:induction false} NoRowDropped(round: real -> real, hs: seq<History>)
    requires forall h | h in hs :: 0 <= h.eventType <= 2
    ensures |TypedRows(round, hs)| == |hs|
    ensures forall i | 0 <= i < |hs| :: Some(TypedRows(round, hs)[i]) == TypedRow(round, hs[i])
  {
    if hs != [] {
      var n := |hs| - 1;
      NoRowDropped(round, hs[..n]);
      assert hs[n] in hs;
      hide TypedRow;
      assert TypedRow(round, hs[n]).Some? by { TypedKnown(round, hs[n]); }
    }
  }

  lemma TypedKnown(round: real -> real, h: History)
    ensures TypedRow(round, h).Some? <==> 0 <= h.eventType <= 2
  {}

  /** A typed row says nothing the full row does not say. */
  lemma TypedWithinFull(round: real -> real, h: History)
    requires TypedRow(round, h).Some?
    ensures TypedRow(round, h).value.Items <= FullRow(round, h).Items
  {
    var typed, full := TypedRow(round, h).value, FullRow(round, h);
    forall item | item in typed.Items ensures item in full.Items {
      assert item.0 in typed && typed[item.0] == item.1;
      assert item.0 in full && full[item.0] == item.1;
    }
  }
}
