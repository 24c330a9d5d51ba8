/**
 * The `history` table and the four queries of `HistoryRepository`: filter,
 * `ORDER BY date DESC`, LIMIT and OFFSET, and the per-type cleaning of rows.
 */
module HistoryTable {
  import opened Text
  import opened Wrappers

  datatype History = History(id: int, date: string, imagePath: string, plateNumber: string, eventType: int,
                             startSnapshot: string, endSnapshot: string, speed: Option<real>)

  // ---------- which rows ----------

  /** The WHERE clause of each query. */
  datatype View =
    | All
    | ByType(eventType: int)
    | ByDates(startDate: string, endDate: string)
    | ByTypeAndDates(eventType: int, startDate: string, endDate: string)
  {
    predicate Admits(h: History) {
      match this
      case All => true
      case ByType(t) => h.eventType == t
      case ByDates(a, b) => Between(a, h.date, b)
      case ByTypeAndDates(t, a, b) => h.eventType == t && Between(a, h.date, b)
    }
  }

  /** `date BETWEEN ? AND ?` on text. */
  predicate Between(a: string, date: string, b: string) {
    !TextLess(date, a) && !TextLess(b, date)
  }

  function Filter(rows: seq<History>, view: View): (r: seq<History>)
    ensures |r| <= |rows|
  {
    if rows == [] then []
    else
      var n := |rows| - 1;
      Filter(rows[..n], view) + (if view.Admits(rows[n]) then [rows[n]] else [])
  }

  // ---------- in which order ----------

  /**
   * `ORDER BY date DESC` does not say how rows of equal date are ordered.  The
   * database uses some fixed order on their ids, given by `tie`.
   */
  type Tie = (int, int) -> bool

  ghost predicate StrictTotal(tie: Tie) {
    && (forall x :: !tie(x, x))
    && (forall x, y :: x != y ==> tie(x, y) || tie(y, x))
    && (forall x, y, z :: tie(x, y) && tie(y, z) ==> tie(x, z))
  }

  predicate Before(tie: Tie, a: History, b: History) {
    TextLess(b.date, a.date) || (a.date == b.date && tie(a.id, b.id))
  }

  function Place(tie: Tie, s: seq<History>, h: History): (i: nat)
    ensures i <= |s|
    ensures forall j | 0 <= j < i :: !Before(tie, h, s[j])
    ensures i < |s| ==> Before(tie, h, s[i])
  {
    if s == [] || Before(tie, h, s[0]) then 0 else 1 + Place(tie, s[1..], h)
  }

  function InsertRow(tie: Tie, s: seq<History>, h: History): seq<History> {
    var i := Place(tie, s, h);
    s[..i] + [h] + s[i..]
  }

  /** The rows in query order. */
  function Sorted(tie: Tie, rows: seq<History>): (r: seq<History>)
    ensures |r| == |rows|
  {
    if rows == [] then []
    else InsertRow(tie, Sorted(tie, rows[..|rows| - 1]), rows[|rows| - 1])
  }

  ghost predicate DistinctIds(rows: seq<History>) {
    forall i, j | 0 <= i < j < |rows| :: rows[i].id != rows[j].id
  }

  ghost predicate InOrder(tie: Tie, s: seq<History>) {
    forall i, j | 0 <= i < j < |s| :: Before(tie, s[i], s[j])
  }

  lemma BeforeTransitive(tie: Tie, a: History, b: History, c: History)
    requires StrictTotal(tie) && Before(tie, a, b) && Before(tie, b, c)
    ensures Before(tie, a, c)
  {
    if TextLess(b.date, a.date) && TextLess(c.date, b.date) {
      TextLessTransitive(c.date, b.date, a.date);
    }
  }

  lemma BeforeTotal(tie: Tie, a: History, b: History)
    requires StrictTotal(tie) && a.id != b.id
    ensures Before(tie, a, b) || Before(tie, b, a)
  {
    TextLessTotal(a.date, b.date);
  }

  lemma InsertInOrder(tie: Tie, s: seq<History>, h: History)
    requires StrictTotal(tie) && InOrder(tie, s) && forall i | 0 <= i < |s| :: s[i].id != h.id
    ensures InOrder(tie, InsertRow(tie, s, h))
  {
    var p := Place(tie, s, h);
    forall j | 0 <= j < p ensures Before(tie, s[j], h) {
      BeforeTotal(tie, s[j], h);
    }
    forall j | p <= j < |s| ensures Before(tie, h, s[j]) {
      if p < j { BeforeTransitive(tie, h, s[p], s[j]); }
    }
  }

  /** The rows of a table with distinct ids come out in strict order and none is lost or repeated. */
  lemma {:induction false} SortedCorrect(tie: Tie, rows: seq<History>)
    requires StrictTotal(tie) && DistinctIds(rows)
    ensures InOrder(tie, Sorted(tie, rows)) && multiset(Sorted(tie, rows)) == multiset(rows)
  {
    hide Before, InsertRow, StrictTotal, InOrder;
    SortedRows(tie, rows);
    if rows == [] {
      EmptyInOrder(tie);
    } else {
      var n := |rows| - 1;
      var s := Sorted(tie, rows[..n]);
      SortedCorrect(tie, rows[..n]);
      forall i | 0 <= i < |s| ensures s[i].id != rows[n].id {
        assert s[i] in multiset(rows[..n]);
      }
      InsertInOrder(tie, s, rows[n]);
    }
  }

  lemma EmptyInOrder(tie: Tie)
    ensures InOrder(tie, [])
  {}

  lemma InsertKeeps(tie: Tie, s: seq<History>, h: History)
    ensures multiset(InsertRow(tie, s, h)) == multiset(s) + multiset{h}
  {
    hide Before;
    var p := Place(tie, s, h);
    assert s == s[..p] + s[p..];
  }

  /** Whatever the order, sorting neither loses nor repeats a row. */
  lemma {:induction false} SortedRows(tie: Tie, rows: seq<History>)
    ensures multiset(Sorted(tie, rows)) == multiset(rows)
    ensures forall h :: h in Sorted(tie, rows) <==> h in rows
  {
    hide Before, InsertRow;
    if rows != [] {
      var n := |rows| - 1;
      SortedRows(tie, rows[..n]);
      InsertKeeps(tie, Sorted(tie, rows[..n]), rows[n]);
      assert rows == rows[..n] + [rows[n]];
    }
    assert forall h :: h in Sorted(tie, rows) <==> h in multiset(Sorted(tie, rows));
  }

  /** Distinct ids stay distinct. */
  lemma {:induction false} SortedDistinct(tie: Tie, rows: seq<History>)
    requires DistinctIds(rows)
    ensures DistinctIds(Sorted(tie, rows))
  {
    hide InsertRow;
    if rows != [] {
      var n := |rows| - 1;
      var s := Sorted(tie, rows[..n]);
      SortedDistinct(tie, rows[..n]);
      SortedRows(tie, rows[..n]);
      forall i | 0 <= i < |s| ensures s[i].id != rows[n].id {
        assert s[i] in rows[..n];
      }
      InsertDistinct(tie, s, rows[n]);
    }
  }

  lemma InsertDistinct(tie: Tie, s: seq<History>, h: History)
    requires DistinctIds(s) && forall i | 0 <= i < |s| :: s[i].id != h.id
    ensures DistinctIds(InsertRow(tie, s, h))
  {
    hide Before;
  }

  lemma BeforeIrreflexive(tie: Tie, a: History)
    requires StrictTotal(tie)
    ensures !Before(tie, a, a)
  {
    TextLessIrreflexive(a.date);
  }

  lemma SameHead(tie: Tie, s: seq<History>, t: seq<History>)
    requires StrictTotal(tie) && InOrder(tie, s) && InOrder(tie, t) && multiset(s) == multiset(t) && s != []
    ensures t != [] && s[0] == t[0]
  {
    assert s[0] in multiset(t);
    assert t[0] in multiset(s);
    var i :| 0 <= i < |t| && t[i] == s[0];
    var j :| 0 <= j < |s| && s[j] == t[0];
    if i > 0 && j > 0 {
      assert Before(tie, t[0], t[i]) && Before(tie, s[0], s[j]);
      BeforeTransitive(tie, s[0], t[0], s[0]);
      BeforeIrreflexive(tie, s[0]);
    }
  }

  /** There is only one strictly ordered list of given rows, so `Sorted` is what any correct sort returns. */
  lemma {:induction false} OrderIsUnique(tie: Tie, s: seq<History>, t: seq<History>)
    requires StrictTotal(tie) && InOrder(tie, s) && InOrder(tie, t) && multiset(s) == multiset(t)
    ensures s == t
  {
    hide Before, StrictTotal;
    if s == [] {
      assert |multiset(t)| == 0;
    } else {
      SameHead(tie, s, t);
      SameTails(s, t);
      OrderIsUnique(tie, s[1..], t[1..]);
    }
  }

  lemma SameTails(s: seq<History>, t: seq<History>)
    requires s != [] && t != [] && s[0] == t[0] && multiset(s) == multiset(t)
    ensures multiset(s[1..]) == multiset(t[1..])
    ensures s[1..] == t[1..] ==> s == t
  {
    assert s == [s[0]] + s[1..] && t == [t[0]] + t[1..];
    assert multiset(s[1..]) == multiset(s) - multiset{s[0]} == multiset(t[1..]);
  }

  // ---------- which page ----------

  function Page<T>(s: seq<T>, limit: nat, offset: nat): seq<T> {
    if offset >= |s| then [] else if offset + limit >= |s| then s[offset..] else s[offset..offset + limit]
  }

  lemma PageRows<T>(s: seq<T>, limit: nat, offset: nat)
    ensures |Page(s, limit, offset)|
         == if offset >= |s| then 0 else if offset + limit >= |s| then |s| - offset else limit
    ensures forall i | 0 <= i < |Page(s, limit, offset)| :: Page(s, limit, offset)[i] == s[offset + i]
  {}

  /** The rows a query's cursor steps over. */
  function Select(tie: Tie, rows: seq<History>, view: View, limit: nat, offset: nat): seq<History> {
    Page(Sorted(tie, Filter(rows, view)), limit, offset)
  }

  // ---------- cleaning ----------

  /** Blanks the fields an event type does not use. */
  function Clean(h: History): History {
    if h.eventType == 1 then h.(startSnapshot := "", endSnapshot := "")
    else if h.eventType == 0 then h.(speed := None)
    else h.(startSnapshot := "", endSnapshot := "", speed := None)
  }

  function Map<T, U>(f: T -> U, s: seq<T>): (r: seq<U>)
    ensures |r| == |s| && forall i | 0 <= i < |s| :: r[i] == f(s[i])
  {
    seq(|s|, i requires 0 <= i < |s| => f(s[i]))
  }

  // ---------- the repository ----------

  class HistoryRepository {
    var rows: seq<History>
    const tie: Tie

    constructor (rows: seq<History>, tie: Tie)
      ensures this.rows == rows && this.tie == tie
    {
      this.rows := rows;
      this.tie := tie;
    }

    /** `id INTEGER PRIMARY KEY`: one above the largest id. */
    method CreateHistory(h: History, fails: bool) returns (ok: bool)
      modifies this
      ensures ok == !fails
      ensures rows == if fails then old(rows) else Append(old(rows), h)
      ensures ok ==>
                && |rows| == |old(rows)| + 1 && rows[..|old(rows)|] == old(rows)
                && rows[|old(rows)|] == h.(id := rows[|old(rows)|].id)
                && forall i | 0 <= i < |old(rows)| :: rows[i].id < rows[|old(rows)|].id
    {
      if fails {
        return false;
      }
      rows := Append(rows, h);
      return true;
    }

    /** A query that cannot be prepared gives no rows, as an empty answer would. */
    method GetHistories(limit: nat, offset: nat, fails: bool) returns (histories: seq<History>)
      ensures histories == if fails then [] else Select(tie, rows, All, limit, offset)
    {
      histories := [];
      if fails {
        return;
      }
      var cursor := Select(tie, rows, All, limit, offset);
      for i := 0 to |cursor|
        invariant histories == cursor[..i]
      {
        histories := histories + [cursor[i]];
      }
    }

    method GetHistoriesByEventType(eventType: int, limit: nat, offset: nat, fails: bool)
      returns (histories: seq<History>)
      ensures histories == if fails then [] else Map(Clean, Select(tie, rows, ByType(eventType), limit, offset))
    {
      if fails {
        return [];
      }
      histories := ReadCleaned(Select(tie, rows, ByType(eventType), limit, offset));
    }

    method GetHistoriesByDateRange(startDate: string, endDate: string, limit: nat, offset: nat, fails: bool)
      returns (histories: seq<History>)
      ensures histories
           == if fails then [] else Map(Clean, Select(tie, rows, ByDates(startDate, endDate), limit, offset))
    {
      if fails {
        return [];
      }
      histories := ReadCleaned(Select(tie, rows, ByDates(startDate, endDate), limit, offset));
    }

    method GetHistoriesByEventTypeAndDateRange(eventType: int, startDate: string, endDate: string,
                                               limit: nat, offset: nat, fails: bool)
      returns (histories: seq<History>)
      ensures histories
           == if fails then []
              else Map(Clean, Select(tie, rows, ByTypeAndDates(eventType, startDate, endDate), limit, offset))
    {
      if fails {
        return [];
      }
      histories := ReadCleaned(Select(tie, rows, ByTypeAndDates(eventType, startDate, endDate), limit, offset));
    }

    /** The row loop the three filtered queries share. */
    method ReadCleaned(cursor: seq<History>) returns (histories: seq<History>)
      ensures histories == Map(Clean, cursor)
    {
      histories := [];
      for i := 0 to |cursor|
        invariant |histories| == i && forall k | 0 <= k < i :: histories[k] == Clean(cursor[k])
      {
        var history := cursor[i];
        if history.eventType == 1 {
          history := history.(startSnapshot := "", endSnapshot := "");
        } else if history.eventType == 0 {
          history := history.(speed := None);
        } else {
          history := history.(startSnapshot := "", endSnapshot := "", speed := None);
        }
        histories := histories + [history];
      }
    }
  }

  /** The largest id, or 0 if there is none above it. */
  function MaxId(rows: seq<History>): (m: int)
    ensures 0 <= m && forall i | 0 <= i < |rows| :: rows[i].id <= m
    ensures m == 0 || exists i :: 0 <= i < |rows| && rows[i].id == m
  {
    if rows == [] then 0
    else
      var n := |rows| - 1;
      var m := MaxId(rows[..n]);
      if rows[n].id > m then rows[n].id else m
  }

  /** `INSERT`: the new row gets the next id. */
  function Append(rows: seq<History>, h: History): seq<History> {
    rows + [h.(id := MaxId(rows) + 1)]
  }
}
