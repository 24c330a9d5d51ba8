/**
 * Reading a query page by page: nothing is lost or repeated when the table
 * rests, and nothing that was there is lost when rows are being added.
 */
module Paging {
  import opened Text
  import opened Wrappers
  import opened HistoryTable

  // ---------- a table at rest ----------

  /** The pages a client reads at offsets `offset`, `offset + limit`, ... up to the first short one. */
  function Pages<T>(s: seq<T>, limit: nat, offset: nat): seq<seq<T>>
    requires limit > 0
    decreases if offset < |s| then |s| - offset else 0
  {
    var page := Page(s, limit, offset);
    if |page| < limit then [page] else [page] + Pages(s, limit, offset + limit)
  }

  /** The offset of the client's `k`-th request. */
  function PageStart(k: nat, limit: nat): nat { k * limit }

  /** The pages make up the rest of the list, each row exactly once; only the last page is short. */
  lemma {:induction false} PagesConcat<T>(s: seq<T>, limit: nat, offset: nat)
    requires limit > 0 && offset <= |s|
    ensures var pages := Pages(s, limit, offset);
            && Concat(pages) == s[offset..]
            && (|pages| - 1) * limit <= |s| - offset < |pages| * limit
            && forall k | 0 <= k < |pages| :: |pages[k]| < limit <==> k == |pages| - 1
    decreases |s| - offset
  {
    hide Page;
    PageRows(s, limit, offset);
    var page := Page(s, limit, offset);
    if |page| == limit {
      PagesConcat(s, limit, offset + limit);
      assert s[offset..] == page + s[offset + limit..];
      OneMore(|Pages(s, limit, offset + limit)|, limit);
    } else {
      assert Concat([page]) == page + Concat<T>([]);
    }
  }

  lemma {:induction false} PageAt<T>(s: seq<T>, limit: nat, offset: nat, k: nat)
    requires limit > 0 && k < |Pages(s, limit, offset)|
    ensures Pages(s, limit, offset)[k] == Page(s, limit, offset + k * limit)
    decreases k
  {
    hide Page;
    OneMore(k, limit);
    if k > 0 {
      PageAt(s, limit, offset + limit, k - 1);
    }
  }

  /**
   * Static paging: on a table at rest the answers to offsets 0, L, 2L, ... up
   * to the first short one make up the whole ordered list, each row once.
   */
  lemma StaticPaging(tie: Tie, rows: seq<History>, view: View, limit: nat)
    requires limit > 0
    ensures var whole := Sorted(tie, Filter(rows, view));
            var pages := Pages(whole, limit, 0);
            && Concat(pages) == whole
            && (|pages| - 1) * limit <= |whole| < |pages| * limit
            && forall k | 0 <= k < |pages| ::
                 pages[k] == Select(tie, rows, view, limit, PageStart(k, limit))
                 && (|pages[k]| < limit <==> k == |pages| - 1)
  {
    hide Sorted, Filter, Page, Pages, Concat;
    var whole := Sorted(tie, Filter(rows, view));
    PagesConcat(whole, limit, 0);
    assert whole[0..] == whole;
    forall k | 0 <= k < |Pages(whole, limit, 0)|
      ensures Pages(whole, limit, 0)[k] == Select(tie, rows, view, limit, PageStart(k, limit))
    {
      PageAt(whole, limit, 0, k);
    }
  }

  lemma OneMore(n: int, d: int)
    ensures (n + 1) * d == n * d + d && n * d == (n - 1) * d + d
  {}

  lemma InPage<T>(s: seq<T>, limit: nat, offset: nat, j: nat)
    requires offset <= j < |s|
    ensures j < offset + limit ==> s[j] in Page(s, limit, offset)
    ensures |Page(s, limit, offset)| < limit ==> j < offset + limit
  {
    if j < offset + limit {
      assert Page(s, limit, offset)[j - offset] == s[j];
    }
  }

  // ---------- a growing table ----------

  /** A new row moves every other row of the answer by at most one place, and only towards the end. */
  lemma AppendShifts(tie: Tie, rows: seq<History>, h: History, view: View, j: nat)
    requires j < |Filter(rows, view)|
    ensures var s, t := Sorted(tie, Filter(rows, view)), Sorted(tie, Filter(rows + [h], view));
            (j < |t| && t[j] == s[j]) || (j + 1 < |t| && t[j + 1] == s[j])
  {
    hide Before, Between, TextLess;
    var kept := Filter(rows, view);
    assert (rows + [h])[..|rows|] == rows;
    if view.Admits(h) {
      assert Filter(rows + [h], view) == kept + [h];
      assert (kept + [h])[..|kept|] == kept;
      InsertShifts(tie, Sorted(tie, kept), h, j);
    } else {
      assert Filter(rows + [h], view) == kept;
    }
  }

  lemma InsertShifts(tie: Tie, s: seq<History>, h: History, j: nat)
    requires j < |s|
    ensures var t := InsertRow(tie, s, h); |t| == |s| + 1 && (t[j] == s[j] || t[j + 1] == s[j])
  {
    hide Before;
  }

  lemma {:induction false} GrowthShifts(tie: Tie, rows: seq<History>, later: seq<History>, view: View, j: nat)
    returns (k: nat)
    requires rows <= later && j < |Filter(rows, view)|
    ensures j <= k < |Filter(later, view)|
    ensures Sorted(tie, Filter(later, view))[k] == Sorted(tie, Filter(rows, view))[j]
    decreases |later|
  {
    hide Sorted, Filter;
    if rows == later {
      k := j;
    } else {
      var n := |later| - 1;
      k := GrowthShifts(tie, rows, later[..n], view, j);
      assert later == later[..n] + [later[n]];
      AppendShifts(tie, later[..n], later[n], view, k);
      if Sorted(tie, Filter(later, view))[k] != Sorted(tie, Filter(rows, view))[j] || k >= |Filter(later, view)| {
        k := k + 1;
      }
    }
  }

  /** Each table a client reads is a later state of the one before: rows are only appended. */
  ghost predicate Growing(tables: seq<seq<History>>) {
    forall k | 0 <= k < |tables| - 1 :: tables[k] <= tables[k + 1]
  }

  /**
   * Paging during inserts: a client reads page `k` of `tables[k]` until a
   * short page.  It has then seen every matching row of the first table.
   */
  lemma NothingSkipped(tie: Tie, tables: seq<seq<History>>, view: View, limit: nat, h: History)
    requires tables != [] && Growing(tables) && limit > 0
    requires var last := |tables| - 1; |Select(tie, tables[last], view, limit, PageStart(last, limit))| < limit
    requires h in Filter(tables[0], view)
    ensures exists k | 0 <= k < |tables| :: h in Select(tie, tables[k], view, limit, PageStart(k, limit))
  {
    SortedRows(tie, Filter(tables[0], view));
    var j :| 0 <= j < |Filter(tables[0], view)| && Sorted(tie, Filter(tables[0], view))[j] == h;
    SeenFrom(tie, tables, view, limit, h, 0, 0, j);
  }

  lemma {:induction false} SeenFrom(tie: Tie, tables: seq<seq<History>>, view: View, limit: nat, h: History,
                                    k: nat, offset: nat, j: nat)
    requires k < |tables| && Growing(tables) && limit > 0 && offset == PageStart(k, limit)
    requires var last := |tables| - 1; |Select(tie, tables[last], view, limit, PageStart(last, limit))| < limit
    requires offset <= j < |Filter(tables[k], view)| && Sorted(tie, Filter(tables[k], view))[j] == h
    ensures exists k | 0 <= k < |tables| :: h in Select(tie, tables[k], view, limit, PageStart(k, limit))
    decreases |tables| - k
  {
    hide Page, Sorted, Filter;
    InPage(Sorted(tie, Filter(tables[k], view)), limit, offset, j);
    if j >= offset + limit {
      assert k < |tables| - 1;
      var j' := GrowthShifts(tie, tables[k], tables[k + 1], view, j);
      assert offset + limit == PageStart(k + 1, limit);
      SeenFrom(tie, tables, view, limit, h, k + 1, offset + limit, j');
    }
  }
}
