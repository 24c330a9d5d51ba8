/**
 * What clients learn of the history: what becomes of a recorded event, which
 * rows a query shows, and reading page by page while the server goes on
 * working or its database fails.
 */
module HistoryAnswers {
  import opened Text
  import opened Wrappers
  import opened Json
  import opened HistoryTable
  import opened Views
  import opened CommandLine
  import opened Accounts
  import opened Commands
  import opened Paging
  import opened ServerRuns
  import opened Dates
  import Users
  import Overlay

  // ---------- rows in answers ----------

  /** The JSON row of a stored row in a query's answer. */
  function RowOf(round: real -> real, view: View, h: History): Object
    requires 0 <= h.eventType <= 2
  {
    if view.All? || view.ByDates? then FullRow(round, h) else TypedRow(round, h).value
  }

  lemma {:induction false} FilterMembers(rows: seq<History>, view: View, h: History)
    ensures h in Filter(rows, view) <==> h in rows && view.Admits(h)
  {
    hide Between;
    if rows != [] {
      var n := |rows| - 1;
      FilterMembers(rows[..n], view, h);
      assert rows == rows[..n] + [rows[n]];
    }
  }

  lemma SelectMembers(tie: Tie, rows: seq<History>, view: View, limit: nat, offset: nat)
    ensures forall h | h in Select(tie, rows, view, limit, offset) :: h in rows
  {
    forall h | h in Select(tie, rows, view, limit, offset) ensures h in rows {
      var s := Sorted(tie, Filter(rows, view));
      assert h in s;
      SortedRows(tie, Filter(rows, view));
      FilterMembers(rows, view, h);
    }
  }

  /** On a table that keeps the invariant, answers drop no row: row `i` of the data is row `i` of the query. */
  lemma DataIsRows(tie: Tie, round: real -> real, rows: seq<History>, view: View, limit: nat, offset: nat)
    requires TableOk(rows)
    ensures var selected := Select(tie, rows, Widen(view), limit, offset);
            var data := Views.Data(tie, round, rows, view, limit, offset);
            && |data| == |selected|
            && forall i | 0 <= i < |data| ::
                 selected[i] in rows && 0 <= selected[i].eventType <= 2
                 && data[i] == RowOf(round, view, selected[i])
  {
    var selected := Select(tie, rows, Widen(view), limit, offset);
    SelectMembers(tie, rows, Widen(view), limit, offset);
    hide Select, FullRow, TypedRow, Clean;
    forall i | 0 <= i < |selected|
      ensures 0 <= selected[i].eventType <= 2 && 0 <= Clean(selected[i]).eventType <= 2
      ensures FullRow(round, Clean(selected[i])) == FullRow(round, selected[i])
      ensures TypedRow(round, Clean(selected[i])) == TypedRow(round, selected[i])
    {
      assert selected[i] in rows;
      CleaningUnseen(round, selected[i]);
      CleanKeepsType(selected[i]);
    }
    if view.ByType? || view.ByTypeAndDates? {
      NoRowDropped(round, Map(Clean, selected));
    }
  }

  lemma CleanKeepsType(h: History)
    ensures Clean(h).eventType == h.eventType
  {}

  /** The JSON a client should get back for an event, from the words it sent. */
  function Recorded(lib: Lib, e: Event, id: int, full: bool): Object {
    var date, v := Json.Text(Unscore(e.date)), lib.readFloat(e.speed);
    if full then
      map["id" := Int(id), "date" := date, "image_path" := Json.Text(e.image),
          "plate_number" := Json.Text(e.plate), "event_type" := Int(e.eventType),
          "start_snapshot" := Json.Text(if e.eventType == 0 then e.start else ""),
          "end_snapshot" := Json.Text(if e.eventType == 0 then e.end else ""),
          "speed" := if e.eventType == 1 && v >= 0.0 then Number(lib.round(v)) else Null]
    else if e.eventType == 0 then
      map["id" := Int(id), "date" := date, "image_path" := Json.Text(e.image),
          "plate_number" := Json.Text(e.plate), "event_type" := Int(0),
          "start_snapshot" := Json.Text(e.start), "end_snapshot" := Json.Text(e.end)]
    else if e.eventType == 1 && v >= 0.0 then
      map["id" := Int(id), "date" := date, "image_path" := Json.Text(e.image),
          "plate_number" := Json.Text(e.plate), "event_type" := Int(1), "speed" := Number(lib.round(v))]
    else if e.eventType == 1 then
      map["id" := Int(id), "date" := date, "image_path" := Json.Text(e.image),
          "plate_number" := Json.Text(e.plate), "event_type" := Int(1)]
    else
      map["id" := Int(id), "date" := date, "image_path" := Json.Text(e.image), "event_type" := Int(2)]
  }

  lemma RecordedIsRow(lib: Lib, view: View, e: Event, id: int)
    requires e.Ok()
    ensures RowOf(lib.round, view, e.Row(lib, id)) == Recorded(lib, e, id, view.All? || view.ByDates?)
  {
    RecordedFull(lib, e, id);
    RecordedTyped(lib, e, id);
    hide FullRow, TypedRow, Recorded, Event.Words, IsWord, Unscore;
  }

  lemma RecordedFull(lib: Lib, e: Event, id: int)
    requires e.Ok()
    ensures FullRow(lib.round, e.Row(lib, id)) == Recorded(lib, e, id, true)
  {
    hide Event.Words, IsWord, Integer, Unscore;
  }

  lemma RecordedTyped(lib: Lib, e: Event, id: int)
    requires e.Ok()
    ensures TypedRow(lib.round, e.Row(lib, id)) == Some(Recorded(lib, e, id, false))
  {
    hide Event.Words, IsWord, Integer, Unscore;
  }

  lemma RowHasId(round: real -> real, view: View, h: History)
    requires 0 <= h.eventType <= 2
    ensures "id" in RowOf(round, view, h) && RowOf(round, view, h)["id"] == Int(h.id)
  {}

  lemma OkDistinct(rows: seq<History>)
    requires TableOk(rows)
    ensures DistinctIds(rows)
  {}

  /** Row `p` of the whole answer is on exactly the pages that reach over it. */
  lemma RowOnPage(tie: Tie, round: real -> real, rows: seq<History>, view: View, p: nat, limit: nat, offset: nat)
    requires TableOk(rows) && p < |Filter(rows, Widen(view))|
    ensures var h := Sorted(tie, Filter(rows, Widen(view)))[p];
            && 0 <= h.eventType <= 2
            && (RowOf(round, view, h) in Views.Data(tie, round, rows, view, limit, offset)
                <==> offset <= p < offset + limit)
  {
    hide RowOf, Views.Data, TableOk, Filter, Sorted;
    var sorted := Sorted(tie, Filter(rows, Widen(view)));
    var selected := Select(tie, rows, Widen(view), limit, offset);
    var data := Views.Data(tie, round, rows, view, limit, offset);
    DataIsRows(tie, round, rows, view, limit, offset);
    KnownTypes(tie, rows, Widen(view));
    RowHasId(round, view, sorted[p]);
    OkDistinct(rows);
    FilterDistinct(rows, Widen(view));
    SortedDistinct(tie, Filter(rows, Widen(view)));
    if offset <= p < offset + limit {
      assert selected[p - offset] == sorted[p];
      assert data[p - offset] == RowOf(round, view, sorted[p]);
    }
    forall i | 0 <= i < |data| && data[i] == RowOf(round, view, sorted[p]) ensures offset + i == p {
      assert selected[i] == sorted[offset + i];
      RowHasId(round, view, sorted[offset + i]);
    }
  }

  lemma KnownTypes(tie: Tie, rows: seq<History>, view: View)
    requires TableOk(rows)
    ensures forall h | h in Sorted(tie, Filter(rows, view)) :: h in rows && 0 <= h.eventType <= 2
  {
    SortedRows(tie, Filter(rows, view));
    forall h | h in Sorted(tie, Filter(rows, view)) ensures h in rows && 0 <= h.eventType <= 2 {
      FilterMembers(rows, view, h);
    }
  }

  /**
   * Record, then look: after a well-formed ADD_HISTORY line the new row has a
   * place in the answer of every query that admits it.  The pages that reach
   * over that place, and no others, return it with its date's underscores
   * turned into spaces and exactly the fields its type keeps.
   */
  lemma AddThenQuery(lib: Lib, w: World, e: Event, eol: string, call: Call, view: View) returns (place: nat)
    requires TableOk(w.rows) && e.Ok() && IsEnd(eol) && call.line == AddLine(e, eol) && !call.faults.write
    requires Widen(view).Admits(e.Row(lib, MaxId(w.rows) + 1))
    ensures var rows := Handle(lib, w, call).0.rows;
            && place < |Filter(rows, Widen(view))|
            && forall limit: nat, offset: nat ::
                 Recorded(lib, e, MaxId(w.rows) + 1, view.All? || view.ByDates?)
                 in Views.Data(lib.tie, lib.round, rows, view, limit, offset)
                 <==> offset <= place < offset + limit
  {
    hide Handle, Filter, Recorded, RowOf, Views.Data, Widen, View.Admits, Event.Row, Event.Ok, AddLine, Sorted;
    hide TableOk;
    var id := MaxId(w.rows) + 1;
    var h := e.Row(lib, id);
    HandleHistory(lib, w, call);
    AddLineRoundTrip(lib, w, e, eol, call);
    var rows := w.rows + [h];
    FilterMembers(rows, Widen(view), h);
    SortedRows(lib.tie, Filter(rows, Widen(view)));
    var sorted := Sorted(lib.tie, Filter(rows, Widen(view)));
    place :| place < |sorted| && sorted[place] == h;
    RecordedIsRow(lib, view, e, id);
    forall limit: nat, offset: nat
      ensures Recorded(lib, e, id, view.All? || view.ByDates?)
              in Views.Data(lib.tie, lib.round, rows, view, limit, offset)
              <==> offset <= place < offset + limit
    {
      RowOnPage(lib.tie, lib.round, rows, view, place, limit, offset);
    }
  }

  // ---------- a printed query and its answer ----------

  /** The type a view asks for, if it asks for one. */
  predicate AsksNegativeType(view: View) {
    match view
    case ByType(t) => t < 0
    case ByTypeAndDates(t, _, _) => t < 0
    case _ => false
  }

  /**
   * The reply to every printed query, whatever its numbers: 400 if the limit is
   * not positive or the offset or type negative, 404 if no row has the email
   * or the lookup fails, and otherwise the data, or no rows if the query fails.
   */
  lemma QueryReplied(lib: Lib, w: World, email: string, view: View, p: PageWords, end: string, call: Call)
    requires IsWord(email) && Printable(view) && PageOk(p) && IsEnd(end)
    requires call.line == QueryLine(email, view, p, end)
    ensures var limit := if p.NoPage? then 10 else p.limit;
            var offset := if p.LimitOffset? then p.offset else 0;
            Handle(lib, w, call)
            == (w, if limit <= 0 || offset < 0 || AsksNegativeType(view) then Status(400)
                   else if call.faults.lookup || (forall u | u in w.users.rows :: u.email != email) then Status(404)
                   else if call.queryFails then Reply.Data([])
                   else Reply.Data(Views.Data(lib.tie, lib.round, w.rows, view, limit, offset)))
  {
    hide Handle, QueryLine, ParseQuery, Split, VerbOf, NameOf, KindOf, IsWord, Printable;
    hide Users.Find, Views.Data;
    KindNames(KindOf(view));
    PrintableOk(email, view);
    QueryLineRoundTrip(email, view, p, end);
    HandleQuery(lib, w, call, KindOf(view));
  }

  /** Without an email every query answers 400. */
  lemma BareQueryRefused(lib: Lib, w: World, kind: Kind, end: string, call: Call)
    requires IsEnd(end) && call.line == NameOf(kind) + (end + "\n")
    ensures Handle(lib, w, call) == (w, Status(400))
  {
    NameIsWord(kind);
    KindNames(kind);
    assert "" + (NameOf(kind) + (end + "\n")) == NameOf(kind) + (end + "\n");
    hide NameOf, Split, VerbOf, IsWord, Stream.Int, Stream.Word;
    SplitBare("", NameOf(kind), end + "\n");
    HandleQuery(lib, w, call, kind);
    EmptyText();
  }

  /** With the email alone the type is 0, and dates are missing; with one date the other is missing. */
  lemma ShortQueryParses(email: string, a: string, end: string)
    requires IsWord(email) && IsWord(a) && IsEnd(end)
    ensures ParseQuery(TypeKind, Payload([email], end)) == Query(email, ByType(0), 10, 0)
    ensures !QueryOk(ParseQuery(DatesKind, Payload([email], end)))
    ensures !QueryOk(ParseQuery(DatesKind, Payload([email, a], end)))
    ensures !QueryOk(ParseQuery(TypeAndDatesKind, Payload([email], end)))
    ensures forall t | INT_MIN <= t <= INT_MAX ::
              !QueryOk(ParseQuery(TypeAndDatesKind, Payload([email, Integer(t)], end)))
              && !QueryOk(ParseQuery(TypeAndDatesKind, Payload([email, Integer(t), a], end)))
  {
    hide Stream.Int, Stream.Word, Tail, Integer, IsWord, Payload;
    PayloadIs([email], end);
    PayloadIs([email, a], end);
    assert [email][1..] == [] && [email, a][1..] == [a] && [a] + [] == [a];
    NextWord(email, [], end);
    NextWord(email, [a], end);
    NextWord(a, [], end);
    BlankThere(end);
    forall t | INT_MIN <= t <= INT_MAX
      ensures !QueryOk(ParseQuery(TypeAndDatesKind, Payload([email, Integer(t)], end)))
              && !QueryOk(ParseQuery(TypeAndDatesKind, Payload([email, Integer(t), a], end)))
    {
      PayloadIs([email, Integer(t)], end);
      PayloadIs([email, Integer(t), a], end);
      assert [email, Integer(t)][1..] == [Integer(t)] && [Integer(t)] + [] == [Integer(t)];
      assert [email, Integer(t), a][1..] == [Integer(t)] + [a];
      NextWord(email, [Integer(t)], end);
      NextWord(email, [Integer(t)] + [a], end);
      NextInt(t, [], end, 0);
      NextInt(t, [a], end, 0);
    }
  }

  /** With nothing left, numbers keep their values through three reads, and words are empty, also after a number. */
  lemma BlankThere(end: string)
    requires IsEnd(end)
    ensures var s := After(Tail([], end));
            && s.Word().1 == "" && s.Word().0.Word().1 == ""
            && s.Int(0).1 == 0 && s.Int(0).0.Int(10).1 == 10 && s.Int(0).0.Int(10).0.Int(0).1 == 0
            && s.Int(0).0.Word().1 == "" && s.Int(0).0.Word().0.Word().1 == ""
  {
    if end == "\r" { assert end[1..] == ""; }
  }

  /** A printed query from a registered client is answered with its data, or with none if the query fails. */
  lemma QueryAnswered(lib: Lib, w: World, email: string, view: View, limit: nat, offset: nat, end: string, call: Call)
    requires IsWord(email) && Printable(view) && 0 < limit <= INT_MAX && offset <= INT_MAX && IsEnd(end)
    requires call.line == QueryLine(email, view, LimitOffset(limit, offset), end) && !AsksNegativeType(view)
    requires !call.faults.lookup && Users.Find(w.users.rows, email).Some?
    ensures Handle(lib, w, call)
         == (w, Reply.Data(if call.queryFails then []
                           else Views.Data(lib.tie, lib.round, w.rows, view, limit, offset)))
  {
    hide Handle, QueryLine, IsWord, Printable, Users.Find, Views.Data;
    var u := Users.Find(w.users.rows, email).value;
    assert u in w.users.rows && u.email == email;
    QueryReplied(lib, w, email, view, LimitOffset(limit, offset), end, call);
  }

  lemma HandleQuery(lib: Lib, w: World, call: Call, kind: Kind)
    requires VerbOf(Split(call.line).0) == QueryVerb(kind)
    ensures Handle(lib, w, call)
         == (w, QueryReply(lib, w.users.rows, w.rows, ParseQuery(kind, Split(call.line).1), call.faults.lookup,
                           call.queryFails))
  {
    hide ParseQuery, QueryReply, Split, VerbOf, AccountCommand, AccountReply, ParseRow, Overlay.ChangeFrame;
  }

  lemma KindNames(kind: Kind)
    ensures VerbOf(NameOf(kind)) == QueryVerb(kind)
  {}

  lemma PrintableOk(email: string, view: View)
    requires IsWord(email) && Printable(view)
    ensures email != "" && (ViewOk(view) <==> !AsksNegativeType(view))
  {}

  // ---------- which days a query shows, and in which order ----------

  ghost predicate IsAt(h: History, d: Day, t: Time) {
    ValidDay(d) && ValidTime(t) && h.date == DateText(d, t)
  }

  /** Every row carries a date of the fixed-width form. */
  ghost predicate Dated(rows: seq<History>) {
    forall h | h in rows :: exists d, t :: IsAt(h, d, t)
  }

  /** A date as clients write it, in one word. */
  function DateWord(d: Day, t: Time): string
    requires ValidDay(d) && ValidTime(t)
  {
    DayText(d) + ("_" + TimeText(t))
  }

  lemma NoUnderscore(d: Day, t: Time)
    requires ValidDay(d) && ValidTime(t)
    ensures '_' !in DayText(d) && '_' !in TimeText(t)
  {
    assert Power10(4) == 10000 && Power10(2) == 100;
    hide Pad, Power10;
    DigitsOnly(Pad(4, d.year));
    DigitsOnly(Pad(2, d.month));
    DigitsOnly(Pad(2, d.day));
    DigitsOnly(Pad(2, t.hour));
    DigitsOnly(Pad(2, t.minute));
    DigitsOnly(Pad(2, t.second));
  }

  lemma DigitsOnly(s: string)
    requires AllDigits(s)
    ensures '_' !in s
  {}

  /** The word becomes the fixed-width form the table holds. */
  lemma DateWordRecorded(d: Day, t: Time)
    requires ValidDay(d) && ValidTime(t)
    ensures Unscore(DateWord(d, t)) == DateText(d, t)
  {
    hide DayText, TimeText;
    NoUnderscore(d, t);
    var day, time := DayText(d), TimeText(t);
    var word, text := day + ("_" + time), day + (" " + time);
    forall i | 0 <= i < |word| ensures Unscore(word)[i] == text[i] {
      if i < |day| {
        assert word[i] == day[i] && day[i] in day;
      } else if i > |day| {
        assert word[i] == time[i - |day| - 1] && time[i - |day| - 1] in time;
      }
    }
  }

  ghost predicate IsDateWord(word: string) {
    exists d, t :: ValidDay(d) && ValidTime(t) && word == DateWord(d, t)
  }

  /** An ADD_HISTORY line, if it is one, whose first word is a date or missing. */
  ghost predicate DatedLine(call: Call) {
    var (command, payload) := Split(call.line);
    VerbOf(command).AddVerb? ==> var date := Open(payload).Word().1; date == "" || IsDateWord(date)
  }

  lemma HandleDated(lib: Lib, w: World, call: Call)
    requires Dated(w.rows) && DatedLine(call)
    ensures Dated(Handle(lib, w, call).0.rows)
  {
    hide ParseQuery, QueryReply, AccountReply, AccountCommand, Split, VerbOf, Overlay.ChangeFrame, DateText;
    hide Stream.Word, Stream.Int, Stream.Real, IsDateWord;
    var (command, payload) := Split(call.line);
    var row := ParseRow(lib, payload, call.stale);
    if VerbOf(command).AddVerb? && row.Some? && !call.faults.write {
      var date := Open(payload).Word().1;
      DateWordIsAt(row.value.(id := MaxId(w.rows) + 1), date);
    }
  }

  lemma DateWordIsAt(h: History, word: string)
    requires IsDateWord(word) && h.date == Unscore(word)
    ensures exists d, t :: IsAt(h, d, t)
  {
    hide DateWord, DateText;
    var d, t :| ValidDay(d) && ValidTime(t) && word == DateWord(d, t);
    DateWordRecorded(d, t);
    assert IsAt(h, d, t);
  }

  /** When clients write dates in that form, every stored date has the fixed width. */
  lemma {:induction false} RunDated(lib: Lib, w: World, calls: seq<Call>)
    requires Dated(w.rows) && forall i | 0 <= i < |calls| :: DatedLine(calls[i])
    ensures Dated(Run(lib, w, calls).rows)
    decreases |calls|
  {
    hide Handle, Dated, DatedLine;
    if calls != [] {
      RunDated(lib, w, calls[..|calls| - 1]);
      HandleDated(lib, Run(lib, w, calls[..|calls| - 1]), calls[|calls| - 1]);
    }
  }

  /** A printed event with such a date is such a line. */
  lemma AddLineDated(e: Event, eol: string, call: Call)
    requires e.Ok() && IsEnd(eol) && IsDateWord(e.date) && call.line == AddLine(e, eol)
    ensures DatedLine(call)
  {
    AddName();
    hide Split, Payload, IsWord, VerbOf, Integer, IsDateWord, Stream.Word, Tail;
    AddWordsOneLine(e, eol);
    SplitPrinted("ADD_HISTORY", Payload(e.Words(), eol));
    PayloadIs(e.Words(), eol);
    NextWord(e.date, e.Words()[1..], eol);
  }

  ghost predicate OnDays(h: History, from: Day, to: Day) {
    exists d, t :: IsAt(h, d, t) && !DayBefore(d, from) && !DayBefore(to, d)
  }

  lemma PageInOrder(tie: Tie, s: seq<History>, limit: nat, offset: nat)
    requires InOrder(tie, s)
    ensures InOrder(tie, Page(s, limit, offset))
  {
    hide Before;
    var page := Page(s, limit, offset);
    assert forall i | 0 <= i < |page| :: page[i] == s[offset + i];
  }

  /** In every answer an earlier row is never older than a later one. */
  lemma NewestFirst(tie: Tie, rows: seq<History>, view: View, limit: nat, offset: nat, i: nat, j: nat,
                    d: Day, t: Time, d': Day, t': Time)
    requires StrictTotal(tie) && DistinctIds(rows)
    requires i < j < |Select(tie, rows, view, limit, offset)|
    requires var s := Select(tie, rows, view, limit, offset); IsAt(s[i], d, t) && IsAt(s[j], d', t')
    ensures !DayBefore(d, d') && (d == d' ==> !TimeBefore(t, t'))
  {
    FilterDistinct(rows, view);
    SortedCorrect(tie, Filter(rows, view));
    PageInOrder(tie, Sorted(tie, Filter(rows, view)), limit, offset);
    hide DateText, TextLess, Filter, Sorted, Page, DistinctIds, StrictTotal;
    var s := Select(tie, rows, view, limit, offset);
    assert Before(tie, s[i], s[j]);
    DateTextOrder(d, t, d', t');
    TextLessTotal(s[i].date, s[j].date);
  }

  /** The rows a day range admits are those of its days, both ends included. */
  lemma RangeAdmitsDays(h: History, from: Day, to: Day, d: Day, t: Time)
    requires ValidDay(from) && ValidDay(to) && IsAt(h, d, t)
    ensures Widen(ByDates(DayText(from), DayText(to))).Admits(h) <==> OnDays(h, from, to)
  {
    hide DateText, DayText, FirstMoment, LastMoment, Between;
    forall d', t' | IsAt(h, d', t')
      ensures Between(FirstMoment(DayText(from)), h.date, LastMoment(DayText(to)))
              <==> !DayBefore(d', from) && !DayBefore(to, d')
    {
      RangeIsDays(from, to, d', t');
    }
  }

  /** What a query by type admits, and what one by type within days does. */
  lemma TypeAdmits(h: History, eventType: int, from: Day, to: Day, d: Day, t: Time)
    requires ValidDay(from) && ValidDay(to)
    ensures Widen(All).Admits(h)
    ensures Widen(ByType(eventType)).Admits(h) <==> h.eventType == eventType
    ensures IsAt(h, d, t) ==>
              (Widen(ByTypeAndDates(eventType, DayText(from), DayText(to))).Admits(h)
               <==> h.eventType == eventType && OnDays(h, from, to))
  {
    hide DayText, OnDays, IsAt, Between;
    if IsAt(h, d, t) { RangeAdmitsDays(h, from, to, d, t); }
  }

  /**
   * A printed query is answered with a page of the rows it admits, each once
   * and newest first, as objects of the query's kind.
   */
  lemma AdmittedShown(lib: Lib, w: World, email: string, view: View, limit: nat, offset: nat, end: string, call: Call)
    returns (shown: seq<History>)
    requires IsWord(email) && Printable(view) && !AsksNegativeType(view) && IsEnd(end)
    requires 0 < limit <= INT_MAX && offset <= INT_MAX
    requires call.line == QueryLine(email, view, LimitOffset(limit, offset), end)
    requires !call.faults.lookup && !call.queryFails && Users.Find(w.users.rows, email).Some?
    requires TableOk(w.rows) && StrictTotal(lib.tie)
    ensures InOrder(lib.tie, shown) && DistinctIds(shown)
    ensures forall h :: h in shown <==> h in w.rows && Widen(view).Admits(h)
    ensures var page, (after, reply) := Page(shown, limit, offset), Handle(lib, w, call);
            && after == w && reply.Data? && |reply.rows| == |page|
            && forall i | 0 <= i < |page| ::
                 0 <= page[i].eventType <= 2 && reply.rows[i] == RowOf(lib.round, view, page[i])
  {
    hide Handle, Users.Find, TableOk, Filter, Sorted, QueryLine, Views.Data, Page, StrictTotal, RowOf, Printable;
    hide View.Admits, Before, IsWord, DistinctIds, InOrder, Widen;
    OkDistinct(w.rows);
    FilterDistinct(w.rows, Widen(view));
    SortedCorrect(lib.tie, Filter(w.rows, Widen(view)));
    SortedRows(lib.tie, Filter(w.rows, Widen(view)));
    SortedDistinct(lib.tie, Filter(w.rows, Widen(view)));
    shown := Sorted(lib.tie, Filter(w.rows, Widen(view)));
    forall h ensures h in shown <==> h in w.rows && Widen(view).Admits(h) {
      FilterMembers(w.rows, Widen(view), h);
    }
    QueryAnswered(lib, w, email, view, limit, offset, end, call);
    DataIsRows(lib.tie, lib.round, w.rows, view, limit, offset);
  }

  /**
   * A printed query for a range of days is answered with a page of exactly the
   * rows of those days, each once, newest first.
   */
  lemma DayRangeAnswered(lib: Lib, w: World, email: string, from: Day, to: Day, limit: nat, offset: nat,
                         end: string, call: Call) returns (days: seq<History>)
    requires IsWord(email) && 0 < limit <= INT_MAX && offset <= INT_MAX && IsEnd(end)
    requires ValidDay(from) && ValidDay(to)
    requires call.line == QueryLine(email, ByDates(DayText(from), DayText(to)), LimitOffset(limit, offset), end)
    requires !call.faults.lookup && !call.queryFails && Users.Find(w.users.rows, email).Some?
    requires TableOk(w.rows) && Dated(w.rows) && StrictTotal(lib.tie)
    ensures InOrder(lib.tie, days) && DistinctIds(days)
    ensures forall h :: h in days <==> h in w.rows && OnDays(h, from, to)
    ensures var page := Page(days, limit, offset);
            Handle(lib, w, call) == (w, Reply.Data(Map(h => FullRow(lib.round, h), page)))
  {
    DayIsWord(from);
    DayIsWord(to);
    hide Handle, Users.Find, DayText, TableOk, QueryLine, Page, FullRow, StrictTotal, View.Admits, OnDays, IsWord;
    hide IsAt, DistinctIds, InOrder, Widen;
    var view := ByDates(DayText(from), DayText(to));
    days := AdmittedShown(lib, w, email, view, limit, offset, end, call);
    forall h ensures h in days <==> h in w.rows && OnDays(h, from, to) {
      if h in w.rows {
        var d, t :| IsAt(h, d, t);
        RangeAdmitsDays(h, from, to, d, t);
      }
    }
    assert Handle(lib, w, call).1.rows == Map(h => FullRow(lib.round, h), Page(days, limit, offset));
  }

  /** A printed query for one type is answered with a page of exactly the rows of that type, newest first. */
  lemma TypeAnswered(lib: Lib, w: World, email: string, eventType: nat, limit: nat, offset: nat,
                     end: string, call: Call) returns (shown: seq<History>)
    requires IsWord(email) && eventType <= INT_MAX && 0 < limit <= INT_MAX && offset <= INT_MAX && IsEnd(end)
    requires call.line == QueryLine(email, ByType(eventType), LimitOffset(limit, offset), end)
    requires !call.faults.lookup && !call.queryFails && Users.Find(w.users.rows, email).Some?
    requires TableOk(w.rows) && StrictTotal(lib.tie)
    ensures InOrder(lib.tie, shown) && DistinctIds(shown)
    ensures forall h :: h in shown <==> h in w.rows && h.eventType == eventType
    ensures var page, (after, reply) := Page(shown, limit, offset), Handle(lib, w, call);
            && after == w && reply.Data? && |reply.rows| == |page|
            && forall i | 0 <= i < |page| :: Some(reply.rows[i]) == TypedRow(lib.round, page[i])
  {
    hide Handle, Users.Find, TableOk, QueryLine, Page, StrictTotal, TypedRow, IsWord, DistinctIds, InOrder;
    shown := AdmittedShown(lib, w, email, ByType(eventType), limit, offset, end, call);
    var page := Page(shown, limit, offset);
    forall i | 0 <= i < |page| ensures TypedRow(lib.round, page[i]).Some? {
      TypedKnown(lib.round, page[i]);
    }
  }

  /** The same for one type within a range of days. */
  lemma TypeDaysAnswered(lib: Lib, w: World, email: string, eventType: nat, from: Day, to: Day, limit: nat, offset: nat,
                         end: string, call: Call) returns (shown: seq<History>)
    requires IsWord(email) && eventType <= INT_MAX && 0 < limit <= INT_MAX && offset <= INT_MAX && IsEnd(end)
    requires ValidDay(from) && ValidDay(to)
    requires call.line == QueryLine(email, ByTypeAndDates(eventType, DayText(from), DayText(to)),
                                    LimitOffset(limit, offset), end)
    requires !call.faults.lookup && !call.queryFails && Users.Find(w.users.rows, email).Some?
    requires TableOk(w.rows) && Dated(w.rows) && StrictTotal(lib.tie)
    ensures InOrder(lib.tie, shown) && DistinctIds(shown)
    ensures forall h :: h in shown <==> h in w.rows && h.eventType == eventType && OnDays(h, from, to)
    ensures var page, (after, reply) := Page(shown, limit, offset), Handle(lib, w, call);
            && after == w && reply.Data? && |reply.rows| == |page|
            && forall i | 0 <= i < |page| :: Some(reply.rows[i]) == TypedRow(lib.round, page[i])
  {
    DayIsWord(from);
    DayIsWord(to);
    hide Handle, Users.Find, TableOk, QueryLine, Page, StrictTotal, TypedRow, IsWord, DistinctIds, InOrder;
    hide DayText, OnDays, IsAt, View.Admits, Widen;
    var view := ByTypeAndDates(eventType, DayText(from), DayText(to));
    shown := AdmittedShown(lib, w, email, view, limit, offset, end, call);
    forall h ensures h in shown <==> h in w.rows && h.eventType == eventType && OnDays(h, from, to) {
      if h in w.rows {
        var d, t :| IsAt(h, d, t);
        TypeAdmits(h, eventType, from, to, d, t);
      }
    }
    var page := Page(shown, limit, offset);
    forall i | 0 <= i < |page| ensures TypedRow(lib.round, page[i]).Some? {
      TypedKnown(lib.round, page[i]);
    }
  }

  /** GET_HISTORY is answered with a page of all rows. */
  lemma AllAnswered(lib: Lib, w: World, email: string, limit: nat, offset: nat, end: string, call: Call)
    returns (shown: seq<History>)
    requires IsWord(email) && 0 < limit <= INT_MAX && offset <= INT_MAX && IsEnd(end)
    requires call.line == QueryLine(email, All, LimitOffset(limit, offset), end)
    requires !call.faults.lookup && !call.queryFails && Users.Find(w.users.rows, email).Some?
    requires TableOk(w.rows) && StrictTotal(lib.tie)
    ensures InOrder(lib.tie, shown) && DistinctIds(shown)
    ensures forall h :: h in shown <==> h in w.rows
    ensures var page, (after, reply) := Page(shown, limit, offset), Handle(lib, w, call);
            && after == w && reply.Data? && |reply.rows| == |page|
            && forall i | 0 <= i < |page| :: reply.rows[i] == FullRow(lib.round, page[i])
  {
    hide Handle, Users.Find, TableOk, QueryLine, Page, StrictTotal, FullRow, IsWord, DistinctIds, InOrder;
    shown := AdmittedShown(lib, w, email, All, limit, offset, end, call);
  }

  // ---------- reading page by page ----------

  /** The reply to a client's `k`-th request, for rows `k * limit` on. */
  function Asked(lib: Lib, w: World, email: string, view: View, limit: nat, end: string, k: nat, call: Call): Reply {
    Handle(lib, w, call.(line := QueryLine(email, view, LimitOffset(limit, PageStart(k, limit)), end))).1
  }

  function RowsIn(reply: Reply): seq<Object> {
    if reply.Data? then reply.rows else []
  }

  /** What a client has after its requests `0 .. |calls|` to a server at rest. */
  function Received(lib: Lib, w: World, email: string, view: View, limit: nat, end: string,
                    calls: seq<Call>): seq<Object>
    decreases |calls|
  {
    if calls == [] then []
    else
      var k := |calls| - 1;
      Received(lib, w, email, view, limit, end, calls[..k]) +
      RowsIn(Asked(lib, w, email, view, limit, end, k, calls[k]))
  }

  /** The client is registered and asks for pages of `limit` rows; no lookup of its email fails. */
  ghost predicate MayAsk(w: World, email: string, view: View, limit: nat, end: string, calls: seq<Call>) {
    && Users.Find(w.users.rows, email).Some? && IsWord(email) && IsEnd(end)
    && Printable(view) && !AsksNegativeType(view)
    && 0 < limit <= INT_MAX
    && (forall k: nat | k < |calls| :: PageStart(k, limit) <= INT_MAX && !calls[k].faults.lookup)
  }

  /** Everything there is to receive. */
  function Whole(lib: Lib, w: World, view: View): seq<Object> {
    Views.Data(lib.tie, lib.round, w.rows, view, |w.rows|, 0)
  }

  lemma PageOfWhole(tie: Tie, round: real -> real, rows: seq<History>, view: View, limit: nat, offset: nat)
    requires TableOk(rows)
    ensures Views.Data(tie, round, rows, view, limit, offset)
         == Page(Views.Data(tie, round, rows, view, |rows|, 0), limit, offset)
    ensures |Views.Data(tie, round, rows, view, |rows|, 0)| == |Filter(rows, Widen(view))|
  {
    hide RowOf, Views.Data, Sorted, Filter, TableOk, Page, Widen;
    var s := Sorted(tie, Filter(rows, Widen(view)));
    var whole := Views.Data(tie, round, rows, view, |rows|, 0);
    DataIsRows(tie, round, rows, view, limit, offset);
    DataIsRows(tie, round, rows, view, |rows|, 0);
    PageRows(s, limit, offset);
    PageRows(s, |rows|, 0);
    PageRows(whole, limit, offset);
    var data := Views.Data(tie, round, rows, view, limit, offset);
    forall i | 0 <= i < |data| ensures data[i] == whole[offset + i] {
      assert Page(s, limit, offset)[i] == s[offset + i] == Page(s, |rows|, 0)[offset + i];
    }
  }

  lemma AskedIs(lib: Lib, w: World, email: string, view: View, limit: nat, end: string, calls: seq<Call>, k: nat)
    requires TableOk(w.rows) && MayAsk(w, email, view, limit, end, calls) && k < |calls|
    ensures Asked(lib, w, email, view, limit, end, k, calls[k])
         == Reply.Data(if calls[k].queryFails then [] else Page(Whole(lib, w, view), limit, PageStart(k, limit)))
  {
    hide Handle, QueryLine, Users.Find, IsWord, Printable, Views.Data, TableOk, Page, PageStart;
    var line := QueryLine(email, view, LimitOffset(limit, PageStart(k, limit)), end);
    QueryAnswered(lib, w, email, view, limit, PageStart(k, limit), end, calls[k].(line := line));
    PageOfWhole(lib.tie, lib.round, w.rows, view, limit, PageStart(k, limit));
  }

  lemma FullPage<T>(s: seq<T>, limit: nat, k: nat)
    requires limit > 0 && PageStart(k, limit) <= |s|
    ensures |Page(s, limit, PageStart(k, limit))| >= limit ==>
              PageStart(k + 1, limit) <= |s|
              && s[..PageStart(k, limit)] + Page(s, limit, PageStart(k, limit)) == s[..PageStart(k + 1, limit)]
    ensures |Page(s, limit, PageStart(k, limit))| < limit ==>
              s[..PageStart(k, limit)] + Page(s, limit, PageStart(k, limit)) == s
  {
    assert PageStart(k + 1, limit) == PageStart(k, limit) + limit;
  }

  /** After full pages only, the client has as many rows as its next offset says, from the front. */
  lemma {:induction false} FullPagesReceived(lib: Lib, w: World, email: string, view: View, limit: nat, end: string,
                                             calls: seq<Call>)
    requires TableOk(w.rows) && MayAsk(w, email, view, limit, end, calls)
    requires forall k: nat | k < |calls| :: |RowsIn(Asked(lib, w, email, view, limit, end, k, calls[k]))| >= limit
    ensures PageStart(|calls|, limit) <= |Whole(lib, w, view)|
    ensures Received(lib, w, email, view, limit, end, calls) == Whole(lib, w, view)[..PageStart(|calls|, limit)]
    decreases |calls|
  {
    hide Asked, Whole, TableOk, IsWord, Printable, Users.Find, Page;
    if calls != [] {
      var k := |calls| - 1;
      hide PageStart;
      FullPagesReceived(lib, w, email, view, limit, end, calls[..k]);
      AskedIs(lib, w, email, view, limit, end, calls, k);
      FullPage(Whole(lib, w, view), limit, k);
    }
  }

  lemma DataRows(rows: seq<Object>)
    ensures RowsIn(Reply.Data(rows)) == rows
  {}

  lemma MayAskLess(w: World, email: string, view: View, limit: nat, end: string, calls: seq<Call>, n: nat)
    requires MayAsk(w, email, view, limit, end, calls) && n <= |calls|
    ensures limit > 0 && MayAsk(w, email, view, limit, end, calls[..n])
  {}

  lemma LastReceived(lib: Lib, w: World, email: string, view: View, limit: nat, end: string, calls: seq<Call>)
    requires calls != []
    ensures var last := |calls| - 1;
            Received(lib, w, email, view, limit, end, calls)
            == Received(lib, w, email, view, limit, end, calls[..last])
               + RowsIn(Asked(lib, w, email, view, limit, end, last, calls[last]))
  {}

  /**
   * Reading a table at rest while the database may fail queries.  A client
   * that goes on until its first short page has everything exactly if its last
   * query did not fail or there was nothing left to read: a failed query looks
   * like the last page.
   */
  lemma WalkAtRest(lib: Lib, w: World, email: string, view: View, limit: nat, end: string, calls: seq<Call>)
    requires TableOk(w.rows) && MayAsk(w, email, view, limit, end, calls) && calls != []
    requires forall k: nat | k < |calls| ::
               |RowsIn(Asked(lib, w, email, view, limit, end, k, calls[k]))| < limit <==> k == |calls| - 1
    ensures var whole, received := Whole(lib, w, view), Received(lib, w, email, view, limit, end, calls);
            var last := |calls| - 1;
            && received <= whole
            && |received| == (if calls[last].queryFails then PageStart(last, limit) else |whole|)
            && (received == whole <==> !calls[last].queryFails || PageStart(last, limit) >= |whole|)
  {
    hide *;
    var last, whole := |calls| - 1, Whole(lib, w, view);
    MayAskLess(w, email, view, limit, end, calls, last);
    LastReceived(lib, w, email, view, limit, end, calls);
    FullPagesReceived(lib, w, email, view, limit, end, calls[..last]);
    AskedIs(lib, w, email, view, limit, end, calls, last);
    FullPage(whole, limit, last);
    DataRows([]);
    DataRows(Page(whole, limit, PageStart(last, limit)));
    assert whole[..PageStart(last, limit)] + [] == whole[..PageStart(last, limit)];
  }

  /** A table of one row: when the only query fails, the client believes it is empty. */
  lemma FailedQueryHidesRow(lib: Lib, w: World, h: History, call: Call)
    requires w.rows == [h] && 0 <= h.eventType <= 2 && h.speed.None?
    requires Users.Find(w.users.rows, "e").Some? && !call.faults.lookup
    ensures Asked(lib, w, "e", All, 10, "", 0, call)
         == Reply.Data(if call.queryFails then [] else [FullRow(lib.round, h)])
  {
    hide Asked, FullRow, Filter, Sorted, Users.Find;
    assert IsWord("e");
    AskedIs(lib, w, "e", All, 10, "", [call], 0);
    DataIsRows(lib.tie, lib.round, w.rows, All, 1, 0);
    FilterAll(w.rows, All);
    SortedRows(lib.tie, w.rows);
  }

  // ---------- reading page by page while the server works ----------

  /** The world when page `k` is read: any commands may have come before and between the pages. */
  function WorldAt(lib: Lib, w: World, batches: seq<seq<Call>>, k: nat): World
    requires k <= |batches|
  {
    if k == 0 then w else Run(lib, WorldAt(lib, w, batches, k - 1), batches[k - 1])
  }

  lemma {:induction false} WorldAtOk(lib: Lib, w: World, batches: seq<seq<Call>>, k: nat, email: string)
    requires k <= |batches| && TableOk(w.rows) && Users.Find(w.users.rows, email).Some?
    ensures var v := WorldAt(lib, w, batches, k); TableOk(v.rows) && Users.Find(v.users.rows, email).Some?
    ensures k < |batches| ==> WorldAt(lib, w, batches, k).rows <= WorldAt(lib, w, batches, k + 1).rows
  {
    hide Run, TableOk, Users.Find;
    if k > 0 {
      WorldAtOk(lib, w, batches, k - 1, email);
      RunHistory(lib, WorldAt(lib, w, batches, k - 1), batches[k - 1]);
      RunUsers(lib, WorldAt(lib, w, batches, k - 1), batches[k - 1], email);
    }
    if k < |batches| { RunHistory(lib, WorldAt(lib, w, batches, k), batches[k]); }
  }

  /** What the client's requests find: only its last query may fail, and then only when no row is left for it. */
  ghost predicate NothingMissed(lib: Lib, w: World, batches: seq<seq<Call>>, view: View, limit: nat, calls: seq<Call>)
    requires |calls| == |batches| + 1
  {
    forall k: nat | k < |calls| && calls[k].queryFails ::
      k == |batches| && PageStart(k, limit) >= |Filter(WorldAt(lib, w, batches, k).rows, Widen(view))|
  }

  /** One page of `PagingSeesEverything`. */
  lemma AskedWhileWorking(lib: Lib, w: World, batches: seq<seq<Call>>, email: string, view: View, limit: nat,
                          end: string, calls: seq<Call>, k: nat)
    requires |calls| == |batches| + 1 && k <= |batches|
    requires TableOk(w.rows) && MayAsk(w, email, view, limit, end, calls)
    requires NothingMissed(lib, w, batches, view, limit, calls)
    ensures var v := WorldAt(lib, w, batches, k);
            && TableOk(v.rows)
            && (k < |batches| ==> v.rows <= WorldAt(lib, w, batches, k + 1).rows)
            && Asked(lib, v, email, view, limit, end, k, calls[k])
               == Reply.Data(Views.Data(lib.tie, lib.round, v.rows, view, limit, PageStart(k, limit)))
  {
    hide WorldAt, Asked, Views.Data, TableOk, Filter, IsWord, Printable, Users.Find, PageStart;
    var v := WorldAt(lib, w, batches, k);
    WorldAtOk(lib, w, batches, k, email);
    AskedIs(lib, v, email, view, limit, end, calls, k);
    PageOfWhole(lib.tie, lib.round, v.rows, view, limit, PageStart(k, limit));
  }

  /**
   * Paging during inserts, end to end: a registered client sends the printed
   * query for offsets 0, L, 2L, ... and stops at the first short page, while
   * any commands run before and between its requests.  Every row that matched
   * when it began is in one of the replies.
   */
  lemma PagingSeesEverything(lib: Lib, w: World, batches: seq<seq<Call>>, email: string, view: View, limit: nat,
                             end: string, calls: seq<Call>, h: History)
    requires |calls| == |batches| + 1
    requires TableOk(w.rows) && MayAsk(w, email, view, limit, end, calls)
    requires NothingMissed(lib, w, batches, view, limit, calls)
    requires var n := |batches|;
             |RowsIn(Asked(lib, WorldAt(lib, w, batches, n), email, view, limit, end, n, calls[n]))| < limit
    requires h in w.rows && Widen(view).Admits(h)
    ensures 0 <= h.eventType <= 2
    ensures exists k: nat | k <= |batches| ::
              RowOf(lib.round, view, h)
              in RowsIn(Asked(lib, WorldAt(lib, w, batches, k), email, view, limit, end, k, calls[k]))
  {
    hide Asked, WorldAt, RowOf, Views.Data, Widen, View.Admits, Select, Filter, MayAsk, NothingMissed, PageStart;
    assert 0 <= h.eventType <= 2;
    hide TableOk;
    var tables := seq(|batches| + 1, k requires 0 <= k <= |batches| => WorldAt(lib, w, batches, k).rows);
    forall k: nat | k <= |batches|
      ensures TableOk(tables[k])
      ensures k < |batches| ==> tables[k] <= tables[k + 1]
      ensures Asked(lib, WorldAt(lib, w, batches, k), email, view, limit, end, k, calls[k])
           == Reply.Data(Views.Data(lib.tie, lib.round, tables[k], view, limit, PageStart(k, limit)))
    {
      AskedWhileWorking(lib, w, batches, email, view, limit, end, calls, k);
    }
    FirstWorld(lib, w, batches);
    DataIsRows(lib.tie, lib.round, tables[|batches|], view, limit, PageStart(|batches|, limit));
    FilterMembers(w.rows, Widen(view), h);
    assert 0 < limit by { PositiveLimit(w, email, view, limit, end, calls); }
    NothingSkipped(lib.tie, tables, Widen(view), limit, h);
    var k: nat :| k < |tables| && h in Select(lib.tie, tables[k], Widen(view), limit, PageStart(k, limit));
    DataIsRows(lib.tie, lib.round, tables[k], view, limit, PageStart(k, limit));
    var selected := Select(lib.tie, tables[k], Widen(view), limit, PageStart(k, limit));
    var i :| 0 <= i < |selected| && selected[i] == h;
    assert RowsIn(Asked(lib, WorldAt(lib, w, batches, k), email, view, limit, end, k, calls[k]))[i]
        == RowOf(lib.round, view, h);
  }

  lemma PositiveLimit(w: World, email: string, view: View, limit: nat, end: string, calls: seq<Call>)
    requires MayAsk(w, email, view, limit, end, calls)
    ensures 0 < limit
  {}

  lemma FirstWorld(lib: Lib, w: World, batches: seq<seq<Call>>)
    ensures WorldAt(lib, w, batches, 0) == w
  {}
}
