/**
 * Dates as fixed-width text.  Comparing `YYYY-MM-DD HH:MM:SS` bytewise is
 * comparing (year, month, day, hour, minute, second), so the date filter
 * selects exactly the days asked for and results come newest first.
 */
module Dates {
  import opened Text
  import opened HistoryTable

  datatype Day = Day(year: nat, month: nat, day: nat)
  datatype Time = Time(hour: nat, minute: nat, second: nat)

  predicate ValidDay(d: Day) { d.year < 10000 && d.month < 100 && d.day < 100 }
  predicate ValidTime(t: Time) { t.hour < 24 && t.minute < 60 && t.second < 60 }

  function Power10(w: nat): nat {
    if w == 0 then 1 else 10 * Power10(w - 1)
  }

  /** `n` in exactly `w` digits. */
  function Pad(w: nat, n: nat): (s: string)
    requires n < Power10(w)
    ensures |s| == w && AllDigits(s)
  {
    if w == 0 then "" else Pad(w - 1, n / 10) + [Digit(n % 10)]
  }

  function DayText(d: Day): string
    requires ValidDay(d)
  {
    assert Power10(4) == 10000 && Power10(2) == 100;
    Pad(4, d.year) + ("-" + (Pad(2, d.month) + ("-" + Pad(2, d.day))))
  }

  function TimeText(t: Time): string
    requires ValidTime(t)
  {
    assert Power10(2) == 100;
    Pad(2, t.hour) + (":" + (Pad(2, t.minute) + (":" + Pad(2, t.second))))
  }

  function DateText(d: Day, t: Time): string
    requires ValidDay(d) && ValidTime(t)
  {
    DayText(d) + (" " + TimeText(t))
  }

  predicate DayBefore(a: Day, b: Day) {
    a.year < b.year || (a.year == b.year && (a.month < b.month || (a.month == b.month && a.day < b.day)))
  }

  predicate TimeBefore(a: Time, b: Time) {
    a.hour < b.hour || (a.hour == b.hour && (a.minute < b.minute || (a.minute == b.minute && a.second < b.second)))
  }

  // ---------- text order is numeric order ----------

  /** Fields of equal width compare first; what follows decides between equal ones. */
  lemma {:induction false} FieldsCompare(p: string, q: string, a: string, b: string)
    requires |p| == |q|
    ensures TextLess(p + a, q + b) <==> TextLess(p, q) || (p == q && TextLess(a, b))
  {
    if p == "" {
      assert p + a == a && q + b == b;
    } else {
      FieldsCompare(p[1..], q[1..], a, b);
      assert (p + a)[1..] == p[1..] + a && (q + b)[1..] == q[1..] + b;
      assert p == [p[0]] + p[1..] && q == [q[0]] + q[1..];
    }
  }

  lemma {:induction false} PadCompare(w: nat, m: nat, n: nat)
    requires m < Power10(w) && n < Power10(w)
    ensures TextLess(Pad(w, m), Pad(w, n)) <==> m < n
    ensures Pad(w, m) == Pad(w, n) <==> m == n
  {
    if w > 0 {
      PadCompare(w - 1, m / 10, n / 10);
      FieldsCompare(Pad(w - 1, m / 10), Pad(w - 1, n / 10), [Digit(m % 10)], [Digit(n % 10)]);
      var a, b := Pad(w, m), Pad(w, n);
      assert a[..w - 1] == Pad(w - 1, m / 10) && b[..w - 1] == Pad(w - 1, n / 10);
      assert a[w - 1] as int - '0' as int == m % 10 && b[w - 1] as int - '0' as int == n % 10;
    }
  }

  /** Three padded fields around a separator. */
  lemma ThreeFields(w: nat, x: nat, x': nat, y: nat, y': nat, z: nat, z': nat, sep: string)
    requires x < Power10(w) && x' < Power10(w) && y < Power10(2) && y' < Power10(2) && z < Power10(2) && z' < Power10(2)
    ensures TextLess(Pad(w, x) + (sep + (Pad(2, y) + (sep + Pad(2, z)))),
                     Pad(w, x') + (sep + (Pad(2, y') + (sep + Pad(2, z')))))
       <==> x < x' || (x == x' && (y < y' || (y == y' && z < z')))
  {
    hide Pad, TextLess, Power10;
    PadCompare(w, x, x');
    PadCompare(2, y, y');
    PadCompare(2, z, z');
    ThreeTexts(Pad(w, x), Pad(w, x'), Pad(2, y), Pad(2, y'), Pad(2, z), Pad(2, z'), sep);
  }

  lemma ThreeTexts(p: string, p': string, q: string, q': string, r: string, r': string, sep: string)
    requires |p| == |p'| && |q| == |q'|
    ensures TextLess(p + (sep + (q + (sep + r))), p' + (sep + (q' + (sep + r'))))
       <==> TextLess(p, p') || (p == p' && (TextLess(q, q') || (q == q' && TextLess(r, r'))))
  {
    hide TextLess;
    FieldsCompare(p, p', sep + (q + (sep + r)), sep + (q' + (sep + r')));
    TextLessPrefix(sep, q + (sep + r), q' + (sep + r'));
    FieldsCompare(q, q', sep + r, sep + r');
    TextLessPrefix(sep, r, r');
  }

  lemma DayTextOrder(a: Day, b: Day)
    requires ValidDay(a) && ValidDay(b)
    ensures TextLess(DayText(a), DayText(b)) <==> DayBefore(a, b)
    ensures |DayText(a)| == 10 && (DayText(a) == DayText(b) <==> a == b)
  {
    assert Power10(4) == 10000 && Power10(2) == 100;
    hide Pad, TextLess, Power10;
    ThreeFields(4, a.year, b.year, a.month, b.month, a.day, b.day, "-");
    ThreeFields(4, b.year, a.year, b.month, a.month, b.day, a.day, "-");
    TextLessTotal(DayText(a), DayText(b));
  }

  lemma TimeTextOrder(a: Time, b: Time)
    requires ValidTime(a) && ValidTime(b)
    ensures TextLess(TimeText(a), TimeText(b)) <==> TimeBefore(a, b)
  {
    assert Power10(2) == 100;
    hide Pad, TextLess, Power10;
    ThreeFields(2, a.hour, b.hour, a.minute, b.minute, a.second, b.second, ":");
  }

  /** Text order on dates is numeric order on (year, month, day, hour, minute, second). */
  lemma DateTextOrder(a: Day, s: Time, b: Day, t: Time)
    requires ValidDay(a) && ValidDay(b) && ValidTime(s) && ValidTime(t)
    ensures TextLess(DateText(a, s), DateText(b, t)) <==> DayBefore(a, b) || (a == b && TimeBefore(s, t))
  {
    DayTextOrder(a, b);
    TimeTextOrder(s, t);
    hide DayText, TimeText, TextLess;
    FieldsCompare(DayText(a), DayText(b), " " + TimeText(s), " " + TimeText(t));
    TextLessPrefix(" ", TimeText(s), TimeText(t));
  }

  // ---------- the filter ----------

  /** What the handlers make of the two date tokens. */
  function FirstMoment(startDateRaw: string): string { startDateRaw + " 00:00:00" }
  function LastMoment(endDateRaw: string): string { endDateRaw + " 23:59:59" }

  lemma MomentsAreDates(d: Day)
    requires ValidDay(d)
    ensures FirstMoment(DayText(d)) == DateText(d, Time(0, 0, 0))
    ensures LastMoment(DayText(d)) == DateText(d, Time(23, 59, 59))
  {
    assert Power10(2) == 100;
    assert forall n: nat | n < 100 :: Pad(2, n) == [Digit(n / 10), Digit(n % 10)] by {
      forall n: nat | n < 100 ensures Pad(2, n) == [Digit(n / 10), Digit(n % 10)] {
        TwoDigits(n);
      }
    }
    assert TimeText(Time(0, 0, 0)) == "00:00:00";
    assert TimeText(Time(23, 59, 59)) == "23:59:59";
  }

  lemma TwoDigits(n: nat)
    requires n < 100
    ensures n < Power10(2) && Pad(2, n) == [Digit(n / 10), Digit(n % 10)]
  {
    var m := n / 10;
    assert Power10(2) == 100 && Power10(1) == 10 && m < 10 && m / 10 == 0 && m % 10 == m;
    assert Pad(0, 0) == "";
    assert Pad(1, m) == Pad(0, 0) + [Digit(m)];
    assert Pad(2, n) == Pad(1, m) + [Digit(n % 10)];
  }

  /** A date-range query admits a row exactly when the row's day lies in the range, both ends included. */
  lemma RangeIsDays(from: Day, to: Day, d: Day, t: Time)
    requires ValidDay(from) && ValidDay(to) && ValidDay(d) && ValidTime(t)
    ensures Between(FirstMoment(DayText(from)), DateText(d, t), LastMoment(DayText(to)))
       <==> !DayBefore(d, from) && !DayBefore(to, d)
  {
    MomentsAreDates(from);
    MomentsAreDates(to);
    DateTextOrder(d, t, from, Time(0, 0, 0));
    DateTextOrder(to, Time(23, 59, 59), d, t);
    hide DateText, FirstMoment, LastMoment, DayText, TextLess;
  }

  lemma DayIsWord(d: Day)
    requires ValidDay(d)
    ensures IsWord(DayText(d))
  {
    assert Power10(4) == 10000 && Power10(2) == 100;
    hide Pad, Power10;
    DigitsNoSpace(Pad(4, d.year));
    DigitsNoSpace(Pad(2, d.month));
    DigitsNoSpace(Pad(2, d.day));
  }

  lemma DigitsNoSpace(s: string)
    requires AllDigits(s)
    ensures forall i | 0 <= i < |s| :: !IsSpace(s[i])
  {
    forall i | 0 <= i < |s| ensures !IsSpace(s[i]) { assert IsDigit(s[i]); }
  }
}
