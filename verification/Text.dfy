/**
 * Text as the server sees it: whitespace, words, decimal numbers, and the
 * part of `std::istringstream` that the handlers use (`>>` into a string, an
 * `int` or a `size_t`).  A `char` stands for one byte.
 */
module Text {
  // ---------- whitespace and words ----------

  /** `isspace` in the "C" locale. */
  predicate IsSpace(c: char) {
    c == ' ' || c == '\t' || c == '\n' || c == '\r' || c as int == 11 || c as int == 12
  }

  /** A string that `>>` reads back as one word. */
  predicate IsWord(w: string) {
    w != "" && forall i | 0 <= i < |w| :: !IsSpace(w[i])
  }

  /** What may follow a word: nothing, or something that begins with whitespace. */
  predicate EndsWord(t: string) {
    t == "" || IsSpace(t[0])
  }

  function SkipSpace(s: string): (t: string)
    ensures t == "" || !IsSpace(t[0])
    ensures |t| <= |s|
  {
    if s == "" || !IsSpace(s[0]) then s else SkipSpace(s[1..])
  }

  function WordLength(s: string): (k: nat)
    ensures k <= |s|
    ensures forall i | 0 <= i < k :: !IsSpace(s[i])
    ensures k < |s| ==> IsSpace(s[k])
  {
    if s == "" || IsSpace(s[0]) then 0 else 1 + WordLength(s[1..])
  }

  lemma {:induction false} WordLengthOf(w: string, t: string)
    requires forall i | 0 <= i < |w| :: !IsSpace(w[i])
    requires EndsWord(t)
    ensures WordLength(w + t) == |w|
  {
    if w == "" {
      assert w + t == t;
    } else {
      WordLengthOf(w[1..], t);
      assert (w + t)[1..] == w[1..] + t;
    }
  }

  // ---------- decimal numbers ----------

  predicate IsDigit(c: char) { '0' <= c <= '9' }

  predicate AllDigits(s: string) {
    forall i | 0 <= i < |s| :: IsDigit(s[i])
  }

  function Digit(d: nat): char
    requires d < 10
  {
    ('0' as int + d) as char
  }

  function DigitValue(c: char): nat
    requires IsDigit(c)
  {
    c as int - '0' as int
  }

  /** `std::to_string` of an unsigned number. */
  function Decimal(n: nat): (s: string)
    ensures s != "" && AllDigits(s)
  {
    if n < 10 then [Digit(n)] else Decimal(n / 10) + [Digit(n % 10)]
  }

  function DecimalValue(s: string): nat
    requires AllDigits(s)
  {
    if s == "" then 0 else 10 * DecimalValue(s[..|s| - 1]) + DigitValue(s[|s| - 1])
  }

  lemma {:induction false} DecimalRoundTrip(n: nat)
    ensures DecimalValue(Decimal(n)) == n
  {
    if n < 10 {
      assert Decimal(n)[..0] == "";
    } else {
      DecimalRoundTrip(n / 10);
      var s := Decimal(n);
      assert s[..|s| - 1] == Decimal(n / 10);
    }
  }

  function DigitsLength(s: string): (k: nat)
    ensures k <= |s| && AllDigits(s[..k])
    ensures k < |s| ==> !IsDigit(s[k])
  {
    if s == "" || !IsDigit(s[0]) then 0
    else
      var k := DigitsLength(s[1..]);
      assert s[..1 + k] == [s[0]] + s[1..][..k];
      1 + k
  }

  lemma {:induction false} DigitsLengthOf(d: string, t: string)
    requires AllDigits(d)
    requires t == "" || !IsDigit(t[0])
    ensures DigitsLength(d + t) == |d|
  {
    if d == "" {
      assert d + t == t;
    } else {
      DigitsLengthOf(d[1..], t);
      assert (d + t)[1..] == d[1..] + t;
    }
  }

  // ---------- std::istringstream ----------

  const INT_MAX: int := 0x7FFF_FFFF
  const INT_MIN: int := -0x8000_0000
  const SIZE_LIMIT: int := 0x1_0000_0000_0000_0000

  type SizeT = n: nat | n < SIZE_LIMIT

  /** The unread characters and the two state bits that matter. */
  datatype Stream = Stream(rest: string, eof: bool, fail: bool) {
    predicate Good() { !eof && !fail }

    /** `>> word`: a failed extraction leaves the (empty) word alone. */
    function Word(): (Stream, string) {
      if !Good() then (this.(fail := true), "")
      else
        var t := SkipSpace(rest);
        var k := WordLength(t);
        if k == 0 then (Stream("", true, true), "")
        else (Stream(t[k..], k == |t|, false), t[..k])
    }

    /**
     * `>> n` for an `int` holding `current`.  With nothing left to read the
     * variable keeps its value; text that is no number sets it to 0 and a
     * number out of range to the nearest `int`, both with the fail bit.
     */
    function Int(current: int): (Stream, int) {
      if !Good() then (this.(fail := true), current)
      else
        var t := SkipSpace(rest);
        if t == "" then (Stream("", true, true), current)
        else
          var sc := Scan(t);
          if sc.digits == "" then (Stream(sc.rest, sc.rest == "", true), 0)
          else
            var magnitude: int := DecimalValue(sc.digits);
            var v := if sc.negative then -magnitude else magnitude;
            if v > INT_MAX then (Stream(sc.rest, sc.rest == "", true), INT_MAX)
            else if v < INT_MIN then (Stream(sc.rest, sc.rest == "", true), INT_MIN)
            else (Stream(sc.rest, sc.rest == "", false), v)
    }

    /** `>> n` for a `size_t`: a minus sign negates modulo 2^64. */
    function Size(current: SizeT): (Stream, SizeT) {
      if !Good() then (this.(fail := true), current)
      else
        var t := SkipSpace(rest);
        if t == "" then (Stream("", true, true), current)
        else
          var sc := Scan(t);
          if sc.digits == "" then (Stream(sc.rest, sc.rest == "", true), 0)
          else
            var v := DecimalValue(sc.digits);
            if v >= SIZE_LIMIT then (Stream(sc.rest, sc.rest == "", true), SIZE_LIMIT - 1)
            else (Stream(sc.rest, sc.rest == "", false), if sc.negative then (SIZE_LIMIT - v) % SIZE_LIMIT else v)
    }

    /** `>> x` for a floating-point `x`; `read` is the library's conversion of one word. */
    function Real(current: real, read: string -> real): real {
      if !Good() then current
      else
        var t := SkipSpace(rest);
        if t == "" then current else read(t[..WordLength(t)])
    }
  }

  function Open(s: string): Stream { Stream(s, false, false) }

  /** The stream object the handlers read from; each extraction moves it on. */
  class IStringStream {
    var state: Stream

    constructor (s: string)
      ensures state == Open(s)
    {
      state := Open(s);
    }

    method ReadWord() returns (w: string)
      modifies this
      ensures (state, w) == old(state).Word()
    {
      var r := state.Word();
      state, w := r.0, r.1;
    }

    method ReadInt(current: int) returns (n: int)
      modifies this
      ensures (state, n) == old(state).Int(current)
    {
      var r := state.Int(current);
      state, n := r.0, r.1;
    }

    method ReadReal(current: real, read: string -> real) returns (x: real)
      ensures x == state.Real(current, read)
    {
      x := state.Real(current, read);
    }
  }

  /** The state after an extraction that succeeded and left `t` unread. */
  function After(t: string): Stream { Stream(t, t == "", false) }

  datatype Scanned = Scanned(negative: bool, digits: string, rest: string)

  /** An optional sign and the longest run of digits. */
  function Scan(t: string): (sc: Scanned)
    ensures AllDigits(sc.digits)
  {
    var sign := if t != "" && (t[0] == '-' || t[0] == '+') then 1 else 0;
    var k := DigitsLength(t[sign..]);
    Scanned(sign == 1 && t[0] == '-', t[sign..][..k], t[sign..][k..])
  }

  /** Reading back a printed word, at the start of the text or after one space. */
  lemma WordReadsBack(w: string, t: string)
    requires IsWord(w) && EndsWord(t)
    ensures Open(w + t).Word() == (After(t), w)
    ensures Open(" " + w + t).Word() == (After(t), w)
    ensures After(" " + w + t).Word() == (After(t), w)
  {
    SkipOneSpace(w, t);
    WordLengthOf(w, t);
    assert (w + t)[|w|..] == t && (w + t)[..|w|] == w;
  }

  lemma SkipOneSpace(w: string, t: string)
    requires w != "" && !IsSpace(w[0])
    ensures SkipSpace(w + t) == w + t
    ensures SkipSpace(" " + w + t) == w + t
  {
    assert (" " + w + t)[1..] == w + t;
  }

  lemma ScanDecimal(n: nat, t: string)
    requires EndsWord(t)
    ensures Scan(Decimal(n) + t) == Scanned(false, Decimal(n), t)
  {
    var d := Decimal(n);
    assert IsDigit(d[0]) && (d + t)[0] == d[0];
    DigitsLengthOf(d, t);
    assert (d + t)[0..] == d + t;
    assert (d + t)[..|d|] == d && (d + t)[|d|..] == t;
  }

  /** What follows a word does not change the number read from it. */
  lemma ScanWord(w: string, t: string)
    requires IsWord(w) && EndsWord(t)
    ensures Scan(w + t) == Scan(w).(rest := Scan(w).rest + t)
  {
    hide DigitsLength, IsSpace;
    var sign := if w[0] == '-' || w[0] == '+' then 1 else 0;
    var u := w[sign..];
    assert (w + t)[0] == w[0] && (w + t)[sign..] == u + t;
    SpaceIsNoDigit(t);
    DigitsLengthBefore(u, t);
    var k := DigitsLength(u);
    assert (u + t)[..k] == u[..k] && (u + t)[k..] == u[k..] + t;
  }

  lemma SpaceIsNoDigit(t: string)
    requires EndsWord(t)
    ensures t == "" || !IsDigit(t[0])
  {}

  lemma {:induction false} DigitsLengthBefore(s: string, t: string)
    requires t == "" || !IsDigit(t[0])
    ensures DigitsLength(s + t) == DigitsLength(s)
  {
    if s == "" {
      assert s + t == t;
    } else if IsDigit(s[0]) {
      DigitsLengthBefore(s[1..], t);
      assert (s + t)[1..] == s[1..] + t;
    }
  }

  lemma ScanSigned(c: char, n: nat, t: string)
    requires (c == '-' || c == '+') && EndsWord(t)
    ensures Scan([c] + (Decimal(n) + t)) == Scanned(c == '-', Decimal(n), t)
  {
    var d := Decimal(n);
    var s := [c] + (d + t);
    DigitsLengthOf(d, t);
    assert s[1..] == d + t && (d + t)[..|d|] == d && (d + t)[|d|..] == t;
  }

  /** A sign and a number: minus is negative, plus is not, and what no `int` holds fails at the nearest one. */
  lemma SignedReads(c: char, n: nat, t: string, current: int)
    requires (c == '-' || c == '+') && EndsWord(t)
    ensures var v := if c == '-' then 0 - n else n;
            var read := (Stream(t, t == "", v < -0x8000_0000 || v > 0x7FFF_FFFF),
                         if v > 0x7FFF_FFFF then 0x7FFF_FFFF else if v < -0x8000_0000 then -0x8000_0000 else v);
            && Open([c] + (Decimal(n) + t)).Int(current) == read
            && After(" " + ([c] + Decimal(n)) + t).Int(current) == read
  {
    var w := [c] + Decimal(n);
    hide Scan;
    assert w + t == [c] + (Decimal(n) + t);
    SkipOneSpace(w, t);
    ScanSigned(c, n, t);
    DecimalRoundTrip(n);
  }

  /** The same for a number without a sign. */
  lemma UnsignedReads(n: nat, t: string, current: int)
    requires EndsWord(t)
    ensures var read := (Stream(t, t == "", n > 0x7FFF_FFFF), if n > 0x7FFF_FFFF then 0x7FFF_FFFF else n);
            && Open(Decimal(n) + t).Int(current) == read
            && After(" " + Decimal(n) + t).Int(current) == read
  {
    assert IsDigit(Decimal(n)[0]);
    SkipOneSpace(Decimal(n), t);
    ScanDecimal(n, t);
    DecimalRoundTrip(n);
  }

  /** `std::to_string` of a signed number. */
  function Integer(n: int): string {
    if n < 0 then ['-'] + Decimal(0 - n) else Decimal(n)
  }

  lemma IntReadsBack(n: int, t: string, current: int)
    requires INT_MIN <= n <= INT_MAX && EndsWord(t)
    ensures After(" " + Integer(n) + t).Int(current) == (After(t), n)
    ensures Open(Integer(n) + t).Int(current) == (After(t), n)
  {
    hide Decimal, Scan, SkipSpace, DecimalValue;
    if n < 0 {
      SignedReads('-', 0 - n, t, current);
      assert Integer(n) + t == ['-'] + (Decimal(0 - n) + t);
    } else {
      UnsignedReads(n, t, current);
    }
  }

  lemma IntegerIsWord(n: int)
    ensures IsWord(Integer(n))
  {
    if n < 0 {
      DecimalIsWord(0 - n);
      var w, d := Integer(n), Decimal(0 - n);
      forall i | 0 <= i < |w| ensures !IsSpace(w[i]) {
        if i > 0 { assert w[i] == d[i - 1]; }
      }
    } else {
      DecimalIsWord(n);
    }
  }

  /** A word that begins with no number reads as 0 and fails; with no word left the variable keeps its value. */
  lemma NoNumberReads(w: string, t: string, current: int)
    requires IsWord(w) && EndsWord(t)
    requires !IsDigit(w[0]) && ((w[0] == '-' || w[0] == '+') ==> |w| == 1 || !IsDigit(w[1]))
    ensures var (s, v) := Open(w + t).Int(current); s.fail && v == 0
    ensures Open("").Int(current) == (Stream("", true, true), current)
  {
    SkipOneSpace(w, t);
    hide IsSpace, SkipSpace;
    ScanWord(w, t);
    var sign := if w[0] == '-' || w[0] == '+' then 1 else 0;
    assert DigitsLength(w[sign..]) == 0;
  }

  /** A printed number ends in its last digit, before which stands the number without it. */
  lemma DecimalDigits(n: nat, d: nat)
    requires d < 10
    ensures Decimal(d) == ["0123456789"[d]]
    ensures n > 0 ==> Decimal(10 * n + d) == Decimal(n) + ["0123456789"[d]]
  {
    assert Digit(d) == "0123456789"[d];
  }

  /** A `size_t` that is too large fails at the largest one; with no word left the variable keeps its value. */
  lemma SizesRead(n: nat, t: string, current: SizeT)
    requires EndsWord(t)
    ensures Open(Decimal(n) + t).Size(current)
         == (Stream(t, t == "", n >= 0x1_0000_0000_0000_0000),
             if n >= 0x1_0000_0000_0000_0000 then 0xFFFF_FFFF_FFFF_FFFF else n)
    ensures Open("").Size(current) == (Stream("", true, true), current)
  {
    assert IsDigit(Decimal(n)[0]);
    hide Scan, Decimal, DecimalValue;
    SkipOneSpace(Decimal(n), t);
    ScanDecimal(n, t);
    DecimalRoundTrip(n);
  }

  /** A minus sign negates a `size_t` modulo 2^64. */
  lemma NegativeSizes(n: nat, t: string, current: SizeT)
    requires EndsWord(t) && 0 < n < 0x1_0000_0000_0000_0000
    ensures Open(['-'] + (Decimal(n) + t)).Size(current) == (After(t), 0x1_0000_0000_0000_0000 - n)
  {
    hide Scan, Decimal, DecimalValue;
    assert ['-'] + Decimal(n) + t == ['-'] + (Decimal(n) + t);
    SkipOneSpace(['-'] + Decimal(n), t);
    ScanSigned('-', n, t);
    DecimalRoundTrip(n);
  }

  /** Space, tab, newline, vertical tab, form feed and carriage return, and no other character, end a word. */
  lemma {:induction false} WordIsRead(blanks: string, w: string, t: string)
    requires forall i | 0 <= i < |blanks| :: blanks[i] as int in {32, 9, 10, 11, 12, 13}
    requires w != "" && forall i | 0 <= i < |w| :: w[i] as int !in {32, 9, 10, 11, 12, 13}
    requires t == "" || t[0] as int in {32, 9, 10, 11, 12, 13}
    ensures Open(blanks + (w + t)).Word() == (Stream(t, t == "", false), w)
    decreases |blanks|
  {
    if blanks == "" {
      assert blanks + (w + t) == w + t;
      WordReadsBack(w, t);
    } else {
      assert (blanks + (w + t))[1..] == blanks[1..] + (w + t);
      WordIsRead(blanks[1..], w, t);
    }
  }

  lemma SizeReadsBack(n: nat, t: string, current: SizeT)
    requires n < SIZE_LIMIT && EndsWord(t)
    ensures After(" " + Decimal(n) + t).Size(current) == (After(t), n)
  {
    assert IsDigit(Decimal(n)[0]);
    SkipOneSpace(Decimal(n), t);
    ScanDecimal(n, t);
    DecimalRoundTrip(n);
  }

  lemma DecimalIsWord(n: nat)
    ensures IsWord(Decimal(n))
  {
    forall i | 0 <= i < |Decimal(n)| ensures !IsSpace(Decimal(n)[i]) {
      assert IsDigit(Decimal(n)[i]);
    }
  }

  // ---------- text order ----------

  /** `a` sorts strictly before `b` bytewise, as SQLite's BINARY collation has it. */
  predicate TextLess(a: string, b: string) {
    b != "" && (a == "" || a[0] < b[0] || (a[0] == b[0] && TextLess(a[1..], b[1..])))
  }

  /** The first difference decides, and a text sorts before its continuations. */
  lemma FirstDifference(p: string, c: char, d: char, x: string, y: string)
    ensures TextLess(p + ([c] + x), p + ([d] + y)) <==> c < d || (c == d && TextLess(x, y))
    ensures TextLess(p, p + ([c] + x)) && !TextLess(p + ([c] + x), p)
  {
    TextLessPrefix(p, [c] + x, [d] + y);
    TextLessPrefix(p, "", [c] + x);
    TextLessPrefix(p, [c] + x, "");
    assert p + "" == p;
    assert ([c] + x)[1..] == x && ([d] + y)[1..] == y;
  }

  lemma {:induction false} TextLessTotal(a: string, b: string)
    ensures TextLess(a, b) || TextLess(b, a) || a == b
    ensures !(TextLess(a, b) && TextLess(b, a))
    ensures !TextLess(a, a)
    decreases |a| + |b|
  {
    if a != "" && b != "" {
      TextLessTotal(a[1..], b[1..]);
      assert a == [a[0]] + a[1..] && b == [b[0]] + b[1..];
    }
    TextLessIrreflexive(a);
  }

  lemma {:induction false} TextLessIrreflexive(a: string)
    ensures !TextLess(a, a)
  {
    if a != "" { TextLessIrreflexive(a[1..]); }
  }

  lemma {:induction false} TextLessTransitive(a: string, b: string, c: string)
    requires TextLess(a, b) && TextLess(b, c)
    ensures TextLess(a, c)
  {
    if a != "" && a[0] == b[0] && b[0] == c[0] {
      TextLessTransitive(a[1..], b[1..], c[1..]);
    }
  }

  /** A common prefix does not matter. */
  lemma {:induction false} TextLessPrefix(p: string, a: string, b: string)
    ensures TextLess(p + a, p + b) <==> TextLess(a, b)
  {
    if p == "" {
      assert p + a == a && p + b == b;
    } else {
      TextLessPrefix(p[1..], a, b);
      assert (p + a)[1..] == p[1..] + a && (p + b)[1..] == p[1..] + b;
    }
  }
}
