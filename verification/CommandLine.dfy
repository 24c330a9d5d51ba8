/**
 * How `CommandHandler::handle` splits a line, and that the lines a client
 * prints are read back as meant.
 */
module CommandLine {
  import opened Text
  import opened HistoryTable
  import opened Views

  // ---------- splitting ----------

  /** The characters trimmed off the command word. */
  predicate IsBlank(c: char) { c == ' ' || c == '\t' || c == '\r' || c == '\n' }

  function TrimLeft(s: string): string {
    if s != "" && IsBlank(s[0]) then TrimLeft(s[1..]) else s
  }

  function TrimRight(s: string): string {
    if s != "" && IsBlank(s[|s| - 1]) then TrimRight(s[..|s| - 1]) else s
  }

  /** `std::getline` up to a delimiter: its index, or the length. */
  function IndexOf(s: string, c: char): (k: nat)
    ensures k <= |s| && c !in s[..k]
    ensures k < |s| ==> s[k] == c
  {
    if s == "" || s[0] == c then 0
    else
      var k := IndexOf(s[1..], c);
      assert s[..k + 1] == [s[0]] + s[1..][..k];
      k + 1
  }

  /** The command word and the payload. */
  function Split(line: string): (string, string) {
    var k := IndexOf(line, ' ');
    var command := TrimRight(TrimLeft(line[..k]));
    var rest := if k < |line| then line[k + 1..] else "";
    (command, rest[..IndexOf(rest, '\n')])
  }

  lemma {:induction false} IndexOfAt(s: string, c: char, k: nat)
    requires k < |s| && s[k] == c && c !in s[..k]
    ensures IndexOf(s, c) == k
  {
    if k > 0 {
      assert s[0] == s[..k][0];
      assert s[..k] == [s[0]] + s[1..][..k - 1];
      IndexOfAt(s[1..], c, k - 1);
    }
  }

  lemma TrimmedWord(w: string)
    requires IsWord(w)
    ensures TrimRight(TrimLeft(w)) == w
  {}

  /** The command is what comes before the first space, trimmed; the payload what comes after, up to the newline. */
  lemma SplitAtSpace(word: string, payload: string)
    requires ' ' !in word && '\n' !in payload
    ensures Split(word + (" " + payload + "\n")) == (TrimRight(TrimLeft(word)), payload)
  {
    hide TrimLeft, TrimRight;
    var line, rest := word + (" " + payload + "\n"), payload + "\n";
    assert line[..|word|] == word && line[|word|] == ' ' && line[|word| + 1..] == rest;
    IndexOfAt(line, ' ', |word|);
    assert rest[..|payload|] == payload;
    IndexOfAt(rest, '\n', |payload|);
  }

  lemma NoSpace(word: string)
    requires IsWord(word)
    ensures ' ' !in word
  {}

  lemma SplitPrinted(name: string, payload: string)
    requires IsWord(name) && '\n' !in payload
    ensures Split(name + (" " + payload + "\n")) == (name, payload)
  {
    hide Split, TrimLeft, TrimRight, IsWord;
    NoSpace(name);
    SplitAtSpace(name, payload);
    TrimmedWord(name);
  }

  lemma {:induction false} TrimmedLeft(blanks: string, w: string)
    requires forall i | 0 <= i < |blanks| :: blanks[i] in {' ', '\t', '\r', '\n'}
    requires w == "" || w[0] !in {' ', '\t', '\r', '\n'}
    ensures TrimLeft(blanks + w) == w
  {
    if blanks == "" {
      assert blanks + w == w;
    } else {
      assert (blanks + w)[1..] == blanks[1..] + w;
      TrimmedLeft(blanks[1..], w);
    }
  }

  lemma {:induction false} TrimmedRight(w: string, blanks: string)
    requires forall i | 0 <= i < |blanks| :: blanks[i] in {' ', '\t', '\r', '\n'}
    requires w == "" || w[|w| - 1] !in {' ', '\t', '\r', '\n'}
    ensures TrimRight(w + blanks) == w
  {
    if blanks == "" {
      assert w + blanks == w;
    } else {
      var n := |blanks| - 1;
      assert (w + blanks)[..|w + blanks| - 1] == w + blanks[..n];
      TrimmedRight(w, blanks[..n]);
    }
  }

  lemma {:induction false} IndexOfNone(s: string, c: char)
    requires c !in s
    ensures IndexOf(s, c) == |s|
  {}

  /** Tabs, returns and newlines around a word are trimmed. */
  lemma Trimmed(before: string, name: string, after: string)
    requires forall i | 0 <= i < |before| :: before[i] in {'\t', '\r', '\n'}
    requires forall i | 0 <= i < |after| :: after[i] in {'\t', '\r', '\n'}
    requires IsWord(name)
    ensures ' ' !in before + (name + after)
    ensures TrimRight(TrimLeft(before + (name + after))) == name
  {
    NoSpace(name);
    WordEnds(name);
    hide IsWord, TrimLeft, TrimRight;
    assert ' ' !in before && ' ' !in after;
    TrimmedLeft(before, name + after);
    TrimmedRight(name, after);
  }

  lemma WordEnds(name: string)
    requires IsWord(name)
    ensures name[0] !in {' ', '\t', '\r', '\n'} && name[|name| - 1] !in {' ', '\t', '\r', '\n'}
  {}

  /** A command without a payload: tabs, returns and newlines around its word do not matter. */
  lemma SplitBare(before: string, name: string, after: string)
    requires forall i | 0 <= i < |before| :: before[i] in {'\t', '\r', '\n'}
    requires forall i | 0 <= i < |after| :: after[i] in {'\t', '\r', '\n'}
    requires IsWord(name)
    ensures Split(before + (name + after)) == (name, "")
  {
    hide IsWord, TrimLeft, TrimRight;
    var line := before + (name + after);
    Trimmed(before, name, after);
    IndexOfNone(line, ' ');
    assert line[..|line|] == line;
  }

  /** With a payload: everything up to the first space is trimmed, the payload is what follows, up to the newline. */
  lemma SplitTrimmed(before: string, name: string, after: string, payload: string)
    requires forall i | 0 <= i < |before| :: before[i] in {'\t', '\r', '\n'}
    requires forall i | 0 <= i < |after| :: after[i] in {'\t', '\r', '\n'}
    requires IsWord(name) && '\n' !in payload
    ensures Split(before + (name + after) + (" " + payload + "\n")) == (name, payload)
  {
    hide Split, IsWord, TrimLeft, TrimRight;
    Trimmed(before, name, after);
    SplitAtSpace(before + (name + after), payload);
  }

  // ---------- printing ----------

  /** Words, each after one space, and then the end of the payload. */
  function Tail(words: seq<string>, end: string): string {
    if words == [] then end else " " + words[0] + Tail(words[1..], end)
  }

  function Payload(words: seq<string>, end: string): string
    requires words != []
  {
    words[0] + Tail(words[1..], end)
  }

  /** With CRLF line ends the payload keeps the carriage return. */
  predicate IsEnd(end: string) { end == "" || end == "\r" }

  ghost predicate AllWords(words: seq<string>) {
    forall i | 0 <= i < |words| :: IsWord(words[i])
  }

  lemma TailEndsWord(words: seq<string>, end: string)
    requires IsEnd(end)
    ensures EndsWord(Tail(words, end))
  {}

  lemma {:induction false} TailIsOneLine(words: seq<string>, end: string)
    requires AllWords(words) && IsEnd(end)
    ensures '\n' !in Tail(words, end)
  {
    if words != [] {
      assert forall i | 0 <= i < |words[0]| :: !IsSpace(words[0][i]);
      TailIsOneLine(words[1..], end);
    }
  }

  lemma PayloadIsOneLine(words: seq<string>, end: string)
    requires words != [] && AllWords(words) && IsEnd(end)
    ensures '\n' !in Payload(words, end)
  {
    TailIsOneLine(words[1..], end);
    assert forall i | 0 <= i < |words[0]| :: !IsSpace(words[0][i]);
  }

  lemma NextWord(w: string, words: seq<string>, end: string)
    requires IsWord(w) && IsEnd(end)
    ensures Open(w + Tail(words, end)).Word() == (After(Tail(words, end)), w)
    ensures After(Tail([w] + words, end)).Word() == (After(Tail(words, end)), w)
  {
    TailEndsWord(words, end);
    WordReadsBack(w, Tail(words, end));
    assert ([w] + words)[1..] == words;
  }

  lemma NextInt(n: int, words: seq<string>, end: string, current: int)
    requires INT_MIN <= n <= INT_MAX && IsEnd(end)
    ensures After(Tail([Integer(n)] + words, end)).Int(current) == (After(Tail(words, end)), n)
  {
    TailEndsWord(words, end);
    IntReadsBack(n, Tail(words, end), current);
    assert ([Integer(n)] + words)[1..] == words;
  }

  /** Reading on at the end of the payload leaves every variable as it was. */
  lemma NothingLeft(end: string, first: int, second: int)
    requires IsEnd(end)
    ensures After(Tail([], end)).Int(first).1 == first
    ensures After(Tail([], end)).Int(first).0.Int(second).1 == second
  {
    if end == "\r" { assert end[1..] == ""; }
  }

  /** The page a client asks for: nothing, a limit, or a limit and an offset. */
  datatype PageWords = NoPage | Limit(limit: int) | LimitOffset(limit: int, offset: int)

  function WordsOfPage(p: PageWords): seq<string> {
    match p
    case NoPage => []
    case Limit(l) => [Integer(l)]
    case LimitOffset(l, o) => [Integer(l), Integer(o)]
  }

  predicate PageOk(p: PageWords) {
    match p
    case NoPage => true
    case Limit(l) => INT_MIN <= l <= INT_MAX
    case LimitOffset(l, o) => INT_MIN <= l <= INT_MAX && INT_MIN <= o <= INT_MAX
  }

  lemma PageReadsBack(p: PageWords, end: string)
    requires PageOk(p) && IsEnd(end)
    ensures var s := After(Tail(WordsOfPage(p), end));
            && s.Int(LIMIT).1 == (if p.NoPage? then 10 else p.limit)
            && s.Int(LIMIT).0.Int(OFFSET).1 == if p.LimitOffset? then p.offset else 0
  {
    hide Stream.Int, Tail, Integer;
    match p
    case NoPage =>
      NothingLeft(end, LIMIT, OFFSET);
    case Limit(l) =>
      NextInt(l, [], end, LIMIT);
      NothingLeft(end, OFFSET, OFFSET);
      assert [Integer(l)] + [] == [Integer(l)];
    case LimitOffset(l, o) =>
      NextInt(l, [Integer(o)], end, LIMIT);
      NextInt(o, [], end, OFFSET);
      assert [Integer(o)] + [] == [Integer(o)];
      assert [Integer(l)] + [Integer(o)] == [Integer(l), Integer(o)];
  }

  /** The words between the email and the page. */
  function WordsOfView(view: View): seq<string> {
    match view
    case All => []
    case ByType(t) => [Integer(t)]
    case ByDates(a, b) => [a, b]
    case ByTypeAndDates(t, a, b) => [Integer(t), a, b]
  }

  ghost predicate Printable(view: View) {
    match view
    case All => true
    case ByType(t) => INT_MIN <= t <= INT_MAX
    case ByDates(a, b) => IsWord(a) && IsWord(b)
    case ByTypeAndDates(t, a, b) => INT_MIN <= t <= INT_MAX && IsWord(a) && IsWord(b)
  }

  function KindOf(view: View): Kind {
    match view
    case All => AllKind
    case ByType(_) => TypeKind
    case ByDates(_, _) => DatesKind
    case ByTypeAndDates(_, _, _) => TypeAndDatesKind
  }

  function NameOf(kind: Kind): string {
    match kind
    case AllKind => "GET_HISTORY"
    case TypeKind => "GET_HISTORY_BY_EVENT_TYPE"
    case DatesKind => "GET_HISTORY_BY_DATE_RANGE"
    case TypeAndDatesKind => "GET_HISTORY_BY_EVENT_TYPE_AND_DATE_RANGE"
  }

  function QueryWords(email: string, view: View, p: PageWords): seq<string> {
    [email] + (WordsOfView(view) + WordsOfPage(p))
  }

  /** The line a client sends, up to and including the newline. */
  function QueryLine(email: string, view: View, p: PageWords, end: string): string {
    NameOf(KindOf(view)) + (" " + Payload(QueryWords(email, view, p), end) + "\n")
  }

  lemma QueryWordsAreWords(email: string, view: View, p: PageWords)
    requires IsWord(email) && Printable(view) && PageOk(p)
    ensures AllWords(QueryWords(email, view, p))
  {
    forall n: int ensures IsWord(Integer(n)) { IntegerIsWord(n); }
    hide Integer, IsWord;
    assert AllWords(WordsOfView(view)) && AllWords(WordsOfPage(p));
  }

  /** The tokens of a printed query are read back as its arguments, with 10 and 0 for those left out. */
  lemma QueryParses(email: string, view: View, p: PageWords, end: string)
    requires IsWord(email) && Printable(view) && PageOk(p) && IsEnd(end)
    ensures ParseQuery(KindOf(view), Payload(QueryWords(email, view, p), end))
         == Query(email, view, if p.NoPage? then 10 else p.limit, if p.LimitOffset? then p.offset else 0)
  {
    hide Stream.Int, Stream.Word, Tail, Integer, IsWord;
    var page := WordsOfPage(p);
    assert QueryWords(email, view, p)[1..] == WordsOfView(view) + page;
    NextWord(email, WordsOfView(view) + page, end);
    PageReadsBack(p, end);
    match view
    case All =>
      assert WordsOfView(view) + page == page;
    case ByType(t) =>
      NextInt(t, page, end, 0);
    case ByDates(a, b) =>
      NextWord(a, [b] + page, end);
      NextWord(b, page, end);
      assert [a, b] + page == [a] + ([b] + page);
    case ByTypeAndDates(t, a, b) =>
      NextInt(t, [a, b] + page, end, 0);
      NextWord(a, [b] + page, end);
      NextWord(b, page, end);
      assert [Integer(t), a, b] + page == [Integer(t)] + ([a, b] + page);
      assert [a, b] + page == [a] + ([b] + page);
  }

  /** A printed query reaches its handler with its arguments, whatever the line end. */
  lemma QueryLineRoundTrip(email: string, view: View, p: PageWords, end: string)
    requires IsWord(email) && Printable(view) && PageOk(p) && IsEnd(end)
    ensures var (command, payload) := Split(QueryLine(email, view, p, end));
            && command == NameOf(KindOf(view))
            && ParseQuery(KindOf(view), payload)
               == Query(email, view, if p.NoPage? then 10 else p.limit, if p.LimitOffset? then p.offset else 0)
  {
    QueryWordsAreWords(email, view, p);
    PayloadIsOneLine(QueryWords(email, view, p), end);
    NameIsWord(KindOf(view));
    hide ParseQuery, Split, Payload, QueryWords, NameOf, KindOf, IsWord, Printable;
    SplitPrinted(NameOf(KindOf(view)), Payload(QueryWords(email, view, p), end));
    QueryParses(email, view, p, end);
  }

  lemma NameIsWord(kind: Kind)
    ensures IsWord(NameOf(kind))
  {
    hide IsWord;
    LongestName();
    ShorterNames();
  }

  lemma LongestName()
    ensures IsWord("GET_HISTORY_BY_EVENT_TYPE_AND_DATE_RANGE")
  {}

  lemma ShorterNames()
    ensures IsWord("GET_HISTORY") && IsWord("GET_HISTORY_BY_EVENT_TYPE") && IsWord("GET_HISTORY_BY_DATE_RANGE")
  {}
}
