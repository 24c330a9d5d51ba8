/**
 * What a session guarantees: a client's requests arrive as sent, and cutting
 * the stream anywhere leaves exactly the uploads that had fully arrived.
 */
module SessionProofs {
  import opened Text
  import opened Images
  import opened Session
  import opened Wrappers

  // ---------- all or nothing ----------

  /** The image store after the given events: each stored upload adds its file. */
  function Apply(files: Files, entries: seq<Entry>): Files
    decreases |entries|
  {
    if entries == [] then files
    else match entries[0].event
      case Stored(name, body) => Apply(files[ImagePath(name) := body], entries[1..])
      case _ => Apply(files, entries[1..])
  }

  /** The events whose bytes lie within the first `k` bytes of the stream. */
  function Within(entries: seq<Entry>, k: nat): seq<Entry> {
    if entries == [] || entries[0].end > k then [] else [entries[0]] + Within(entries[1..], k)
  }

  /** Where the body of an accepted upload starts; for other events, where their line ends. */
  function Start(entry: Entry): int {
    match entry.event
    case Stored(_, body) => entry.end - |body|
    case Unwritten(_, body) => entry.end - |body|
    case Broken(_, got) => entry.end - got
    case _ => entry.end
  }

  /** The report of the upload, if any, whose line but not whole body lies within the first `k` bytes. */
  function Torn(entries: seq<Entry>, k: nat): seq<Entry> {
    var w := |Within(entries, k)|;
    if w >= |entries| || Start(entries[w]) > k then []
    else
      var got := k - Start(entries[w]);
      match entries[w].event
      case Stored(name, _) => [Entry(Broken(name, got), k)]
      case Unwritten(name, _) => [Entry(Broken(name, got), k)]
      case Broken(name, _) => [Entry(Broken(name, got), k)]
      case _ => []
  }

  lemma {:induction false} WithinLength(entries: seq<Entry>, k: nat)
    ensures |Within(entries, k)| <= |entries| && Within(entries, k) == entries[..|Within(entries, k)|]
  {
    if entries != [] && entries[0].end <= k {
      WithinLength(entries[1..], k);
    }
  }

  /** What a line leads to when read from the whole stream and from its first `k` bytes. */
  ghost predicate CutsTo(files: Files, whole: Outcome, cut: Outcome, e: nat, k: nat) {
    && e <= Start(whole.entry)
    && if whole.entry.end <= k then cut == whole && cut.files == Apply(files, [cut.entry])
       else !whole.last && !cut.last && cut.files == files && cut.entry.end == k
            && [cut.entry] == Torn([whole.entry], k)
  }

  lemma ApplyOne(files: Files, entry: Entry)
    ensures Apply(files, [entry])
         == if entry.event.Stored? then files[ImagePath(entry.event.name) := entry.event.body] else files
  {
    assert [entry][1..] == [];
  }

  lemma UploadCut(files: Files, input: string, k: nat, e: nat, line: string, here: Env)
    requires e <= k <= |input|
    ensures CutsTo(files, Upload(files, input, e, line, here), Upload(files, input[..k], e, line, here), e, k)
  {
    hide UploadArguments, Judge, ImagePath, Apply;
    var whole := Upload(files, input, e, line, here);
    ApplyOne(files, whole.entry);
    if whole.entry.end <= k && (whole.entry.event.Stored? || whole.entry.event.Unwritten?) {
      assert input[..k][e..whole.entry.end] == input[e..whole.entry.end];
    }
  }

  lemma AnswerCut(files: Files, input: string, k: nat, e: nat, line: string, here: Env)
    requires e <= k <= |input|
    ensures CutsTo(files, Answer(files, input, e, line, here), Answer(files, input[..k], e, line, here), e, k)
  {
    hide Upload, ImageArgument;
    if "UPLOAD" <= line {
      UploadCut(files, input, k, e, line, here);
    } else {
      ApplyOne(files, Answer(files, input, e, line, here).entry);
    }
  }

  lemma {:induction false} LineEndCut(input: string, pos: nat, k: nat)
    requires pos <= k <= |input|
    ensures LineEnd(input, pos) <= k ==> LineEnd(input[..k], pos) == LineEnd(input, pos)
    ensures LineEnd(input, pos) > k ==> LineEnd(input[..k], pos) == k + 1
    decreases |input| - pos
  {
    if pos < k && input[pos] != '\n' {
      LineEndCut(input, pos + 1, k);
    }
  }

  /**
   * All or nothing.  Stop the stream after any `k` bytes: the session has
   * handled exactly the events that lie within them, plus the report of an
   * upload cut in its body if there is one, and the store holds exactly the
   * uploads that lie within them.
   */
  lemma {:induction false} CutSession(files: Files, input: string, pos: nat, env: nat -> Env, n: nat, k: nat)
    requires pos <= k <= |input|
    ensures var whole := Serve(files, input, pos, env, n).entries;
            Serve(files, input[..k], pos, env, n)
            == Session(Apply(files, Within(whole, k)), Within(whole, k) + Torn(whole, k))
    decreases |input| - pos
  {
    hide Answer, Start, Torn;
    LineEndCut(input, pos, k);
    EventsInOrder(files, input, pos, env, n);
    var e := LineEnd(input, pos);
    if e <= k {
      assert input[..k][pos..e] == input[pos..e];
      if input[pos..e] == "\n" {
        CutSession(files, input, e, env, n, k);
      } else {
        CutAnswered(files, input, pos, env, n, k);
      }
    } else {
      NothingTorn(Serve(files, input, pos, env, n).entries, e, |input|, k);
    }
  }

  /** The step of `CutSession` over a line that is not blank. */
  lemma {:induction false} CutAnswered(files: Files, input: string, pos: nat, env: nat -> Env, n: nat, k: nat)
    requires pos <= k <= |input| && LineEnd(input, pos) <= k && input[pos..LineEnd(input, pos)] != "\n"
    ensures var whole := Serve(files, input, pos, env, n).entries;
            Serve(files, input[..k], pos, env, n)
            == Session(Apply(files, Within(whole, k)), Within(whole, k) + Torn(whole, k))
    decreases |input| - pos, 0
  {
    hide Serve, Answer, Start, Torn, Within, Apply;
    var e := LineEnd(input, pos);
    LineEndCut(input, pos, k);
    assert input[..k][pos..e] == input[pos..e];
    ServeLine(files, input, pos, env, n);
    ServeLine(files, input[..k], pos, env, n);
    AnswerCut(files, input, k, e, input[pos..e], env(n));
    var o := Answer(files, input, e, input[pos..e], env(n));
    var later := if o.last then [] else Serve(o.files, input, o.entry.end, env, n + 1).entries;
    assert [o.entry] + [] == [o.entry];
    NothingAfterNothing(files, k);
    CutPrepended(files, o.entry, later, k);
    if o.entry.end > k {
      ServeAtEnd(files, input[..k], env, n + 1);
    } else if !o.last {
      CutSession(o.files, input, o.entry.end, env, n + 1, k);
      assert [o.entry] + (Within(later, k) + Torn(later, k)) == [o.entry] + Within(later, k) + Torn(later, k);
    }
  }

  lemma ServeLine(files: Files, input: string, pos: nat, env: nat -> Env, n: nat)
    requires pos <= |input| && LineEnd(input, pos) <= |input| && input[pos..LineEnd(input, pos)] != "\n"
    ensures var e := LineEnd(input, pos);
            var o := Answer(files, input, e, input[pos..e], env(n));
            Serve(files, input, pos, env, n)
            == if o.last then Session(o.files, [o.entry])
               else Prepend([o.entry], Serve(o.files, input, o.entry.end, env, n + 1))
  {
    hide Answer;
  }

  lemma ServeAtEnd(files: Files, input: string, env: nat -> Env, n: nat)
    ensures Serve(files, input, |input|, env, n) == Session(files, [])
  {}

  lemma NothingAfterNothing(files: Files, k: nat)
    ensures Within([], k) == [] && Torn([], k) == [] && Apply(files, []) == files
  {}

  lemma CutPrepended(files: Files, entry: Entry, later: seq<Entry>, k: nat)
    ensures var es := [entry] + later;
      if entry.end <= k then
        && Within(es, k) == [entry] + Within(later, k)
        && Apply(files, Within(es, k)) == Apply(Apply(files, [entry]), Within(later, k))
        && Torn(es, k) == Torn(later, k)
      else Within(es, k) == [] && Torn(es, k) == Torn([entry], k)
  {
    hide Start;
    var es := [entry] + later;
    assert es[1..] == later;
    if entry.end <= k {
      WithinLength(later, k);
      var w := [entry] + Within(later, k);
      assert w[1..] == Within(later, k) && [entry][1..] == [];
      assert |Within(later, k)| < |later| ==> es[|w|] == later[|w| - 1];
    }
  }

  /** The events start at or after `from` and end at increasing positions, none beyond `limit`. */
  ghost predicate InOrder(es: seq<Entry>, from: nat, limit: nat) {
    && (forall i | 0 <= i < |es| :: from <= Start(es[i]) <= es[i].end <= limit)
    && (forall i, j | 0 <= i < j < |es| :: es[i].end < es[j].end)
  }

  lemma NothingTorn(es: seq<Entry>, from: nat, limit: nat, k: nat)
    requires InOrder(es, from, limit) && k < from
    ensures Within(es, k) == [] && Torn(es, k) == []
  {
    if es != [] { assert from <= Start(es[0]) <= es[0].end; }
  }

  lemma AnswerStart(files: Files, input: string, e: nat, line: string, here: Env)
    requires e <= |input|
    ensures var o := Answer(files, input, e, line, here); e <= Start(o.entry) <= o.entry.end
  {
    hide UploadArguments, Judge, ImageArgument, ImagePath;
  }

  lemma {:induction false} EventsInOrder(files: Files, input: string, pos: nat, env: nat -> Env, n: nat)
    requires pos <= |input|
    ensures InOrder(Serve(files, input, pos, env, n).entries, LineEnd(input, pos), |input|)
    decreases |input| - pos
  {
    hide Answer, Start;
    var e := LineEnd(input, pos);
    if e <= |input| {
      if input[pos..e] == "\n" {
        EventsInOrder(files, input, e, env, n);
      } else {
        var o := Answer(files, input, e, input[pos..e], env(n));
        AnswerStart(files, input, e, input[pos..e], env(n));
        if !o.last {
          EventsInOrder(o.files, input, o.entry.end, env, n + 1);
        }
      }
    }
  }

  /** `path` holds `body` because of one of the events. */
  ghost predicate StoredAt(es: seq<Entry>, i: nat, path: string, body: string) {
    i < |es| && es[i].event.Stored? && ImagePath(es[i].event.name) == path && es[i].event.body == body
  }

  /** A stored upload had a free name and its file holds the bytes of the stream that end where its event ends. */
  ghost predicate StoredRight(before: Files, s: Session, input: string, i: nat)
    requires i < |s.entries| && s.entries[i].event.Stored?
  {
    var (path, body, end) := (ImagePath(s.entries[i].event.name), s.entries[i].event.body, s.entries[i].end);
    && path !in before && path in s.files && s.files[path] == body
    && 0 < |body| <= end <= |input| && body == input[end - |body|..end]
  }

  /**
   * The final store: files that were there are untouched, every stored upload
   * is there with the bytes that followed its line, and there is nothing else.
   */
  ghost predicate FilesExplained(before: Files, s: Session, input: string) {
    && (forall p | p in before :: p in s.files && s.files[p] == before[p])
    && (forall i | 0 <= i < |s.entries| && s.entries[i].event.Stored? :: StoredRight(before, s, input, i))
    && (forall p | p in s.files && p !in before :: exists i :: StoredAt(s.entries, i, p, s.files[p]))
  }

  lemma AcceptedIsFree(files: Files, name: string, size: nat, disk: Disk)
    requires Judge(files, name, size, disk).Accept?
    ensures ImagePath(name) !in files && size > 0
  {}

  lemma AnswerExplained(files: Files, input: string, e: nat, line: string, here: Env)
    requires e <= |input|
    ensures var o := Answer(files, input, e, line, here);
      FilesExplained(files, Session(o.files, [o.entry]), input)
  {
    hide UploadArguments, ImageArgument, Judge, Exists;
    var o := Answer(files, input, e, line, here);
    if o.entry.event.Stored? {
      var (name, size) := UploadArguments(line, here.stale);
      AcceptedIsFree(files, name, size, here.disk);
    }
    hide ImagePath;
    if o.entry.event.Stored? {
      assert StoredAt([o.entry], 0, ImagePath(o.entry.event.name), o.entry.event.body);
    }
  }

  lemma ExplainedInTurn(before: Files, first: Session, later: Session, input: string)
    requires |first.entries| == 1
    requires FilesExplained(before, first, input) && FilesExplained(first.files, later, input)
    ensures FilesExplained(before, Prepend(first.entries, later), input)
  {
    StoredInTurn(before, first, later, input);
    SourcesInTurn(before, first, later, input);
    hide StoredAt, StoredRight;
  }

  lemma SourcesInTurn(before: Files, first: Session, later: Session, input: string)
    requires |first.entries| == 1
    requires FilesExplained(before, first, input) && FilesExplained(first.files, later, input)
    ensures var es := first.entries + later.entries;
            forall p | p in later.files && p !in before :: exists i :: StoredAt(es, i, p, later.files[p])
  {
    hide ImagePath, StoredRight;
    var es := first.entries + later.entries;
    forall p | p in later.files && p !in before
      ensures exists i :: StoredAt(es, i, p, later.files[p])
    {
      if p in first.files {
        var i: nat :| StoredAt(first.entries, i, p, first.files[p]);
        assert StoredAt(es, i, p, later.files[p]);
      } else {
        var i: nat :| StoredAt(later.entries, i, p, later.files[p]);
        assert StoredAt(es, i + 1, p, later.files[p]);
      }
    }
  }

  lemma StoredInTurn(before: Files, first: Session, later: Session, input: string)
    requires |first.entries| == 1
    requires FilesExplained(before, first, input) && FilesExplained(first.files, later, input)
    ensures var s := Prepend(first.entries, later);
            forall i | 0 <= i < |s.entries| && s.entries[i].event.Stored? :: StoredRight(before, s, input, i)
  {
    hide ImagePath, StoredAt;
    var es := first.entries + later.entries;
    forall i | 0 <= i < |es| && es[i].event.Stored?
      ensures StoredRight(before, Prepend(first.entries, later), input, i)
    {
      if i == 0 {
        assert es[0] == first.entries[0] && StoredRight(before, first, input, 0);
      } else {
        assert es[i] == later.entries[i - 1] && StoredRight(first.files, later, input, i - 1);
      }
    }
  }

  lemma {:induction false} SessionExplained(files: Files, input: string, pos: nat, env: nat -> Env, n: nat)
    requires pos <= |input|
    ensures FilesExplained(files, Serve(files, input, pos, env, n), input)
    decreases |input| - pos
  {
    hide Answer;
    var e := LineEnd(input, pos);
    if e <= |input| {
      if input[pos..e] == "\n" {
        SessionExplained(files, input, e, env, n);
      } else {
        var o := Answer(files, input, e, input[pos..e], env(n));
        AnswerExplained(files, input, e, input[pos..e], env(n));
        if !o.last {
          SessionExplained(o.files, input, o.entry.end, env, n + 1);
          ExplainedInTurn(files, Session(o.files, [o.entry]), Serve(o.files, input, o.entry.end, env, n + 1), input);
        }
      }
    }
  }

  // ---------- what the client sends is what the server handles ----------

  datatype Request = Line(text: string) | Put(name: string, body: string)

  function Header(name: string, size: nat): string {
    "UPLOAD" + (" " + name + (" " + Decimal(size) + "\n"))
  }

  function Print(r: Request): string {
    match r
    case Line(text) => text + "\n"
    case Put(name, body) => Header(name, |body|) + body
  }

  function PrintAll(rs: seq<Request>): string {
    if rs == [] then "" else Print(rs[0]) + PrintAll(rs[1..])
  }

  /**
   * A request the client may send: a line that is no upload or download, or a
   * non-empty body under a valid name that is still free.
   */
  ghost predicate Sendable(files: Files, r: Request) {
    match r
    case Line(text) => '\n' !in text && !("UPLOAD" <= text) && !("GET_IMAGE" <= text)
    case Put(name, body) =>
      IsWord(name) && ValidName(name) && !Exists(files, name) && 0 < |body| < SIZE_LIMIT
  }

  function StoreAfter(files: Files, r: Request): Files {
    if r.Put? then files[ImagePath(r.name) := r.body] else files
  }

  function StoreAfterAll(files: Files, rs: seq<Request>): Files
    decreases |rs|
  {
    if rs == [] then files else StoreAfterAll(StoreAfter(files, rs[0]), rs[1..])
  }

  /** Every request is sendable when its turn comes; in particular upload names are pairwise distinct. */
  ghost predicate AllSendable(files: Files, rs: seq<Request>)
    decreases |rs|
  {
    rs == [] || (Sendable(files, rs[0]) && AllSendable(StoreAfter(files, rs[0]), rs[1..]))
  }

  /** The file system keeps every upload; `n` events have happened before. */
  ghost predicate DisksWork(rs: seq<Request>, env: nat -> Env, n: nat)
    decreases |rs|
  {
    || rs == []
    || ((rs[0].Put? ==> env(n).disk.Works?) && DisksWork(rs[1..], env, if rs[0] == Line("") then n else n + 1))
  }

  function EventOf(r: Request): Event {
    match r
    case Line(text) => Command(text + "\n")
    case Put(name, body) => Stored(name, body)
  }

  /** The events the requests should lead to when their bytes start at `pos`. */
  function Expected(rs: seq<Request>, pos: nat): seq<Entry> {
    if rs == [] then []
    else
      var next := pos + |Print(rs[0])|;
      (if rs[0] == Line("") then [] else [Entry(EventOf(rs[0]), next)]) + Expected(rs[1..], next)
  }

  lemma {:induction false} LineEndAt(input: string, pos: nat, e: nat)
    requires pos < e <= |input| && input[e - 1] == '\n'
    requires forall i | pos <= i < e - 1 :: input[i] != '\n'
    ensures LineEnd(input, pos) == e
    decreases e - pos
  {
    if pos < e - 1 { LineEndAt(input, pos + 1, e); }
  }

  lemma HeaderArguments(name: string, size: SizeT, stale: SizeT)
    requires IsWord(name)
    ensures UploadArguments(Header(name, size), stale) == (name, size)
  {
    var t := " " + Decimal(size) + "\n";
    WordReadsBack("UPLOAD", " " + name + t);
    WordReadsBack(name, t);
    SizeReadsBack(size, "\n", stale);
  }

  lemma HeaderIsOneLine(name: string, size: nat)
    requires IsWord(name)
    ensures var h := Header(name, size);
      "UPLOAD" <= h && h[|h| - 1] == '\n' && forall i | 0 <= i < |h| - 1 :: h[i] != '\n'
  {
    DecimalIsWord(size);
    var h, d := Header(name, size), Decimal(size);
    forall i | 0 <= i < |h| - 1 ensures h[i] != '\n' {
      if 7 <= i < 7 + |name| {
        assert h[i] == name[i - 7];
      } else if 8 + |name| <= i {
        assert h[i] == d[i - 8 - |name|];
      }
    }
  }

  lemma AnswerLine(files: Files, input: string, e: nat, text: string, here: Env)
    requires e <= |input| && Sendable(files, Line(text))
    ensures Answer(files, input, e, text + "\n", here) == Outcome(files, Entry(Command(text + "\n"), e), false)
  {
    assert (text + "\n")[|text|] == '\n';
  }

  lemma AnswerPut(files: Files, input: string, e: nat, name: string, body: string, here: Env)
    requires Sendable(files, Put(name, body)) && here.disk.Works?
    requires e + |body| <= |input| && input[e..e + |body|] == body
    ensures Answer(files, input, e, Header(name, |body|), here)
         == Outcome(files[ImagePath(name) := body], Entry(Stored(name, body), e + |body|), false)
  {
    hide UploadArguments, Header, ValidName, Exists, IsWord;
    HeaderIsOneLine(name, |body|);
    HeaderArguments(name, |body|, here.stale);
    assert name != "" by { SendableNamed(files, name, body); }
  }

  lemma SendableNamed(files: Files, name: string, body: string)
    requires Sendable(files, Put(name, body))
    ensures name != ""
  {}

  /** A line whose shape and answer are known, at `pos`. */
  lemma OneAnswered(files: Files, line: string, input: string, pos: nat, env: nat -> Env, n: nat, o: Outcome)
    requires line != "" && line != "\n" && line[|line| - 1] == '\n' && forall i | 0 <= i < |line| - 1 :: line[i] != '\n'
    requires pos + |line| <= |input| && input[pos..pos + |line|] == line
    requires o == Answer(files, input, pos + |line|, line, env(n)) && !o.last
    ensures Serve(files, input, pos, env, n)
         == Prepend([o.entry], Serve(o.files, input, o.entry.end, env, n + 1))
  {
    hide Answer, Serve;
    var e := pos + |line|;
    assert forall i | 0 <= i < |line| :: input[pos + i] == input[pos..e][i] == line[i];
    LineEndAt(input, pos, e);
    ServeLine(files, input, pos, env, n);
  }

  /** One request at `pos`, whatever follows it. */
  lemma OneRequest(files: Files, r: Request, input: string, pos: nat, env: nat -> Env, n: nat)
    requires Sendable(files, r) && r != Line("") && (r.Put? ==> env(n).disk.Works?)
    requires pos + |Print(r)| <= |input| && input[pos..pos + |Print(r)|] == Print(r)
    ensures var next := pos + |Print(r)|;
            Serve(files, input, pos, env, n)
            == Prepend([Entry(EventOf(r), next)], Serve(StoreAfter(files, r), input, next, env, n + 1))
  {
    hide Answer, Header, Serve;
    var next, slice := pos + |Print(r)|, input[pos..pos + |Print(r)|];
    match r
    case Line(text) =>
      AnswerLine(files, input, next, text, env(n));
      OneAnswered(files, text + "\n", input, pos, env, n, Answer(files, input, next, text + "\n", env(n)));
    case Put(name, body) =>
      var h := Header(name, |body|);
      HeaderIsOneLine(name, |body|);
      var e := pos + |h|;
      assert slice[..|h|] == h && slice[|h|..] == body;
      assert input[pos..e] == h && input[e..next] == body;
      AnswerPut(files, input, e, name, body, env(n));
      OneAnswered(files, h, input, pos, env, n, Answer(files, input, e, h, env(n)));
  }

  lemma SplitAt(input: string, pos: nat, a: string, b: string)
    requires pos <= |input| && input[pos..] == a + b
    ensures pos + |a| <= |input| && input[pos..pos + |a|] == a && input[pos + |a|..] == b
  {
    var rest := input[pos..];
    assert rest[..|a|] == a && rest[|a|..] == b;
  }

  lemma OneBlank(files: Files, input: string, pos: nat, env: nat -> Env, n: nat)
    requires pos < |input| && input[pos..pos + 1] == "\n"
    ensures Serve(files, input, pos, env, n) == Serve(files, input, pos + 1, env, n)
  {
    hide Answer;
    assert input[pos..pos + 1][0] == input[pos];
  }

  /** The session serves the printed requests in order, whatever follows them. */
  lemma {:induction false} SessionRoundTrip(files: Files, rs: seq<Request>, more: string, input: string, pos: nat,
                                            env: nat -> Env, n: nat)
    requires AllSendable(files, rs) && DisksWork(rs, env, n)
    requires pos <= |input| && input[pos..] == PrintAll(rs) + more
    ensures var end := pos + |PrintAll(rs)|;
            && end <= |input| && input[end..] == more
            && Serve(files, input, pos, env, n)
            == Prepend(Expected(rs, pos), Serve(StoreAfterAll(files, rs), input, end, env, n + |Expected(rs, pos)|))
    decreases |rs|
  {
    hide Serve, Sendable, EventOf, Print, StoreAfter, Prepend, PrintAll, Expected, StoreAfterAll, AllSendable;
    hide DisksWork;
    FirstRequest(rs, more, pos);
    FirstSent(files, rs);
    FirstDisk(rs, env, n);
    if rs == [] {
      SplitAt(input, pos, "", more);
      PrependNothing(Serve(files, input, pos, env, n));
    } else {
      var r, tail := rs[0], PrintAll(rs[1..]) + more;
      var next := pos + |Print(r)|;
      SplitAt(input, pos, Print(r), tail);
      if r == Line("") {
        BlankPrints();
        OneBlank(files, input, pos, env, n);
        SessionRoundTrip(files, rs[1..], more, input, next, env, n);
      } else {
        OneRequest(files, r, input, pos, env, n);
        SessionRoundTrip(StoreAfter(files, r), rs[1..], more, input, next, env, n + 1);
        var later := Expected(rs[1..], next);
        PrependTwice([Entry(EventOf(r), next)], later,
                     Serve(StoreAfterAll(files, rs), input, pos + |PrintAll(rs)|, env, n + 1 + |later|));
      }
    }
  }

  /** The recursive definitions, one step. */
  lemma FirstRequest(rs: seq<Request>, more: string, pos: nat)
    ensures rs == [] ==> PrintAll(rs) + more == "" + more && PrintAll(rs) == "" && Expected(rs, pos) == []
    ensures rs != [] ==>
              && |PrintAll(rs)| == |Print(rs[0])| + |PrintAll(rs[1..])|
              && PrintAll(rs) + more == Print(rs[0]) + (PrintAll(rs[1..]) + more)
              && Expected(rs, pos) == (if rs[0] == Line("") then []
                                       else [Entry(EventOf(rs[0]), pos + |Print(rs[0])|)])
                                      + Expected(rs[1..], pos + |Print(rs[0])|)
    ensures rs != [] && rs[0] == Line("") ==> Expected(rs, pos) == Expected(rs[1..], pos + |Print(rs[0])|)
  {
    hide EventOf, Print;
  }

  lemma FirstSent(files: Files, rs: seq<Request>)
    ensures rs == [] ==> AllSendable(files, rs) && StoreAfterAll(files, rs) == files
    ensures rs != [] ==>
              && (AllSendable(files, rs) <==>
                  Sendable(files, rs[0]) && AllSendable(StoreAfter(files, rs[0]), rs[1..]))
              && StoreAfterAll(files, rs) == StoreAfterAll(StoreAfter(files, rs[0]), rs[1..])
  {
    hide Sendable, StoreAfter;
  }

  lemma FirstDisk(rs: seq<Request>, env: nat -> Env, n: nat)
    ensures rs == [] ==> DisksWork(rs, env, n)
    ensures rs != [] ==>
              (DisksWork(rs, env, n) <==>
               (rs[0].Put? ==> env(n).disk.Works?)
               && DisksWork(rs[1..], env, if rs[0] == Line("") then n else n + 1))
  {}

  lemma PrependNothing(s: Session)
    ensures Prepend([], s) == s
  {
    assert [] + s.entries == s.entries;
  }

  lemma PrependTwice(a: seq<Entry>, b: seq<Entry>, s: Session)
    ensures Prepend(a, Prepend(b, s)) == Prepend(a + b, s)
  {
    assert a + (b + s.entries) == a + b + s.entries;
  }

  lemma BlankPrints()
    ensures Print(Line("")) == "\n"
    ensures forall files :: StoreAfter(files, Line("")) == files
  {}

  // ---------- exactly the sendable requests arrive ----------

  /** What an event of a session can be. */
  ghost predicate Plausible(files: Files, event: Event, disk: Disk) {
    match event
    case Command(line) =>
      && line != "" && line != "\n" && line[|line| - 1] == '\n'
      && (forall i | 0 <= i < |line| - 1 :: line[i] != '\n')
      && !("UPLOAD" <= line) && !("GET_IMAGE" <= line)
    case Stored(name, body) =>
      IsWord(name) && ValidName(name) && !Exists(files, name) && 0 < |body| < SIZE_LIMIT && disk.Works?
    case _ => true
  }

  lemma WordRead(s: Stream)
    ensures s.Word().1 == "" || IsWord(s.Word().1)
  {}

  lemma AnswerPlausible(files: Files, input: string, e: nat, line: string, here: Env)
    requires e <= |input| && line != "" && line != "\n" && line[|line| - 1] == '\n'
    requires forall i | 0 <= i < |line| - 1 :: line[i] != '\n'
    ensures Plausible(files, Answer(files, input, e, line, here).entry.event, here.disk)
  {
    hide Stream.Word, Stream.Size, HasDotDot, IsWord;
    WordRead(Open(line).Word().0);
  }

  lemma {:induction false} FirstPlausible(files: Files, input: string, pos: nat, env: nat -> Env, n: nat)
    requires pos <= |input|
    ensures var es := Serve(files, input, pos, env, n).entries; es != [] ==> Plausible(files, es[0].event, env(n).disk)
    decreases |input| - pos
  {
    hide Answer, Plausible;
    var e := LineEnd(input, pos);
    if e <= |input| {
      if input[pos..e] == "\n" {
        FirstPlausible(files, input, e, env, n);
      } else {
        AnswerPlausible(files, input, e, input[pos..e], env(n));
      }
    }
  }

  /** No session stores a name with a separator, two dots in a row or a blank in it, and none an empty body. */
  lemma {:induction false} StoredNames(files: Files, input: string, pos: nat, env: nat -> Env, n: nat)
    requires pos <= |input|
    ensures forall e | e in Serve(files, input, pos, env, n).entries && e.event.Stored? ::
              var name := e.event.name;
              && name != "" && '/' !in name && '\\' !in name && ' ' !in name && '\n' !in name
              && (forall i | 0 <= i < |name| - 1 :: !(name[i] == '.' && name[i + 1] == '.'))
              && e.event.body != ""
    decreases |input| - pos
  {
    hide Answer, Plausible;
    var e := LineEnd(input, pos);
    if e <= |input| {
      if input[pos..e] == "\n" {
        StoredNames(files, input, e, env, n);
      } else {
        var o := Answer(files, input, e, input[pos..e], env(n));
        AnswerPlausible(files, input, e, input[pos..e], env(n));
        PlausibleName(files, o.entry.event, env(n).disk);
        if !o.last { StoredNames(o.files, input, o.entry.end, env, n + 1); }
      }
    }
  }

  lemma PlausibleName(files: Files, event: Event, disk: Disk)
    requires Plausible(files, event, disk)
    ensures event.Stored? ==>
              var name := event.name;
              && name != "" && '/' !in name && '\\' !in name && ' ' !in name && '\n' !in name
              && (forall i | 0 <= i < |name| - 1 :: !(name[i] == '.' && name[i + 1] == '.'))
              && event.body != ""
  {}

  lemma PlausibleSendable(files: Files, r: Request, disk: Disk)
    requires Plausible(files, EventOf(r), disk)
    ensures Sendable(files, r) && (r.Put? ==> disk.Works?)
  {
    if r.Line? {
      var line := r.text + "\n";
      assert forall i | 0 <= i < |r.text| :: r.text[i] == line[i];
      assert r.text <= line;
    }
  }

  lemma FirstIs(es: seq<Entry>, first: Entry, rest: seq<Entry>, s: Session)
    requires [first] + rest <= es
    ensures es != [] && es[0] == first
    ensures es == Prepend([first], s).entries ==> rest <= s.entries
  {
    assert es[0] == ([first] + rest)[0];
    if es == Prepend([first], s).entries {
      assert forall i | 0 <= i < |rest| :: rest[i] == ([first] + rest)[i + 1] == es[i + 1] == s.entries[i];
    }
  }

  lemma FirstArrives(files: Files, r: Request, rest: seq<Entry>, input: string, pos: nat, env: nat -> Env, n: nat)
    requires r != Line("")
    requires pos + |Print(r)| <= |input| && input[pos..pos + |Print(r)|] == Print(r)
    requires [Entry(EventOf(r), pos + |Print(r)|)] + rest <= Serve(files, input, pos, env, n).entries
    ensures Sendable(files, r) && (r.Put? ==> env(n).disk.Works?)
    ensures rest <= Serve(StoreAfter(files, r), input, pos + |Print(r)|, env, n + 1).entries
  {
    hide *;
    var first := Entry(EventOf(r), pos + |Print(r)|);
    var s := Serve(StoreAfter(files, r), input, pos + |Print(r)|, env, n + 1);
    FirstIs(Serve(files, input, pos, env, n).entries, first, rest, s);
    FirstPlausible(files, input, pos, env, n);
    PlausibleSendable(files, r, env(n).disk);
    OneRequest(files, r, input, pos, env, n);
  }

  /** If the events begin with the requests as meant, every request was one to be sent, and the disk kept it. */
  lemma {:induction false} OnlySendableArrive(files: Files, rs: seq<Request>, more: string, input: string, pos: nat,
                                              env: nat -> Env, n: nat)
    requires pos <= |input| && input[pos..] == PrintAll(rs) + more
    requires Expected(rs, pos) <= Serve(files, input, pos, env, n).entries
    ensures AllSendable(files, rs) && DisksWork(rs, env, n)
    decreases |rs|
  {
    hide *;
    FirstRequest(rs, more, pos);
    FirstSent(files, rs);
    FirstDisk(rs, env, n);
    if rs != [] {
      var r, tail := rs[0], PrintAll(rs[1..]) + more;
      var next := pos + |Print(r)|;
      SplitAt(input, pos, Print(r), tail);
      if r == Line("") {
        BlankPrints();
        BlankSendable(files);
        OneBlank(files, input, pos, env, n);
        OnlySendableArrive(files, rs[1..], more, input, next, env, n);
      } else {
        FirstArrives(files, r, Expected(rs[1..], next), input, pos, env, n);
        OnlySendableArrive(StoreAfter(files, r), rs[1..], more, input, next, env, n + 1);
      }
    }
  }

  lemma BlankSendable(files: Files)
    ensures Sendable(files, Line(""))
  {}

  /**
   * Requests arrive as meant exactly when each one, in its turn, is a line that
   * is no upload or download, or a non-empty body under a valid free name for
   * which the disk works.  Nothing is assumed of the requests: names, lines and
   * bodies are any text.
   */
  lemma RequestsArriveWhen(files: Files, rs: seq<Request>, more: string, input: string, pos: nat,
                           env: nat -> Env, n: nat)
    requires pos <= |input| && input[pos..] == PrintAll(rs) + more
    ensures AllSendable(files, rs) && DisksWork(rs, env, n)
            <==> Expected(rs, pos) <= Serve(files, input, pos, env, n).entries
  {
    hide Serve, AllSendable, Expected, PrintAll, DisksWork;
    if AllSendable(files, rs) && DisksWork(rs, env, n) {
      SessionRoundTrip(files, rs, more, input, pos, env, n);
    } else if Expected(rs, pos) <= Serve(files, input, pos, env, n).entries {
      OnlySendableArrive(files, rs, more, input, pos, env, n);
    }
  }

  // ---------- what reaches the command handler ----------

  /** The lines a session hands to the command handler. */
  function CommandLines(entries: seq<Entry>): seq<string> {
    if entries == [] then []
    else (if entries[0].event.Command? then [entries[0].event.line] else []) + CommandLines(entries[1..])
  }

  /** The command lines among a client's requests. */
  function LinesOf(rs: seq<Request>): seq<string> {
    if rs == [] then []
    else (if rs[0].Line? && rs[0].text != "" then [rs[0].text + "\n"] else []) + LinesOf(rs[1..])
  }

  lemma {:induction false} ExpectedLines(rs: seq<Request>, pos: nat)
    ensures CommandLines(Expected(rs, pos)) == LinesOf(rs)
  {
    hide Print, CommandLines;
    NoLines();
    if rs != [] {
      var next := pos + |Print(rs[0])|;
      var later := Expected(rs[1..], next);
      ExpectedLines(rs[1..], next);
      FirstLine(Entry(EventOf(rs[0]), next), later);
      assert [] + later == later;
      assert rs[0].Put? ==> [] + LinesOf(rs[1..]) == LinesOf(rs[1..]);
    }
  }

  lemma NoLines()
    ensures CommandLines([]) == []
  {}

  lemma FirstLine(entry: Entry, later: seq<Entry>)
    ensures CommandLines([entry] + later)
         == (if entry.event.Command? then [entry.event.line] else []) + CommandLines(later)
  {
    assert ([entry] + later)[1..] == later;
  }

  /**
   * What reaches the command handler is exactly the client's command lines, in
   * order, whatever is uploaded between them and in however many pieces.
   */
  lemma ClientLinesArrive(files: Files, rs: seq<Request>, env: nat -> Env)
    requires AllSendable(files, rs) && DisksWork(rs, env, 0)
    ensures var s := Serve(files, PrintAll(rs), 0, env, 0);
            CommandLines(s.entries) == LinesOf(rs) && s.files == StoreAfterAll(files, rs)
  {
    hide Serve, AllSendable, Expected, PrintAll, StoreAfterAll, CommandLines, LinesOf, DisksWork;
    var input := PrintAll(rs);
    assert input[0..] == input + "";
    SessionRoundTrip(files, rs, "", input, 0, env, 0);
    ServeAtEnd(StoreAfterAll(files, rs), input, env, |Expected(rs, 0)|);
    assert Expected(rs, 0) + [] == Expected(rs, 0);
    ExpectedLines(rs, 0);
  }

  // ---------- upload, then download ----------

  lemma {:induction false} StoredStays(files: Files, rs: seq<Request>, path: string)
    requires AllSendable(files, rs) && path in files
    ensures path in StoreAfterAll(files, rs) && StoreAfterAll(files, rs)[path] == files[path]
    decreases |rs|
  {
    if rs != [] { StoredStays(StoreAfter(files, rs[0]), rs[1..], path); }
  }

  lemma {:induction false} PutIsStored(files: Files, rs: seq<Request>, name: string, body: string)
    requires AllSendable(files, rs) && Put(name, body) in rs
    ensures ImagePath(name) in StoreAfterAll(files, rs) && StoreAfterAll(files, rs)[ImagePath(name)] == body
    decreases |rs|
  {
    if rs[0] == Put(name, body) {
      StoredStays(StoreAfter(files, rs[0]), rs[1..], ImagePath(name));
    } else {
      assert rs == [rs[0]] + rs[1..];
      PutIsStored(StoreAfter(files, rs[0]), rs[1..], name, body);
    }
  }

  function GetImage(path: string): string {
    "GET_IMAGE" + (" " + path + "\n")
  }

  lemma GetImageLine(path: string)
    requires IsWord(path)
    ensures var line := GetImage(path);
            && ImageArgument(line) == path && "GET_IMAGE" <= line && line != "\n"
            && line[|line| - 1] == '\n' && forall i | 0 <= i < |line| - 1 :: line[i] != '\n'
  {
    GetImageIsOneLine(path);
    hide IsWord, Stream.Word;
    assert IsWord("GET_IMAGE");
    WordReadsBack("GET_IMAGE", " " + path + "\n");
    WordReadsBack(path, "\n");
  }

  lemma GetImageIsOneLine(path: string)
    requires IsWord(path)
    ensures var line := GetImage(path);
      line[|line| - 1] == '\n' && forall i | 0 <= i < |line| - 1 :: line[i] != '\n'
  {
    var line := GetImage(path);
    forall i | 0 <= i < |line| - 1 ensures line[i] != '\n' {
      if 10 <= i { assert line[i] == path[i - 10]; }
    }
  }

  /** `GET_IMAGE path` with nothing after it. */
  lemma OneDownload(files: Files, path: string, input: string, pos: nat, env: nat -> Env, n: nat)
    requires IsWord(path) && pos <= |input| && input[pos..] == GetImage(path)
    ensures Serve(files, input, pos, env, n) == Session(files, [Entry(Download(path, Get(files, path)), |input|)])
  {
    hide GetImage, ImageArgument, Upload, IsWord;
    GetImageLine(path);
    NotEmpty(path);
    var line := GetImage(path);
    assert forall i | 0 <= i < |line| :: input[pos + i] == input[pos..][i] == line[i];
    LineEndAt(input, pos, |input|);
    assert input[pos..|input|] == line;
  }

  lemma NotEmpty(path: string)
    requires IsWord(path)
    ensures path != ""
  {}

  /** The printed requests followed by one download. */
  lemma RequestsThenDownload(files: Files, rs: seq<Request>, path: string, env: nat -> Env)
    requires AllSendable(files, rs) && IsWord(path) && DisksWork(rs, env, 0)
    ensures var store := StoreAfterAll(files, rs);
            var input := PrintAll(rs) + GetImage(path);
            Serve(files, input, 0, env, 0)
            == Session(store, Expected(rs, 0) + [Entry(Download(path, Get(store, path)), |input|)])
  {
    hide *;
    var input := PrintAll(rs) + GetImage(path);
    assert input[0..] == input;
    SessionRoundTrip(files, rs, GetImage(path), input, 0, env, 0);
    OneDownload(StoreAfterAll(files, rs), path, input, |PrintAll(rs)|, env, |Expected(rs, 0)|);
    var store := StoreAfterAll(files, rs);
    PrependIs(Expected(rs, 0), store, [Entry(Download(path, Get(store, path)), |input|)]);
  }

  lemma PrependIs(entries: seq<Entry>, files: Files, more: seq<Entry>)
    ensures Prepend(entries, Session(files, more)) == Session(files, entries + more)
  {}

  lemma {:induction false} SendableName(files: Files, rs: seq<Request>, name: string, body: string)
    requires AllSendable(files, rs) && Put(name, body) in rs
    ensures IsWord(ImagePath(name)) && |body| < SIZE_LIMIT
    decreases |rs|
  {
    if rs[0] != Put(name, body) {
      assert rs == [rs[0]] + rs[1..];
      SendableName(StoreAfter(files, rs[0]), rs[1..], name, body);
    }
  }

  // ---------- other lines ----------

  /** An upload that names no size is taken with whatever value `filesize` happens to hold. */
  lemma SizelessArguments(name: string, stale: SizeT)
    requires IsWord(name)
    ensures UploadArguments("UPLOAD" + (" " + name + "\n"), stale) == (name, stale)
  {
    WordReadsBack("UPLOAD", " " + name + "\n");
    WordReadsBack(name, "\n");
    NewlineLeft(stale);
  }

  lemma NewlineLeft(stale: SizeT)
    ensures After("\n").Size(stale).1 == stale && After("\n").Word().1 == ""
  {
    assert "\n"[1..] == "";
  }

  /** An upload or a download that names nothing is malformed; the download ends the session. */
  lemma BareTransfers(files: Files, input: string, e: nat, here: Env)
    requires e <= |input|
    ensures Answer(files, input, e, "UPLOAD\n", here) == Outcome(files, Entry(Malformed, e), false)
    ensures Answer(files, input, e, "GET_IMAGE\n", here) == Outcome(files, Entry(NoPath, e), true)
  {
    hide IsWord, Stream.Word, Stream.Size, Judge, Get;
    BareArguments(here.stale);
    assert "GET_IMAGE\n"[0] != 'U';
  }

  lemma BareArguments(stale: SizeT)
    ensures UploadArguments("UPLOAD\n", stale) == ("", UploadArguments("UPLOAD\n", stale).1)
    ensures ImageArgument("GET_IMAGE\n") == ""
  {
    VerbWords();
    hide IsWord, Stream.Word, Stream.Size;
    WordReadsBack("UPLOAD", "\n");
    WordReadsBack("GET_IMAGE", "\n");
    NewlineLeft(stale);
    assert "UPLOAD" + "\n" == "UPLOAD\n" && "GET_IMAGE" + "\n" == "GET_IMAGE\n";
  }

  lemma VerbWords()
    ensures IsWord("UPLOAD") && IsWord("GET_IMAGE")
  {}

  /** A sendable upload whose file cannot be written in full is read to its end and leaves no file. */
  lemma UnwrittenIsSkipped(files: Files, name: string, body: string, input: string, pos: nat,
                           env: nat -> Env, n: nat)
    requires Sendable(files, Put(name, body)) && env(n).disk.WriteFails?
    requires var p := Print(Put(name, body)); pos + |p| <= |input| && input[pos..pos + |p|] == p
    ensures var next := pos + |Print(Put(name, body))|;
            Serve(files, input, pos, env, n)
            == Prepend([Entry(Unwritten(name, body), next)], Serve(files, input, next, env, n + 1))
  {
    hide Answer, Header, Serve, Sendable, IsWord;
    var h := Header(name, |body|);
    var e, next := pos + |h|, pos + |h| + |body|;
    var slice := input[pos..next];
    SendableIsWord(files, name, body);
    HeaderIsOneLine(name, |body|);
    assert slice[..|h|] == h && slice[|h|..] == body;
    assert input[pos..e] == h && input[e..next] == body;
    UnwrittenAnswer(files, input, e, name, body, env(n));
    OneAnswered(files, h, input, pos, env, n, Answer(files, input, e, h, env(n)));
  }

  lemma SendableIsWord(files: Files, name: string, body: string)
    requires Sendable(files, Put(name, body))
    ensures IsWord(name)
  {}

  lemma UnwrittenAnswer(files: Files, input: string, e: nat, name: string, body: string, here: Env)
    requires Sendable(files, Put(name, body)) && here.disk.WriteFails?
    requires e + |body| <= |input| && input[e..e + |body|] == body
    ensures Answer(files, input, e, Header(name, |body|), here)
         == Outcome(files, Entry(Unwritten(name, body), e + |body|), false)
  {
    HeaderIsOneLine(name, |body|);
    HeaderArguments(name, |body|, here.stale);
    hide UploadArguments, Header, HasDotDot;
  }

  // ---------- a refused upload does not take its body ----------

  /** What a printed upload that may not be sent leads to. */
  function TurnedAway(files: Files, name: string, body: string): Event {
    if body == "" then Malformed
    else Refused(name, if !ValidName(name) then 400 else if Exists(files, name) then 409 else 500)
  }

  lemma AnswerTurnedAway(files: Files, input: string, e: nat, name: string, body: string, here: Env)
    requires e <= |input| && IsWord(name) && |body| < SIZE_LIMIT
    requires !Sendable(files, Put(name, body)) || here.disk.OpenFails?
    ensures Answer(files, input, e, Header(name, |body|), here)
         == Outcome(files, Entry(TurnedAway(files, name, body), e), false)
  {
    HeaderIsOneLine(name, |body|);
    HeaderArguments(name, |body|, here.stale);
    hide UploadArguments, Header, HasDotDot;
  }

  /** The session goes on right after the header, whatever the body is; also when the file cannot be opened. */
  lemma BodyIsServed(files: Files, name: string, body: string, input: string, pos: nat, env: nat -> Env, n: nat)
    requires IsWord(name) && |body| < SIZE_LIMIT
    requires !Sendable(files, Put(name, body)) || env(n).disk.OpenFails?
    requires var h := Header(name, |body|); pos + |h| <= |input| && input[pos..pos + |h|] == h
    ensures var start := pos + |Header(name, |body|)|;
            Serve(files, input, pos, env, n)
            == Prepend([Entry(TurnedAway(files, name, body), start)], Serve(files, input, start, env, n + 1))
  {
    hide Answer, Header, Serve, Sendable, TurnedAway, IsWord;
    var h := Header(name, |body|);
    HeaderIsOneLine(name, |body|);
    AnswerTurnedAway(files, input, pos + |h|, name, body, env(n));
    OneAnswered(files, h, input, pos, env, n, Answer(files, input, pos + |h|, h, env(n)));
  }

  /**
   * The body sent after an upload of a taken or invalid name, or of one whose
   * file cannot be opened, is not skipped: when it reads as requests itself,
   * they are carried out.
   */
  lemma RefusedBodyIsRequests(files: Files, name: string, rs: seq<Request>, more: string, input: string, pos: nat,
                              env: nat -> Env, n: nat)
    requires IsWord(name) && |PrintAll(rs)| < SIZE_LIMIT
    requires !Sendable(files, Put(name, PrintAll(rs))) || env(n).disk.OpenFails?
    requires AllSendable(files, rs) && DisksWork(rs, env, n + 1)
    requires pos <= |input| && input[pos..] == Print(Put(name, PrintAll(rs))) + more
    ensures var start := pos + |Header(name, |PrintAll(rs)|)|;
            var end := start + |PrintAll(rs)|;
            && end <= |input|
            && Serve(files, input, pos, env, n)
               == Prepend([Entry(TurnedAway(files, name, PrintAll(rs)), start)] + Expected(rs, start),
                          Serve(StoreAfterAll(files, rs), input, end, env, n + 1 + |Expected(rs, start)|))
  {
    hide Serve, Header, Sendable, AllSendable, PrintAll, Expected, StoreAfterAll, TurnedAway, IsWord;
    hide Prepend, DisksWork;
    var h, body := Header(name, |PrintAll(rs)|), PrintAll(rs);
    assert h + body + more == h + (body + more);
    SplitAt(input, pos, h, body + more);
    BodyIsServed(files, name, body, input, pos, env, n);
    var start := pos + |h|;
    SessionRoundTrip(files, rs, more, input, start, env, n + 1);
    var later := Expected(rs, start);
    PrependTwice([Entry(TurnedAway(files, name, body), start)], later,
                 Serve(StoreAfterAll(files, rs), input, start + |body|, env, n + 1 + |later|));
  }

  lemma SmallRequests()
    ensures IsWord("../x") && !ValidName("../x")
    ensures Sendable(map[], Line("LOGIN a b"))
  {
    assert "../x"[0] == '.' && "../x"[1] == '.';
    assert "LOGIN a b"[0] == 'L';
  }

  /** Whatever invalid name an upload has, it is refused with 400 and the one line of its body is a command. */
  lemma InvalidNameLeavesBody(files: Files, name: string, text: string, env: nat -> Env)
    requires IsWord(name) && !ValidName(name)
    requires Sendable(files, Line(text)) && text != "" && |text| + 1 < SIZE_LIMIT
    ensures var input, start := Print(Put(name, text + "\n")), |Header(name, |text| + 1)|;
            Serve(files, input, 0, env, 0)
            == Session(files, [Entry(Refused(name, 400), start), Entry(Command(text + "\n"), |input|)])
  {
    hide *;
    var body := text + "\n";
    var input, start := Print(Put(name, body)), |Header(name, |body|)|;
    OnlyLine(files, name, text);
    HeaderThenBody(name, body);
    BodyIsServed(files, name, body, input, 0, env, 0);
    OneRequest(files, Line(text), input, start, env, 1);
    TwoEvents(files, input, Entry(Refused(name, 400), start), Entry(Command(body), |input|), env);
  }

  lemma HeaderThenBody(name: string, body: string)
    ensures var h, input := Header(name, |body|), Print(Put(name, body));
            && |input| == |h| + |body|
            && input[0..0 + |h|] == h && input[|h|..|h| + |body|] == body
  {
    hide Header;
  }

  lemma TwoEvents(files: Files, input: string, a: Entry, b: Entry, env: nat -> Env)
    requires a.end <= |input| && b.end == |input|
    requires Serve(files, input, 0, env, 0) == Prepend([a], Serve(files, input, a.end, env, 1))
    requires Serve(files, input, a.end, env, 1) == Prepend([b], Serve(files, input, b.end, env, 2))
    ensures Serve(files, input, 0, env, 0) == Session(files, [a, b])
  {
    hide Serve;
    ServeAtEnd(files, input, env, 2);
    assert [b] + [] == [b] && [a] + [b] == [a, b];
  }

  lemma OnlyLine(files: Files, name: string, text: string)
    requires !ValidName(name) && Sendable(files, Line(text))
    ensures var body := text + "\n";
            && !Sendable(files, Put(name, body)) && TurnedAway(files, name, body) == Refused(name, 400)
            && EventOf(Line(text)) == Command(body) && Print(Line(text)) == body
            && StoreAfter(files, Line(text)) == files
            && (text != "" ==> Line(text) != Line(""))
  {
    hide Header, ValidName;
  }

  /** "../x" is such a name, and "LOGIN a b" such a line. */
  lemma DotDotLeavesBody(env: nat -> Env)
    ensures var input, start := Print(Put("../x", "LOGIN a b\n")), |Header("../x", 10)|;
            Serve(map[], input, 0, env, 0).entries
            == [Entry(Refused("../x", 400), start), Entry(Command("LOGIN a b\n"), |input|)]
  {
    SmallRequests();
    hide Serve, Header, Print, IsWord, ValidName, Sendable;
    InvalidNameLeavesBody(map[], "../x", "LOGIN a b", env);
    assert "LOGIN a b" + "\n" == "LOGIN a b\n";
  }
}
