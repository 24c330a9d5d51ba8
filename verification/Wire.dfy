/**
 * What the client sees of a session: whether it stays in step when it reads
 * one line for each request, and what the replies to its requests say.
 */
module Wire {
  import opened Text
  import opened Wrappers
  import opened Images
  import opened Session
  import opened SessionProofs
  import Accounts
  import Users
  import Commands
  import CommandLine
  import ServerRuns

  // ---------- reading lines ----------

  /** A client reads `n` lines: the lines and what is left, if there are so many. */
  function ReadLines(s: string, n: nat): Option<(seq<string>, string)> {
    if n == 0 then Some(([], s))
    else
      var e := LineEnd(s, 0);
      if e > |s| then None
      else
        match ReadLines(s[e..], n - 1)
        case None => None
        case Some((lines, rest)) => Some(([s[..e]] + lines, rest))
  }

  predicate OneLine(s: string) {
    s != "" && s[|s| - 1] == '\n' && '\n' !in s[..|s| - 1]
  }

  lemma FirstLineRead(line: string, rest: string)
    requires OneLine(line)
    ensures var s := line + rest;
            LineEnd(s, 0) == |line| && s[..|line|] == line && s[|line|..] == rest
  {
    var s := line + rest;
    assert forall i | 0 <= i < |line| - 1 :: s[i] == line[..|line| - 1][i];
    LineEndAt(s, 0, |line|);
  }

  /** Lines put together are read back, whatever follows. */
  lemma {:induction false} LinesReadBack(lines: seq<string>, more: string)
    requires forall i | 0 <= i < |lines| :: OneLine(lines[i])
    ensures ReadLines(Concat(lines) + more, |lines|) == Some((lines, more))
  {
    hide OneLine, LineEnd;
    if lines == [] {
      assert Concat(lines) + more == more;
    } else {
      var line, rest := lines[0], Concat(lines[1..]) + more;
      assert Concat(lines) + more == line + rest;
      FirstLineRead(line, rest);
      LinesReadBack(lines[1..], more);
      assert [line] + lines[1..] == lines;
    }
  }

  /** Reading `n` lines takes `n` newlines. */
  lemma {:induction false} LinesTakeNewlines(s: string, n: nat)
    requires ReadLines(s, n).Some?
    ensures multiset(s)['\n'] >= n
  {
    if n > 0 {
      var e := LineEnd(s, 0);
      LinesTakeNewlines(s[e..], n - 1);
      assert s == s[..e] + s[e..];
      assert s[..e][e - 1] in multiset(s[..e]);
    }
  }

  // ---------- the replies of a session ----------

  /** JSON text as the library prints it: not empty and without newlines. */
  ghost predicate OneLineTexts(lib: Commands.Lib) {
    forall w, call, reply :: lib.text(w, call, reply) != "" && '\n' !in lib.text(w, call, reply)
  }

  /** Every stored name is a word. */
  ghost predicate NamesAreWords(entries: seq<Entry>) {
    forall i | 0 <= i < |entries| && entries[i].event.Stored? :: IsWord(entries[i].event.name)
  }

  lemma {:induction false} ServedNames(files: Files, input: string, pos: nat, env: nat -> Env, n: nat)
    requires pos <= |input|
    ensures NamesAreWords(Serve(files, input, pos, env, n).entries)
    decreases |input| - pos
  {
    hide Answer;
    var e := LineEnd(input, pos);
    if e <= |input| {
      if input[pos..e] == "\n" {
        ServedNames(files, input, e, env, n);
      } else {
        var o := Answer(files, input, e, input[pos..e], env(n));
        AnswerPlausible(files, input, e, input[pos..e], env(n));
        if !o.last {
          ServedNames(o.files, input, o.entry.end, env, n + 1);
        }
      }
    }
  }

  lemma StoredIsLine()
    ensures '\n' !in STORED
  {}

  lemma RefusalsAreLines()
    ensures '\n' !in INVALID_UPLOAD && '\n' !in NAME_TAKEN && '\n' !in OPEN_FAILED
    ensures '\n' !in MALFORMED_TEXT
  {
    hide ErrorText;
    ErrorTextLine("400", "Invalid filename or filesize");
    ErrorTextLine("409", "File already exists");
    ErrorTextLine("500", "Failed to open file for writing");
  }

  lemma FailuresAreLines()
    ensures '\n' !in READ_FAILED && '\n' !in WRITE_FAILED
  {
    hide ErrorText;
    ErrorTextLine("500", "Read error while receiving file");
    ErrorTextLine("500", "Failed to write file completely");
  }

  lemma ErrorTextLine(code: string, message: string)
    requires '\n' !in code && '\n' !in message
    ensures '\n' !in ErrorText(code, message)
  {}

  lemma TerminatedLine(s: string)
    requires '\n' !in s
    ensures OneLine(Terminated(s))
  {}

  /** What is sent for an upload that is not stored. */
  lemma ReplyTexts(lib: Commands.Lib, w: Commands.World, here: Env, name: string, body: string, got: nat)
    ensures ReplyTo(lib, w, Malformed, here)
         == "{\"status\":\"error\",\"code\":" + "400"
            + (",\"message\":\"" + "Invalid filename or filesize" + "\"}") + "\\n"
    ensures ReplyTo(lib, w, Refused(name, 400), here)
         == "{\"status\":\"error\",\"code\":" + "400"
            + (",\"message\":\"" + "Invalid filename or filesize" + "\"}") + "\n"
    ensures ReplyTo(lib, w, Refused(name, 409), here)
         == "{\"status\":\"error\",\"code\":" + "409"
            + (",\"message\":\"" + "File already exists" + "\"}") + "\n"
    ensures ReplyTo(lib, w, Refused(name, 500), here)
         == "{\"status\":\"error\",\"code\":" + "500"
            + (",\"message\":\"" + "Failed to open file for writing" + "\"}") + "\n"
    ensures ReplyTo(lib, w, Broken(name, got), here)
         == "{\"status\":\"error\",\"code\":" + "500"
            + (",\"message\":\"" + "Read error while receiving file" + "\"}") + "\n"
    ensures ReplyTo(lib, w, Unwritten(name, body), here)
         == "{\"status\":\"error\",\"code\":" + "500"
            + (",\"message\":\"" + "Failed to write file completely" + "\"}") + "\n"
  {
    hide Prefix;
  }

  /** What is sent for a stored upload and for a download. */
  lemma TransferTexts(lib: Commands.Lib, w: Commands.World, here: Env, name: string, body: string, path: string)
    ensures ReplyTo(lib, w, Stored(name, body), here)
         == "{\"status\":\"success\",\"code\":200,\"message\":" + "\"Image uploaded successfully\",\"path\":\""
            + (("images/" + name) + "\"}") + "\n"
    ensures ReplyTo(lib, w, NoPath, here)
         == "{\"status\": \"error\", \"code\": 400, \"message\": \"Missing image path\"}"
    ensures ReplyTo(lib, w, Download(path, None), here)
         == "{\"status\": \"error\", \"code\": 404, \"message\": \"Image not found\"}"
    ensures ReplyTo(lib, w, Download(path, Some(body)), here) == Prefix(|body|) + body
  {
    hide Prefix;
  }

  /** The one reply of a session that goes on that is not a line is that to a malformed upload. */
  lemma ReplyIsLine(lib: Commands.Lib, w: Commands.World, event: Event, here: Env)
    requires OneLineTexts(lib) && !event.NoPath? && !event.Download? && (event.Stored? ==> IsWord(event.name))
    ensures !event.Malformed? ==> OneLine(ReplyTo(lib, w, event, here))
    ensures event.Malformed? ==> '\n' !in ReplyTo(lib, w, event, here)
  {
    StoredIsLine();
    RefusalsAreLines();
    FailuresAreLines();
    hide OneLine, Terminated, Commands.Handle;
    match event
    case Command(line) =>
      var call := CallOf(line, here);
      TerminatedLine(lib.text(w, call, Commands.Handle(lib, w, call).1));
    case Refused(_, code) => TerminatedLine(RefusalText(code));
    case Stored(name, _) => TerminatedLine(StoredText(name));
    case Unwritten(_, _) => TerminatedLine(WRITE_FAILED);
    case Broken(_, _) => TerminatedLine(READ_FAILED);
    case _ =>
  }

  /** The reply to event `i` is the one its circumstances call for. */
  lemma {:induction false} ReplyAt(lib: Commands.Lib, w: Commands.World, entries: seq<Entry>, env: nat -> Env, i: nat)
    requires i < |entries|
    ensures Replies(lib, w, entries, env)[i]
         == ReplyTo(lib, WorldAfter(lib, w, entries[..i], env), entries[i].event, env(i))
  {
    hide ReplyTo, WorldAfter;
    var n := |entries| - 1;
    if i < n {
      ReplyAt(lib, w, entries[..n], env, i);
      assert entries[..n][..i] == entries[..i];
    }
  }

  lemma {:induction false} NewlinesSent(lib: Commands.Lib, w: Commands.World, entries: seq<Entry>, env: nat -> Env)
    requires OneLineTexts(lib) && NamesAreWords(entries)
    requires forall i | 0 <= i < |entries| :: !entries[i].event.NoPath? && !entries[i].event.Download?
    ensures multiset(Sent(lib, w, entries, env))['\n'] <= |entries|
    ensures forall i | 0 <= i < |entries| && entries[i].event.Malformed? ::
              multiset(Sent(lib, w, entries, env))['\n'] < |entries|
  {
    hide ReplyTo, WorldAfter, OneLineTexts, IsWord, OneLine, Concat;
    NothingYet(lib, w, env);
    if entries != [] {
      var n := |entries| - 1;
      var reply := ReplyTo(lib, WorldAfter(lib, w, entries[..n], env), entries[n].event, env(n));
      NewlinesSent(lib, w, entries[..n], env);
      ConcatSnoc(Replies(lib, w, entries[..n], env), reply);
      assert Sent(lib, w, entries, env) == Sent(lib, w, entries[..n], env) + reply;
      ReplyIsLine(lib, WorldAfter(lib, w, entries[..n], env), entries[n].event, env(n));
      NewlinesOf(reply);
    }
  }

  lemma NewlinesOf(s: string)
    ensures OneLine(s) ==> multiset(s)['\n'] == 1
    ensures '\n' !in s ==> multiset(s)['\n'] == 0
  {
    if OneLine(s) {
      assert s == s[..|s| - 1] + ['\n'];
      assert '\n' !in multiset(s[..|s| - 1]);
    }
    if '\n' !in s { assert '\n' !in multiset(s); }
  }

  /**
   * A client that reads one line for each of its requests stays in step, over
   * a session without downloads, exactly when no upload line was malformed:
   * the reply to one that names no file or a size of 0 has no newline.
   */
  lemma InStepWhen(lib: Commands.Lib, w: Commands.World, files: Files, input: string, pos: nat, env: nat -> Env)
    requires OneLineTexts(lib) && pos <= |input|
    requires var es := Serve(files, input, pos, env, 0).entries;
             forall i | 0 <= i < |es| :: !es[i].event.NoPath? && !es[i].event.Download?
    ensures var es := Serve(files, input, pos, env, 0).entries;
            ReadLines(Sent(lib, w, es, env), |es|) == Some((Replies(lib, w, es, env), ""))
            <==> forall i | 0 <= i < |es| :: !es[i].event.Malformed?
  {
    ServedNames(files, input, pos, env, 0);
    hide Serve, ReplyTo, WorldAfter, OneLineTexts, OneLine, Sent, Replies, ReadLines, NamesAreWords;
    var es := Serve(files, input, pos, env, 0).entries;
    if forall i | 0 <= i < |es| :: !es[i].event.Malformed? {
      RepliesReadBack(lib, w, es, env, "");
      assert Sent(lib, w, es, env) + "" == Sent(lib, w, es, env);
    } else {
      NewlinesSent(lib, w, es, env);
      if ReadLines(Sent(lib, w, es, env), |es|).Some? {
        LinesTakeNewlines(Sent(lib, w, es, env), |es|);
      }
    }
  }

  lemma RepliesReadBack(lib: Commands.Lib, w: Commands.World, es: seq<Entry>, env: nat -> Env, more: string)
    requires OneLineTexts(lib) && NamesAreWords(es)
    requires forall i | 0 <= i < |es| :: var e := es[i].event; !e.NoPath? && !e.Download? && !e.Malformed?
    ensures ReadLines(Sent(lib, w, es, env) + more, |es|) == Some((Replies(lib, w, es, env), more))
  {
    hide ReplyTo, WorldAfter, OneLineTexts, OneLine, Concat, Replies, ReadLines;
    forall i | 0 <= i < |es| ensures OneLine(Replies(lib, w, es, env)[i]) {
      ReplyAt(lib, w, es, env, i);
      ReplyIsLine(lib, WorldAfter(lib, w, es[..i], env), es[i].event, env(i));
    }
    LinesReadBack(Replies(lib, w, es, env), more);
  }

  // ---------- which requests keep a client in step ----------

  /** Every request is sendable in its turn, or an upload of a word name with an empty body. */
  ghost predicate SendableOrEmpty(files: Files, rs: seq<Request>)
    decreases |rs|
  {
    || rs == []
    || (rs[0].Put? && IsWord(rs[0].name) && rs[0].body == "" && SendableOrEmpty(files, rs[1..]))
    || (Sendable(files, rs[0]) && SendableOrEmpty(StoreAfter(files, rs[0]), rs[1..]))
  }

  ghost predicate NoneEmpty(rs: seq<Request>) {
    forall r | r in rs :: r.Put? ==> r.body != ""
  }

  /** No download, and nothing malformed exactly if `well`. */
  ghost predicate GoesOn(es: seq<Entry>, well: bool) {
    && (forall i | 0 <= i < |es| :: !es[i].event.NoPath? && !es[i].event.Download?)
    && (well <==> forall i | 0 <= i < |es| :: !es[i].event.Malformed?)
  }

  lemma GoesOnFurther(entry: Entry, s: Session, well: bool)
    requires GoesOn(s.entries, well) && !entry.event.NoPath? && !entry.event.Download?
    ensures GoesOn(Prepend([entry], s).entries, well && !entry.event.Malformed?)
  {
    var es := [entry] + s.entries;
    assert es[0] == entry;
    if forall i | 0 <= i < |es| :: !es[i].event.Malformed? {
      forall i | 0 <= i < |s.entries| ensures !s.entries[i].event.Malformed? {
        assert es[i + 1] == s.entries[i];
      }
    }
  }

  lemma NoneEmptyFirst(rs: seq<Request>)
    requires rs != []
    ensures NoneEmpty(rs) <==> (rs[0].Put? ==> rs[0].body != "") && NoneEmpty(rs[1..])
  {
    assert rs == [rs[0]] + rs[1..];
  }

  lemma EmptyServed(files: Files, name: string, input: string, pos: nat, env: nat -> Env, n: nat)
    requires IsWord(name) && var p := Print(Put(name, "")); pos + |p| <= |input| && input[pos..pos + |p|] == p
    ensures var next := pos + |Print(Put(name, ""))|;
            Serve(files, input, pos, env, n)
            == Prepend([Entry(Malformed, next)], Serve(files, input, next, env, n + 1))
  {
    hide Serve, Header, IsWord;
    assert Header(name, 0) + "" == Header(name, 0);
    BodyIsServed(files, name, "", input, pos, env, n);
  }

  lemma {:induction false} RequestsGoOn(files: Files, rs: seq<Request>, input: string, pos: nat,
                                        env: nat -> Env, n: nat)
    requires SendableOrEmpty(files, rs) && DisksWork(rs, env, n)
    requires pos <= |input| && input[pos..] == PrintAll(rs)
    ensures GoesOn(Serve(files, input, pos, env, n).entries, NoneEmpty(rs))
    decreases |rs|
  {
    hide Serve, Sendable, EventOf, Print, StoreAfter, Prepend, PrintAll, Expected, IsWord, DisksWork;
    hide GoesOn, NoneEmpty;
    FirstRequest(rs, "", pos);
    FirstDisk(rs, env, n);
    assert PrintAll(rs) + "" == PrintAll(rs);
    if rs == [] {
      NothingGoesOn(rs);
      ServeAtEnd(files, input, env, n);
    } else {
      var r, tail := rs[0], PrintAll(rs[1..]);
      assert tail + "" == tail;
      var next := pos + |Print(r)|;
      SplitAt(input, pos, Print(r), tail);
      NoneEmptyFirst(rs);
      if r.Put? && IsWord(r.name) && r.body == "" && SendableOrEmpty(files, rs[1..]) {
        EmptyServed(files, r.name, input, pos, env, n);
        RequestsGoOn(files, rs[1..], input, next, env, n + 1);
        GoesOnFurther(Entry(Malformed, next), Serve(files, input, next, env, n + 1), NoneEmpty(rs[1..]));
      } else if r == Line("") {
        BlankPrints();
        OneBlank(files, input, pos, env, n);
        RequestsGoOn(files, rs[1..], input, next, env, n);
      } else {
        SendableEvent(files, r);
        OneRequest(files, r, input, pos, env, n);
        RequestsGoOn(StoreAfter(files, r), rs[1..], input, next, env, n + 1);
        GoesOnFurther(Entry(EventOf(r), next), Serve(StoreAfter(files, r), input, next, env, n + 1),
                      NoneEmpty(rs[1..]));
      }
    }
  }

  lemma NothingGoesOn(rs: seq<Request>)
    requires rs == []
    ensures GoesOn([], NoneEmpty(rs))
  {}

  lemma SendableEvent(files: Files, r: Request)
    requires Sendable(files, r)
    ensures EventOf(r).Command? || EventOf(r).Stored?
    ensures r.Put? ==> r.body != ""
  {}

  /**
   * What a client can see to before it sends: when each of its requests may be
   * sent in its turn or is an upload of an empty body, it stays in step exactly
   * if no upload has an empty body.
   */
  lemma StaysInStepWhen(lib: Commands.Lib, w: Commands.World, files: Files, rs: seq<Request>, env: nat -> Env)
    requires SendableOrEmpty(files, rs) && DisksWork(rs, env, 0) && OneLineTexts(lib)
    ensures var es := Serve(files, PrintAll(rs), 0, env, 0).entries;
            ReadLines(Sent(lib, w, es, env), |es|) == Some((Replies(lib, w, es, env), ""))
            <==> forall r | r in rs :: r.Put? ==> r.body != ""
  {
    hide Serve, PrintAll, ReadLines, Sent, Replies, SendableOrEmpty, DisksWork, OneLineTexts;
    var input := PrintAll(rs);
    assert input[0..] == input;
    RequestsGoOn(files, rs, input, 0, env, 0);
    InStepWhen(lib, w, files, input, 0, env);
  }

  lemma EmptyUpload()
    ensures Print(Put("a", "")) == "UPLOAD a 0\n" && IsWord("a")
  {
    assert Decimal(0) == "0";
    assert !IsSpace('a');
  }

  lemma NothingToRead(s: string)
    requires '\n' !in s
    ensures ReadLines(s, 1) == None
  {
    if ReadLines(s, 1).Some? {
      LinesTakeNewlines(s, 1);
      NewlinesOf(s);
    }
  }

  /** The line "UPLOAD a 0" is answered, but a client that reads a line waits for its end in vain. */
  lemma EmptyUploadWaits(lib: Commands.Lib, w: Commands.World, env: nat -> Env)
    ensures var es := Serve(map[], "UPLOAD a 0\n", 0, env, 0).entries;
            && es == [Entry(Malformed, 11)]
            && Sent(lib, w, es, env) == MALFORMED_TEXT
            && ReadLines(Sent(lib, w, es, env), 1) == None
  {
    hide Serve, WorldAfter, Print, IsWord, ReadLines, Sent;
    var input, entry := "UPLOAD a 0\n", Entry(Malformed, 11);
    EmptyUpload();
    EmptyServed(map[], "a", input, 0, env, 0);
    ServeAtEnd(map[], input, env, 1);
    NothingYet(lib, w, env);
    OneMoreEvent(lib, w, [], env, entry);
    assert [] + [entry] == [entry] && [entry] + [] == [entry];
    assert "" + MALFORMED_TEXT == MALFORMED_TEXT;
    RefusalsAreLines();
    NothingToRead(MALFORMED_TEXT);
  }

  // ---------- a client that prints its requests ----------

  lemma {:induction false} ExpectedShape(files: Files, rs: seq<Request>, pos: nat)
    requires AllSendable(files, rs)
    ensures var es := Expected(rs, pos);
            && NamesAreWords(es)
            && forall i | 0 <= i < |es| :: es[i].event.Command? || es[i].event.Stored?
    decreases |rs|
  {
    hide Print, Exists, ValidName, IsWord;
    if rs != [] {
      ExpectedShape(StoreAfter(files, rs[0]), rs[1..], pos + |Print(rs[0])|);
    }
  }

  function LinesCalled(calls: seq<Commands.Call>): seq<string> {
    seq(|calls|, i requires 0 <= i < |calls| => calls[i].line)
  }

  lemma {:induction false} CommandLinesSnoc(entries: seq<Entry>, entry: Entry)
    ensures CommandLines(entries + [entry])
         == CommandLines(entries) + (if entry.event.Command? then [entry.event.line] else [])
  {
    if entries == [] {
      assert (entries + [entry])[1..] == [];
    } else {
      CommandLinesSnoc(entries[1..], entry);
      assert (entries + [entry])[1..] == entries[1..] + [entry];
    }
  }

  lemma {:induction false} CalledLines(entries: seq<Entry>, env: nat -> Env)
    ensures LinesCalled(Calls(entries, env)) == CommandLines(entries)
  {
    if entries != [] {
      var n := |entries| - 1;
      CalledLines(entries[..n], env);
      CommandLinesSnoc(entries[..n], entries[n]);
      assert entries == entries[..n] + [entries[n]];
      hide CommandLines;
    }
  }

  /**
   * A client prints its requests into one stream: uploads with any bytes among
   * command lines.  The server ends with the client's images in its store and
   * its other stores as the client's command lines, in order, leave them, and
   * the client reads one line for each request that is not blank.
   */
  lemma PrintedSession(lib: Commands.Lib, w: Commands.World, files: Files, rs: seq<Request>, env: nat -> Env)
    requires AllSendable(files, rs) && OneLineTexts(lib) && DisksWork(rs, env, 0)
    ensures var s := Serve(files, PrintAll(rs), 0, env, 0);
            var calls := Calls(s.entries, env);
            && s.files == StoreAfterAll(files, rs) && s.entries == Expected(rs, 0)
            && LinesCalled(calls) == LinesOf(rs)
            && WorldAfter(lib, w, s.entries, env) == Commands.Run(lib, w, calls)
            && ReadLines(Sent(lib, w, s.entries, env), |s.entries|) == Some((Replies(lib, w, s.entries, env), ""))
  {
    hide Serve, AllSendable, Expected, PrintAll, StoreAfterAll, CommandLines, LinesOf, Calls, OneLineTexts;
    hide Commands.Run, Replies, Sent, NamesAreWords, ReadLines, DisksWork;
    var input := PrintAll(rs);
    assert input[0..] == input + "";
    SessionRoundTrip(files, rs, "", input, 0, env, 0);
    ServeAtEnd(StoreAfterAll(files, rs), input, env, |Expected(rs, 0)|);
    assert Expected(rs, 0) + [] == Expected(rs, 0);
    ExpectedShape(files, rs, 0);
    ExpectedLines(rs, 0);
    CalledLines(Expected(rs, 0), env);
    RepliesReadBack(lib, w, Expected(rs, 0), env, "");
    assert Sent(lib, w, Expected(rs, 0), env) + "" == Sent(lib, w, Expected(rs, 0), env);
  }

  lemma {:induction false} OneMoreLine(files: Files, rs: seq<Request>, text: string, pos: nat)
    requires AllSendable(files, rs) && Sendable(files, Line(text)) && text != ""
    ensures AllSendable(files, rs + [Line(text)])
    ensures Expected(rs + [Line(text)], pos)
         == Expected(rs, pos) + [Entry(Command(text + "\n"), pos + |PrintAll(rs)| + |text| + 1)]
    decreases |rs|
  {
    hide Print, Sendable, AllSendable, Expected, PrintAll, EventOf, StoreAfter, StoreAfterAll;
    FirstRequest(rs, "", pos);
    FirstSent(files, rs);
    FirstRequest(rs + [Line(text)], "", pos);
    FirstSent(files, rs + [Line(text)]);
    if rs == [] {
      assert (rs + [Line(text)])[1..] == [];
      FirstRequest([], "", pos + |Print(Line(text))|);
      FirstSent(StoreAfter(files, Line(text)), []);
      PrintedLine(text);
    } else {
      assert (rs + [Line(text)])[1..] == rs[1..] + [Line(text)];
      LineAnytime(files, StoreAfter(files, rs[0]), text);
      var first := if rs[0] == Line("") then [] else [Entry(EventOf(rs[0]), pos + |Print(rs[0])|)];
      var last := Entry(Command(text + "\n"), pos + |PrintAll(rs)| + |text| + 1);
      assert first + (Expected(rs[1..], pos + |Print(rs[0])|) + [last])
          == first + Expected(rs[1..], pos + |Print(rs[0])|) + [last];
      OneMoreLine(StoreAfter(files, rs[0]), rs[1..], text, pos + |Print(rs[0])|);
    }
  }

  lemma {:induction false} OneMoreDisk(rs: seq<Request>, text: string, env: nat -> Env, n: nat)
    requires DisksWork(rs, env, n)
    ensures DisksWork(rs + [Line(text)], env, n)
    decreases |rs|
  {
    hide DisksWork;
    FirstDisk(rs, env, n);
    FirstDisk(rs + [Line(text)], env, n);
    if rs == [] {
      assert (rs + [Line(text)])[1..] == [];
      FirstDisk([], env, n);
      FirstDisk([], env, n + 1);
    } else {
      assert (rs + [Line(text)])[1..] == rs[1..] + [Line(text)];
      OneMoreDisk(rs[1..], text, env, if rs[0] == Line("") then n else n + 1);
    }
  }

  lemma PrintedLine(text: string)
    ensures |Print(Line(text))| == |text| + 1 && EventOf(Line(text)) == Command(text + "\n")
  {}

  lemma LineAnytime(files: Files, later: Files, text: string)
    requires Sendable(files, Line(text))
    ensures Sendable(later, Line(text))
  {}

  function LoginText(email: string, password: string, end: string): string {
    "LOGIN" + (" " + CommandLine.Payload([email, password], end))
  }

  lemma LoginIsLine(files: Files, email: string, password: string, end: string)
    requires IsWord(email) && IsWord(password) && CommandLine.IsEnd(end)
    ensures LoginText(email, password, end) != "" && Sendable(files, Line(LoginText(email, password, end)))
    ensures LoginText(email, password, end) + "\n" == ServerRuns.AccountText("LOGIN", email, password, end)
    ensures email != "" && password != ""
  {
    ServerRuns.CredentialsReadBack(email, password, end);
    hide CommandLine.Payload, IsWord;
    assert LoginText(email, password, end)[0] == 'L';
  }

  lemma LoginCalled(lib: Commands.Lib, w: Commands.World, es: seq<Entry>, env: nat -> Env,
                    email: string, password: string, end: string)
    requires Users.Valid(w.users) && !env(|es|).call.faults.lookup
    requires IsWord(email) && IsWord(password) && email != "" && password != "" && CommandLine.IsEnd(end)
    ensures var call := CallOf(ServerRuns.AccountText("LOGIN", email, password, end), env(|es|));
            var last := ServerRuns.LastPassword(lib, w, Calls(es, env), email);
            Commands.Handle(lib, WorldAfter(lib, w, es, env), call).1 == Commands.Status(200)
            <==> if last.Some? then lib.digest(last.value) == lib.digest(password)
                 else Get(Users.Accounts(w.users.rows), email) == Some(Accounts.Hex(lib.digest(password)))
  {
    hide Calls, Commands.Run, IsWord, ServerRuns.LastPassword, Accounts.Hex, Users.Accounts, Users.Valid;
    hide Commands.Handle, ServerRuns.AccountText, ServerRuns.AccountLine;
    var call := CallOf(ServerRuns.AccountText("LOGIN", email, password, end), env(|es|));
    ServerRuns.AccountTextRoundTrip("LOGIN", email, password, end, call);
    IsLogin();
    ServerRuns.LoginOverRuns(lib, w, Calls(es, env), call, email, password);
  }

  lemma LastReply(lib: Commands.Lib, w: Commands.World, es: seq<Entry>, env: nat -> Env, line: string, end: nat)
    ensures var all, before := es + [Entry(Command(line), end)], WorldAfter(lib, w, es, env);
            var call := CallOf(line, env(|es|));
            && |Replies(lib, w, all, env)| == |es| + 1
            && Replies(lib, w, all, env)[|es|]
               == Terminated(lib.text(before, call, Commands.Handle(lib, before, call).1))
  {
    hide Commands.Handle, Commands.Run, Terminated, Replies;
    var all := es + [Entry(Command(line), end)];
    ReplyAt(lib, w, all, env, |es|);
    assert all[..|es|] == es;
  }

  /**
   * The whole way: whatever sendable requests a client has printed, uploads
   * among them, the last line it reads after a LOGIN says 200 exactly when the
   * password's digest is that of the email's last successful REGISTER or
   * RESET_PASSWORD among them or, without one, that of the initial table.
   */
  lemma LoginOnTheWire(lib: Commands.Lib, w: Commands.World, files: Files, rs: seq<Request>, env: nat -> Env,
                       email: string, password: string, end: string)
    requires AllSendable(files, rs) && DisksWork(rs, env, 0) && OneLineTexts(lib) && Users.Valid(w.users)
    requires !env(|Expected(rs, 0)|).call.faults.lookup
    requires IsWord(email) && IsWord(password) && CommandLine.IsEnd(end)
    ensures var es := Expected(rs, 0);
            var s := Serve(files, PrintAll(rs + [Line(LoginText(email, password, end))]), 0, env, 0);
            var replies := Replies(lib, w, s.entries, env);
            var call := CallOf(ServerRuns.AccountText("LOGIN", email, password, end), env(|es|));
            var reply := Commands.Handle(lib, WorldAfter(lib, w, es, env), call).1;
            var last := ServerRuns.LastPassword(lib, w, Calls(es, env), email);
            && ReadLines(Sent(lib, w, s.entries, env), |es| + 1) == Some((replies, ""))
            && |replies| == |es| + 1
            && replies[|es|] == Terminated(lib.text(WorldAfter(lib, w, es, env), call, reply))
            && (reply == Commands.Status(200)
                <==> if last.Some? then lib.digest(last.value) == lib.digest(password)
                     else Get(Users.Accounts(w.users.rows), email) == Some(Accounts.Hex(lib.digest(password))))
  {
    hide *;
    var text, es := LoginText(email, password, end), Expected(rs, 0);
    var line := ServerRuns.AccountText("LOGIN", email, password, end);
    LoginIsLine(files, email, password, end);
    OneMoreLine(files, rs, text, 0);
    OneMoreDisk(rs, text, env, 0);
    PrintedSession(lib, w, files, rs + [Line(text)], env);
    LastReply(lib, w, es, env, line, 0 + |PrintAll(rs)| + |text| + 1);
    LoginCalled(lib, w, es, env, email, password, end);
  }

  lemma IsLogin()
    ensures Commands.VerbOf("LOGIN") == Commands.LoginVerb
  {}

  /**
   * A client that uploads images among other requests and then asks for one of
   * them by its path reads a line for each request and then, after the eight
   * bytes of its size, that image, bit for bit.
   */
  lemma UploadThenDownload(lib: Commands.Lib, w: Commands.World, files: Files, rs: seq<Request>,
                           name: string, body: string, env: nat -> Env)
    requires AllSendable(files, rs) && Put(name, body) in rs && OneLineTexts(lib) && DisksWork(rs, env, 0)
    ensures var s := Serve(files, PrintAll(rs) + GetImage(ImagePath(name)), 0, env, 0);
            var read := ReadLines(Sent(lib, w, s.entries, env), |Expected(rs, 0)|);
            && s.files == StoreAfterAll(files, rs)
            && read.Some? && read.value.0 == Replies(lib, w, Expected(rs, 0), env)
            && Receive(read.value.1) == Some(body)
  {
    hide Serve, AllSendable, Expected, PrintAll, Calls, OneLineTexts, Replies, Sent, ReadLines, StoreAfterAll;
    hide GetImage, ImagePath, Frame, Receive, IsWord, NamesAreWords, WorldAfter, Commands.Handle;
    var path, es, store := ImagePath(name), Expected(rs, 0), StoreAfterAll(files, rs);
    PutIsStored(files, rs, name, body);
    SendableName(files, rs, name, body);
    RequestsThenDownload(files, rs, path, env);
    var last := Entry(Download(path, Some(body)), |PrintAll(rs) + GetImage(path)|);
    OneMoreEvent(lib, w, es, env, last);
    ExpectedShape(files, rs, 0);
    RepliesReadBack(lib, w, es, env, Frame(body));
    DownloadRoundTrip(body, "");
    assert Frame(body) + "" == Frame(body);
  }
}
