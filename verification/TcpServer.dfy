/**
 * One client session: newline-terminated commands and raw upload bodies on one
 * byte stream.  `Serve` says what a session does as a function of the bytes
 * alone, `WorldAfter` what becomes of the command handler's stores and
 * `Replies` what is sent; `TcpServer.HandleClientSSL` reads the bytes in
 * arbitrary pieces and does just that.
 */
module Session {
  import opened Text
  import opened Wrappers
  import opened Images
  import Commands

  /** What one line of input led to.  Blank lines lead to nothing. */
  datatype Event =
    | Command(line: string)                  // handed to CommandHandler.handle
    | Malformed                              // upload without a name or with size 0, body not read
    | Refused(name: string, code: int)       // upload refused, body not read
    | Stored(name: string, body: string)     // upload kept
    | Unwritten(name: string, body: string)  // upload read, but the file could not be written
    | Broken(name: string, got: nat)         // the connection ended after `got` bytes of the body
    | NoPath                                 // GET_IMAGE without a path, ends the session
    | Download(path: string, image: Option<string>)  // GET_IMAGE of a file, if it is there, ends the session

  /** An event and the stream position where the bytes it took end. */
  datatype Entry = Entry(event: Event, end: nat)

  datatype Session = Session(files: Files, entries: seq<Entry>)

  /**
   * What the session cannot control, for each event: the file system, the
   * value `filesize` happens to hold when the line names no size, and, in
   * `call`, everything a command's outcome depends on besides its line.
   */
  datatype Env = Env(disk: Disk, stale: SizeT, call: Commands.Call)

  /** The position just after the next newline, or past the end if there is none. */
  function LineEnd(input: string, pos: nat): (e: nat)
    requires pos <= |input|
    ensures pos < e <= |input| + 1
    ensures e <= |input| ==> input[e - 1] == '\n'
    ensures forall i | pos <= i < e - 1 :: input[i] != '\n'
    decreases |input| - pos
  {
    if pos == |input| then pos + 1
    else if input[pos] == '\n' then pos + 1
    else LineEnd(input, pos + 1)
  }

  /** `iss >> tag >> filename >> filesize`. */
  function UploadArguments(line: string, stale: SizeT): (string, SizeT) {
    var (s1, tag) := Open(line).Word();
    var (s2, name) := s1.Word();
    (name, s2.Size(stale).1)
  }

  /** `iss >> tag >> imagePath`. */
  function ImageArgument(line: string): string {
    Open(line).Word().0.Word().1
  }

  function Prepend(entries: seq<Entry>, s: Session): Session {
    s.(entries := entries + s.entries)
  }

  /** What one line led to: the store after it, the event, and whether the session is over. */
  datatype Outcome = Outcome(files: Files, entry: Entry, last: bool)

  /** The `UPLOAD` branch: the line ends at `e`, its body would start there. */
  function Upload(files: Files, input: string, e: nat, line: string, here: Env): (o: Outcome)
    requires e <= |input|
    ensures e <= o.entry.end <= |input| && !o.last && !o.entry.event.Download? && !o.entry.event.Command?
  {
    var (name, size) := UploadArguments(line, here.stale);
    if name == "" || size == 0 then Outcome(files, Entry(Malformed, e), false)
    else match Judge(files, name, size, here.disk)
    case Refuse(code) => Outcome(files, Entry(Refused(name, code), e), false)
    case Accept =>
      if e + size > |input| then Outcome(files, Entry(Broken(name, |input| - e), |input|), false)
      else
        var body := input[e..e + size];
        if here.disk.WriteFails? then Outcome(files, Entry(Unwritten(name, body), e + size), false)
        else Outcome(files[ImagePath(name) := body], Entry(Stored(name, body), e + size), false)
  }

  /** What a line that is not blank leads to. */
  function Answer(files: Files, input: string, e: nat, line: string, here: Env): (o: Outcome)
    requires e <= |input|
    ensures e <= o.entry.end <= |input|
  {
    if "UPLOAD" <= line then Upload(files, input, e, line, here)
    else if "GET_IMAGE" <= line then
      var path := ImageArgument(line);
      Outcome(files, Entry(if path == "" then NoPath else Download(path, Get(files, path)), e), true)
    else Outcome(files, Entry(Command(line), e), false)
  }

  /** The session from position `pos` on; `n` events have happened before. */
  function Serve(files: Files, input: string, pos: nat, env: nat -> Env, n: nat): Session
    requires pos <= |input|
    decreases |input| - pos
  {
    var e := LineEnd(input, pos);
    if e > |input| then Session(files, [])
    else if input[pos..e] == "\n" then Serve(files, input, e, env, n)
    else
      var o := Answer(files, input, e, input[pos..e], env(n));
      if o.last then Session(o.files, [o.entry])
      else Prepend([o.entry], Serve(o.files, input, o.entry.end, env, n + 1))
  }

  ghost predicate SizesFit(files: Files) {
    forall p | p in files :: |files[p]| < SIZE_LIMIT
  }

  // ---------- the command handler's stores, and what is sent ----------

  /** The calls of the command handler; `env` gives each event's circumstances. */
  function Calls(entries: seq<Entry>, env: nat -> Env): seq<Commands.Call> {
    if entries == [] then []
    else
      var n := |entries| - 1;
      Calls(entries[..n], env) +
      (if entries[n].event.Command? then [CallOf(entries[n].event.line, env(n))] else [])
  }

  function CallOf(line: string, here: Env): Commands.Call { here.call.(line := line) }

  function WorldAfter(lib: Commands.Lib, w: Commands.World, entries: seq<Entry>, env: nat -> Env): Commands.World {
    Commands.Run(lib, w, Calls(entries, env))
  }

  /** A newline is appended to a reply that does not end in one. */
  function Terminated(s: string): (t: string)
    ensures t != "" && t[|t| - 1] == '\n'
  {
    if s != "" && s[|s| - 1] == '\n' then s else s + "\n"
  }

  /** What already ends in a newline gets no second one. */
  lemma TerminatedOnce(s: string)
    ensures Terminated(s + "\n") == s + "\n"
    ensures '\n' !in s ==> Terminated(s) == s + "\n"
  {}

  /** The literal at src/server/TcpServer.cpp:151 is a raw one: it ends in a backslash and an n, not in a newline. */
  const MALFORMED_TEXT :=
    ErrorText("400", "Invalid filename or filesize") + "\\n"

  const NO_PATH_TEXT := "{\"status\": \"error\", \"code\": 400, \"message\": \"Missing image path\"}"

  /** What is sent for an event; `w` is the state of the stores before it. */
  function ReplyTo(lib: Commands.Lib, w: Commands.World, event: Event, here: Env): string {
    match event
    case Command(line) =>
      var call := CallOf(line, here);
      Terminated(lib.text(w, call, Commands.Handle(lib, w, call).1))
    case Malformed => MALFORMED_TEXT
    case Refused(_, code) => Terminated(RefusalText(code))
    case Stored(name, _) => Terminated(StoredText(name))
    case Unwritten(_, _) => Terminated(WRITE_FAILED)
    case Broken(_, _) => Terminated(READ_FAILED)
    case NoPath => NO_PATH_TEXT
    case Download(_, image) => ImageText(image)
  }

  /** What is sent for each event. */
  function Replies(lib: Commands.Lib, w: Commands.World, entries: seq<Entry>, env: nat -> Env): (r: seq<string>)
    ensures |r| == |entries|
  {
    if entries == [] then []
    else
      var n := |entries| - 1;
      Replies(lib, w, entries[..n], env) +
      [ReplyTo(lib, WorldAfter(lib, w, entries[..n], env), entries[n].event, env(n))]
  }

  function Sent(lib: Commands.Lib, w: Commands.World, entries: seq<Entry>, env: nat -> Env): string {
    Concat(Replies(lib, w, entries, env))
  }

  lemma NothingYet(lib: Commands.Lib, w: Commands.World, env: nat -> Env)
    ensures WorldAfter(lib, w, [], env) == w && Sent(lib, w, [], env) == ""
  {}

  /** One more event. */
  lemma OneMoreEvent(lib: Commands.Lib, w: Commands.World, entries: seq<Entry>, env: nat -> Env, entry: Entry)
    ensures var before, here := WorldAfter(lib, w, entries, env), env(|entries|);
            && Sent(lib, w, entries + [entry], env)
               == Sent(lib, w, entries, env) + ReplyTo(lib, before, entry.event, here)
            && WorldAfter(lib, w, entries + [entry], env)
               == match entry.event
                  case Command(line) => Commands.Handle(lib, before, CallOf(line, here)).0
                  case _ => before
  {
    hide Commands.Handle, ReplyTo;
    var more := entries + [entry];
    assert more[..|entries|] == entries;
    ConcatSnoc(Replies(lib, w, entries, env),
               ReplyTo(lib, WorldAfter(lib, w, entries, env), entry.event, env(|entries|)));
    var calls := Calls(entries, env);
    if entry.event.Command? {
      var call := CallOf(entry.event.line, env(|entries|));
      assert (calls + [call])[..|calls|] == calls;
    } else {
      assert calls + [] == calls;
    }
  }

  /** `whole` is what has happened so far followed by the session from `pos` on. */
  ghost predicate Reached(whole: Session, files: Files, input: string, pos: nat, env: nat -> Env, entries: seq<Entry>)
    requires pos <= |input|
  {
    whole == Prepend(entries, Serve(files, input, pos, env, |entries|))
  }

  /** Without another complete line the session ends, and a blank line is skipped. */
  lemma EndOrBlank(whole: Session, files: Files, input: string, pos: nat, env: nat -> Env, entries: seq<Entry>)
    requires pos <= |input| && Reached(whole, files, input, pos, env, entries)
    ensures LineEnd(input, pos) > |input| ==> whole == Session(files, entries)
    ensures LineEnd(input, pos) <= |input| && input[pos..LineEnd(input, pos)] == "\n"
        ==> Reached(whole, files, input, LineEnd(input, pos), env, entries)
  {
    hide Answer;
    assert entries + [] == entries;
  }

  /** Reading one line keeps `Reached`. */
  lemma Advance(whole: Session, files: Files, input: string, pos: nat, env: nat -> Env, entries: seq<Entry>)
    requires pos <= |input| && LineEnd(input, pos) <= |input| && input[pos..LineEnd(input, pos)] != "\n"
    requires Reached(whole, files, input, pos, env, entries)
    ensures var e := LineEnd(input, pos);
      var o := Answer(files, input, e, input[pos..e], env(|entries|));
      if o.last then whole == Session(o.files, entries + [o.entry])
      else Reached(whole, o.files, input, o.entry.end, env, entries + [o.entry])
  {
    hide Answer;
    var e := LineEnd(input, pos);
    var o := Answer(files, input, e, input[pos..e], env(|entries|));
    if !o.last {
      var later := Serve(o.files, input, o.entry.end, env, |entries| + 1);
      assert entries + ([o.entry] + later.entries) == entries + [o.entry] + later.entries;
    }
  }

  lemma Begin(whole: Session, files: Files, input: string, pos: nat, env: nat -> Env)
    requires pos <= |input| && whole == Serve(files, input, pos, env, 0)
    ensures Reached(whole, files, input, pos, env, [])
  {
    assert [] + whole.entries == whole.entries;
  }

  /** The three branches of `Answer`; none makes a file too large for its size to be sent. */
  lemma Branches(files: Files, input: string, e: nat, line: string, here: Env)
    requires e <= |input| && SizesFit(files)
    ensures "UPLOAD" <= line ==>
              var o := Upload(files, input, e, line, here);
              Answer(files, input, e, line, here) == o && SizesFit(o.files)
    ensures !("UPLOAD" <= line) && "GET_IMAGE" <= line ==>
              var path := ImageArgument(line);
              && (path in files ==> |files[path]| < SIZE_LIMIT)
              && Answer(files, input, e, line, here)
              == Outcome(files, Entry(if path == "" then NoPath else Download(path, Get(files, path)), e), true)
    ensures !("UPLOAD" <= line) && !("GET_IMAGE" <= line) ==>
              Answer(files, input, e, line, here) == Outcome(files, Entry(Command(line), e), false)
  {
  }

  class TcpServer {
    const imageHandler: ImageHandler
    const commandHandler: Commands.CommandHandler

    constructor (imageHandler: ImageHandler, commandHandler: Commands.CommandHandler)
      ensures this.imageHandler == imageHandler && this.commandHandler == commandHandler
    {
      this.imageHandler := imageHandler;
      this.commandHandler := commandHandler;
    }

    /** The inner loop: one byte at a time up to a newline. */
    method ReadLine(ssl: SslConnection) returns (ok: bool, cmd: string)
      requires ssl.pos <= |ssl.incoming|
      modifies ssl`pos
      ensures ssl.pos <= |ssl.incoming|
      ensures ok <==> LineEnd(ssl.incoming, old(ssl.pos)) <= |ssl.incoming|
      ensures ok ==> ssl.pos == LineEnd(ssl.incoming, old(ssl.pos)) && cmd == ssl.incoming[old(ssl.pos)..ssl.pos]
    {
      cmd := "";
      while true
        invariant old(ssl.pos) <= ssl.pos <= |ssl.incoming| && cmd == ssl.incoming[old(ssl.pos)..ssl.pos]
        invariant LineEnd(ssl.incoming, old(ssl.pos)) == LineEnd(ssl.incoming, ssl.pos)
        decreases |ssl.incoming| - ssl.pos
      {
        var ch := ssl.Read(1);
        if ch == "" {
          return false, cmd;
        }
        cmd := cmd + ch;
        if ch == "\n" {
          return true, cmd;
        }
      }
    }

    /** The `UPLOAD` branch of the session. */
    method ServeUpload(ssl: SslConnection, cmd: string, here: Env) returns (entry: Entry)
      requires ssl.pos <= |ssl.incoming|
      modifies imageHandler, ssl`pos, ssl`sent, ssl`broken
      ensures var o := Upload(old(imageHandler.files), ssl.incoming, old(ssl.pos), cmd, here);
        imageHandler.files == o.files && entry == o.entry && ssl.pos == o.entry.end
      ensures forall lib, w :: Wrote(old(ssl.Written()), ssl.Written(), ReplyTo(lib, w, entry.event, here))
      ensures commandHandler.State() == old(commandHandler.State())
    {
      hide Wrote, UploadArguments, Terminated;
      var (filename, filesize) := UploadArguments(cmd, here.stale);
      if filename == "" || filesize == 0 {
        var _ := ssl.Write(MALFORMED_TEXT);
        return Entry(Malformed, ssl.pos);
      }
      var verdict, from := Judge(imageHandler.files, filename, filesize, here.disk), ssl.pos;
      var result := imageHandler.HandleImageUpload(ssl, filename, filesize, here.disk);
      if verdict.Refuse? {
        entry := Entry(Refused(filename, verdict.code), ssl.pos);
      } else if |ssl.incoming| < from + filesize {
        entry := Entry(Broken(filename, ssl.pos - from), ssl.pos);
      } else if here.disk.WriteFails? {
        entry := Entry(Unwritten(filename, ssl.incoming[from..ssl.pos]), ssl.pos);
      } else {
        entry := Entry(Stored(filename, ssl.incoming[from..ssl.pos]), ssl.pos);
      }
      var _ := ssl.Write(Terminated(result));
    }

    /** The `GET_IMAGE` branch of the session. */
    method ServeImage(ssl: SslConnection, cmd: string, here: Env) returns (event: Event)
      requires SizesFit(imageHandler.files)
      modifies ssl`sent, ssl`broken
      ensures var path := ImageArgument(cmd);
        event == (if path == "" then NoPath else Download(path, Get(imageHandler.files, path)))
      ensures forall lib, w :: Wrote(old(ssl.Written()), ssl.Written(), ReplyTo(lib, w, event, here))
      ensures commandHandler.State() == old(commandHandler.State())
    {
      hide Wrote, ImageText, ImageArgument;
      var imagePath := ImageArgument(cmd);
      if imagePath == "" {
        var _ := ssl.Write(NO_PATH_TEXT);
        return NoPath;
      }
      imageHandler.HandleGetImage(ssl, imagePath);
      return Download(imagePath, Get(imageHandler.files, imagePath));
    }

    /** Every other line goes to the command handler, and its reply to the client. */
    method ServeCommand(ssl: SslConnection, cmd: string, here: Env)
      requires commandHandler.historyRepo.tie == commandHandler.lib.tie
      modifies commandHandler.userRepo, commandHandler.historyRepo, commandHandler.overlay, ssl`sent, ssl`broken
      ensures var (lib, w) := (commandHandler.lib, old(commandHandler.State()));
        && commandHandler.State() == Commands.Handle(lib, w, CallOf(cmd, here)).0
        && Wrote(old(ssl.Written()), ssl.Written(), ReplyTo(lib, w, Command(cmd), here))
    {
      hide Wrote, Terminated, Commands.Handle;
      var before, call := commandHandler.State(), CallOf(cmd, here);
      var reply := commandHandler.HandleLine(call);
      var resp := commandHandler.lib.text(before, call, reply);
      var _ := ssl.Write(Terminated(resp));
    }

    /**
     * However the reads are split, the session does what `Serve` says, the
     * command handler has handled exactly the command lines among the events,
     * and what has been sent is the reply to each event in turn, all of it if
     * no write failed.
     */
    method HandleClientSSL(ssl: SslConnection, env: nat -> Env) returns (kept: bool, entries: seq<Entry>)
      requires ssl.pos <= |ssl.incoming| && SizesFit(imageHandler.files)
      requires commandHandler.historyRepo.tie == commandHandler.lib.tie
      modifies imageHandler, commandHandler.userRepo, commandHandler.historyRepo, commandHandler.overlay
      modifies ssl`pos, ssl`sent, ssl`broken
      ensures Session(imageHandler.files, entries)
           == Serve(old(imageHandler.files), ssl.incoming, old(ssl.pos), env, 0)
      ensures commandHandler.State() == WorldAfter(commandHandler.lib, old(commandHandler.State()), entries, env)
      ensures Wrote(old(ssl.Written()), ssl.Written(),
                    Sent(commandHandler.lib, old(commandHandler.State()), entries, env))
      ensures kept <==> entries != [] && entries[|entries| - 1].event.Download?
    {
      hide *;
      entries := [];
      ghost var lib, world := commandHandler.lib, commandHandler.State();
      ghost var whole := Serve(imageHandler.files, ssl.incoming, ssl.pos, env, 0);
      Begin(whole, imageHandler.files, ssl.incoming, ssl.pos, env);
      NothingYet(lib, world, env);
      WroteNothing(ssl.Written());
      while true
        invariant ssl.pos <= |ssl.incoming| && SizesFit(imageHandler.files)
        invariant Reached(whole, imageHandler.files, ssl.incoming, ssl.pos, env, entries)
        invariant entries != [] ==> !entries[|entries| - 1].event.Download?
        invariant commandHandler.State() == WorldAfter(lib, world, entries, env)
        invariant Wrote(old(ssl.Written()), ssl.Written(), Sent(lib, world, entries, env))
        decreases |ssl.incoming| - ssl.pos
      {
        ghost var start, before := ssl.pos, ssl.Written();
        EndOrBlank(whole, imageHandler.files, ssl.incoming, start, env, entries);
        var ok, cmd := ReadLine(ssl);
        if !ok {
          return false, entries;
        }
        if cmd == "\n" {
          continue;
        }
        Branches(imageHandler.files, ssl.incoming, ssl.pos, cmd, env(|entries|));
        var here := env(|entries|);
        Advance(whole, imageHandler.files, ssl.incoming, start, env, entries);
        ghost var now := WorldAfter(lib, world, entries, env);
        var entry;
        if "UPLOAD" <= cmd {
          entry := ServeUpload(ssl, cmd, here);
        } else if "GET_IMAGE" <= cmd {
          var event := ServeImage(ssl, cmd, here);
          entry := Entry(event, ssl.pos);
        } else {
          ServeCommand(ssl, cmd, here);
          entry := Entry(Command(cmd), ssl.pos);
        }
        OneMoreEvent(lib, world, entries, env, entry);
        WroteThen(old(ssl.Written()), before, ssl.Written(), Sent(lib, world, entries, env),
                  ReplyTo(lib, now, entry.event, here));
        entries := entries + [entry];
        if !("UPLOAD" <= cmd) && "GET_IMAGE" <= cmd {
          return entry.event != NoPath, entries;
        }
      }
    }
  }
}
