/**
 * What holds over whole runs of commands: the history table's invariant, the
 * overlay file and who can log in; and what the lines a client prints do.
 */
module ServerRuns {
  import opened Text
  import opened Wrappers
  import opened Json
  import opened HistoryTable
  import opened Views
  import opened CommandLine
  import opened Accounts
  import opened Commands
  import Users
  import Overlay

  // ---------- the history table ----------

  /** Ids increase, types are known, and only a speeding event has a speed, never a negative one. */
  ghost predicate TableOk(rows: seq<History>) {
    && (forall i, j | 0 <= i < j < |rows| :: rows[i].id < rows[j].id)
    && (forall i | 0 <= i < |rows| ::
          && 0 <= rows[i].eventType <= 2
          && (rows[i].speed.Some? ==> rows[i].eventType == 1 && rows[i].speed.value >= 0.0))
  }

  /** What one line does to the history: at most one row is appended, and the invariant is kept. */
  lemma HandleHistory(lib: Lib, w: World, call: Call)
    ensures w.rows <= Handle(lib, w, call).0.rows
    ensures TableOk(w.rows) ==> TableOk(Handle(lib, w, call).0.rows)
  {
    hide ParseQuery, QueryReply, AccountReply, AccountCommand, Split, VerbOf, Overlay.ChangeFrame;
    hide Stream.Word, Stream.Int, Stream.Real;
  }

  lemma {:induction false} RunHistory(lib: Lib, w: World, calls: seq<Call>)
    ensures w.rows <= Run(lib, w, calls).rows
    ensures TableOk(w.rows) ==> TableOk(Run(lib, w, calls).rows)
    decreases |calls|
  {
    if calls != [] {
      RunHistory(lib, w, calls[..|calls| - 1]);
      HandleHistory(lib, Run(lib, w, calls[..|calls| - 1]), calls[|calls| - 1]);
      hide Handle, TableOk;
    }
  }

  // ---------- the overlay file ----------

  /** The CHANGE_FRAME commands among the lines. */
  function FrameCalls(calls: seq<Call>): seq<Overlay.Call>
    decreases |calls|
  {
    if calls == [] then []
    else
      var last := calls[|calls| - 1];
      FrameCalls(calls[..|calls| - 1]) +
      (if VerbOf(Split(last.line).0).ChangeFrameVerb? then [Overlay.Call(Split(last.line).1, last.writable)] else [])
  }

  lemma HandleOverlay(lib: Lib, w: World, call: Call)
    ensures var (command, payload) := Split(call.line);
            Handle(lib, w, call).0.overlay
            == if VerbOf(command).ChangeFrameVerb? then Overlay.ChangeFrame(w.overlay, payload, call.writable).0
               else w.overlay
  {
    hide ParseQuery, QueryReply, AccountReply, AccountCommand, ParseRow, AddReply, Split, VerbOf, Overlay.ChangeFrame;
  }

  /** Only CHANGE_FRAME touches the overlay file, so what is proved of its runs holds of the server's. */
  lemma {:induction false} RunOverlay(lib: Lib, w: World, calls: seq<Call>)
    ensures Run(lib, w, calls).overlay == Overlay.Run(w.overlay, FrameCalls(calls))
    decreases |calls|
  {
    hide Handle, Split, VerbOf, Overlay.ChangeFrame;
    if calls != [] {
      var shorter, last := calls[..|calls| - 1], calls[|calls| - 1];
      RunOverlay(lib, w, shorter);
      HandleOverlay(lib, Run(lib, w, shorter), last);
      var frames := FrameCalls(shorter);
      if VerbOf(Split(last.line).0).ChangeFrameVerb? {
        var c := Overlay.Call(Split(last.line).1, last.writable);
        assert (frames + [c])[..|frames|] == frames;
      } else {
        assert frames + [] == frames;
      }
    }
  }

  // ---------- who can log in ----------

  /** The email and password of a line that is one of the three account commands. */
  function AccountLine(call: Call): Option<(Verb, string, string)> {
    var (command, payload) := Split(call.line);
    var verb := VerbOf(command);
    if verb.RegisterVerb? || verb.LoginVerb? || verb.ResetVerb? then
      var (email, password) := Credentials(payload);
      Some((verb, email, password))
    else None
  }

  /** The password of the last REGISTER or RESET_PASSWORD of the email that was answered with success. */
  function LastPassword(lib: Lib, w: World, calls: seq<Call>, email: string): Option<string>
    decreases |calls|
  {
    if calls == [] then None
    else
      var shorter, last := calls[..|calls| - 1], calls[|calls| - 1];
      match AccountLine(last)
      case Some((verb, e, password)) =>
        if !verb.LoginVerb? && e == email && Handle(lib, Run(lib, w, shorter), last).1 == Status(200)
        then Some(password)
        else LastPassword(lib, w, shorter, email)
      case None => LastPassword(lib, w, shorter, email)
  }

  /** The hash the users table should hold for an email. */
  function HashOf(lib: Lib, password: Option<string>): Option<string> {
    match password
    case None => None
    case Some(p) => Some(Hex(lib.digest(p)))
  }

  lemma AccountReplyEffect(t: Users.Table, c: Option<Command>, faults: Faults, email: string)
    requires Users.Valid(t)
    ensures var (t', reply) := AccountReply(t, c, faults);
            && Users.Valid(t') && (c.None? ==> reply == Status(400))
            && Get(Users.Accounts(t'.rows), email)
            == if c.Some? && !c.value.Login? && c.value.email == email && reply == Status(200) then Some(c.value.hash)
               else Get(Users.Accounts(t.rows), email)
  {
    if c.Some? { SoloRefines(t, c.value, faults); }
    hide Solo, Users.Accounts, Users.Valid, Legal;
  }

  /** How one line changes what the users table holds for an email. */
  lemma HandleAccounts(lib: Lib, w: World, call: Call, email: string)
    requires Users.Valid(w.users)
    ensures var (w', reply) := Handle(lib, w, call);
            && Users.Valid(w'.users)
            && Get(Users.Accounts(w'.users.rows), email)
            == match AccountLine(call)
               case Some((verb, e, password)) =>
                 if !verb.LoginVerb? && e == email && reply == Status(200) then HashOf(lib, Some(password))
                 else Get(Users.Accounts(w.users.rows), email)
               case None => Get(Users.Accounts(w.users.rows), email)
  {
    hide Split, VerbOf, ParseQuery, QueryReply, ParseRow, AddReply, Overlay.ChangeFrame, AccountReply, Hex, Credentials;
    hide Users.Accounts, Users.Valid, Get;
    var (command, payload) := Split(call.line);
    var verb := VerbOf(command);
    if AccountLine(call).Some? {
      AccountReplyEffect(w.users, AccountCommand(lib, verb, payload), call.faults, email);
    }
  }

  /**
   * After any commands, failed ones included, each email has the hash of its
   * last successful password, or the one it had to begin with.
   */
  lemma {:induction false} RunAccounts(lib: Lib, w: World, calls: seq<Call>, email: string)
    requires Users.Valid(w.users)
    ensures Users.Valid(Run(lib, w, calls).users)
    ensures var last := LastPassword(lib, w, calls, email);
            Get(Users.Accounts(Run(lib, w, calls).users.rows), email)
            == if last.Some? then HashOf(lib, last) else Get(Users.Accounts(w.users.rows), email)
    decreases |calls|
  {
    if calls != [] {
      var shorter, last := calls[..|calls| - 1], calls[|calls| - 1];
      RunAccounts(lib, w, shorter, email);
      HandleAccounts(lib, Run(lib, w, shorter), last, email);
      hide Handle, Hex, AccountLine;
    }
  }

  lemma LoginAnswer(lib: Lib, w: World, login: Call, email: string, password: string)
    requires Users.Valid(w.users) && !login.faults.lookup
    requires AccountLine(login) == Some((LoginVerb, email, password)) && email != "" && password != ""
    ensures Handle(lib, w, login).1 == Status(200)
            <==> Get(Users.Accounts(w.users.rows), email) == Some(Hex(lib.digest(password)))
  {
    hide Split, Credentials, ParseQuery, QueryReply, ParseRow, AddReply, Overlay.ChangeFrame, Solo, Hex, VerbOf;
    hide Users.Accounts, Users.Valid;
    SoloRefines(w.users, Login(email, Hex(lib.digest(password))), login.faults);
  }

  /**
   * Login over whole runs: a LOGIN that names both tokens succeeds exactly
   * when the email's last successful REGISTER or RESET_PASSWORD had a password
   * with the same digest or, without one, the table held that digest's hash
   * for the email to begin with.
   */
  lemma LoginOverRuns(lib: Lib, w: World, calls: seq<Call>, login: Call, email: string, password: string)
    requires Users.Valid(w.users)
    requires AccountLine(login) == Some((LoginVerb, email, password)) && email != "" && password != ""
    requires !login.faults.lookup
    ensures var last := LastPassword(lib, w, calls, email);
            Handle(lib, Run(lib, w, calls), login).1 == Status(200)
            <==> if last.Some? then lib.digest(last.value) == lib.digest(password)
                 else Get(Users.Accounts(w.users.rows), email) == Some(Hex(lib.digest(password)))
  {
    hide Handle, Run, LastPassword, Hex, AccountLine, Users.Accounts, Users.Valid;
    RunAccounts(lib, w, calls, email);
    LoginAnswer(lib, Run(lib, w, calls), login, email, password);
    var last := LastPassword(lib, w, calls, email);
    if last.Some? && Hex(lib.digest(last.value)) == Hex(lib.digest(password)) {
      HexInjective(lib.digest(last.value), lib.digest(password));
    }
  }

  // ---------- who stays registered ----------

  /** Registered emails stay registered: no command deletes a user. */
  lemma HandleUsers(lib: Lib, w: World, call: Call, email: string)
    requires Users.Find(w.users.rows, email).Some?
    ensures Users.Find(Handle(lib, w, call).0.users.rows, email).Some?
  {
    hide Split, VerbOf, ParseQuery, QueryReply, ParseRow, AddReply, Overlay.ChangeFrame, Hex, Credentials;
    hide Users.Find, AccountCommand, AccountReply;
    var (command, payload) := Split(call.line);
    if AccountLine(call).Some? {
      AccountReplyUsers(w.users, AccountCommand(lib, VerbOf(command), payload), call.faults, email);
    }
  }

  lemma AccountReplyUsers(t: Users.Table, c: Option<Command>, faults: Faults, email: string)
    requires Users.Find(t.rows, email).Some?
    ensures Users.Find(AccountReply(t, c, faults).0.rows, email).Some?
  {
    hide DbStep, Users.Find;
    if c.Some? {
      var (t1, pc1) := DbStep(t, c.value, Ready, faults.lookup);
      DbStepUsers(t, c.value, Ready, faults.lookup, email);
      DbStepUsers(t1, c.value, pc1, faults.write, email);
    }
  }

  lemma DbStepUsers(t: Users.Table, c: Command, pc: Pc, fails: bool, email: string)
    requires Users.Find(t.rows, email).Some?
    ensures Users.Find(DbStep(t, c, pc, fails).0.rows, email).Some?
  {
    if pc.Updating? { Users.FindUpdated(t.rows, pc.id, c.hash, email); }
    Users.FindAppended(t.rows, Users.User(t.lastId + 1, c.email, c.hash), email);
  }

  lemma {:induction false} RunUsers(lib: Lib, w: World, calls: seq<Call>, email: string)
    requires Users.Find(w.users.rows, email).Some?
    ensures Users.Find(Run(lib, w, calls).users.rows, email).Some?
    decreases |calls|
  {
    hide Handle;
    if calls != [] {
      RunUsers(lib, w, calls[..|calls| - 1], email);
      HandleUsers(lib, Run(lib, w, calls[..|calls| - 1]), calls[|calls| - 1], email);
    }
  }

  // ---------- lines a client prints ----------

  function AccountText(name: string, email: string, password: string, end: string): string {
    name + (" " + Payload([email, password], end) + "\n")
  }

  lemma AccountNames(name: string)
    requires name in {"REGISTER", "LOGIN", "RESET_PASSWORD"}
    ensures IsWord(name) && (VerbOf(name).RegisterVerb? || VerbOf(name).LoginVerb? || VerbOf(name).ResetVerb?)
  {}

  lemma CredentialsReadBack(email: string, password: string, end: string)
    requires IsWord(email) && IsWord(password) && IsEnd(end)
    ensures Credentials(Payload([email, password], end)) == (email, password)
    ensures '\n' !in Payload([email, password], end)
  {
    var words := [email, password];
    assert words[1..] == [password] && [password] + [] == [password];
    PayloadIsOneLine(words, end);
    hide Stream.Word, Tail, IsWord;
    NextWord(email, [password], end);
    NextWord(password, [], end);
  }

  /** `REGISTER`, `LOGIN` and `RESET_PASSWORD` lines are read back as meant, with LF or CRLF. */
  lemma AccountTextRoundTrip(name: string, email: string, password: string, end: string, call: Call)
    requires name in {"REGISTER", "LOGIN", "RESET_PASSWORD"} && IsWord(email) && IsWord(password) && IsEnd(end)
    requires call.line == AccountText(name, email, password, end)
    ensures AccountLine(call) == Some((VerbOf(name), email, password))
  {
    AccountNames(name);
    hide Payload, Credentials, Split, IsWord, VerbOf;
    CredentialsReadBack(email, password, end);
    SplitPrinted(name, Payload([email, password], end));
  }

  /** Which handler each command word reaches; every other word reaches none. */
  lemma Dispatch(word: string)
    ensures VerbOf("REGISTER") == RegisterVerb && VerbOf("LOGIN") == LoginVerb
    ensures VerbOf("RESET_PASSWORD") == ResetVerb && VerbOf("ADD_HISTORY") == AddVerb
    ensures VerbOf("GET_HISTORY") == QueryVerb(AllKind)
    ensures VerbOf("GET_HISTORY_BY_EVENT_TYPE") == QueryVerb(TypeKind)
    ensures VerbOf("GET_HISTORY_BY_DATE_RANGE") == QueryVerb(DatesKind)
    ensures VerbOf("GET_HISTORY_BY_EVENT_TYPE_AND_DATE_RANGE") == QueryVerb(TypeAndDatesKind)
    ensures VerbOf("CHANGE_FRAME") == ChangeFrameVerb && VerbOf("GET_FRAME") == GetFrameVerb
    ensures VerbOf("GET_LOG") == GetLogVerb
    ensures VerbOf(word).Unknown? <==>
              word !in {"REGISTER", "LOGIN", "RESET_PASSWORD", "ADD_HISTORY", "GET_HISTORY",
                        "GET_HISTORY_BY_EVENT_TYPE", "GET_HISTORY_BY_DATE_RANGE",
                        "GET_HISTORY_BY_EVENT_TYPE_AND_DATE_RANGE", "CHANGE_FRAME", "GET_FRAME", "GET_LOG"}
  {}

  /** What an account command alone answers and does, failures included, in terms of the map. */
  lemma SoloAnswers(t: Users.Table, c: Command, faults: Faults)
    requires Users.Valid(t)
    ensures var (t', code) := Solo(t, c, faults);
            var m := Users.Accounts(t.rows);
            && code == (match c
                        case Register(email, _) =>
                          if email in m then (if faults.lookup then 500 else 409) else if faults.write then 500 else 200
                        case Login(email, hash) =>
                          if faults.lookup || email !in m then 404 else if m[email] == hash then 200 else 401
                        case Reset(email, _) =>
                          if faults.lookup || email !in m then 404 else if faults.write then 500 else 200)
            && Users.Valid(t')
            && (if code == 200 && !c.Login? then Users.Accounts(t'.rows) == m[c.email := c.hash] else t' == t)
  {
    hide Users.Valid, Users.Names, Users.Find, Users.SetHash, Users.Accounts;
    SoloRefines(t, c, faults);
    Users.AccountsFind(t.rows, c.email);
    InsertOnce(t, c);
  }

  /**
   * What each printed account line does.  REGISTER adds an email that is free,
   * RESET_PASSWORD sets the hash of one that is not, LOGIN compares with it.
   */
  lemma AccountLineAnswers(lib: Lib, w: World, email: string, password: string, end: string, call: Call)
    requires Users.Valid(w.users) && IsWord(email) && IsWord(password) && IsEnd(end)
    ensures var (w', reply) := Handle(lib, w, call);
            var m, m' := Users.Accounts(w.users.rows), Users.Accounts(w'.users.rows);
            var hash := Hex(lib.digest(password));
            && (call.line == AccountText("REGISTER", email, password, end) ==>
                  && w' == w.(users := w'.users)
                  && if email in m then w' == w && reply == Status(if call.faults.lookup then 500 else 409)
                     else if call.faults.write then w' == w && reply == Status(500)
                     else m' == m[email := hash] && reply == Status(200))
            && (call.line == AccountText("LOGIN", email, password, end) ==>
                  && w' == w
                  && reply == Status(if call.faults.lookup || email !in m then 404
                                     else if m[email] == hash then 200 else 401))
            && (call.line == AccountText("RESET_PASSWORD", email, password, end) ==>
                  && w' == w.(users := w'.users)
                  && if call.faults.lookup || email !in m then w' == w && reply == Status(404)
                     else if call.faults.write then w' == w && reply == Status(500)
                     else m' == m[email := hash] && reply == Status(200))
  {
    hide Handle, AccountText, Users.Valid, Users.Accounts, Hex, Solo;
    Dispatch("");
    var hash := Hex(lib.digest(password));
    assert email != "" && password != "";
    hide IsWord, VerbOf;
    if call.line == AccountText("REGISTER", email, password, end) {
      AccountHandled(lib, w, "REGISTER", email, password, end, call);
      SoloAnswers(w.users, Register(email, hash), call.faults);
    }
    if call.line == AccountText("LOGIN", email, password, end) {
      AccountHandled(lib, w, "LOGIN", email, password, end, call);
      SoloAnswers(w.users, Login(email, hash), call.faults);
    }
    if call.line == AccountText("RESET_PASSWORD", email, password, end) {
      AccountHandled(lib, w, "RESET_PASSWORD", email, password, end, call);
      SoloAnswers(w.users, Reset(email, hash), call.faults);
    }
  }

  lemma AccountHandled(lib: Lib, w: World, name: string, email: string, password: string, end: string, call: Call)
    requires name in {"REGISTER", "LOGIN", "RESET_PASSWORD"} && IsWord(email) && IsWord(password) && IsEnd(end)
    requires call.line == AccountText(name, email, password, end)
    ensures var hash := Hex(lib.digest(password));
            var c := if VerbOf(name).RegisterVerb? then Register(email, hash)
                     else if VerbOf(name).LoginVerb? then Login(email, hash) else Reset(email, hash);
            var (users, code) := Solo(w.users, c, call.faults);
            Handle(lib, w, call) == (w.(users := users), Status(code))
  {
    AccountNames(name);
    assert email != "" && password != "";
    hide Payload, Credentials, Split, IsWord, VerbOf, Hex, Solo;
    CredentialsReadBack(email, password, end);
    SplitPrinted(name, Payload([email, password], end));
  }

  /** With a word missing all three answer 400 and change nothing. */
  lemma MissingWordRefused(lib: Lib, w: World, name: string, words: seq<string>, end: string, call: Call)
    requires name in {"REGISTER", "LOGIN", "RESET_PASSWORD"} && IsEnd(end) && |words| <= 1 && AllWords(words)
    requires call.line == if words == [] then name + (end + "\n") else name + (" " + Payload(words, end) + "\n")
    ensures Handle(lib, w, call) == (w, Status(400))
  {
    AccountNames(name);
    OneWordMissing(words, end);
    if words == [] {
      assert "" + (name + (end + "\n")) == name + (end + "\n");
      SplitBare("", name, end + "\n");
    } else {
      PayloadIsOneLine(words, end);
      SplitPrinted(name, Payload(words, end));
    }
    hide Payload, Credentials, Split, IsWord, VerbOf, Hex, Solo;
  }

  lemma OneWordMissing(words: seq<string>, end: string)
    requires |words| <= 1 && AllWords(words) && IsEnd(end)
    ensures Credentials("").0 == ""
    ensures words != [] ==> Credentials(Payload(words, end)).1 == ""
  {
    hide Stream.Word, Tail, IsWord;
    EmptyText();
    BlankLeft(end, 0);
    if words != [] {
      assert words[1..] == [];
      NextWord(words[0], [], end);
    }
  }

  lemma EmptyText()
    ensures Open("").Word().1 == "" && Open("").Word().0.fail
  {}

  /** GET_FRAME shows the overlay file and GET_LOG the status file, 500 if it cannot be read; other words get 400. */
  lemma BareLines(lib: Lib, w: World, word: string, end: string, call: Call)
    requires IsWord(word) && IsEnd(end) && call.line == word + (end + "\n")
    ensures word == "GET_FRAME" ==>
              Handle(lib, w, call) == (w, if w.overlay.Config? then Settings(w.overlay.settings) else Status(500))
    ensures word == "GET_LOG" ==>
              Handle(lib, w, call) == (w, if call.status.Config? then Settings(call.status.settings) else Status(500))
    ensures word !in {"REGISTER", "LOGIN", "RESET_PASSWORD", "ADD_HISTORY", "GET_HISTORY",
                      "GET_HISTORY_BY_EVENT_TYPE", "GET_HISTORY_BY_DATE_RANGE",
                      "GET_HISTORY_BY_EVENT_TYPE_AND_DATE_RANGE", "CHANGE_FRAME", "GET_FRAME", "GET_LOG"} ==>
              Handle(lib, w, call) == (w, Status(400))
  {
    Dispatch(word);
    hide VerbOf, Split, IsWord;
    assert "" + (word + (end + "\n")) == word + (end + "\n");
    SplitBare("", word, end + "\n");
  }

  /** The words of a CHANGE_FRAME command that asks for a change. */
  function ChangeWords(c: Overlay.Change): seq<string> {
    match c
    case Bbox(on) => [Integer(0), Integer(if on then 1 else 0)]
    case Timestamp(on) => [Integer(1), Integer(if on then 1 else 0)]
    case Mode(mode) => [Integer(2), mode]
    case Sharp(level) => [Integer(2), "sharp", Integer(level)]
  }

  /** A change a client can ask for: a level comes with mode "sharp" and no other. */
  predicate ChangeOk(c: Overlay.Change) {
    match c
    case Mode(mode) => Overlay.IsMode(mode) && mode != "sharp"
    case Sharp(level) => 0 <= level <= 100
    case _ => true
  }

  function FrameLine(c: Overlay.Change, end: string): string {
    "CHANGE_FRAME" + (" " + Payload(ChangeWords(c), end) + "\n")
  }

  lemma ChangeWordsAreWords(c: Overlay.Change)
    requires ChangeOk(c)
    ensures ChangeWords(c) != [] && AllWords(ChangeWords(c))
  {
    forall n: int ensures IsWord(Integer(n)) { IntegerIsWord(n); }
    hide Integer;
  }

  /** The words of a change are read back as that change. */
  lemma ChangeParses(c: Overlay.Change, end: string)
    requires ChangeOk(c) && IsEnd(end)
    ensures Overlay.Parse(Payload(ChangeWords(c), end)) == Overlay.Change(c)
  {
    hide Stream.Int, Stream.Word, Tail, Integer, IsWord;
    match c
    case Bbox(on) =>
      FirstInt(0, [Integer(if on then 1 else 0)], end);
      NextInt(if on then 1 else 0, [], end, 0);
      assert [Integer(if on then 1 else 0)] + [] == [Integer(if on then 1 else 0)];
    case Timestamp(on) =>
      FirstInt(1, [Integer(if on then 1 else 0)], end);
      NextInt(if on then 1 else 0, [], end, 0);
      assert [Integer(if on then 1 else 0)] + [] == [Integer(if on then 1 else 0)];
    case Mode(mode) =>
      ModesAreWords(mode);
      FirstInt(2, [mode], end);
      NextWord(mode, [], end);
      assert [mode] + [] == [mode];
    case Sharp(level) =>
      ModesAreWords("sharp");
      FirstInt(2, ["sharp", Integer(level)], end);
      NextWord("sharp", [Integer(level)], end);
      NextInt(level, [], end, 0);
      assert ["sharp"] + [Integer(level)] == ["sharp", Integer(level)];
      assert [Integer(level)] + [] == [Integer(level)];
  }

  lemma ModesAreWords(mode: string)
    requires Overlay.IsMode(mode)
    ensures IsWord(mode)
  {}

  lemma FirstInt(n: int, words: seq<string>, end: string)
    requires INT_MIN <= n <= INT_MAX && IsEnd(end)
    ensures Open(Payload([Integer(n)] + words, end)).Int(0) == (After(Tail(words, end)), n)
  {
    TailEndsWord(words, end);
    IntReadsBack(n, Tail(words, end), 0);
    assert ([Integer(n)] + words)[1..] == words;
  }

  /** The changes some payload asks for are exactly those of `ChangeOk`: no text gets any other past the checks. */
  lemma ChangesAsked(c: Overlay.Change)
    ensures (exists payload :: Overlay.Parse(payload) == Overlay.Change(c)) <==> ChangeOk(c)
  {
    hide Overlay.Parse, Payload, ChangeWords;
    if ChangeOk(c) {
      ChangeParses(c, "");
    }
    forall payload | Overlay.Parse(payload) == Overlay.Change(c) ensures ChangeOk(c) {
      Overlay.ParsedChange(payload);
    }
  }

  /** A printed CHANGE_FRAME line makes exactly the change it asks for. */
  lemma FrameLineRoundTrip(lib: Lib, w: World, c: Overlay.Change, end: string, call: Call)
    requires ChangeOk(c) && IsEnd(end) && call.line == FrameLine(c, end)
    requires w.overlay.Config? && call.writable
    ensures Handle(lib, w, call)
         == (w.(overlay := Overlay.Config(Overlay.Apply(w.overlay.settings, c))), Status(200))
  {
    hide Split, ParseRow, Payload, ParseQuery, QueryReply, AccountReply, AccountCommand, IsWord, VerbOf, ChangeWords;
    hide Overlay.Parse, Overlay.Apply, AllWords, ChangeOk;
    ChangeWordsAreWords(c);
    FrameName();
    PayloadIsOneLine(ChangeWords(c), end);
    ChangeParses(c, end);
    SplitPrinted("CHANGE_FRAME", Payload(ChangeWords(c), end));
  }

  lemma FrameHandled(lib: Lib, w: World, words: seq<string>, end: string, call: Call)
    requires words != [] && AllWords(words) && IsEnd(end)
    requires call.line == "CHANGE_FRAME" + (" " + Payload(words, end) + "\n")
    ensures var (file, code) := Overlay.ChangeFrame(w.overlay, Payload(words, end), call.writable);
            Handle(lib, w, call) == (w.(overlay := file), Status(code))
  {
    FrameName();
    PayloadIsOneLine(words, end);
    hide Split, Payload, IsWord, VerbOf, Overlay.ChangeFrame;
    SplitPrinted("CHANGE_FRAME", Payload(words, end));
  }

  /** What an overlay command answers that asks for `after` or, if it may not, for nothing. */
  function FrameReply(w: World, after: Option<Object>, writable: bool): (World, Reply) {
    if !w.overlay.Config? then (w, Status(500))
    else if after.None? then (w, Status(400))
    else if !writable then (w, Status(500))
    else (w.(overlay := Overlay.Config(after.value)), Status(200))
  }

  lemma FlagParsed(menu: int, value: int, end: string)
    requires (menu == 0 || menu == 1) && INT_MIN <= value <= INT_MAX && IsEnd(end)
    ensures Overlay.Parse(Payload([Integer(menu), Integer(value)], end))
         == if value != 0 && value != 1 then Overlay.Invalid
            else Overlay.Change(if menu == 0 then Overlay.Bbox(value == 1) else Overlay.Timestamp(value == 1))
  {
    hide Stream.Int, Stream.Word, Tail, Integer, IsWord, Payload;
    FirstInt(menu, [Integer(value)], end);
    NextInt(value, [], end, 0);
    assert [Integer(menu)] + [Integer(value)] == [Integer(menu), Integer(value)];
    assert [Integer(value)] + [] == [Integer(value)];
  }

  /** A printed flag is set for 0 and 1; any other number is refused. */
  lemma FlagLine(lib: Lib, w: World, menu: int, value: int, end: string, call: Call)
    requires (menu == 0 || menu == 1) && INT_MIN <= value <= INT_MAX && IsEnd(end)
    requires call.line == "CHANGE_FRAME" + (" " + Payload([Integer(menu), Integer(value)], end) + "\n")
    requires w.overlay.Config?
    ensures Handle(lib, w, call)
         == FrameReply(w, if value != 0 && value != 1 then None
                          else Some(w.overlay.settings[(if menu == 0 then "show_bbox" else "show_timestamp")
                                                       := Bool(value == 1)]), call.writable)
  {
    hide Overlay.Parse, Integer, IsWord, Handle, Payload;
    IntegerIsWord(menu);
    IntegerIsWord(value);
    FrameHandled(lib, w, [Integer(menu), Integer(value)], end, call);
    FlagParsed(menu, value, end);
  }

  lemma ModeParsed(mode: string, end: string)
    requires IsWord(mode) && IsEnd(end)
    ensures Overlay.Parse(Payload([Integer(2), mode], end))
         == if mode in {"original", "day", "night"} then Overlay.Change(Overlay.Mode(mode)) else Overlay.Invalid
  {
    assert mode != "";
    hide Stream.Int, Stream.Word, Tail, Integer, IsWord, Payload;
    FirstInt(2, [mode], end);
    NextWord(mode, [], end);
    BlankLeft(end, 0);
    assert [Integer(2)] + [mode] == [Integer(2), mode];
    assert [mode] + [] == [mode];
  }

  /** A printed mode other than "sharp" replaces the mode and takes the level away; "sharp" alone is refused. */
  lemma ModeLine(lib: Lib, w: World, mode: string, end: string, call: Call)
    requires IsWord(mode) && IsEnd(end) && w.overlay.Config?
    requires call.line == "CHANGE_FRAME" + (" " + Payload([Integer(2), mode], end) + "\n")
    ensures Handle(lib, w, call)
         == FrameReply(w, if mode !in {"original", "day", "night"} then None
                          else Some(w.overlay.settings["mode" := Json.Text(mode)] - {"sharpness_level"}), call.writable)
  {
    hide Overlay.Parse, Integer, IsWord, Handle, Payload;
    IntegerIsWord(2);
    FrameHandled(lib, w, [Integer(2), mode], end, call);
    ModeParsed(mode, end);
  }

  lemma SharpParsed(level: int, end: string)
    requires INT_MIN <= level <= INT_MAX && IsEnd(end)
    ensures Overlay.Parse(Payload([Integer(2), "sharp", Integer(level)], end))
         == if 0 <= level <= 100 then Overlay.Change(Overlay.Sharp(level)) else Overlay.Invalid
  {
    ModesAreWords("sharp");
    hide Stream.Int, Stream.Word, Tail, Integer, IsWord, Payload;
    FirstInt(2, ["sharp", Integer(level)], end);
    NextWord("sharp", [Integer(level)], end);
    NextInt(level, [], end, 0);
    assert [Integer(2)] + ["sharp", Integer(level)] == [Integer(2), "sharp", Integer(level)];
    assert ["sharp"] + [Integer(level)] == ["sharp", Integer(level)];
    assert [Integer(level)] + [] == [Integer(level)];
  }

  /** "sharp" with a printed level is taken for 0 to 100 and refused for any other. */
  lemma SharpLine(lib: Lib, w: World, level: int, end: string, call: Call)
    requires INT_MIN <= level <= INT_MAX && IsEnd(end) && w.overlay.Config?
    requires call.line == "CHANGE_FRAME" + (" " + Payload([Integer(2), "sharp", Integer(level)], end) + "\n")
    ensures Handle(lib, w, call)
         == FrameReply(w, if level < 0 || level > 100 then None
                          else Some(w.overlay.settings["mode" := Json.Text("sharp")]["sharpness_level" := Int(level)]),
                       call.writable)
  {
    hide Overlay.Parse, Integer, IsWord, Handle, Payload;
    IntegerIsWord(2);
    IntegerIsWord(level);
    ModesAreWords("sharp");
    FrameHandled(lib, w, [Integer(2), "sharp", Integer(level)], end, call);
    SharpParsed(level, end);
  }

  /** A command without a number to choose a setting is answered 400. */
  lemma NoMenuLine(lib: Lib, w: World, words: seq<string>, end: string, call: Call)
    requires words != [] && AllWords(words) && IsEnd(end)
    requires call.line == "CHANGE_FRAME" + (" " + Payload(words, end) + "\n")
    requires !IsDigit(words[0][0]) && words[0][0] != '-' && words[0][0] != '+'
    ensures Handle(lib, w, call) == (w, Status(400))
  {
    FrameHandled(lib, w, words, end, call);
    TailEndsWord(words[1..], end);
    NoNumberReads(words[0], Tail(words[1..], end), 0);
    hide Stream.Int, Stream.Word, Tail, IsWord, Handle, IsDigit, AllWords;
  }

  /**
   * After a number an unreadable file gives 500, and a number that chooses no
   * setting or has nothing behind it 400; nothing changes.
   */
  lemma NoSettingLine(lib: Lib, w: World, menu: int, more: seq<string>, end: string, call: Call)
    requires INT_MIN <= menu <= INT_MAX && AllWords(more) && IsEnd(end)
    requires call.line == "CHANGE_FRAME" + (" " + Payload([Integer(menu)] + more, end) + "\n")
    requires !w.overlay.Config? || menu < 0 || menu > 2 || more == []
    ensures Handle(lib, w, call) == (w, Status(if w.overlay.Config? then 400 else 500))
  {
    IntegerIsWord(menu);
    hide Stream.Int, Stream.Word, Tail, Integer, IsWord, Handle, Payload;
    assert AllWords([Integer(menu)] + more);
    FrameHandled(lib, w, [Integer(menu)] + more, end, call);
    FirstInt(menu, more, end);
    if more == [] { BlankLeft(end, 0); }
    hide AllWords;
  }

  lemma FrameName()
    ensures IsWord("CHANGE_FRAME") && VerbOf("CHANGE_FRAME") == ChangeFrameVerb
  {}

  /** An event as a client reports it. */
  datatype Event = Event(date: string, image: string, plate: string, eventType: nat,
                         start: string, end: string, speed: string)
  {
    function Words(): seq<string> { [date, image, plate, Integer(eventType), start, end, speed] }

    ghost predicate Ok() {
      && IsWord(date) && IsWord(image) && IsWord(plate) && eventType <= 2
      && IsWord(start) && IsWord(end) && IsWord(speed)
    }

    /** The row it should become. */
    function Row(lib: Lib, id: int): History {
      var v := lib.readFloat(speed);
      History(id, Unscore(date), image, plate, eventType, start, end,
              if eventType == 1 && v >= 0.0 then Some(v) else None)
    }
  }

  /** Field by field: a speed is kept for type 1 only, and only if it is not negative. */
  lemma RowFields(lib: Lib, e: Event, id: int)
    ensures var h := e.Row(lib, id);
            && h.id == id && h.imagePath == e.image && h.plateNumber == e.plate && h.eventType == e.eventType
            && h.startSnapshot == e.start && h.endSnapshot == e.end
            && |h.date| == |e.date|
            && (forall i | 0 <= i < |e.date| :: h.date[i] == if e.date[i] == '_' then ' ' else e.date[i])
            && var v := lib.readFloat(e.speed);
               h.speed == if e.eventType == 1 && v >= 0.0 then Some(v) else None
  {}

  function AddLine(e: Event, eol: string): string {
    AddText(e.Words(), eol)
  }

  lemma RealReadsBack(w: string, end: string, current: real, read: string -> real)
    requires IsWord(w) && IsEnd(end)
    ensures After(Tail([w], end)).Real(current, read) == read(w)
  {
    TailEndsWord([], end);
    assert [w][1..] == [];
    SkipOneSpace(w, end);
    WordLengthOf(w, end);
    assert (w + end)[..|w|] == w;
  }

  lemma AddParses(lib: Lib, e: Event, eol: string, stale: int)
    requires e.Ok() && IsEnd(eol)
    ensures ParseRow(lib, Payload(e.Words(), eol), stale) == Some(e.Row(lib, -1))
  {
    hide Stream.Int, Stream.Word, Stream.Real, Tail, Integer, IsWord;
    var n := Integer(e.eventType);
    assert e.Words()[1..] == [e.image, e.plate, n, e.start, e.end, e.speed];
    NextWord(e.date, [e.image, e.plate, n, e.start, e.end, e.speed], eol);
    assert [e.image, e.plate, n, e.start, e.end, e.speed] == [e.image] + [e.plate, n, e.start, e.end, e.speed];
    NextWord(e.image, [e.plate, n, e.start, e.end, e.speed], eol);
    assert [e.plate, n, e.start, e.end, e.speed] == [e.plate] + [n, e.start, e.end, e.speed];
    NextWord(e.plate, [n, e.start, e.end, e.speed], eol);
    assert [n, e.start, e.end, e.speed] == [n] + [e.start, e.end, e.speed];
    NextInt(e.eventType, [e.start, e.end, e.speed], eol, stale);
    assert [e.start, e.end, e.speed] == [e.start] + [e.end, e.speed];
    NextWord(e.start, [e.end, e.speed], eol);
    assert [e.end, e.speed] == [e.end] + [e.speed];
    NextWord(e.end, [e.speed], eol);
    RealReadsBack(e.speed, eol, -1.0, lib.readFloat);
    WordsNotEmpty(e);
  }

  lemma WordsNotEmpty(e: Event)
    requires e.Ok()
    ensures e.date != "" && e.image != "" && e.plate != ""
  {}

  lemma AddWordsOneLine(e: Event, eol: string)
    requires e.Ok() && IsEnd(eol)
    ensures '\n' !in Payload(e.Words(), eol)
  {
    IntegerIsWord(e.eventType);
    hide Integer, IsWord;
    assert AllWords(e.Words());
    PayloadIsOneLine(e.Words(), eol);
  }

  lemma AddName()
    ensures IsWord("ADD_HISTORY") && VerbOf("ADD_HISTORY") == AddVerb
  {}

  lemma RowId(lib: Lib, e: Event, id: int)
    ensures e.Row(lib, -1).(id := id) == e.Row(lib, id)
  {}

  /** A well-formed ADD_HISTORY line appends exactly the row it describes. */
  lemma AddLineRoundTrip(lib: Lib, w: World, e: Event, eol: string, call: Call)
    requires e.Ok() && IsEnd(eol) && call.line == AddLine(e, eol) && !call.faults.write
    ensures Handle(lib, w, call)
         == (w.(rows := w.rows + [e.Row(lib, MaxId(w.rows) + 1)]), Status(200))
  {
    AddName();
    hide Split, ParseRow, Payload, ParseQuery, QueryReply, AccountReply, AccountCommand, Overlay.ChangeFrame, IsWord;
    hide VerbOf, Event.Row, Event.Ok, Integer;
    AddWordsOneLine(e, eol);
    AddParses(lib, e, eol, call.stale);
    RowId(lib, e, MaxId(w.rows) + 1);
    SplitPrinted("ADD_HISTORY", Payload(e.Words(), eol));
  }

  // ---------- which ADD_HISTORY lines are accepted ----------

  /** The signed number at the start of a word. */
  function Signed(w: string): int {
    var sc := Scan(w);
    if sc.negative then 0 - DecimalValue(sc.digits) else DecimalValue(sc.digits)
  }

  /** What stands in a type word behind its leading number. */
  function Rest(w: string): string { Scan(w).rest }

  /** Reading a number from a word leaves the rest of the word to be read next. */
  lemma IntOfWord(w: string, t: string, current: int)
    requires IsWord(w) && EndsWord(t)
    ensures var (s, n) := After(" " + w + t).Int(current);
            && (Scan(w).digits == "" ==> n == 0 && s.fail)
            && (Scan(w).digits != "" ==>
                  && (0 <= n <= 2 <==> 0 <= Signed(w) <= 2)
                  && (0 <= n <= 2 ==> n == Signed(w) && s == After(Rest(w) + t)))
  {
    hide Scan, DecimalValue, SkipSpace;
    SkipOneSpace(w, t);
    ScanWord(w, t);
  }

  lemma RestIsWord(w: string)
    requires IsWord(w) && Rest(w) != ""
    ensures IsWord(Rest(w))
  {
    hide DigitsLength;
    var sign := if w[0] == '-' || w[0] == '+' then 1 else 0;
    var k := DigitsLength(w[sign..]);
    assert forall i | 0 <= i < |Rest(w)| :: Rest(w)[i] == w[sign + k + i];
  }

  /** Nothing but blanks is left: words are empty, numbers keep their value, and all later reads fail. */
  lemma BlankLeft(end: string, stale: int)
    requires IsEnd(end)
    ensures var s := After(Tail([], end));
            && s.Word().1 == "" && s.Word().0.fail
            && s.Int(stale).1 == stale && s.Int(stale).0.fail
  {
    if end == "\r" { assert end[1..] == ""; }
  }

  /** Once an extraction has failed, later words stay empty and later numbers keep their value. */
  lemma NothingAfterFailure(s: Stream, read: string -> real)
    requires s.fail
    ensures s.Word().1 == "" && s.Word().0.fail && s.Word().0.Word().1 == "" && s.Word().0.Word().0.fail
    ensures s.Real(-1.0, read) == s.Word().0.Real(-1.0, read) == s.Word().0.Word().0.Real(-1.0, read) == -1.0
  {}

  function WordOr(words: seq<string>, i: nat): string { if i < |words| then words[i] else "" }

  /** What the last reads of an ADD_HISTORY payload make of the words left: two snapshots and a speed. */
  lemma LastReads(words: seq<string>, eol: string, read: string -> real)
    requires AllWords(words) && IsEnd(eol)
    ensures var (s1, a) := After(Tail(words, eol)).Word();
            var (s2, b) := s1.Word();
            && a == WordOr(words, 0) && b == WordOr(words, 1)
            && s2.Real(-1.0, read) == if |words| > 2 then read(words[2]) else -1.0
  {
    hide Stream.Word, Stream.Real, Tail, IsWord;
    BlankLeft(eol, 0);
    NothingAfterFailure(After(Tail([], eol)).Word().0, read);
    if words == [] {
      assert Tail(words, eol) == Tail([], eol);
    } else {
      assert words == [words[0]] + words[1..];
      NextWord(words[0], words[1..], eol);
      if |words| == 1 {
        assert words[1..] == [];
      } else {
        assert words[1..] == [words[1]] + words[2..];
        NextWord(words[1], words[2..], eol);
        if |words| == 2 {
          assert words[2..] == [];
          NoRealLeft(eol, read);
        } else {
          RealThere(words[2..], eol, read);
        }
      }
    }
  }

  lemma NoRealLeft(end: string, read: string -> real)
    requires IsEnd(end)
    ensures After(Tail([], end)).Real(-1.0, read) == -1.0
  {
    if end == "\r" { assert end[1..] == ""; }
  }

  lemma RealThere(words: seq<string>, end: string, read: string -> real)
    requires AllWords(words) && words != [] && IsEnd(end)
    ensures After(Tail(words, end)).Real(-1.0, read) == read(words[0])
  {
    var w, t := words[0], Tail(words[1..], end);
    TailEndsWord(words[1..], end);
    SkipOneSpace(w, t);
    WordLengthOf(w, t);
    assert (w + t)[..|w|] == w;
  }

  /** The words of an ADD_HISTORY payload that is accepted; `stale` is what `eventType` happens to hold. */
  predicate Accepted(words: seq<string>, stale: int) {
    && |words| >= 3
    && if |words| == 3 then 0 <= stale <= 2
       else Scan(words[3]).digits == "" || 0 <= Signed(words[3]) <= 2
  }

  /** The row recorded for a payload without a type, or with a type word that is no number. */
  function Untyped(words: seq<string>, stale: int): History
    requires |words| >= 3
  {
    History(-1, Unscore(words[0]), words[1], words[2], if |words| == 3 then stale else 0, "", "", None)
  }

  /** The row of three words, a type, and the words `more`: two snapshots and a speed, as far as they are there. */
  function RowSaid(lib: Lib, words: seq<string>, eventType: int, more: seq<string>): History
    requires |words| >= 3
  {
    var speed := if |more| > 2 then lib.readFloat(more[2]) else -1.0;
    History(-1, Unscore(words[0]), words[1], words[2], eventType, WordOr(more, 0), WordOr(more, 1),
            if eventType == 1 && speed >= 0.0 then Some(speed) else None)
  }

  /** What follows the number: the rest of its word, if any, is read as a word of its own. */
  function Following(words: seq<string>): seq<string>
    requires |words| > 3
  {
    (if Rest(words[3]) == "" then [] else [Rest(words[3])]) + words[4..]
  }

  lemma FollowingReads(words: seq<string>, eol: string, read: string -> real)
    requires |words| > 3 && AllWords(words) && IsEnd(eol)
    ensures var (s1, a) := After(Rest(words[3]) + Tail(words[4..], eol)).Word();
            var (s2, b) := s1.Word();
            var more := Following(words);
            && a == WordOr(more, 0) && b == WordOr(more, 1)
            && s2.Real(-1.0, read) == if |more| > 2 then read(more[2]) else -1.0
  {
    hide Stream.Word, Stream.Real, Tail, IsWord, Rest;
    var rest, later := Rest(words[3]), words[4..];
    assert forall i | 0 <= i < |later| :: later[i] == words[i + 4];
    if rest == "" {
      assert rest + Tail(later, eol) == Tail(later, eol) && [] + later == later;
      LastReads(later, eol, read);
    } else {
      RestIsWord(words[3]);
      NextWord(rest, later, eol);
      assert After(rest + Tail(later, eol)) == Open(rest + Tail(later, eol));
      assert AllWords([rest] + later);
      LastReads([rest] + later, eol, read);
    }
  }

  /**
   * One would expect ADD_HISTORY to accept exactly three words followed by the
   * event type 0, 1 or 2.  It also accepts a type word that does not begin
   * with a number, records it as type 0 and drops the words after it; a type
   * word that goes on behind its number, reading the rest as the next word;
   * and no type word at all when `eventType` happens to hold 0, 1 or 2, and
   * records that.
   */
  lemma WordsAccepted(lib: Lib, words: seq<string>, eol: string, stale: int)
    requires words != [] && AllWords(words) && IsEnd(eol)
    ensures var row := ParseRow(lib, Payload(words, eol), stale);
            && (row.Some? <==> Accepted(words, stale))
            && (row.Some? ==>
                  row.value == if |words| == 3 || Scan(words[3]).digits == "" then Untyped(words, stale)
                               else RowSaid(lib, words, Signed(words[3]), Following(words)))
  {
    hide Stream.Int, Stream.Word, Stream.Real, Scan, Signed, Rest, IsWord, Payload, Following, WordOr, AllWords;
    if |words| < 3 {
      TooFewWords(lib, words, eol, stale);
    } else {
      var more := words[3..];
      assert words == [words[0], words[1], words[2]] + more;
      WordsThere(words);
      ThreeWords(lib, words[0], words[1], words[2], more, eol);
      var (s, n) := After(Tail(more, eol)).Int(stale);
      if more == [] {
        BlankLeft(eol, stale);
        NothingAfterFailure(s, lib.readFloat);
      } else {
        assert more[1..] == words[4..];
        TailEndsWord(words[4..], eol);
        IntOfWord(words[3], Tail(words[4..], eol), stale);
        FollowingReads(words, eol, lib.readFloat);
        if s.fail {
          NothingAfterFailure(s, lib.readFloat);
        }
      }
    }
  }

  /**
   * An accepted payload with a number for a type is recorded as its words say
   * exactly if the number is the whole type word or the words it shifts happen
   * to be equal where they are kept.
   */
  lemma RecordedAsSaid(lib: Lib, words: seq<string>, eol: string, stale: int)
    requires |words| > 3 && AllWords(words) && IsEnd(eol)
    requires Accepted(words, stale) && Scan(words[3]).digits != ""
    ensures var said := RowSaid(lib, words, Signed(words[3]), words[4..]);
            var rest, more := Rest(words[3]), words[4..];
            ParseRow(lib, Payload(words, eol), stale) == Some(said)
            <==> rest == ""
                 || (WordOr(more, 0) == rest && WordOr(more, 1) == rest
                     && said.speed == if said.eventType == 1 && lib.readFloat(rest) >= 0.0
                                      then Some(lib.readFloat(rest)) else None)
  {
    hide ParseRow, Payload, Scan, Signed, IsWord;
    WordsAccepted(lib, words, eol, stale);
    var more := words[4..];
    assert [] + more == more;
  }

  lemma TooFewWords(lib: Lib, words: seq<string>, eol: string, stale: int)
    requires 1 <= |words| <= 2 && AllWords(words) && IsEnd(eol)
    ensures ParseRow(lib, Payload(words, eol), stale).None?
  {
    hide Stream.Word, Stream.Int, Stream.Real, Tail, IsWord;
    BlankLeft(eol, stale);
    NothingAfterFailure(After(Tail([], eol)).Word().0, lib.readFloat);
    NextWord(words[0], words[1..], eol);
    if |words| == 1 {
      assert words[1..] == [];
    } else {
      assert words[1..] == [words[1]] + [];
      NextWord(words[1], [], eol);
    }
  }

  lemma WordsThere(words: seq<string>)
    requires |words| >= 3 && AllWords(words)
    ensures IsWord(words[0]) && IsWord(words[1]) && IsWord(words[2])
    ensures words[0] != "" && words[1] != "" && words[2] != "" && (|words| > 3 ==> IsWord(words[3]))
  {}

  lemma ThreeWords(lib: Lib, date: string, image: string, plate: string, words: seq<string>, eol: string)
    requires IsWord(date) && IsWord(image) && IsWord(plate) && IsEnd(eol)
    ensures var (s1, a) := Open(Payload([date, image, plate] + words, eol)).Word();
            var (s2, b) := s1.Word();
            var (s3, c) := s2.Word();
            a == date && b == image && c == plate && s3 == After(Tail(words, eol))
  {
    hide Stream.Word, Tail, IsWord;
    assert ([date, image, plate] + words)[1..] == [image] + ([plate] + words);
    NextWord(date, [image] + ([plate] + words), eol);
    NextWord(image, [plate] + words, eol);
    NextWord(plate, words, eol);
  }

  function AddText(words: seq<string>, eol: string): string
    requires words != []
  {
    "ADD_HISTORY" + (" " + Payload(words, eol) + "\n")
  }

  /** The same for a whole line: it is answered 200 and recorded exactly when its words are accepted, else 400. */
  lemma LineAccepted(lib: Lib, w: World, words: seq<string>, eol: string, call: Call)
    requires words != [] && AllWords(words) && IsEnd(eol) && call.line == AddText(words, eol) && !call.faults.write
    ensures var row := ParseRow(lib, Payload(words, eol), call.stale);
            && (row.Some? <==> Accepted(words, call.stale))
            && Handle(lib, w, call)
            == if row.Some? then (w.(rows := Append(w.rows, row.value)), Status(200)) else (w, Status(400))
  {
    AddName();
    hide Split, ParseRow, Payload, ParseQuery, QueryReply, AccountReply, AccountCommand, Overlay.ChangeFrame, IsWord;
    hide VerbOf, AllWords, Accepted, Append;
    WordsAccepted(lib, words, eol, call.stale);
    PayloadIsOneLine(words, eol);
    SplitPrinted("ADD_HISTORY", Payload(words, eol));
  }

  lemma IntegerScanned(n: int)
    ensures Scan(Integer(n)).digits != "" && Signed(Integer(n)) == n && Rest(Integer(n)) == ""
  {
    hide Scan;
    var d := Decimal(if n < 0 then 0 - n else n);
    DecimalRoundTrip(if n < 0 then 0 - n else n);
    if n < 0 {
      ScanSigned('-', 0 - n, "");
      assert ['-'] + (d + "") == Integer(n);
    } else {
      ScanDecimal(n, "");
      assert d + "" == Integer(n);
    }
  }

  /** A line with a printed number for a type is recorded under it for 0, 1 and 2, and refused for any other. */
  lemma TypedLineAnswered(lib: Lib, w: World, words: seq<string>, n: int, eol: string, call: Call)
    requires |words| > 3 && AllWords(words) && words[3] == Integer(n) && IsEnd(eol)
    requires call.line == AddText(words, eol) && !call.faults.write
    ensures Handle(lib, w, call)
         == if 0 <= n <= 2 then (w.(rows := Append(w.rows, RowSaid(lib, words, n, words[4..]))), Status(200))
            else (w, Status(400))
  {
    hide Handle, ParseRow, Payload, Scan, Append, IsWord, Signed, Rest, RowSaid, Integer;
    IntegerScanned(n);
    WordsAccepted(lib, words, eol, call.stale);
    LineAccepted(lib, w, words, eol, call);
    assert [] + words[4..] == words[4..];
  }

  /** When the database fails the insert, nothing is recorded and the reply is 500, or 400 as before. */
  lemma FailedInsert(lib: Lib, w: World, words: seq<string>, eol: string, call: Call)
    requires words != [] && AllWords(words) && IsEnd(eol) && call.line == AddText(words, eol) && call.faults.write
    ensures Handle(lib, w, call) == (w, Status(if Accepted(words, call.stale) then 500 else 400))
  {
    AddName();
    hide Split, ParseRow, Payload, IsWord, VerbOf, AllWords, Accepted, Append;
    WordsAccepted(lib, words, eol, call.stale);
    PayloadIsOneLine(words, eol);
    SplitPrinted("ADD_HISTORY", Payload(words, eol));
  }

  /** Two lines that are recorded: one with "x" for a type, one with no type at all. */
  lemma UntypedLinesRecorded(lib: Lib, w: World, call: Call)
    requires !call.faults.write
    ensures call.line == "ADD_HISTORY d i p x\n" ==>
              Handle(lib, w, call)
              == (w.(rows := Append(w.rows, History(-1, "d", "i", "p", 0, "", "", None))), Status(200))
    ensures call.line == "ADD_HISTORY d i p\n" && 0 <= call.stale <= 2 ==>
              Handle(lib, w, call)
              == (w.(rows := Append(w.rows, History(-1, "d", "i", "p", call.stale, "", "", None))), Status(200))
  {
    hide Handle, ParseRow, Payload, Scan, Append, IsWord;
    SmallPayloads();
    SmallWords();
    if call.line == "ADD_HISTORY d i p x\n" {
      WordsAccepted(lib, ["d", "i", "p", "x"], "", call.stale);
      LineAccepted(lib, w, ["d", "i", "p", "x"], "", call);
    } else if call.line == "ADD_HISTORY d i p\n" && 0 <= call.stale <= 2 {
      WordsAccepted(lib, ["d", "i", "p"], "", call.stale);
      LineAccepted(lib, w, ["d", "i", "p"], "", call);
    }
  }

  /** A line whose type "1x" is taken for 1 and an "x": the word after it moves on by one. */
  lemma ShiftedLineRecorded(lib: Lib, w: World, call: Call)
    requires !call.faults.write && call.line == "ADD_HISTORY d i p 1x s\n"
    ensures Handle(lib, w, call)
         == (w.(rows := Append(w.rows, History(-1, "d", "i", "p", 1, "x", "s", None))), Status(200))
  {
    hide Handle, ParseRow, Payload, Scan, Append, IsWord, Signed, Rest, Unscore;
    var words := ["d", "i", "p", "1x", "s"];
    ShiftedPayload();
    SmallWords();
    MoreSmallWords();
    WordsAccepted(lib, words, "", call.stale);
    LineAccepted(lib, w, words, "", call);
    assert Following(words) == ["x", "s"];
  }

  lemma ShiftedPayload()
    ensures Payload(["d", "i", "p", "1x", "s"], "") == "d i p 1x s"
  {
    var words := ["d", "i", "p", "1x", "s"];
    hide Payload, Tail;
    PayloadIs(words, "");
    TailIs(words, 1, "");
    TailIs(words, 2, "");
    TailIs(words, 3, "");
    TailIs(words, 4, "");
    TailIs(words, 5, "");
  }

  lemma PayloadIs(words: seq<string>, end: string)
    requires words != []
    ensures Payload(words, end) == words[0] + Tail(words[1..], end)
  {}

  lemma TailIs(words: seq<string>, i: nat, end: string)
    requires i <= |words|
    ensures Tail(words[i..], end) == if i == |words| then end else " " + words[i] + Tail(words[i + 1..], end)
  {
    if i < |words| { assert words[i..][1..] == words[i + 1..]; }
  }

  lemma MoreSmallWords()
    ensures IsWord("1x") && IsWord("s")
    ensures Scan("1x").digits == "1" && Rest("1x") == "x" && Signed("1x") == 1
  {
    var w := "1x";
    assert IsDigit(w[0]) && !IsDigit(w[1]);
    DigitsLengthOf("1", "x");
    assert "1" + "x" == w && w[0..] == w && w[..1] == "1" && w[1..] == "x";
    assert "1"[..0] == "";
  }

  lemma SmallPayloads()
    ensures Payload(["d", "i", "p", "x"], "") == "d i p x"
    ensures Payload(["d", "i", "p"], "") == "d i p"
  {
    assert ["d", "i", "p", "x"][1..] == ["i", "p", "x"] && ["i", "p", "x"][1..] == ["p", "x"];
    assert ["p", "x"][1..] == ["x"] && ["x"][1..] == [];
    assert Tail(["x"], "") == " x";
    assert Tail(["p", "x"], "") == " p x";
    assert Tail(["i", "p", "x"], "") == " i p x";
    assert ["d", "i", "p"][1..] == ["i", "p"] && ["i", "p"][1..] == ["p"] && ["p"][1..] == [];
    assert Tail(["p"], "") == " p";
    assert Tail(["i", "p"], "") == " i p";
  }

  lemma SmallWords()
    ensures IsWord("d") && IsWord("i") && IsWord("p") && IsWord("x")
    ensures Scan("x").digits == "" && Unscore("d") == "d"
  {
    hide IsSpace;
    assert "x"[0..] == "x" && DigitsLength("x") == 0;
    assert Unscore("d")[0] == 'd';
    Letters();
  }

  lemma Letters()
    ensures !IsSpace('d') && !IsSpace('i') && !IsSpace('p') && !IsSpace('x')
  {}
}
