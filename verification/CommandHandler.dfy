/**
 * `CommandHandler`: dispatch of a line and its handlers over the users, the
 * history and the overlay file, and what holds over whole runs of commands.
 */
module Commands {
  import opened Text
  import opened Wrappers
  import opened Json
  import opened HistoryTable
  import opened Views
  import opened CommandLine
  import opened Accounts
  import Users
  import Overlay

  /**
   * What the handlers leave to libraries: SHA-256, text to `float`, rounding,
   * the sorter's tie-break, and the JSON text of the reply to a call.
   */
  datatype Lib = Lib(digest: string -> Digest, readFloat: string -> real, round: real -> real, tie: Tie,
                     text: (World, Call, Reply) -> string)

  /**
   * A line and everything else the outcome depends on: failures of the users
   * table and of the history query, the value `eventType` happens to hold,
   * whether the overlay file can be written, and the status file another
   * program keeps.
   */
  datatype Call = Call(line: string, faults: Faults, queryFails: bool, stale: int, writable: bool,
                       status: Overlay.File)

  datatype World = World(users: Users.Table, rows: seq<History>, overlay: Overlay.File)

  datatype Reply = Status(code: int) | Data(rows: seq<Object>) | Settings(settings: Object)

  // ---------- dispatch ----------

  datatype Verb =
    | RegisterVerb | LoginVerb | ResetVerb
    | QueryVerb(kind: Kind) | AddVerb
    | ChangeFrameVerb | GetFrameVerb | GetLogVerb
    | Unknown

  function VerbOf(command: string): Verb {
    if command == "REGISTER" then RegisterVerb
    else if command == "LOGIN" then LoginVerb
    else if command == "RESET_PASSWORD" then ResetVerb
    else if command == "GET_HISTORY" then QueryVerb(AllKind)
    else if command == "ADD_HISTORY" then AddVerb
    else if command == "GET_HISTORY_BY_EVENT_TYPE" then QueryVerb(TypeKind)
    else if command == "GET_HISTORY_BY_DATE_RANGE" then QueryVerb(DatesKind)
    else if command == "GET_HISTORY_BY_EVENT_TYPE_AND_DATE_RANGE" then QueryVerb(TypeAndDatesKind)
    else if command == "CHANGE_FRAME" then ChangeFrameVerb
    else if command == "GET_FRAME" then GetFrameVerb
    else if command == "GET_LOG" then GetLogVerb
    else Unknown
  }

  // ---------- accounts ----------

  /** `iss >> email >> password`; a missing token is empty. */
  function Credentials(payload: string): (string, string) {
    var (s1, email) := Open(payload).Word();
    (email, s1.Word().1)
  }

  /** The command on the users table, if both tokens are there. */
  function AccountCommand(lib: Lib, verb: Verb, payload: string): Option<Command>
    requires verb.RegisterVerb? || verb.LoginVerb? || verb.ResetVerb?
  {
    var (email, password) := Credentials(payload);
    if email == "" || password == "" then None
    else
      var hash := Hex(lib.digest(password));
      Some(match verb
           case RegisterVerb => Register(email, hash)
           case LoginVerb => Login(email, hash)
           case _ => Reset(email, hash))
  }

  function AccountReply(t: Users.Table, c: Option<Command>, faults: Faults): (Users.Table, Reply) {
    match c
    case None => (t, Status(400))
    case Some(c) => var (t', code) := Solo(t, c, faults); (t', Status(code))
  }

  // ---------- history ----------

  /** `std::replace` of every underscore by a space. */
  function Unscore(s: string): (r: string)
    ensures |r| == |s| && forall i | 0 <= i < |s| :: r[i] == if s[i] == '_' then ' ' else s[i]
  {
    seq(|s|, i requires 0 <= i < |s| => if s[i] == '_' then ' ' else s[i])
  }

  /** The row an ADD_HISTORY payload describes; the id is given by the table. */
  function ParseRow(lib: Lib, payload: string, stale: int): Option<History> {
    var (s1, rawDate) := Open(payload).Word();
    var (s2, imagePath) := s1.Word();
    var (s3, plateNumber) := s2.Word();
    var (s4, eventType) := s3.Int(stale);
    var (s5, startSnapshot) := s4.Word();
    var (s6, endSnapshot) := s5.Word();
    var speed := s6.Real(-1.0, lib.readFloat);
    if rawDate == "" || imagePath == "" || plateNumber == "" || eventType < 0 || eventType > 2 then None
    else Some(History(-1, Unscore(rawDate), imagePath, plateNumber, eventType, startSnapshot, endSnapshot,
                      if eventType == 1 && speed >= 0.0 then Some(speed) else None))
  }

  function AddReply(rows: seq<History>, h: Option<History>, fails: bool): (seq<History>, Reply) {
    match h
    case None => (rows, Status(400))
    case Some(h) => if fails then (rows, Status(500)) else (Append(rows, h), Status(200))
  }

  function QueryReply(lib: Lib, users: seq<Users.User>, rows: seq<History>, q: Query, lookupFails: bool,
                      queryFails: bool): Reply {
    if !QueryOk(q) then Status(400)
    else if lookupFails || Users.Find(users, q.email).None? then Status(404)
    else if queryFails then Reply.Data([])
    else Reply.Data(Views.Data(lib.tie, lib.round, rows, q.view, q.limit, q.offset))
  }

  function FileReply(f: Overlay.File): Reply {
    if f.Config? then Settings(f.settings) else Status(500)
  }

  // ---------- one line ----------

  function Handle(lib: Lib, w: World, call: Call): (World, Reply) {
    var (command, payload) := Split(call.line);
    match VerbOf(command)
    case QueryVerb(kind) =>
      (w, QueryReply(lib, w.users.rows, w.rows, ParseQuery(kind, payload), call.faults.lookup, call.queryFails))
    case AddVerb =>
      var (rows, reply) := AddReply(w.rows, ParseRow(lib, payload, call.stale), call.faults.write);
      (w.(rows := rows), reply)
    case ChangeFrameVerb =>
      var (file, code) := Overlay.ChangeFrame(w.overlay, payload, call.writable);
      (w.(overlay := file), Status(code))
    case GetFrameVerb => (w, FileReply(w.overlay))
    case GetLogVerb => (w, FileReply(call.status))
    case Unknown => (w, Status(400))
    case verb =>
      var (users, reply) := AccountReply(w.users, AccountCommand(lib, verb, payload), call.faults);
      (w.(users := users), reply)
  }

  /** The world after a list of lines. */
  function Run(lib: Lib, w: World, calls: seq<Call>): World
    decreases |calls|
  {
    if calls == [] then w else Handle(lib, Run(lib, w, calls[..|calls| - 1]), calls[|calls| - 1]).0
  }

  // ---------- the handler object ----------

  class CommandHandler {
    const userRepo: Users.UserRepository
    const historyRepo: HistoryRepository
    const overlay: Overlay.OverlayFile
    const lib: Lib

    constructor (users: Users.UserRepository, history: HistoryRepository, overlay: Overlay.OverlayFile, lib: Lib)
      ensures userRepo == users && historyRepo == history && this.overlay == overlay && this.lib == lib
    {
      userRepo, historyRepo, this.overlay, this.lib := users, history, overlay, lib;
    }

    function State(): World
      reads userRepo, historyRepo, overlay
    {
      World(userRepo.table, historyRepo.rows, overlay.file)
    }

    method HandleRegister(payload: string, faults: Faults) returns (reply: Reply)
      modifies userRepo
      ensures (userRepo.table, reply)
           == AccountReply(old(userRepo.table), AccountCommand(lib, RegisterVerb, payload), faults)
    {
      hide Stream.Word, Hex, Users.Find, Users.Insert, Users.SetHash;
      var iss := new IStringStream(payload);
      var email := iss.ReadWord();
      var password := iss.ReadWord();
      if email == "" || password == "" {
        return Status(400);
      }
      var user := userRepo.GetUserByEmail(email, faults.lookup);
      if user.Some? {
        return Status(409);
      }
      var passwordHash := HashToHex(lib.digest(password));
      var ok := userRepo.CreateUser(email, passwordHash, faults.write);
      if !ok {
        return Status(500);
      }
      return Status(200);
    }

    method HandleLogin(payload: string, faults: Faults) returns (reply: Reply)
      modifies userRepo
      ensures (userRepo.table, reply)
           == AccountReply(old(userRepo.table), AccountCommand(lib, LoginVerb, payload), faults)
    {
      hide Stream.Word, Hex, Users.Find, Users.Insert, Users.SetHash;
      var iss := new IStringStream(payload);
      var email := iss.ReadWord();
      var password := iss.ReadWord();
      if email == "" || password == "" {
        return Status(400);
      }
      var user := userRepo.GetUserByEmail(email, faults.lookup);
      if user.None? {
        return Status(404);
      }
      var passwordHash := HashToHex(lib.digest(password));
      if user.value.passwordHash != passwordHash {
        return Status(401);
      }
      return Status(200);
    }

    method HandleResetPassword(payload: string, faults: Faults) returns (reply: Reply)
      modifies userRepo
      ensures (userRepo.table, reply)
           == AccountReply(old(userRepo.table), AccountCommand(lib, ResetVerb, payload), faults)
    {
      hide Stream.Word, Hex, Users.Find, Users.Insert, Users.SetHash;
      var iss := new IStringStream(payload);
      var email := iss.ReadWord();
      var newPassword := iss.ReadWord();
      if email == "" || newPassword == "" {
        return Status(400);
      }
      var user := userRepo.GetUserByEmail(email, faults.lookup);
      if user.None? {
        return Status(404);
      }
      var newPasswordHash := HashToHex(lib.digest(newPassword));
      var ok := userRepo.UpdateUserPassword(user.value.id, newPasswordHash, faults.write);
      if !ok {
        return Status(500);
      }
      return Status(200);
    }

    method HandleAddHistory(payload: string, stale: int, fails: bool) returns (reply: Reply)
      modifies historyRepo
      ensures (historyRepo.rows, reply) == AddReply(old(historyRepo.rows), ParseRow(lib, payload, stale), fails)
    {
      hide Stream.Word, Stream.Int, Stream.Real, Append;
      var iss := new IStringStream(payload);
      var rawDate := iss.ReadWord();
      var imagePath := iss.ReadWord();
      var plateNumber := iss.ReadWord();
      var eventType := iss.ReadInt(stale);
      var startSnapshot := iss.ReadWord();
      var endSnapshot := iss.ReadWord();
      var speed := iss.ReadReal(-1.0, lib.readFloat);
      if rawDate == "" || imagePath == "" || plateNumber == "" || eventType < 0 || eventType > 2 {
        return Status(400);
      }
      var stored := if eventType == 1 && speed >= 0.0 then Some(speed) else None;
      var newHistory := History(-1, Unscore(rawDate), imagePath, plateNumber, eventType,
                                startSnapshot, endSnapshot, stored);
      var ok := historyRepo.CreateHistory(newHistory, fails);
      if !ok {
        return Status(500);
      }
      return Status(200);
    }

    /** The loop of the two handlers that give full rows. */
    method FullData(histories: seq<History>) returns (data: seq<Object>)
      ensures data == FullRows(lib.round, histories) && |data| == |histories|
    {
      data := [];
      for i := 0 to |histories|
        invariant |data| == i && forall k | 0 <= k < i :: data[k] == FullRow(lib.round, histories[k])
      {
        var h := histories[i];
        var startSnapshot, endSnapshot, speedJson := "", "", Null;
        if h.eventType == 0 {
          startSnapshot, endSnapshot := h.startSnapshot, h.endSnapshot;
        } else if h.eventType == 1 && h.speed.Some? {
          speedJson := Number(lib.round(h.speed.value));
        }
        data := data + [map["id" := Int(h.id), "date" := Json.Text(h.date), "image_path" := Json.Text(h.imagePath),
                            "plate_number" := Json.Text(h.plateNumber), "event_type" := Int(h.eventType),
                            "start_snapshot" := Json.Text(startSnapshot), "end_snapshot" := Json.Text(endSnapshot),
                            "speed" := speedJson]];
      }
    }

    /** The loop of the two handlers that give rows by type. */
    method TypedData(histories: seq<History>) returns (data: seq<Object>)
      ensures data == TypedRows(lib.round, histories) && |data| <= |histories|
    {
      hide TypedRow;
      data := [];
      for i := 0 to |histories|
        invariant data == TypedRows(lib.round, histories[..i]) && |data| <= i
      {
        assert histories[..i + 1][..i] == histories[..i];
        var row := TypedRow(lib.round, histories[i]);
        if row.Some? {
          data := data + [row.value];
        }
      }
      assert histories[..|histories|] == histories;
    }

    method HandleGetHistory(payload: string, fails: bool, queryFails: bool) returns (reply: Reply)
      requires historyRepo.tie == lib.tie
      ensures reply
           == QueryReply(lib, userRepo.table.rows, historyRepo.rows, ParseQuery(AllKind, payload), fails, queryFails)
    {
      hide Stream.Word, Stream.Int, FullRows, Select;
      var iss := new IStringStream(payload);
      var email := iss.ReadWord();
      var limit := iss.ReadInt(10);
      var offset := iss.ReadInt(0);
      if email == "" || limit <= 0 || offset < 0 {
        return Status(400);
      }
      var user := userRepo.GetUserByEmail(email, fails);
      if user.None? {
        return Status(404);
      }
      var history := historyRepo.GetHistories(limit, offset, queryFails);
      var data := FullData(history);
      return Reply.Data(data);
    }

    method HandleGetHistoryByEventType(payload: string, fails: bool, queryFails: bool) returns (reply: Reply)
      requires historyRepo.tie == lib.tie
      ensures reply
           == QueryReply(lib, userRepo.table.rows, historyRepo.rows, ParseQuery(TypeKind, payload), fails, queryFails)
    {
      hide Stream.Word, Stream.Int, TypedRows, Select;
      var iss := new IStringStream(payload);
      var email := iss.ReadWord();
      var eventType := iss.ReadInt(0);
      var limit := iss.ReadInt(10);
      var offset := iss.ReadInt(0);
      if email == "" || eventType < 0 || limit <= 0 || offset < 0 {
        return Status(400);
      }
      var user := userRepo.GetUserByEmail(email, fails);
      if user.None? {
        return Status(404);
      }
      var history := historyRepo.GetHistoriesByEventType(eventType, limit, offset, queryFails);
      var data := TypedData(history);
      return Reply.Data(data);
    }

    method HandleGetHistoryByDateRange(payload: string, fails: bool, queryFails: bool) returns (reply: Reply)
      requires historyRepo.tie == lib.tie
      ensures reply
           == QueryReply(lib, userRepo.table.rows, historyRepo.rows, ParseQuery(DatesKind, payload), fails, queryFails)
    {
      hide Stream.Word, Stream.Int, FullRows, Select;
      var iss := new IStringStream(payload);
      var email := iss.ReadWord();
      var startDateRaw := iss.ReadWord();
      var endDateRaw := iss.ReadWord();
      var limit := iss.ReadInt(10);
      var offset := iss.ReadInt(0);
      var startDate := startDateRaw + " 00:00:00";
      var endDate := endDateRaw + " 23:59:59";
      if email == "" || startDateRaw == "" || endDateRaw == "" || limit <= 0 || offset < 0 {
        return Status(400);
      }
      var user := userRepo.GetUserByEmail(email, fails);
      if user.None? {
        return Status(404);
      }
      var histories := historyRepo.GetHistoriesByDateRange(startDate, endDate, limit, offset, queryFails);
      var data := FullData(histories);
      return Reply.Data(data);
    }

    method HandleGetHistoryByEventTypeAndDateRange(payload: string, fails: bool, queryFails: bool)
      returns (reply: Reply)
      requires historyRepo.tie == lib.tie
      ensures reply
           == QueryReply(lib, userRepo.table.rows, historyRepo.rows, ParseQuery(TypeAndDatesKind, payload), fails,
                         queryFails)
    {
      hide Stream.Word, Stream.Int, TypedRows, Select;
      var iss := new IStringStream(payload);
      var email := iss.ReadWord();
      var eventType := iss.ReadInt(0);
      var startDateRaw := iss.ReadWord();
      var endDateRaw := iss.ReadWord();
      var limit := iss.ReadInt(10);
      var offset := iss.ReadInt(0);
      var startDate := startDateRaw + " 00:00:00";
      var endDate := endDateRaw + " 23:59:59";
      if email == "" || startDateRaw == "" || endDateRaw == "" || eventType < 0 || limit <= 0 || offset < 0 {
        return Status(400);
      }
      var user := userRepo.GetUserByEmail(email, fails);
      if user.None? {
        return Status(404);
      }
      var histories :=
        historyRepo.GetHistoriesByEventTypeAndDateRange(eventType, startDate, endDate, limit, offset,
                                                        queryFails);
      var data := TypedData(histories);
      return Reply.Data(data);
    }

    /** `handle`: the new state of all three stores and the reply are those of `Handle`. */
    method HandleLine(call: Call) returns (reply: Reply)
      requires historyRepo.tie == lib.tie
      modifies userRepo, historyRepo, overlay
      ensures (State(), reply) == Handle(lib, old(State()), call)
    {
      hide ParseQuery, ParseRow, AccountCommand, AccountReply, QueryReply, AddReply, Split, Overlay.ChangeFrame;
      var (command, payload) := Split(call.line);
      match VerbOf(command)
      case RegisterVerb => reply := HandleRegister(payload, call.faults);
      case LoginVerb => reply := HandleLogin(payload, call.faults);
      case ResetVerb => reply := HandleResetPassword(payload, call.faults);
      case QueryVerb(kind) =>
        match kind {
          case AllKind => reply := HandleGetHistory(payload, call.faults.lookup, call.queryFails);
          case TypeKind => reply := HandleGetHistoryByEventType(payload, call.faults.lookup, call.queryFails);
          case DatesKind => reply := HandleGetHistoryByDateRange(payload, call.faults.lookup, call.queryFails);
          case TypeAndDatesKind =>
            reply := HandleGetHistoryByEventTypeAndDateRange(payload, call.faults.lookup, call.queryFails);
        }
      case AddVerb => reply := HandleAddHistory(payload, call.stale, call.faults.write);
      case ChangeFrameVerb =>
        var code := overlay.HandleChangeFrame(payload, call.writable);
        reply := Status(code);
      case GetFrameVerb => reply := FileReply(overlay.file);
      case GetLogVerb => reply := FileReply(call.status);
      case Unknown => reply := Status(400);
    }
  }
}
