/**
 * Many connections at once over the users and the history table.  Every
 * command is a thread that takes its database steps one at a time: a lookup, an
 * insert, an update or a select.  However the steps interleave, the commands in
 * the order of their deciding steps are a sequential run of the server.
 * CHANGE_FRAME is left out, since reading and writing its file is not one step.
 */
module Interleavings {
  import opened Wrappers
  import opened HistoryTable
  import opened Views
  import opened CommandLine
  import opened Commands
  import opened ServerRuns
  import Accounts
  import Linearizability
  import Users
  import Overlay

  /** Where a command stands. */
  datatype Pc =
    | Ready
    | Writing(account: Accounts.Pc)  // an account command between its lookup and its write
    | Selecting                      // a query whose lookup found the client
    | Done(reply: Reply)

  /** A decided command and its reply. */
  datatype Decided = Decided(who: nat, reply: Reply)

  datatype State = State(world: World, pcs: seq<Pc>, log: seq<Decided>)

  // ---------- the steps ----------

  function AccountPc(pc: Accounts.Pc): Pc {
    match pc
    case Done(code) => Done(Status(code))
    case _ => Writing(pc)
  }

  function AccountStep(lib: Lib, w: World, verb: Verb, payload: string, pc: Accounts.Pc, fails: bool): (World, Pc)
    requires verb.RegisterVerb? || verb.LoginVerb? || verb.ResetVerb?
  {
    match AccountCommand(lib, verb, payload)
    case None => (w, Done(Status(400)))
    case Some(c) =>
      var (users, next) := Accounts.DbStep(w.users, c, pc, fails);
      (w.(users := users), AccountPc(next))
  }

  /** One step of a command: one statement on the database, or an answer that needs none. */
  function StepOf(lib: Lib, w: World, call: Call, pc: Pc): (World, Pc) {
    var (command, payload) := Split(call.line);
    match pc
    case Done(_) => (w, pc)
    case Ready =>
      (match VerbOf(command)
       case RegisterVerb => AccountStep(lib, w, RegisterVerb, payload, Accounts.Ready, call.faults.lookup)
       case LoginVerb => AccountStep(lib, w, LoginVerb, payload, Accounts.Ready, call.faults.lookup)
       case ResetVerb => AccountStep(lib, w, ResetVerb, payload, Accounts.Ready, call.faults.lookup)
       case QueryVerb(kind) =>
         var q := ParseQuery(kind, payload);
         if !QueryOk(q) then (w, Done(Status(400)))
         else if call.faults.lookup || Users.Find(w.users.rows, q.email).None? then (w, Done(Status(404)))
         else (w, Selecting)
       case _ =>
         var (after, reply) := Handle(lib, w, call);
         (after, Done(reply)))
    case Writing(account) =>
      (match VerbOf(command)
       case RegisterVerb => AccountStep(lib, w, RegisterVerb, payload, account, call.faults.write)
       case LoginVerb => AccountStep(lib, w, LoginVerb, payload, account, call.faults.write)
       case ResetVerb => AccountStep(lib, w, ResetVerb, payload, account, call.faults.write)
       case _ => (w, pc))
    case Selecting =>
      (match VerbOf(command)
       case QueryVerb(kind) =>
         var q := ParseQuery(kind, payload);
         (w, if !QueryOk(q) then pc
             else Done(Reply.Data(if call.queryFails then []
                                  else Views.Data(lib.tie, lib.round, w.rows, q.view, q.limit, q.offset))))
       case _ => (w, pc))
  }

  function Start(calls: seq<Call>, w: World): State {
    State(w, seq(|calls|, i => Ready), [])
  }

  /** Command `who` takes its next step, if there is such a command and it has one. */
  function Next(lib: Lib, calls: seq<Call>, s: State, who: nat): (r: State)
    requires |s.pcs| == |calls|
    ensures |r.pcs| == |calls|
  {
    if who >= |calls| || s.pcs[who].Done? then s
    else
      var (world, pc) := StepOf(lib, s.world, calls[who], s.pcs[who]);
      State(world, s.pcs[who := pc], if pc.Done? then s.log + [Decided(who, pc.reply)] else s.log)
  }

  /** The state after the steps of an interleaving. */
  function Interleave(lib: Lib, calls: seq<Call>, s: State, steps: seq<nat>): (r: State)
    requires |s.pcs| == |calls|
    ensures |r.pcs| == |calls|
    decreases |steps|
  {
    if steps == [] then s
    else Next(lib, calls, Interleave(lib, calls, s, steps[..|steps| - 1]), steps[|steps| - 1])
  }

  // ---------- one deciding step is one whole command ----------

  /** The replies agree, except that a REGISTER of an email just taken may say 500 instead of 409. */
  predicate Agree(call: Call, reply: Reply, sequential: Reply) {
    || reply == sequential
    || (VerbOf(Split(call.line).0).RegisterVerb? && reply == Status(500) && sequential == Status(409))
  }

  /** What a command between two steps relies on. */
  ghost predicate Pending(lib: Lib, w: World, call: Call, pc: Pc) {
    var (command, payload) := Split(call.line);
    match pc
    case Writing(account) =>
      (match VerbOf(command)
       case RegisterVerb => account.Inserting? && AccountCommand(lib, RegisterVerb, payload).Some?
       case ResetVerb =>
         var c := AccountCommand(lib, ResetVerb, payload);
         account.Updating? && c.Some? && !call.faults.lookup && Users.Names(w.users.rows, account.id, c.value.email)
       case _ => false)
    case Selecting =>
      (match VerbOf(command)
       case QueryVerb(kind) =>
         var q := ParseQuery(kind, payload);
         QueryOk(q) && !call.faults.lookup && Users.Find(w.users.rows, q.email).Some?
       case _ => false)
    case _ => true
  }

  /** A step that decides a command does what the whole command does; any other changes nothing. */
  ghost predicate Decides(lib: Lib, w: World, call: Call, pc: Pc) {
    var (after, next) := StepOf(lib, w, call, pc);
    if next.Done? then after == Handle(lib, w, call).0 && Agree(call, next.reply, Handle(lib, w, call).1)
    else after == w && Pending(lib, w, call, next)
  }

  lemma AccountDecides(t: Users.Table, c: Accounts.Command, pc: Accounts.Pc, faults: Accounts.Faults)
    requires Users.Valid(t)
    requires pc.Ready? || (pc.Inserting? && c.Register?)
             || (pc.Updating? && c.Reset? && !faults.lookup && Users.Names(t.rows, pc.id, c.email))
    ensures var (after, next) := Accounts.DbStep(t, c, pc, if pc.Ready? then faults.lookup else faults.write);
            var (whole, code) := Accounts.Solo(t, c, faults);
            if next.Done? then
              after == whole && (next.reply == code || (c.Register? && next.reply == 500 && code == 409))
            else
              && after == t && (next.Inserting? ==> c.Register?) && !next.Ready?
              && (next.Updating? ==> c.Reset? && !faults.lookup && Users.Names(t.rows, next.id, c.email))
  {
    hide Users.Find, Users.Names, Users.Valid, Users.SetHash;
    Accounts.InsertOnce(t, c);
    if pc.Updating? { Users.NamesFind(t, pc.id, c.email); }
    if Users.Find(t.rows, c.email).Some? { Accounts.FoundIsNamed(t.rows, c.email); }
  }

  /** The account command of a line, whichever of the three it is. */
  lemma AccountCommandKind(lib: Lib, verb: Verb, payload: string)
    requires verb.RegisterVerb? || verb.LoginVerb? || verb.ResetVerb?
    ensures var c := AccountCommand(lib, verb, payload);
            c.Some? ==> (c.value.Register? <==> verb.RegisterVerb?) && (c.value.Reset? <==> verb.ResetVerb?)
  {
    hide Credentials, Accounts.Hex;
  }

  lemma HandleAccount(lib: Lib, w: World, call: Call)
    requires var verb := VerbOf(Split(call.line).0); verb.RegisterVerb? || verb.LoginVerb? || verb.ResetVerb?
    ensures var (command, payload) := Split(call.line);
            var (users, reply) := AccountReply(w.users, AccountCommand(lib, VerbOf(command), payload), call.faults);
            Handle(lib, w, call) == (w.(users := users), reply)
  {
    hide Split, VerbOf, AccountCommand, AccountReply;
  }

  lemma AccountLineDecides(lib: Lib, w: World, call: Call, pc: Pc)
    requires Users.Valid(w.users) && Pending(lib, w, call, pc) && !pc.Done?
    requires var verb := VerbOf(Split(call.line).0); verb.RegisterVerb? || verb.LoginVerb? || verb.ResetVerb?
    ensures Decides(lib, w, call, pc)
  {
    hide Split, VerbOf, AccountCommand, Accounts.DbStep, Accounts.Solo, Users.Names, Users.Valid, Users.Find;
    hide Handle;
    var (command, payload) := Split(call.line);
    var verb := VerbOf(command);
    var c := AccountCommand(lib, verb, payload);
    HandleAccount(lib, w, call);
    AccountCommandKind(lib, verb, payload);
    if c.Some? {
      var account := if pc.Ready? then Accounts.Ready else pc.account;
      AccountDecides(w.users, c.value, account, call.faults);
      var (users, next) := Accounts.DbStep(w.users, c.value, account,
                                           if pc.Ready? then call.faults.lookup else call.faults.write);
      assert StepOf(lib, w, call, pc) == (w.(users := users), AccountPc(next));
      assert w.(users := w.users) == w;
      if next.Done? {
        assert AccountPc(next) == Done(Status(next.reply));
        assert Agree(call, Status(next.reply), Handle(lib, w, call).1);
      } else {
        assert Pending(lib, w, call, AccountPc(next));
      }
    }
  }

  lemma StepDecides(lib: Lib, w: World, call: Call, pc: Pc)
    requires Users.Valid(w.users) && Pending(lib, w, call, pc) && !pc.Done?
    ensures Decides(lib, w, call, pc)
  {
    var (command, payload) := Split(call.line);
    match VerbOf(command)
    case RegisterVerb => AccountLineDecides(lib, w, call, pc);
    case LoginVerb => AccountLineDecides(lib, w, call, pc);
    case ResetVerb => AccountLineDecides(lib, w, call, pc);
    case QueryVerb(kind) => QueryDecides(lib, w, call, pc, kind);
    case _ => OtherDecides(lib, w, call, pc);
  }

  lemma QueryDecides(lib: Lib, w: World, call: Call, pc: Pc, kind: Kind)
    requires Pending(lib, w, call, pc) && !pc.Done? && VerbOf(Split(call.line).0) == QueryVerb(kind)
    ensures Decides(lib, w, call, pc)
  {
    hide Split, VerbOf, ParseQuery, QueryOk, Users.Find, Views.Data;
  }

  lemma OtherDecides(lib: Lib, w: World, call: Call, pc: Pc)
    requires Pending(lib, w, call, pc) && !pc.Done?
    requires var verb := VerbOf(Split(call.line).0);
             !verb.RegisterVerb? && !verb.LoginVerb? && !verb.ResetVerb? && !verb.QueryVerb?
    ensures Decides(lib, w, call, pc)
  {
    hide Split, VerbOf, Handle;
  }

  // ---------- which commands take two steps ----------

  /**
   * The first step of an account command is only its lookup: REGISTER goes on
   * if it finds nothing, RESET_PASSWORD if it finds the email, LOGIN never.
   */
  lemma AccountWaits(lib: Lib, w: World, call: Call)
    requires Users.Valid(w.users)
    requires var verb := VerbOf(Split(call.line).0); verb.RegisterVerb? || verb.LoginVerb? || verb.ResetVerb?
    requires AccountCommand(lib, VerbOf(Split(call.line).0), Split(call.line).1).Some?
    ensures var verb := VerbOf(Split(call.line).0);
            var email := AccountCommand(lib, verb, Split(call.line).1).value.email;
            var (after, pc) := StepOf(lib, w, call, Ready);
            var found := !call.faults.lookup && email in Users.Accounts(w.users.rows);
            && after == w
            && (pc.Done? <==> verb.LoginVerb? || (verb.RegisterVerb? <==> found))
            && (pc.Done? || pc.Writing?)
  {
    hide Split, VerbOf, Users.Find, Users.Valid, Users.Accounts, AccountCommand;
    var verb := VerbOf(Split(call.line).0);
    AccountCommandKind(lib, verb, Split(call.line).1);
    Users.AccountsFind(w.users.rows, AccountCommand(lib, verb, Split(call.line).1).value.email);
  }

  /** The first step of a well-formed query is only its lookup; its rows are those of the table at its second step. */
  lemma QueryWaits(lib: Lib, w: World, call: Call, kind: Kind, later: World)
    requires VerbOf(Split(call.line).0) == QueryVerb(kind) && QueryOk(ParseQuery(kind, Split(call.line).1))
    requires !call.faults.lookup && !call.queryFails
    ensures var q := ParseQuery(kind, Split(call.line).1);
            && (Users.Find(w.users.rows, q.email).Some? ==> StepOf(lib, w, call, Ready) == (w, Selecting))
            && StepOf(lib, later, call, Selecting)
               == (later, Done(Reply.Data(Views.Data(lib.tie, lib.round, later.rows, q.view, q.limit, q.offset))))
  {
    hide Split, VerbOf, ParseQuery, QueryOk, Users.Find, Views.Data;
  }

  // ---------- other commands do not disturb a pending one ----------

  lemma SoloNames(t: Users.Table, c: Accounts.Command, faults: Accounts.Faults, id: int, email: string)
    requires Users.Names(t.rows, id, email)
    ensures Users.Names(Accounts.Solo(t, c, faults).0.rows, id, email)
  {
    hide Accounts.DbStep, Users.Names;
    var (t1, pc1) := Accounts.DbStep(t, c, Accounts.Ready, faults.lookup);
    Linearizability.StepKeepsNames(t, c, Accounts.Ready, faults.lookup, id, email);
    Linearizability.StepKeepsNames(t1, c, pc1, faults.write, id, email);
  }

  lemma HandleNames(lib: Lib, w: World, call: Call, id: int, email: string)
    requires Users.Names(w.users.rows, id, email)
    ensures Users.Names(Handle(lib, w, call).0.users.rows, id, email)
  {
    hide Split, VerbOf, ParseQuery, QueryReply, ParseRow, AddReply, Overlay.ChangeFrame, Accounts.Hex, Credentials;
    hide Users.Names, AccountCommand, Accounts.Solo;
    var (command, payload) := Split(call.line);
    var verb := VerbOf(command);
    if verb.RegisterVerb? || verb.LoginVerb? || verb.ResetVerb? {
      var c := AccountCommand(lib, verb, payload);
      if c.Some? { SoloNames(w.users, c.value, call.faults, id, email); }
    }
  }

  lemma PendingStays(lib: Lib, w: World, call: Call, pc: Pc, other: Call)
    requires Pending(lib, w, call, pc)
    ensures Pending(lib, Handle(lib, w, other).0, call, pc)
  {
    hide Split, VerbOf, ParseQuery, QueryOk, Users.Find, Users.Names, AccountCommand, Handle;
    var (command, payload) := Split(call.line);
    match pc
    case Writing(account) =>
      if VerbOf(command).ResetVerb? {
        HandleNames(lib, w, other, account.id, AccountCommand(lib, ResetVerb, payload).value.email);
      }
    case Selecting =>
      if VerbOf(command).QueryVerb? {
        HandleUsers(lib, w, other, ParseQuery(VerbOf(command).kind, payload).email);
      }
    case _ =>
  }

  // ---------- any interleaving is a sequential run ----------

  /** The decided commands, in order. */
  function Order(calls: seq<Call>, log: seq<Decided>): seq<Call>
    requires forall k | 0 <= k < |log| :: log[k].who < |calls|
  {
    seq(|log|, k requires 0 <= k < |log| => calls[log[k].who])
  }

  /** Each finished command is in the log exactly once, with its reply, and nothing else is. */
  ghost predicate LogsDecided(calls: seq<Call>, s: State)
    requires |s.pcs| == |calls|
  {
    && (forall k | 0 <= k < |s.log| :: s.log[k].who < |calls| && s.pcs[s.log[k].who] == Done(s.log[k].reply))
    && (forall k, l | 0 <= k < l < |s.log| :: s.log[k].who != s.log[l].who)
    && (forall i | 0 <= i < |calls| && s.pcs[i].Done? :: exists k | 0 <= k < |s.log| :: s.log[k].who == i)
  }

  /** The commands of the log, run one after another, give these replies. */
  ghost predicate RepliesAgree(lib: Lib, calls: seq<Call>, w: World, log: seq<Decided>) {
    && (forall k | 0 <= k < |log| :: log[k].who < |calls|)
    && forall k | 0 <= k < |log| ::
         Agree(calls[log[k].who], log[k].reply,
               Handle(lib, Run(lib, w, Order(calls, log[..k])), calls[log[k].who]).1)
  }

  ghost predicate AllPending(lib: Lib, calls: seq<Call>, s: State)
    requires |s.pcs| == |calls|
  {
    forall i | 0 <= i < |calls| :: Pending(lib, s.world, calls[i], s.pcs[i])
  }

  ghost predicate Sequential(lib: Lib, calls: seq<Call>, w: World, s: State)
    requires |s.pcs| == |calls|
  {
    && Users.Valid(s.world.users) && AllPending(lib, calls, s) && LogsDecided(calls, s)
    && RepliesAgree(lib, calls, w, s.log) && s.world == Run(lib, w, Order(calls, s.log))
  }

  lemma RunSnoc(lib: Lib, calls: seq<Call>, w: World, log: seq<Decided>, d: Decided)
    requires d.who < |calls| && forall k | 0 <= k < |log| :: log[k].who < |calls|
    ensures Run(lib, w, Order(calls, log + [d])) == Handle(lib, Run(lib, w, Order(calls, log)), calls[d.who]).0
  {
    hide Handle;
    var order := Order(calls, log + [d]);
    assert order[..|log|] == Order(calls, log) && order[|log|] == calls[d.who];
  }

  lemma AgreeSnoc(lib: Lib, calls: seq<Call>, w: World, log: seq<Decided>, d: Decided)
    requires RepliesAgree(lib, calls, w, log) && d.who < |calls|
    requires Agree(calls[d.who], d.reply, Handle(lib, Run(lib, w, Order(calls, log)), calls[d.who]).1)
    ensures RepliesAgree(lib, calls, w, log + [d])
  {
    hide Agree, Handle, Run, Order;
    var more := log + [d];
    assert more[..|log|] == log;
    forall k | 0 <= k < |more|
      ensures Agree(calls[more[k].who], more[k].reply,
                    Handle(lib, Run(lib, w, Order(calls, more[..k])), calls[more[k].who]).1)
    {
      if k < |log| { assert more[..k] == log[..k]; }
    }
  }

  lemma NextLogs(lib: Lib, calls: seq<Call>, s: State, who: nat)
    requires |s.pcs| == |calls| && LogsDecided(calls, s)
    ensures LogsDecided(calls, Next(lib, calls, s, who))
  {
    hide StepOf;
    var r := Next(lib, calls, s, who);
    forall i | 0 <= i < |calls| && r.pcs[i].Done? ensures exists k | 0 <= k < |r.log| :: r.log[k].who == i {
      if s.pcs[i].Done? {
        var k :| 0 <= k < |s.log| && s.log[k].who == i;
        assert r.log[k].who == i;
      } else {
        assert r.log[|s.log|].who == i;
      }
    }
  }

  lemma NextPending(lib: Lib, calls: seq<Call>, s: State, who: nat)
    requires |s.pcs| == |calls| && who < |calls| && !s.pcs[who].Done?
    requires AllPending(lib, calls, s) && Decides(lib, s.world, calls[who], s.pcs[who])
    ensures AllPending(lib, calls, Next(lib, calls, s, who))
  {
    hide StepOf, Pending, Handle, Agree;
    var r := Next(lib, calls, s, who);
    forall i | 0 <= i < |calls| ensures Pending(lib, r.world, calls[i], r.pcs[i]) {
      if r.pcs[who].Done? { PendingStays(lib, s.world, calls[i], s.pcs[i], calls[who]); }
      if i == who && r.pcs[who].Done? { DonePends(lib, r.world, calls[who], r.pcs[who]); }
    }
  }

  lemma DonePends(lib: Lib, w: World, call: Call, pc: Pc)
    requires pc.Done?
    ensures Pending(lib, w, call, pc)
  {}

  lemma HandleValid(lib: Lib, w: World, call: Call)
    requires Users.Valid(w.users)
    ensures Users.Valid(Handle(lib, w, call).0.users)
  {
    HandleAccounts(lib, w, call, "");
  }

  lemma NextSequential(lib: Lib, calls: seq<Call>, w: World, s: State, who: nat)
    requires |s.pcs| == |calls| && Sequential(lib, calls, w, s)
    ensures Sequential(lib, calls, w, Next(lib, calls, s, who))
  {
    hide StepOf, Pending, Handle, Agree, Run, Users.Valid, LogsDecided, RepliesAgree, AllPending, Order;
    NextLogs(lib, calls, s, who);
    if who < |calls| && !s.pcs[who].Done? {
      OnePending(lib, calls, s, who);
      StepDecides(lib, s.world, calls[who], s.pcs[who]);
      NextPending(lib, calls, s, who);
      HandleValid(lib, s.world, calls[who]);
      LogWho(lib, calls, w, s.log);
      var pc := StepOf(lib, s.world, calls[who], s.pcs[who]).1;
      if pc.Done? {
        AgreeSnoc(lib, calls, w, s.log, Decided(who, pc.reply));
        RunSnoc(lib, calls, w, s.log, Decided(who, pc.reply));
      }
    }
  }

  lemma OnePending(lib: Lib, calls: seq<Call>, s: State, i: nat)
    requires |s.pcs| == |calls| && AllPending(lib, calls, s) && i < |calls|
    ensures Pending(lib, s.world, calls[i], s.pcs[i])
  {}

  lemma LogWho(lib: Lib, calls: seq<Call>, w: World, log: seq<Decided>)
    requires RepliesAgree(lib, calls, w, log)
    ensures forall k | 0 <= k < |log| :: log[k].who < |calls|
  {}

  lemma StartSequential(lib: Lib, calls: seq<Call>, w: World)
    requires Users.Valid(w.users)
    ensures Sequential(lib, calls, w, Start(calls, w))
  {
    hide Handle, Split, VerbOf, Users.Valid;
  }

  ghost predicate NoFrameChange(calls: seq<Call>) {
    forall i | 0 <= i < |calls| :: !VerbOf(Split(calls[i].line).0).ChangeFrameVerb?
  }

  /**
   * Any number of commands of any kind but CHANGE_FRAME, failing or not, their
   * database steps interleaving freely: in the order in which they were decided
   * they are a sequential run of the server that leaves the same world and
   * gives the same replies, up to a REGISTER's 500 for 409.
   */
  lemma {:induction false} AnyInterleaving(lib: Lib, calls: seq<Call>, w: World, steps: seq<nat>)
    requires Users.Valid(w.users) && NoFrameChange(calls)
    ensures Sequential(lib, calls, w, Interleave(lib, calls, Start(calls, w), steps))
    decreases |steps|
  {
    hide Sequential, Next;
    if steps == [] {
      StartSequential(lib, calls, w);
    } else {
      var shorter := steps[..|steps| - 1];
      AnyInterleaving(lib, calls, w, shorter);
      NextSequential(lib, calls, w, Interleave(lib, calls, Start(calls, w), shorter), steps[|steps| - 1]);
    }
  }

  /** What was decided stays decided in the same order, so the sequential run respects real time. */
  lemma {:induction false} DecidedStays(lib: Lib, calls: seq<Call>, s: State, before: seq<nat>, after: seq<nat>)
    requires |s.pcs| == |calls|
    ensures Interleave(lib, calls, s, before).log <= Interleave(lib, calls, s, before + after).log
    decreases |after|
  {
    hide StepOf;
    if after == [] {
      assert before + after == before;
    } else {
      var shorter := after[..|after| - 1];
      DecidedStays(lib, calls, s, before, shorter);
      assert (before + after)[..|before + after| - 1] == before + shorter;
    }
  }

  // ---------- consequences ----------

  /** So what holds of runs holds of interleavings: the history only grows and keeps its invariant. */
  lemma InterleavedHistory(lib: Lib, calls: seq<Call>, w: World, steps: seq<nat>)
    requires Users.Valid(w.users) && NoFrameChange(calls) && TableOk(w.rows)
    ensures var s := Interleave(lib, calls, Start(calls, w), steps);
            w.rows <= s.world.rows && TableOk(s.world.rows)
  {
    hide Interleave, TableOk, Run, NoFrameChange, Users.Valid;
    AnyInterleaving(lib, calls, w, steps);
    var s := Interleave(lib, calls, Start(calls, w), steps);
    RunHistory(lib, w, Order(calls, s.log));
  }

  /** And each email has the hash of the last password a decided command set. */
  lemma InterleavedAccounts(lib: Lib, calls: seq<Call>, w: World, steps: seq<nat>, email: string)
    requires Users.Valid(w.users) && NoFrameChange(calls)
    ensures var s := Interleave(lib, calls, Start(calls, w), steps);
            && (forall k | 0 <= k < |s.log| :: s.log[k].who < |calls|)
            && var last := LastPassword(lib, w, Order(calls, s.log), email);
               Get(Users.Accounts(s.world.users.rows), email)
               == if last.Some? then HashOf(lib, last) else Get(Users.Accounts(w.users.rows), email)
  {
    hide Interleave, Run, NoFrameChange, Users.Valid, Users.Accounts, LastPassword, HashOf;
    AnyInterleaving(lib, calls, w, steps);
    var s := Interleave(lib, calls, Start(calls, w), steps);
    RunAccounts(lib, w, Order(calls, s.log), email);
  }
}
