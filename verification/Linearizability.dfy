/**
 * Any number of account commands run at once, their database steps
 * interleaving freely.  Listed in the order of their deciding steps, they form
 * a sequential run over the map from email to password hash.
 */
module Linearizability {
  import opened Users
  import opened Accounts

  /** A command that has been decided: which one, whether its deciding step failed, and its reply. */
  datatype Entry = Entry(who: nat, fails: bool, reply: int)

  datatype State = State(table: Table, pcs: seq<Pc>, log: seq<Entry>)

  /** The next step belongs to command `who`; `fails` if the database fails it. */
  datatype Step = Step(who: nat, fails: bool)

  function Start(cs: seq<Command>, t: Table): State {
    State(t, seq(|cs|, i => Ready), [])
  }

  /** One database step of one command; a step of a finished command does nothing. */
  function Next(cs: seq<Command>, s: State, step: Step): (r: State)
    requires |s.pcs| == |cs|
    ensures |r.pcs| == |cs|
  {
    if step.who >= |cs| || s.pcs[step.who].Done? then s
    else
      var (t, pc) := DbStep(s.table, cs[step.who], s.pcs[step.who], step.fails);
      State(t, s.pcs[step.who := pc], if pc.Done? then s.log + [Entry(step.who, step.fails, pc.reply)] else s.log)
  }

  function Run(cs: seq<Command>, s: State, steps: seq<Step>): (r: State)
    requires |s.pcs| == |cs|
    ensures |r.pcs| == |cs|
    decreases |steps|
  {
    if steps == [] then s else Next(cs, Run(cs, s, steps[..|steps| - 1]), steps[|steps| - 1])
  }

  // ---------- sequential runs of the map ----------

  /** The map after the logged commands, in order. */
  function Replay(m: AccountMap, cs: seq<Command>, log: seq<Entry>): AccountMap
    requires forall k | 0 <= k < |log| :: log[k].who < |cs|
  {
    if log == [] then m
    else
      var e := log[|log| - 1];
      Effect(Replay(m, cs, log[..|log| - 1]), cs[e.who], e.reply)
  }

  /** The log is a sequential run: every reply is one the map allows at that point. */
  ghost predicate Sequential(m: AccountMap, cs: seq<Command>, log: seq<Entry>) {
    && (forall k | 0 <= k < |log| :: log[k].who < |cs|)
    && (forall k | 0 <= k < |log| :: Legal(Replay(m, cs, log[..k]), cs[log[k].who], log[k].fails, log[k].reply))
  }

  lemma SequentialSnoc(m: AccountMap, cs: seq<Command>, log: seq<Entry>, e: Entry)
    requires Sequential(m, cs, log) && e.who < |cs|
    requires Legal(Replay(m, cs, log), cs[e.who], e.fails, e.reply)
    ensures Sequential(m, cs, log + [e])
    ensures Replay(m, cs, log + [e]) == Effect(Replay(m, cs, log), cs[e.who], e.reply)
  {
    hide Legal, Replay;
    ReplaySnoc(m, cs, log, e);
    var more := log + [e];
    assert more[..|log|] == log;
    forall k | 0 <= k < |more|
      ensures Legal(Replay(m, cs, more[..k]), cs[more[k].who], more[k].fails, more[k].reply)
    {
      if k < |log| { assert more[..k] == log[..k]; }
    }
  }

  lemma ReplaySnoc(m: AccountMap, cs: seq<Command>, log: seq<Entry>, e: Entry)
    requires e.who < |cs| && forall k | 0 <= k < |log| :: log[k].who < |cs|
    ensures Replay(m, cs, log + [e]) == Effect(Replay(m, cs, log), cs[e.who], e.reply)
  {
    hide Effect;
    assert (log + [e])[..|log|] == log;
  }

  /** Exactly the finished commands are in the log, each once, with its reply. */
  ghost predicate LogsFinished(cs: seq<Command>, s: State)
    requires |s.pcs| == |cs|
  {
    && (forall k | 0 <= k < |s.log| :: s.log[k].who < |cs| && s.pcs[s.log[k].who] == Done(s.log[k].reply))
    && (forall k, l | 0 <= k < l < |s.log| :: s.log[k].who != s.log[l].who)
    && (forall i | 0 <= i < |cs| && s.pcs[i].Done? :: exists k | 0 <= k < |s.log| :: s.log[k].who == i)
  }

  /** A pending RESET_PASSWORD holds an id that still names its email. */
  ghost predicate PendingNamed(cs: seq<Command>, s: State)
    requires |s.pcs| == |cs|
  {
    forall i | 0 <= i < |cs| ::
      && (s.pcs[i].Inserting? ==> cs[i].Register?)
      && (s.pcs[i].Updating? ==> cs[i].Reset? && Names(s.table.rows, s.pcs[i].id, cs[i].email))
  }

  ghost predicate Linearized(cs: seq<Command>, m: AccountMap, s: State)
    requires |s.pcs| == |cs|
  {
    && Valid(s.table) && PendingNamed(cs, s) && LogsFinished(cs, s)
    && Sequential(m, cs, s.log) && Users.Accounts(s.table.rows) == Replay(m, cs, s.log)
  }

  lemma StepKeepsNames(t: Table, c: Command, pc: Pc, fails: bool, id: int, email: string)
    requires Names(t.rows, id, email)
    ensures Names(DbStep(t, c, pc, fails).0.rows, id, email)
  {
    NamesStays(t, id, email, if pc.Updating? then pc.id else 0, c.email, c.hash);
  }

  lemma NextKeepsNamed(cs: seq<Command>, s: State, step: Step)
    requires |s.pcs| == |cs| && Valid(s.table) && PendingNamed(cs, s)
    ensures PendingNamed(cs, Next(cs, s, step))
  {
    var r := Next(cs, s, step);
    if step.who < |cs| && !s.pcs[step.who].Done? {
      StepRefines(s.table, cs[step.who], s.pcs[step.who], step.fails);
      forall i | 0 <= i < |cs| && s.pcs[i].Updating? && i != step.who
        ensures Names(r.table.rows, s.pcs[i].id, cs[i].email)
      {
        StepKeepsNames(s.table, cs[step.who], s.pcs[step.who], step.fails, s.pcs[i].id, cs[i].email);
      }
      hide DbStep, Names, Valid, Users.Accounts, Legal, Effect;
    }
  }

  lemma NextKeepsLog(cs: seq<Command>, s: State, step: Step)
    requires |s.pcs| == |cs| && LogsFinished(cs, s)
    ensures LogsFinished(cs, Next(cs, s, step))
  {
    hide DbStep;
    var r := Next(cs, s, step);
    forall i | 0 <= i < |cs| && r.pcs[i].Done? ensures exists k | 0 <= k < |r.log| :: r.log[k].who == i {
      if s.pcs[i].Done? {
        var k :| 0 <= k < |s.log| && s.log[k].who == i;
        assert r.log[k].who == i;
      } else {
        assert r.log[|s.log|].who == i;
      }
    }
  }

  lemma NextLinearized(cs: seq<Command>, m: AccountMap, s: State, step: Step)
    requires |s.pcs| == |cs| && Linearized(cs, m, s)
    ensures Linearized(cs, m, Next(cs, s, step))
  {
    NextKeepsNamed(cs, s, step);
    NextKeepsLog(cs, s, step);
    if step.who < |cs| && !s.pcs[step.who].Done? {
      var c := cs[step.who];
      StepRefines(s.table, c, s.pcs[step.who], step.fails);
      var (t, pc) := DbStep(s.table, c, s.pcs[step.who], step.fails);
      hide DbStep, Valid, Legal, Effect, Users.Accounts, Replay, Sequential, LogsFinished, PendingNamed;
      if pc.Done? {
        SequentialWho(m, cs, s.log);
        SequentialSnoc(m, cs, s.log, Entry(step.who, step.fails, pc.reply));
      }
    }
  }

  lemma SequentialWho(m: AccountMap, cs: seq<Command>, log: seq<Entry>)
    requires Sequential(m, cs, log)
    ensures forall k | 0 <= k < |log| :: log[k].who < |cs|
  {}

  lemma StartLinearized(cs: seq<Command>, t: Table)
    requires Valid(t)
    ensures Linearized(cs, Users.Accounts(t.rows), Start(cs, t))
  {}

  /**
   * Linearizability: after any steps in any order, the log is a sequential run
   * of the account map with the replies the commands gave, and the table holds
   * exactly the map that run ends with.
   */
  lemma {:induction false} RunLinearized(cs: seq<Command>, t: Table, steps: seq<Step>)
    requires Valid(t)
    ensures Linearized(cs, Users.Accounts(t.rows), Run(cs, Start(cs, t), steps))
    decreases |steps|
  {
    if steps == [] {
      StartLinearized(cs, t);
    } else {
      var shorter := steps[..|steps| - 1];
      RunLinearized(cs, t, shorter);
      NextLinearized(cs, Users.Accounts(t.rows), Run(cs, Start(cs, t), shorter), steps[|steps| - 1]);
    }
  }

  /**
   * Real time: what was decided stays decided, in the same order, so a command
   * that finished before another was decided comes before it in the log.
   */
  lemma {:induction false} LogGrows(cs: seq<Command>, s: State, before: seq<Step>, after: seq<Step>)
    requires |s.pcs| == |cs|
    ensures Run(cs, s, before).log <= Run(cs, s, before + after).log
    decreases |after|
  {
    hide Next, DbStep;
    if after == [] {
      assert before + after == before;
    } else {
      var shorter := after[..|after| - 1];
      LogGrows(cs, s, before, shorter);
      assert (before + after)[..|before + after| - 1] == before + shorter;
      NextLogGrows(cs, Run(cs, s, before + shorter), after[|after| - 1]);
    }
  }

  lemma NextLogGrows(cs: seq<Command>, s: State, step: Step)
    requires |s.pcs| == |cs|
    ensures s.log <= Next(cs, s, step).log
  {}

  // ---------- consequences ----------

  lemma {:induction false} RegisteredStays(m: AccountMap, cs: seq<Command>, log: seq<Entry>, j: nat, email: string)
    requires j <= |log| && forall k | 0 <= k < |log| :: log[k].who < |cs|
    requires email in Replay(m, cs, log[..j])
    ensures email in Replay(m, cs, log)
    decreases |log| - j
  {
    if j < |log| {
      assert log[..j + 1][..j] == log[..j];
      RegisteredStays(m, cs, log, j + 1, email);
    } else {
      assert log[..j] == log;
    }
  }

  ghost predicate Registers(cs: seq<Command>, e: Entry, email: string) {
    e.who < |cs| && cs[e.who].Register? && cs[e.who].email == email && e.reply == 200
  }

  /** Each email has at most one successful REGISTER, and none if it was registered initially. */
  lemma OneRegistration(m: AccountMap, cs: seq<Command>, log: seq<Entry>, k: nat, email: string)
    requires Sequential(m, cs, log) && k < |log| && Registers(cs, log[k], email)
    ensures email !in m
    ensures forall j | 0 <= j < k :: !Registers(cs, log[j], email)
  {
    var earlier := log[..k];
    FreeBefore(m, cs, log, k, email);
    assert earlier[..0] == [] && Replay(m, cs, []) == m;
    SequentialWho(m, cs, log);
    hide Sequential, Legal, Effect, Registers, Replay;
    if email in m {
      RegisteredStays(m, cs, earlier, 0, email);
    }
    forall j | 0 <= j < k ensures !Registers(cs, log[j], email) {
      if Registers(cs, log[j], email) { RegisteredLater(m, cs, earlier, j, email); }
    }
  }

  lemma FreeBefore(m: AccountMap, cs: seq<Command>, log: seq<Entry>, k: nat, email: string)
    requires Sequential(m, cs, log) && k < |log| && Registers(cs, log[k], email)
    ensures email !in Replay(m, cs, log[..k])
  {
    hide Replay, Effect;
  }

  lemma SequentialPrefix(m: AccountMap, cs: seq<Command>, log: seq<Entry>)
    requires Sequential(m, cs, log) && log != []
    ensures var n := |log| - 1;
            Sequential(m, cs, log[..n]) && Legal(Replay(m, cs, log[..n]), cs[log[n].who], log[n].fails, log[n].reply)
  {
    hide Legal;
    var shorter := log[..|log| - 1];
    forall k | 0 <= k < |shorter|
      ensures Legal(Replay(m, cs, shorter[..k]), cs[shorter[k].who], shorter[k].fails, shorter[k].reply)
    {
      assert shorter[..k] == log[..k];
    }
  }

  lemma EffectRegisters(m: AccountMap, cs: seq<Command>, e: Entry, email: string)
    requires e.who < |cs| && Legal(m, cs[e.who], e.fails, e.reply)
    requires email !in m && email in Effect(m, cs[e.who], e.reply)
    ensures Registers(cs, e, email)
  {}

  /** An email that appears in the map after the first `from` commands was registered by a later one. */
  lemma {:induction false} WhoRegistered(m: AccountMap, cs: seq<Command>, log: seq<Entry>, from: nat, email: string)
    requires from <= |log| && forall k | 0 <= k < |log| :: log[k].who < |cs|
    requires email !in Replay(m, cs, log[..from]) && email in Replay(m, cs, log)
    requires Sequential(m, cs, log)
    ensures exists k | from <= k < |log| :: Registers(cs, log[k], email)
  {
    hide Legal, Effect, Sequential;
    assert log[..|log|] == log;
    if from < |log| {
      var n := |log| - 1;
      var shorter := log[..n];
      SequentialPrefix(m, cs, log);
      assert shorter[..from] == log[..from];
      if email in Replay(m, cs, shorter) {
        WhoRegistered(m, cs, shorter, from, email);
        var k :| from <= k < |shorter| && Registers(cs, shorter[k], email);
        assert Registers(cs, log[k], email);
      } else {
        EffectRegisters(Replay(m, cs, shorter), cs, log[n], email);
        assert Registers(cs, log[n], email);
      }
    }
  }

  /** Once a REGISTER of the email has succeeded the map has the email. */
  lemma RegisteredLater(m: AccountMap, cs: seq<Command>, log: seq<Entry>, j: nat, email: string)
    requires j < |log| && (forall k | 0 <= k < |log| :: log[k].who < |cs|) && Registers(cs, log[j], email)
    ensures email in Replay(m, cs, log)
  {
    assert log[..j + 1][..j] == log[..j];
    RegisteredStays(m, cs, log, j + 1, email);
  }

  lemma InsertAnswers(t: Table, c: Command)
    requires Valid(t) && c.Register?
    ensures DbStep(t, c, Inserting, false).1 == Done(500) <==> c.email in Users.Accounts(t.rows)
  {
    hide Users.Accounts, Find, Valid;
    AccountsFind(t.rows, c.email);
  }

  /**
   * When REGISTER's insert answers 500, whatever its lookup met: exactly if the
   * database fails it, the email was registered to begin with, or a REGISTER
   * of the email has succeeded.  Only a failed lookup lets it come that far
   * with an email that was there before.
   */
  lemma InsertRefusedWhen(cs: seq<Command>, t: Table, steps: seq<Step>, w: nat, fails: bool)
    requires Valid(t) && w < |cs| && Run(cs, Start(cs, t), steps).pcs[w].Inserting?
    ensures var s := Run(cs, Start(cs, t), steps);
            Next(cs, s, Step(w, fails)).pcs[w] == Done(500)
            <==> fails || cs[w].email in Users.Accounts(t.rows)
                 || exists j | 0 <= j < |s.log| :: Registers(cs, s.log[j], cs[w].email)
  {
    hide Legal, Effect, Registers, Valid, Users.Accounts;
    var m, email, s := Users.Accounts(t.rows), cs[w].email, Run(cs, Start(cs, t), steps);
    RunLinearized(cs, t, steps);
    SequentialWho(m, cs, s.log);
    InsertAnswers(s.table, cs[w]);
    hide Run, Sequential, PendingNamed, LogsFinished;
    assert s.log[..0] == [] && Replay(m, cs, []) == m;
    hide Replay;
    if email in Replay(m, cs, s.log) {
      if email !in m { WhoRegistered(m, cs, s.log, 0, email); }
    } else {
      forall j | 0 <= j < |s.log| ensures !Registers(cs, s.log[j], email) {
        if Registers(cs, s.log[j], email) { RegisteredLater(m, cs, s.log, j, email); }
      }
      if email in m { RegisteredStays(m, cs, s.log, 0, email); }
    }
  }

  lemma LookedUp(t: Table, c: Command, fails: bool)
    requires !fails && DbStep(t, c, Ready, fails).1.Inserting?
    ensures c.Register? && c.email !in Users.Accounts(t.rows) && DbStep(t, c, Ready, fails).0 == t
  {
    AccountsFind(t.rows, c.email);
  }

  /**
   * The lost race: when the database fails neither step of a REGISTER and the
   * lookup found nothing, it answers 500, where 409 is meant, exactly when
   * another REGISTER of the same email succeeded between its two steps.
   */
  lemma LostRace(cs: seq<Command>, t: Table, before: seq<Step>, between: seq<Step>, w: nat)
    requires Valid(t) && w < |cs|
    requires Run(cs, Start(cs, t), before).pcs[w].Ready?
    requires var looked := before + [Step(w, false)];
             && Run(cs, Start(cs, t), looked).pcs[w].Inserting?
             && Run(cs, Start(cs, t), looked + between).pcs[w].Inserting?
    ensures var looked := before + [Step(w, false)];
            var s1, s2 := Run(cs, Start(cs, t), looked), Run(cs, Start(cs, t), looked + between);
            Next(cs, s2, Step(w, false)).pcs[w] == Done(500)
            <==> exists j | |s1.log| <= j < |s2.log| :: Registers(cs, s2.log[j], cs[w].email)
  {
    hide DbStep, Legal, Effect, Replay, Registers, Valid, Users.Accounts, PendingNamed, LogsFinished;
    var m, email, looked := Users.Accounts(t.rows), cs[w].email, before + [Step(w, false)];
    var s0, s1 := Run(cs, Start(cs, t), before), Run(cs, Start(cs, t), looked);
    var s2 := Run(cs, Start(cs, t), looked + between);
    assert looked[..|looked| - 1] == before;
    assert s1 == Next(cs, s0, Step(w, false));
    LookedUp(s0.table, cs[w], false);
    RunLinearized(cs, t, looked);
    RunLinearized(cs, t, looked + between);
    InsertAnswers(s2.table, cs[w]);
    LogGrows(cs, Start(cs, t), looked, between);
    assert s2.log[..|s1.log|] == s1.log;
    SequentialWho(m, cs, s2.log);
    hide Run, Sequential;
    if email in Replay(m, cs, s2.log) {
      WhoRegistered(m, cs, s2.log, |s1.log|, email);
    } else {
      forall j | |s1.log| <= j < |s2.log| ensures !Registers(cs, s2.log[j], email) {
        if Registers(cs, s2.log[j], email) { RegisteredLater(m, cs, s2.log, j, email); }
      }
    }
  }

  /** The race lost in a run: two REGISTERs look up "e" before either inserts. */
  lemma RaceIsLost(hash: string, other: string)
    ensures var cs := [Register("e", hash), Register("e", other)];
            var s := Run(cs, Start(cs, Table([], 0)), [Step(0, false), Step(1, false), Step(1, false), Step(0, false)]);
            s.pcs == [Done(500), Done(200)] && s.table.rows == [User(1, "e", other)]
  {
    var cs := [Register("e", hash), Register("e", other)];
    var t := Table([], 0);
    var s0 := Start(cs, t);
    var steps := [Step(0, false), Step(1, false), Step(1, false), Step(0, false)];
    assert steps[..3][..2] == steps[..2] && steps[..2][..1] == steps[..1] && steps[..1][..0] == [];
    assert Run(cs, s0, steps[..1]) == State(t, [Inserting, Ready], []);
    assert Run(cs, s0, steps[..2]) == State(t, [Inserting, Inserting], []);
    var u := Table([User(1, "e", other)], 1);
    assert Run(cs, s0, steps[..3]) == State(u, [Inserting, Done(200)], [Entry(1, false, 200)]);
  }

  /** No race is needed when the database fails the lookup: the email was there, and the insert finds out. */
  lemma FailedLookupRefused(hash: string, other: string)
    ensures var cs, t := [Register("e", hash)], Table([User(1, "e", other)], 1);
            var s := Run(cs, Start(cs, t), [Step(0, true), Step(0, false)]);
            s == State(t, [Done(500)], [Entry(0, false, 500)])
  {
    var cs, t := [Register("e", hash)], Table([User(1, "e", other)], 1);
    var steps := [Step(0, true), Step(0, false)];
    assert steps[..1][..0] == [];
    assert Run(cs, Start(cs, t), steps[..1]) == State(t, [Inserting], []);
  }
}
