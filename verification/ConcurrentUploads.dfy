/**
 * Several sessions uploading at once.  Each upload is a little program over the
 * shared image store: check that the name is free, open, write chunks, close;
 * or fail and remove the file.  The steps of different uploads interleave
 * freely.  Names are pairwise distinct; any of them may be taken or invalid.
 */
module ConcurrentUploads {
  import opened Images
  import opened Wrappers
  import Session

  datatype Upload = Upload(name: string, body: string) {
    function Path(): string { ImagePath(name) }
  }

  datatype Phase =
    | Waiting
    | Checked  // the name was valid and free, the size positive
    | Receiving(got: nat, onDisk: nat)  // `got` bytes have come, the file holds the first `onDisk` of them
    | Kept
    | Dropped

  datatype State = State(files: Files, phases: seq<Phase>)

  datatype Action =
    | Check(i: nat)
    | OpenFile(i: nat, opens: bool)
    | Chunk(i: nat, size: nat, onDisk: nat)  // bytes come; the output stream keeps back what it likes
    | Fail(i: nat)                           // a read error, or a write error found on closing
    | Close(i: nat)                          // whatever was kept back is written

  /** The checks an upload meets before its file is opened. */
  predicate Admitted(files: Files, u: Upload) {
    Judge(files, u.name, |u.body|, Works).Accept?
  }

  /** One atomic step, if it is possible. */
  function Act(us: seq<Upload>, s: State, a: Action): (r: Option<State>)
    requires |s.phases| == |us|
    ensures r.Some? ==> |r.value.phases| == |us|
  {
    if a.i >= |us| then None
    else
      var u, phase := us[a.i], s.phases[a.i];
      match a
      case Check(i) =>
        if !phase.Waiting? then None
        else Some(s.(phases := s.phases[i := if Admitted(s.files, u) then Checked else Dropped]))
      case OpenFile(i, opens) =>
        if !phase.Checked? then None
        else if opens then Some(State(s.files[u.Path() := ""], s.phases[i := Receiving(0, 0)]))
        else Some(s.(phases := s.phases[i := Dropped]))
      case Chunk(i, size, onDisk) =>
        if !phase.Receiving? || phase.got + size > |u.body| || !(0 < size <= CHUNK) then None
        else if !(phase.onDisk <= onDisk <= phase.got + size) then None
        else
          Some(State(Written(s.files, u, phase.onDisk, onDisk), s.phases[i := Receiving(phase.got + size, onDisk)]))
      case Fail(i) =>
        if !phase.Receiving? then None
        else Some(State(s.files - {u.Path()}, s.phases[i := Dropped]))
      case Close(i) =>
        if !phase.Receiving? || phase.got != |u.body| || phase.onDisk > |u.body| then None
        else Some(State(Written(s.files, u, phase.onDisk, |u.body|), s.phases[i := Kept]))
  }

  /** No step takes more than one buffer of the body. */
  lemma BufferSize(us: seq<Upload>, s: State, a: Action)
    requires |s.phases| == |us| && a.Chunk? && Act(us, s, a).Some?
    ensures 0 < a.size <= 4096
  {}

  /** How far an upload has come. */
  function Progress(u: Upload, phase: Phase): nat {
    match phase
    case Waiting => 0
    case Checked => 1
    case Receiving(got, _) => 2 + got
    case _ => 3 + |u.body|
  }

  /**
   * Every step takes its upload further, so none takes more than its body's
   * size and three steps; a file that does not open ends it.
   */
  lemma ActAdvances(us: seq<Upload>, s: State, a: Action)
    requires |s.phases| == |us| && Act(us, s, a).Some?
    ensures a.i < |us|
    ensures var u, before, after := us[a.i], s.phases[a.i], Act(us, s, a).value.phases[a.i];
            (before.Receiving? ==> before.got <= |u.body|) ==> Progress(u, before) < Progress(u, after)
    ensures a.OpenFile? && !a.opens ==> Act(us, s, a).value == s.(phases := s.phases[a.i := Dropped])
  {
    hide Admitted, ImagePath;
  }

  /** Appends bytes `from..to` of the body to its file. */
  function Written(files: Files, u: Upload, from: nat, to: nat): Files
    requires from <= to <= |u.body|
  {
    if u.Path() !in files then files else files[u.Path() := files[u.Path()] + u.body[from..to]]
  }

  function Run(us: seq<Upload>, s: State, actions: seq<Action>): (r: Option<State>)
    requires |s.phases| == |us|
    ensures r.Some? ==> |r.value.phases| == |us|
    decreases |actions|
  {
    if actions == [] then Some(s)
    else match Act(us, s, actions[0])
      case None => None
      case Some(t) => Run(us, t, actions[1..])
  }

  function Start(us: seq<Upload>, base: Files): State {
    State(base, seq(|us|, i => Waiting))
  }

  /** Names are pairwise distinct. */
  ghost predicate Distinct(us: seq<Upload>) {
    forall i, j | 0 <= i < j < |us| :: us[i].name != us[j].name
  }

  /** What is at the path of an upload in a given phase. */
  function Content(base: Files, u: Upload, phase: Phase): Option<string> {
    match phase
    case Receiving(_, onDisk) => if onDisk <= |u.body| then Some(u.body[..onDisk]) else None
    case Kept => Some(u.body)
    case _ => Get(base, u.Path())
  }

  ghost predicate Foreign(us: seq<Upload>, path: string) {
    forall i | 0 <= i < |us| :: us[i].Path() != path
  }

  /** At each upload's path the store holds what it contributes, elsewhere what it held initially. */
  ghost predicate Shows(us: seq<Upload>, base: Files, s: State)
    requires |s.phases| == |us|
  {
    && (forall i | 0 <= i < |us| && s.phases[i].Receiving? :: s.phases[i].onDisk <= s.phases[i].got <= |us[i].body|)
    && (forall i | 0 <= i < |us| :: Get(s.files, us[i].Path()) == Content(base, us[i], s.phases[i]))
    && (forall i | 0 <= i < |us| :: Begun(s.phases[i]) ==> Admitted(base, us[i]))
    && (forall p | Foreign(us, p) :: Get(s.files, p) == Get(base, p))
  }

  predicate Begun(phase: Phase) { phase.Checked? || phase.Receiving? || phase.Kept? }

  /** Whether an upload is admitted depends on its own path only. */
  lemma AdmittedAt(a: Files, b: Files, u: Upload)
    requires Get(a, u.Path()) == Get(b, u.Path())
    ensures Admitted(a, u) == Admitted(b, u)
    ensures Admitted(b, u) ==> Get(b, u.Path()) == None
  {
    hide HasDotDot;
  }

  lemma PathsDiffer(us: seq<Upload>)
    requires Distinct(us)
    ensures forall i, j | 0 <= i < |us| && 0 <= j < |us| && i != j :: us[i].Path() != us[j].Path()
  {
    forall i, j | 0 <= i < |us| && 0 <= j < |us| && i != j ensures us[i].Path() != us[j].Path() {
      assert us[i].Path()[7..] == us[i].name && us[j].Path()[7..] == us[j].name;
    }
  }

  /** A step changes one upload's phase and nothing in the store but its file. */
  lemma ActIsLocal(us: seq<Upload>, base: Files, s: State, a: Action)
    requires |s.phases| == |us| && Shows(us, base, s) && Act(us, s, a).Some?
    ensures var t := Act(us, s, a).value;
            && a.i < |us|
            && (forall i | 0 <= i < |us| && i != a.i :: t.phases[i] == s.phases[i])
            && (forall p | p != us[a.i].Path() :: Get(t.files, p) == Get(s.files, p))
            && Get(t.files, us[a.i].Path()) == Content(base, us[a.i], t.phases[a.i])
            && (t.phases[a.i].Receiving? ==> t.phases[a.i].onDisk <= t.phases[a.i].got <= |us[a.i].body|)
            && (Begun(t.phases[a.i]) ==> Admitted(base, us[a.i]))
  {
    hide ImagePath, Admitted;
    AdmittedAt(base, base, us[a.i]);
    if s.phases[a.i].Waiting? { AdmittedAt(s.files, base, us[a.i]); }
    assert Get(s.files, us[a.i].Path()) == Content(base, us[a.i], s.phases[a.i]);
    assert us[a.i].body[..0] == "" && us[a.i].body[..|us[a.i].body|] == us[a.i].body;
    if a.Chunk? || a.Close? {
      var body, from := us[a.i].body, s.phases[a.i].onDisk;
      var to := if a.Chunk? then a.onDisk else |body|;
      assert body[..from] + body[from..to] == body[..to];
    }
  }

  lemma ActShows(us: seq<Upload>, base: Files, s: State, a: Action)
    requires |s.phases| == |us| && Distinct(us) && Shows(us, base, s)
    requires Act(us, s, a).Some?
    ensures Shows(us, base, Act(us, s, a).value)
  {
    PathsDiffer(us);
    ActIsLocal(us, base, s, a);
    hide Act, ImagePath, Get, Content, Begun, Admitted;
  }

  /** Whatever the interleaving, in every state of a run each file is a beginning of its own upload's bytes. */
  lemma {:induction false} RunShows(us: seq<Upload>, base: Files, s: State, actions: seq<Action>)
    requires |s.phases| == |us| && Distinct(us) && Shows(us, base, s)
    requires Run(us, s, actions).Some?
    ensures Shows(us, base, Run(us, s, actions).value)
    decreases |actions|
  {
    hide Act, Shows;
    if actions != [] {
      ActShows(us, base, s, actions[0]);
      RunShows(us, base, Act(us, s, actions[0]).value, actions[1..]);
    }
  }

  ghost predicate Finished(phases: seq<Phase>) {
    forall i | 0 <= i < |phases| :: phases[i].Kept? || phases[i].Dropped?
  }

  /** Once all have finished, each file is there whole or not at all, and nothing else has changed. */
  lemma NoPartialFile(us: seq<Upload>, base: Files, actions: seq<Action>)
    requires Distinct(us) && Run(us, Start(us, base), actions).Some?
    requires Finished(Run(us, Start(us, base), actions).value.phases)
    ensures var s := Run(us, Start(us, base), actions).value;
            && (forall i | 0 <= i < |us| ::
                  && (s.phases[i].Kept? ==> Admitted(base, us[i]))
                  && Get(s.files, us[i].Path())
                     == if s.phases[i].Kept? then Some(us[i].body) else Get(base, us[i].Path()))
            && (forall p | Foreign(us, p) :: Get(s.files, p) == Get(base, p))
  {
    PathsDiffer(us);
    RunShows(us, base, Start(us, base), actions);
  }

  // ---------- one after another ----------

  /** An upload that runs alone: its file is there in the end, or nothing changed. */
  function Alone(files: Files, u: Upload, kept: bool): Files {
    if kept then files[u.Path() := u.body] else files
  }

  /** `Alone` is what a session makes of an upload nobody interferes with. */
  lemma SessionUploadsAlone(files: Files, u: Upload, input: string, e: nat, line: string, here: Session.Env)
    requires e <= |input| && Session.UploadArguments(line, here.stale) == (u.name, |u.body|)
    requires e + |u.body| <= |input| ==> input[e..e + |u.body|] == u.body
    ensures Session.Upload(files, input, e, line, here).files
         == Alone(files, u, Admitted(files, u) && e + |u.body| <= |input| && here.disk.Works?)
  {
    hide Session.UploadArguments, Exists, HasDotDot;
  }

  /** The uploads run one after another in the given order. */
  function Serial(us: seq<Upload>, base: Files, phases: seq<Phase>, order: seq<nat>): Files
    requires |phases| == |us| && forall k | 0 <= k < |order| :: order[k] < |us|
  {
    if order == [] then base
    else
      var last := order[|order| - 1];
      Alone(Serial(us, base, phases, order[..|order| - 1]), us[last], phases[last].Kept?)
  }

  /** Every upload exactly once. */
  ghost predicate IsOrder(order: seq<nat>, n: nat) {
    && (forall k | 0 <= k < |order| :: order[k] < n)
    && (forall k, l | 0 <= k < l < |order| :: order[k] != order[l])
    && (forall i | 0 <= i < n :: i in order)
  }

  lemma {:induction false} SerialContents(us: seq<Upload>, base: Files, phases: seq<Phase>, order: seq<nat>)
    requires |phases| == |us| && Distinct(us)
    requires forall k | 0 <= k < |order| :: order[k] < |us|
    ensures var files := Serial(us, base, phases, order);
            && (forall i: nat | i < |us| ::
                  Get(files, us[i].Path()) == if i in order && phases[i].Kept? then Some(us[i].body)
                                                 else Get(base, us[i].Path()))
            && (forall p | Foreign(us, p) :: Get(files, p) == Get(base, p))
  {
    PathsDiffer(us);
    if order != [] {
      var shorter, last := order[..|order| - 1], order[|order| - 1];
      assert order == shorter + [last];
      SerialContents(us, base, phases, shorter);
      hide ImagePath, Exists;
      assert Serial(us, base, phases, order)
          == Alone(Serial(us, base, phases, shorter), us[last], phases[last].Kept?);
    }
  }

  /**
   * Any interleaving that finishes leaves the same store as running the
   * uploads one after another, in any order, with the same outcomes.
   */
  lemma InterleavingIsSerial(us: seq<Upload>, base: Files, actions: seq<Action>, order: seq<nat>)
    requires Distinct(us) && IsOrder(order, |us|)
    requires Run(us, Start(us, base), actions).Some?
    requires Finished(Run(us, Start(us, base), actions).value.phases)
    ensures var s := Run(us, Start(us, base), actions).value;
            s.files == Serial(us, base, s.phases, order)
  {
    var s := Run(us, Start(us, base), actions).value;
    PathsDiffer(us);
    RunShows(us, base, Start(us, base), actions);
    SerialContents(us, base, s.phases, order);
    SameLookups(us, s.files, Serial(us, base, s.phases, order));
  }

  lemma SameLookups(us: seq<Upload>, a: Files, b: Files)
    requires forall i | 0 <= i < |us| :: Get(a, us[i].Path()) == Get(b, us[i].Path())
    requires forall p | Foreign(us, p) :: Get(a, p) == Get(b, p)
    ensures a == b
  {
    forall p ensures Get(a, p) == Get(b, p) {
      if !Foreign(us, p) {
        var i :| 0 <= i < |us| && us[i].Path() == p;
      }
    }
    assert forall p :: (p in a <==> Get(a, p).Some?) && (p in b <==> Get(b, p).Some?);
    assert a.Keys == b.Keys;
  }
}
