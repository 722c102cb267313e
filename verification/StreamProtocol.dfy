/** One generate command and its stream, under every interleaving of the engine thread, the
    consumer, cancellation, shutdown and CMD_STOP.

    A step is one critical section or one atomic access.  What the engine thread does for a command
    is a straight-line program of polls and pushes; the stub path, the not-loaded path and the real
    path of engine.c are three families of such programs.  A run is any sequence of events; an event
    that is not possible in a state leaves it unchanged. */
module StreamProtocol {
  import opened SeqOps
  import opened StreamRing

  /** Poll(sees): leave if shutdown is set (or, when sees, if the stream is cancelled).
      Push(c, strict): a push that fails because the stream is cancelled ends the command, with a
      CANCELLED terminal always (strict) or only under shutdown (generate_fail). */
  datatype Op = Poll(sees: bool) | Push(chunk: Chunk, strict: bool)

  type Program = seq<Op>

  datatype Pc =
    | Queued     // in the mailbox
    | Running    // about to execute prog[k]
    | Waiting    // asleep in stream_push at prog[k], on the condition variable of the stream
    | HalfPolled // prog[k] is a poll that has read shutdown and still has to read cancelled
    | Refusal    // a non-strict push failed: about to read shutdown
    | Aborting   // about to run stream_finish_cancelled
    | Leaving    // about to clear inflight and release the stream
    | Gone

  /** How the command ended, for the statements below. */
  datatype End = Open | Complete | Cut(lost: bool) | Quit

  datatype State = State(
    pc: Pc, k: nat,
    content: seq<Chunk>, delivered: seq<Chunk>,
    cancelled: bool, shutdown: bool, stopped: bool,
    inflight: bool,
    signals: nat,   // engine_signal_shutdown calls between their store and their critical section
    late: bool,     // inflight was set when shutdown was already stored
    end: End)

  datatype Event = Engine | Reject | Consume | Cancel | StoreShutdown | SignalSection | StopCommand

  datatype Config = Config(cap: nat, prog: Program)

  function Init(): State {
    State(Queued, 0, [], [], false, false, false, false, 0, false, Open)
  }

  /** One step of the engine thread on this command. */
  function EngineStep(c: Config, s: State): (r: State)
    requires 0 < c.cap && |s.content| <= c.cap
    ensures |r.content| <= c.cap
  {
    match s.pc
    case Queued => s.(pc := Running, inflight := true, late := s.shutdown)
    case Running =>
      if s.k >= |c.prog| then s.(pc := Leaving, end := Complete)
      else
        (match c.prog[s.k]
         case Poll(sees) =>
           if s.shutdown then s.(pc := Aborting)
           else if sees then s.(pc := HalfPolled)
           else s.(k := s.k + 1)
         case Push(chunk, strict) =>
           if s.cancelled then s.(pc := if strict then Aborting else Refusal)
           else if |s.content| == c.cap then s.(pc := Waiting)
           else s.(content := s.content + [chunk], k := s.k + 1))
    case Waiting => s
    case HalfPolled => if s.cancelled then s.(pc := Aborting) else s.(pc := Running, k := s.k + 1)
    case Refusal => if s.shutdown then s.(pc := Aborting) else s.(pc := Leaving, end := Quit)
    case Aborting =>
      s.(pc := Leaving, content := Finish(s.content, c.cap), cancelled := true, end := Cut(|s.content| == c.cap))
    case Leaving => s.(pc := Gone, inflight := false)
    case Gone => s
  }

  /** pthread_cond_broadcast; nothing else wakes a waiting push. */
  function Woken(pc: Pc): Pc {
    if pc.Waiting? then Running else pc
  }

  function Step(c: Config, s: State, e: Event): (r: State)
    requires 0 < c.cap && |s.content| <= c.cap
    ensures |r.content| <= c.cap
  {
    match e
    case Engine => EngineStep(c, s)
    // engine_post after shutdown, or a drain: cmd_cancel without ever becoming inflight
    case Reject => if s.pc.Queued? && (s.shutdown || s.stopped) then s.(pc := Aborting) else s
    case Consume =>
      if s.content == [] then s
      else s.(content := s.content[1..], delivered := s.delivered + [s.content[0]], pc := Woken(s.pc))
    case Cancel => s.(cancelled := true, pc := Woken(s.pc))
    case StoreShutdown => s.(shutdown := true, signals := s.signals + 1)
    case SignalSection =>
      if s.signals == 0 then s
      else s.(signals := s.signals - 1, cancelled := s.cancelled || s.inflight,
              pc := if s.inflight then Woken(s.pc) else s.pc)
    case StopCommand => s.(stopped := true)
  }

  /** The state after a run. */
  function Exec(c: Config, es: seq<Event>): (s: State)
    requires 0 < c.cap
    ensures |s.content| <= c.cap
  {
    if es == [] then Init()
    else
      var s := Exec(c, es[..|es| - 1]);
      Step(c, s, es[|es| - 1])
  }

  // ---------------------------------------------------------------- what the stream carries

  /** The chunks of the pushes of a program. */
  function Chunks(p: Program): seq<Chunk> {
    if p == [] then []
    else Chunks(p[..|p| - 1]) + if p[|p| - 1].Push? then [p[|p| - 1].chunk] else []
  }

  /** Everything the stream has carried: delivered to the consumer, then still buffered. */
  function Carried(s: State): seq<Chunk> {
    s.delivered + s.content
  }

  function DropLast(s: seq<Chunk>): seq<Chunk> {
    if s == [] then [] else s[..|s| - 1]
  }

  /** The invariant about contents, for any program. */
  ghost predicate Flow(c: Config, s: State) {
    && 0 < c.cap && |s.content| <= c.cap && s.k <= |c.prog|
    && (match s.end
        case Open =>
          && !s.pc.Leaving? && !s.pc.Gone?
          && Carried(s) == Chunks(c.prog[..s.k])
          && (s.pc.Queued? ==> s.k == 0)
          && (s.pc.Aborting? ==> c.prog == [] || s.k < |c.prog|)
          && (s.pc.HalfPolled? ==> s.k < |c.prog| && c.prog[s.k].Poll?)
          && (s.pc.Waiting? ==> s.k < |c.prog|)
          && (s.pc.Refusal? ==> s.k < |c.prog| && c.prog[s.k].Push? && !c.prog[s.k].strict)
        case Complete => (s.pc.Leaving? || s.pc.Gone?) && s.k == |c.prog| && Carried(s) == Chunks(c.prog)
        case Cut(lost) =>
          && (s.pc.Leaving? || s.pc.Gone?) && (c.prog == [] || s.k < |c.prog|)
          && Carried(s) == (if lost then DropLast(Chunks(c.prog[..s.k])) else Chunks(c.prog[..s.k])) + [Done(Cancelled)]
        case Quit =>
          && (s.pc.Leaving? || s.pc.Gone?)
          && s.k < |c.prog| && c.prog[s.k].Push? && !c.prog[s.k].strict
          && Carried(s) == Chunks(c.prog[..s.k]))
  }

  lemma {:induction false} ChunksStep(p: Program, k: nat)
    requires k < |p|
    ensures Chunks(p[..k + 1]) == Chunks(p[..k]) + if p[k].Push? then [p[k].chunk] else []
  {
    assert p[..k + 1][..k] == p[..k];
  }

  lemma {:induction false} FlowRunning(c: Config, s: State)
    requires Flow(c, s) && s.pc.Running? && s.k < |c.prog|
    ensures Flow(c, EngineStep(c, s))
  {
    if c.prog[s.k].Push? {
      FlowPush(c, s);
    } else {
      FlowPoll(c, s);
    }
  }

  lemma {:induction false} FlowPush(c: Config, s: State)
    requires Flow(c, s) && s.pc.Running? && s.k < |c.prog| && c.prog[s.k].Push?
    ensures Flow(c, EngineStep(c, s))
  {
    ChunksStep(c.prog, s.k);
    Assoc(s.delivered, s.content, [c.prog[s.k].chunk]);
  }

  lemma {:induction false} FlowPoll(c: Config, s: State)
    requires Flow(c, s) && s.pc.Running? && s.k < |c.prog| && c.prog[s.k].Poll?
    ensures Flow(c, EngineStep(c, s))
  {
    ChunksStep(c.prog, s.k);
    assert Chunks(c.prog[..s.k]) + [] == Chunks(c.prog[..s.k]);
  }

  lemma {:induction false} FlowHalfPolled(c: Config, s: State)
    requires Flow(c, s) && s.pc.HalfPolled?
    ensures Flow(c, EngineStep(c, s))
  {
    ChunksStep(c.prog, s.k);
    assert Chunks(c.prog[..s.k]) + [] == Chunks(c.prog[..s.k]);
  }

  lemma {:induction false} FlowAborting(c: Config, s: State)
    requires Flow(c, s) && s.pc.Aborting?
    ensures Flow(c, EngineStep(c, s))
  {
    FinishCarried(s, c.cap);
  }

  lemma {:induction false} FlowEngine(c: Config, s: State)
    requires Flow(c, s)
    ensures Flow(c, EngineStep(c, s))
  {
    match s.pc
    case Queued =>
    case Running =>
      if s.k < |c.prog| {
        FlowRunning(c, s);
      } else {
        assert c.prog[..s.k] == c.prog;
      }
    case Waiting =>
    case HalfPolled => FlowHalfPolled(c, s);
    case Refusal =>
    case Aborting => FlowAborting(c, s);
    case Leaving =>
    case Gone =>
  }

  lemma {:induction false} FinishCarried(s: State, cap: nat)
    requires 0 < cap && |s.content| <= cap
    ensures s.delivered + Finish(s.content, cap)
         == (if |s.content| == cap then DropLast(Carried(s)) else Carried(s)) + [Done(Cancelled)]
  {
  }

  lemma {:induction false} FlowStep(c: Config, s: State, e: Event)
    requires Flow(c, s)
    ensures Flow(c, Step(c, s, e))
  {
    match e
    case Engine => FlowEngine(c, s);
    case Consume =>
      if s.content != [] {
        assert s.delivered + [s.content[0]] + s.content[1..] == Carried(s);
      }
    case Reject =>
    case Cancel =>
    case StoreShutdown =>
    case SignalSection =>
    case StopCommand =>
  }

  lemma {:induction false} FlowAlways(c: Config, es: seq<Event>)
    requires 0 < c.cap
    ensures Flow(c, Exec(c, es))
  {
    if es == [] {
      assert c.prog[..0] == [];
    } else {
      FlowAlways(c, es[..|es| - 1]);
      FlowStep(c, Exec(c, es[..|es| - 1]), es[|es| - 1]);
    }
  }

  lemma {:induction false} ChunksAppend(p: Program, q: Program)
    ensures Chunks(p + q) == Chunks(p) + Chunks(q)
  {
    if q == [] {
      assert p + q == p;
    } else {
      var init := q[..|q| - 1];
      ChunksAppend(p, init);
      assert (p + q)[..|p + q| - 1] == p + init;
      var x, y, z := Chunks(p), Chunks(init), if q[|q| - 1].Push? then [q[|q| - 1].chunk] else [];
      assert Chunks(p + q) == (x + y) + z;
      assert (x + y) + z == x + (y + z);
    }
  }

  lemma {:induction false} ChunksPrefix(p: Program, k: nat)
    requires k <= |p|
    ensures Chunks(p[..k]) <= Chunks(p)
    decreases |p|
  {
    if k == |p| {
      assert p[..k] == p;
    } else {
      ChunksPrefix(p[..|p| - 1], k);
      assert p[..|p| - 1][..k] == p[..k];
    }
  }

  // ---------------------------------------------------------------- causes, in terms of the run

  /** Somebody asked for the command to end early. */
  ghost predicate Asked(es: seq<Event>) {
    exists i :: 0 <= i < |es| && (es[i].Cancel? || es[i].StoreShutdown? || es[i].StopCommand?)
  }

  lemma {:induction false} AskedSnoc(es: seq<Event>, e: Event)
    ensures Asked(es) || e.Cancel? || e.StoreShutdown? || e.StopCommand? ==> Asked(es + [e])
  {
    var all := es + [e];
    assert all[|es|] == e;
    if Asked(es) {
      var i :| 0 <= i < |es| && (es[i].Cancel? || es[i].StoreShutdown? || es[i].StopCommand?);
      assert all[i] == es[i];
    }
  }

  /** The engine has turned away from its program. */
  predicate Turning(s: State) {
    s.pc.Aborting? || s.pc.Refusal? || s.end.Cut? || s.end.Quit?
  }

  /** The stream is cancelled, and the engine turns away from its program, only after that. */
  lemma {:induction false} OnlyWhenAsked(c: Config, es: seq<Event>)
    requires 0 < c.cap
    ensures var s := Exec(c, es);
            (s.cancelled || s.shutdown || s.stopped || s.signals > 0 || Turning(s)) ==> Asked(es)
  {
    if es != [] {
      var init, e := es[..|es| - 1], es[|es| - 1];
      OnlyWhenAsked(c, init);
      AskedSnoc(init, e);
      assert init + [e] == es;
    }
  }

  /** At step i generate_fail, whose push was refused, finds no shutdown and leaves without a terminal. */
  ghost predicate GivesUpAt(c: Config, es: seq<Event>, i: nat)
    requires 0 < c.cap && i < |es|
  {
    es[i].Engine? && Exec(c, es[..i]).pc.Refusal? && StoreShutdown !in es[..i]
  }

  ghost predicate GaveUp(c: Config, es: seq<Event>)
    requires 0 < c.cap
  {
    exists i: nat :: i < |es| && GivesUpAt(c, es, i)
  }

  lemma {:induction false} ShutdownIff(c: Config, es: seq<Event>)
    requires 0 < c.cap
    ensures Exec(c, es).shutdown <==> StoreShutdown in es
  {
    if es != [] {
      var init, e := es[..|es| - 1], es[|es| - 1];
      ShutdownIff(c, init);
      assert es == init + [e];
      assert StoreShutdown in es <==> StoreShutdown in init || e == StoreShutdown;
      ShutdownStep(c, Exec(c, init), e);
    }
  }

  lemma {:induction false} ShutdownStep(c: Config, s: State, e: Event)
    requires 0 < c.cap && |s.content| <= c.cap
    ensures Step(c, s, e).shutdown <==> s.shutdown || e == StoreShutdown
  {
    if e.Engine? {
      EngineKeeps(c, s);
    }
  }

  lemma {:induction false} GaveUpSnoc(c: Config, es: seq<Event>, e: Event)
    requires 0 < c.cap
    ensures GaveUp(c, es + [e]) <==> GaveUp(c, es) || (e.Engine? && Exec(c, es).pc.Refusal? && !Exec(c, es).shutdown)
  {
    var all := es + [e];
    ShutdownIff(c, es);
    assert all[..|es|] == es;
    forall i: nat | i < |es|
      ensures GivesUpAt(c, all, i) <==> GivesUpAt(c, es, i)
    {
      assert all[..i] == es[..i];
    }
    assert GivesUpAt(c, all, |es|) <==> e.Engine? && Exec(c, es).pc.Refusal? && !Exec(c, es).shutdown;
  }

  lemma {:induction false} QuitIff(c: Config, es: seq<Event>)
    requires 0 < c.cap
    ensures Exec(c, es).end.Quit? <==> GaveUp(c, es)
  {
    if es != [] {
      var init, e := es[..|es| - 1], es[|es| - 1];
      QuitIff(c, init);
      FlowAlways(c, init);
      QuitStep(c, Exec(c, init), e);
      GaveUpSnoc(c, init, e);
      assert init + [e] == es;
    }
  }

  lemma {:induction false} QuitStep(c: Config, s: State, e: Event)
    requires 0 < c.cap && |s.content| <= c.cap && (s.end.Quit? ==> s.pc.Leaving? || s.pc.Gone?)
    ensures Step(c, s, e).end.Quit? <==> s.end.Quit? || (e.Engine? && s.pc.Refusal? && !s.shutdown)
  {
    match e
    case Engine => assert EngineStep(c, s).end.Quit? <==> s.end.Quit? || (s.pc.Refusal? && !s.shutdown);
    case Reject =>
    case Consume =>
    case Cancel =>
    case StoreShutdown =>
    case SignalSection =>
    case StopCommand =>
  }

  // ---------------------------------------------------------------- terminals

  /** The program's last operation pushes its only DONE. */
  ghost predicate WellEnded(p: Program) {
    && p != [] && p[|p| - 1].Push? && p[|p| - 1].chunk.Done?
    && forall k :: 0 <= k < |p| - 1 && p[k].Push? ==> !p[k].chunk.Done?
  }

  ghost predicate NoDone(x: seq<Chunk>) {
    forall i :: 0 <= i < |x| ==> !x[i].Done?
  }

  ghost predicate OneTerminal(x: seq<Chunk>) {
    x != [] && x[|x| - 1].Done? && NoDone(x[..|x| - 1])
  }

  /** A push of generate_fail, which may give up. */
  ghost predicate QuitsAt(p: Program, k: nat) {
    k < |p| && p[k].Push? && !p[k].strict
  }

  ghost predicate Strict(p: Program) {
    forall k: nat :: !QuitsAt(p, k)
  }

  lemma {:induction false} NoDoneBefore(p: Program, k: nat)
    requires k <= |p| && forall j :: 0 <= j < k && p[j].Push? ==> !p[j].chunk.Done?
    ensures NoDone(Chunks(p[..k]))
  {
    if k > 0 {
      NoDoneBefore(p, k - 1);
      ChunksStep(p, k - 1);
    }
  }

  lemma {:induction false} WholeProgram(p: Program)
    requires WellEnded(p)
    ensures OneTerminal(Chunks(p)) && Chunks(p) == Chunks(p[..|p| - 1]) + [p[|p| - 1].chunk]
  {
    NoDoneBefore(p, |p| - 1);
    assert Chunks(p)[..|Chunks(p)| - 1] == Chunks(p[..|p| - 1]);
  }

  /** How the stream of an ended command can look: everything; a part cut off by a CANCELLED that was
      asked for; or what came before a refused push that gave up. */
  ghost predicate Outcome(c: Config, es: seq<Event>)
    requires 0 < c.cap
  {
    var x := Carried(Exec(c, es));
    || x == Chunks(c.prog)
    || (Asked(es) && exists y :: y <= Chunks(c.prog) && NoDone(y) && x == y + [Done(Cancelled)])
    || (GaveUp(c, es) && exists k: nat :: QuitsAt(c.prog, k) && x == Chunks(c.prog[..k]))
  }

  lemma {:induction false} OutcomeAlways(c: Config, es: seq<Event>)
    requires 0 < c.cap && WellEnded(c.prog)
    ensures Exec(c, es).pc.Leaving? || Exec(c, es).pc.Gone? ==> Outcome(c, es)
  {
    var s := Exec(c, es);
    FlowAlways(c, es);
    OnlyWhenAsked(c, es);
    QuitIff(c, es);
    if s.end.Cut? {
      CutOutcome(c, s);
    } else if s.end.Quit? {
      assert QuitsAt(c.prog, s.k);
    }
  }

  lemma {:induction false} CutOutcome(c: Config, s: State)
    requires Flow(c, s) && WellEnded(c.prog) && s.end.Cut?
    ensures exists y :: y <= Chunks(c.prog) && NoDone(y) && Carried(s) == y + [Done(Cancelled)]
  {
    ChunksPrefix(c.prog, s.k);
    NoDoneBefore(c.prog, s.k);
    var x := Chunks(c.prog[..s.k]);
    var y := if s.end.lost then DropLast(x) else x;
    assert y <= x;
  }

  /** Per run: an ended command carries exactly one terminal, as its last chunk, unless a cancelled
      stream met generate_fail before any shutdown; then it carries none. */
  lemma {:induction false} TerminalUnlessGivenUp(c: Config, es: seq<Event>)
    requires 0 < c.cap && WellEnded(c.prog) && Exec(c, es).pc.Gone?
    ensures OneTerminal(Carried(Exec(c, es))) <==> !GaveUp(c, es)
    ensures GaveUp(c, es) ==> NoDone(Carried(Exec(c, es))) && Asked(es)
  {
    var s := Exec(c, es);
    FlowAlways(c, es);
    OnlyWhenAsked(c, es);
    QuitIff(c, es);
    match s.end
    case Complete =>
      WholeProgram(c.prog);
    case Cut(_) =>
      CutOutcome(c, s);
      var y :| y <= Chunks(c.prog) && NoDone(y) && Carried(s) == y + [Done(Cancelled)];
      assert Carried(s)[..|Carried(s)| - 1] == y;
    case Quit =>
      NoDoneBefore(c.prog, s.k);
    case Open =>
  }

  lemma {:induction false} ExecSnoc(c: Config, es: seq<Event>, e: Event)
    requires 0 < c.cap
    ensures Exec(c, es + [e]) == Step(c, Exec(c, es), e)
  {
    assert (es + [e])[..|es|] == es;
  }

  /** About to execute operation k, undisturbed. */
  predicate Smooth(s: State, k: nat) {
    s.pc.Running? && s.k == k && s.content == [] && s.end.Open? && !s.cancelled && !s.shutdown
  }

  lemma {:induction false} SmoothStep(c: Config, s: State, k: nat)
    requires 0 < c.cap && k < |c.prog| && Smooth(s, k)
    ensures c.prog[k] == Poll(false) ==> Smooth(EngineStep(c, s), k + 1)
    ensures c.prog[k] == Poll(true) ==> Smooth(EngineStep(c, EngineStep(c, s)), k + 1)
    ensures c.prog[k].Push? ==> Smooth(Step(c, EngineStep(c, s), Consume), k + 1)
  {
  }

  /** Undisturbed and with a consumer that keeps up, the engine gets to any operation. */
  lemma {:induction false} Reach(c: Config, k: nat) returns (es: seq<Event>)
    requires 0 < c.cap && k <= |c.prog|
    ensures Smooth(Exec(c, es), k)
  {
    if k == 0 {
      es := [] + [Engine];
      ExecSnoc(c, [], Engine);
    } else {
      var before := Reach(c, k - 1);
      SmoothStep(c, Exec(c, before), k - 1);
      es := before + [Engine];
      ExecSnoc(c, before, Engine);
      if c.prog[k - 1] != Poll(false) {
        var next := if c.prog[k - 1].Push? then Consume else Engine;
        ExecSnoc(c, es, next);
        es := es + [next];
      }
    }
  }

  /** A push that gives up can be made to: cancel the stream just before it. */
  lemma {:induction false} GiveUpRun(c: Config, k: nat) returns (es: seq<Event>)
    requires 0 < c.cap && QuitsAt(c.prog, k)
    ensures Exec(c, es).pc.Gone? && Exec(c, es).end.Quit?
  {
    var e0 := Reach(c, k);
    var e1 := e0 + [Cancel];
    var e2 := e1 + [Engine];
    var e3 := e2 + [Engine];
    es := e3 + [Engine];
    ExecSnoc(c, e0, Cancel);
    ExecSnoc(c, e1, Engine);
    ExecSnoc(c, e2, Engine);
    ExecSnoc(c, e3, Engine);
  }

  lemma {:induction false} StrictNeverGivesUp(c: Config, es: seq<Event>)
    requires 0 < c.cap && Strict(c.prog)
    ensures !GaveUp(c, es)
  {
    FlowAlways(c, es);
    QuitIff(c, es);
    var s := Exec(c, es);
    assert s.end.Quit? ==> QuitsAt(c.prog, s.k);
  }

  /** Once the command is over, its stream has carried exactly one terminal, at the end. */
  ghost predicate EndsWithOneTerminal(c: Config, es: seq<Event>)
    requires 0 < c.cap
  {
    Exec(c, es).pc.Gone? ==> OneTerminal(Carried(Exec(c, es)))
  }

  /** "Every generate ends with exactly one DONE": true of a path, in all its runs, exactly when none
      of its pushes is made by generate_fail. */
  lemma {:induction false} TerminalIff(c: Config)
    requires 0 < c.cap && WellEnded(c.prog)
    ensures (forall es :: EndsWithOneTerminal(c, es)) <==> Strict(c.prog)
  {
    if Strict(c.prog) {
      forall es
        ensures EndsWithOneTerminal(c, es)
      {
        StrictNeverGivesUp(c, es);
        if Exec(c, es).pc.Gone? {
          TerminalUnlessGivenUp(c, es);
        }
      }
    } else {
      var k: nat :| QuitsAt(c.prog, k);
      var es := GiveUpRun(c, k);
      QuitIff(c, es);
      TerminalUnlessGivenUp(c, es);
      assert !EndsWithOneTerminal(c, es);
    }
  }

  // ---------------------------------------------------------------- what a cancel and a shutdown do

  /** x is s0 some steps after a cancel: no push has succeeded and no poll that looks at the flag has
      been passed, so that nothing but a CANCELLED can have been added. */
  ghost predicate Curbed(c: Config, s0: State, x: State) {
    && x.cancelled && s0.k <= x.k <= |c.prog|
    && (forall j :: s0.k <= j < x.k ==> c.prog[j] == Poll(false))
    && (if x.end == s0.end then Carried(x) == Carried(s0)
        else s0.end.Open? && match x.end
          case Open => false
          case Complete => Carried(x) == Carried(s0)
          case Quit => Carried(x) == Carried(s0)
          case Cut(lost) => Carried(x) == (if lost then DropLast(Carried(s0)) else Carried(s0)) + [Done(Cancelled)])
  }

  lemma {:induction false} CurbedEngine(c: Config, s0: State, x: State)
    requires Flow(c, x) && Curbed(c, s0, x)
    ensures Curbed(c, s0, EngineStep(c, x))
  {
    if x.pc.Aborting? {
      FinishCarried(x, c.cap);
    } else if x.pc.Running? {
      CurbedRunning(c, x);
    }
  }

  lemma {:induction false} CurbedRunning(c: Config, x: State)
    requires Flow(c, x) && x.pc.Running? && x.cancelled
    ensures var y := EngineStep(c, x);
            && Carried(y) == Carried(x) && y.cancelled && (y.end == x.end || y.end == Complete)
            && (y.k == x.k || (y.k == x.k + 1 <= |c.prog| && c.prog[x.k] == Poll(false)))
  {
  }

  lemma {:induction false} CurbedStep(c: Config, s0: State, x: State, e: Event)
    requires Flow(c, x) && Curbed(c, s0, x)
    ensures Curbed(c, s0, Step(c, x, e))
  {
    match e
    case Engine => CurbedEngine(c, s0, x);
    case Consume =>
      if x.content != [] {
        assert x.delivered + [x.content[0]] + x.content[1..] == Carried(x);
      }
    case Reject =>
    case Cancel =>
    case StoreShutdown =>
    case SignalSection =>
    case StopCommand =>
  }

  lemma {:induction false} CurbedAlways(c: Config, es: seq<Event>, more: seq<Event>)
    requires 0 < c.cap && Exec(c, es).cancelled
    ensures Curbed(c, Exec(c, es), Exec(c, es + more))
  {
    if more == [] {
      assert es + [] == es;
      FlowAlways(c, es);
    } else {
      var init, e := more[..|more| - 1], more[|more| - 1];
      CurbedAlways(c, es, init);
      assert more == init + [e];
      Assoc(es, init, [e]);
      ExecSnoc(c, es + init, e);
      FlowAlways(c, es + init);
      CurbedStep(c, Exec(c, es), Exec(c, es + init), e);
    }
  }

  /** A cancel ends the command: whatever happens after it, no push succeeds, no poll of the cancel flag
      is passed, and nothing is added to what the stream has carried but one CANCELLED, for which the
      newest buffered chunk may have to go. */
  lemma {:induction false} AfterCancel(c: Config, es: seq<Event>, more: seq<Event>)
    requires 0 < c.cap
    ensures var s, x := Exec(c, es + [Cancel]), Exec(c, es + [Cancel] + more);
            && s.k <= x.k <= |c.prog| && (forall j :: s.k <= j < x.k ==> c.prog[j] == Poll(false))
            && (Carried(x) == Carried(s)
                || (s.end.Open? && x.end.Cut?
                    && (Carried(x) == Carried(s) + [Done(Cancelled)] || Carried(x) == DropLast(Carried(s)) + [Done(Cancelled)])))
  {
    ExecSnoc(c, es, Cancel);
    CurbedAlways(c, es + [Cancel], more);
  }

  /** A stream without a terminal has not been cut yet. */
  lemma {:induction false} CutKeepsTerminal(c: Config, es: seq<Event>, more: seq<Event>)
    requires 0 < c.cap && Exec(c, es).cancelled && NoDone(Carried(Exec(c, es)))
    ensures Exec(c, es + more).end.Cut? ==>
              var y, x := Carried(Exec(c, es)), Carried(Exec(c, es + more));
              x == y + [Done(Cancelled)] || x == DropLast(y) + [Done(Cancelled)]
  {
    CurbedAlways(c, es, more);
    FlowAlways(c, es);
    CutHasDone(c, Exec(c, es));
  }

  lemma {:induction false} CutHasDone(c: Config, s: State)
    requires Flow(c, s)
    ensures s.end.Cut? ==> !NoDone(Carried(s))
  {
    var x := Carried(s);
    assert s.end.Cut? ==> |x| > 0 && x[|x| - 1] == Done(Cancelled);
  }

  /** If the terminal had not been pushed before the cancel, the stream gets CANCELLED for it, or, where
      generate_fail gives up, none. */
  lemma {:induction false} CancelDecides(c: Config, es: seq<Event>, more: seq<Event>)
    requires 0 < c.cap && WellEnded(c.prog)
    requires NoDone(Carried(Exec(c, es + [Cancel]))) && Exec(c, es + [Cancel] + more).pc.Gone?
    ensures var y, x := Carried(Exec(c, es + [Cancel])), Carried(Exec(c, es + [Cancel] + more));
            || x == y + [Done(Cancelled)] || x == DropLast(y) + [Done(Cancelled)]
            || (x == y && GaveUp(c, es + [Cancel] + more))
  {
    var run := es + [Cancel] + more;
    AfterCancel(c, es, more);
    FlowAlways(c, run);
    QuitIff(c, run);
    FlowAlways(c, es + [Cancel]);
    if Exec(c, run).end.Complete? {
      WholeProgram(c.prog);
    }
    CutKeepsTerminal(c, es + [Cancel], more);
  }

  /** x is s0 some steps after shutdown was stored: no poll has been passed, but for one whose look at
      the shutdown flag came before. */
  ghost predicate Barred(c: Config, s0: State, x: State) {
    && x.shutdown && s0.k <= x.k <= |c.prog|
    && (forall j :: s0.k <= j < x.k ==> c.prog[j].Push? || (j == s0.k && s0.pc.HalfPolled?))
    && (x.pc.HalfPolled? ==> s0.pc.HalfPolled? && x.k == s0.k)
  }

  lemma {:induction false} BarredStep(c: Config, s0: State, x: State, e: Event)
    requires Flow(c, x) && Barred(c, s0, x)
    ensures Barred(c, s0, Step(c, x, e))
  {
    if e.Engine? {
      BarredEngine(c, s0, x);
    }
  }

  lemma {:induction false} BarredEngine(c: Config, s0: State, x: State)
    requires Flow(c, x) && Barred(c, s0, x)
    ensures Barred(c, s0, EngineStep(c, x))
  {
    BarredMove(c, x);
  }

  lemma {:induction false} BarredMove(c: Config, x: State)
    requires Flow(c, x) && x.shutdown
    ensures var y := EngineStep(c, x);
            && y.shutdown && !y.pc.HalfPolled? && y.k <= |c.prog|
            && (y.k == x.k || (y.k == x.k + 1 && (c.prog[x.k].Push? || x.pc.HalfPolled?)))
  {
  }

  /** Shutdown ends the command at its next poll. */
  lemma {:induction false} AfterShutdown(c: Config, es: seq<Event>, more: seq<Event>)
    requires 0 < c.cap && Exec(c, es).shutdown
    ensures var s, x := Exec(c, es), Exec(c, es + more);
            s.k <= x.k <= |c.prog|
            && forall j :: s.k <= j < x.k ==> c.prog[j].Push? || (j == s.k && s.pc.HalfPolled?)
  {
    BarredAlways(c, es, more);
  }

  lemma {:induction false} BarredAlways(c: Config, es: seq<Event>, more: seq<Event>)
    requires 0 < c.cap && Exec(c, es).shutdown
    ensures Barred(c, Exec(c, es), Exec(c, es + more))
  {
    if more == [] {
      assert es + [] == es;
      FlowAlways(c, es);
    } else {
      var init, e := more[..|more| - 1], more[|more| - 1];
      BarredAlways(c, es, init);
      assert more == init + [e];
      Assoc(es, init, [e]);
      ExecSnoc(c, es + init, e);
      FlowAlways(c, es + init);
      BarredStep(c, Exec(c, es), Exec(c, es + init), e);
    }
  }

  /** Undisturbed, a command ends with everything delivered or buffered. */
  lemma {:induction false} UnaskedCompletes(c: Config, es: seq<Event>)
    requires 0 < c.cap && !Asked(es)
    ensures Exec(c, es).pc.Leaving? || Exec(c, es).pc.Gone? ==> Carried(Exec(c, es)) == Chunks(c.prog)
  {
    FlowAlways(c, es);
    OnlyWhenAsked(c, es);
  }

  /** A chunk is lost at step i: the stream is finished while its ring is full. */
  ghost predicate LosesAt(c: Config, es: seq<Event>, i: nat)
    requires 0 < c.cap && i < |es|
  {
    es[i].Engine? && Exec(c, es[..i]).pc.Aborting? && |Exec(c, es[..i]).content| == c.cap
  }

  ghost predicate Loses(c: Config, es: seq<Event>)
    requires 0 < c.cap
  {
    exists i: nat :: i < |es| && LosesAt(c, es, i)
  }

  lemma {:induction false} LosesSnoc(c: Config, es: seq<Event>, e: Event)
    requires 0 < c.cap
    ensures Loses(c, es + [e])
       <==> Loses(c, es) || (e.Engine? && Exec(c, es).pc.Aborting? && |Exec(c, es).content| == c.cap)
  {
    var all := es + [e];
    assert all[..|es|] == es;
    forall i: nat | i < |es|
      ensures LosesAt(c, all, i) <==> LosesAt(c, es, i)
    {
      assert all[..i] == es[..i];
    }
    assert LosesAt(c, all, |es|) <==> e.Engine? && Exec(c, es).pc.Aborting? && |Exec(c, es).content| == c.cap;
  }

  /** What a cut stream has carried: the pushes made, short of the newest if and only if the ring was
      full when it was finished, and CANCELLED. */
  lemma {:induction false} CutCarries(c: Config, es: seq<Event>)
    requires 0 < c.cap && Exec(c, es).end.Cut?
    ensures var s := Exec(c, es);
            && s.k <= |c.prog|
            && Carried(s) == (if Loses(c, es) then DropLast(Chunks(c.prog[..s.k])) else Chunks(c.prog[..s.k])) + [Done(Cancelled)]
  {
    FlowAlways(c, es);
    LossIff(c, es);
  }

  lemma {:induction false} LossIff(c: Config, es: seq<Event>)
    requires 0 < c.cap
    ensures Exec(c, es).end == Cut(true) <==> Loses(c, es)
  {
    if es != [] {
      var init, e := es[..|es| - 1], es[|es| - 1];
      LossIff(c, init);
      FlowAlways(c, init);
      LosesSnoc(c, init, e);
      assert init + [e] == es;
      LossStep(c, Exec(c, init), e);
    }
  }

  lemma {:induction false} LossStep(c: Config, s: State, e: Event)
    requires 0 < c.cap && |s.content| <= c.cap && (!s.end.Open? ==> s.pc.Leaving? || s.pc.Gone?)
    ensures Step(c, s, e).end == Cut(true) <==>
              s.end == Cut(true) || (e.Engine? && s.pc.Aborting? && |s.content| == c.cap)
  {
    match e
    case Engine =>
    case Reject =>
    case Consume =>
    case Cancel =>
    case StoreShutdown =>
    case SignalSection =>
    case StopCommand =>
  }

  // ---------------------------------------------------------------- the stub path

  function TokenOps(ids: seq<int>): Program {
    if ids == [] then [] else TokenOps(ids[..|ids| - 1]) + [Poll(false), Push(Token(ids[|ids| - 1]), true)]
  }

  function Tokens(ids: seq<int>): (r: seq<Chunk>)
    ensures |r| == |ids| && forall i :: 0 <= i < |ids| ==> r[i] == Token(ids[i])
  {
    seq(|ids|, i requires 0 <= i < |ids| => Token(ids[i]))
  }

  /** How many ids the stub echoes; max may be negative. */
  function StubLimit(ids: seq<int>, max: int): (n: nat)
    ensures n <= |ids|
  {
    if max < 0 then 0 else if |ids| < max then |ids| else max
  }

  function StubReason(ids: seq<int>, max: int): Reason {
    if max < |ids| then Length else Stop
  }

  /** handle_generate_stub. */
  function StubProgram(ids: seq<int>, max: int): Program {
    TokenOps(ids[..StubLimit(ids, max)]) + [Push(Done(StubReason(ids, max)), true)]
  }

  lemma {:induction false} TokenChunks(ids: seq<int>)
    ensures Chunks(TokenOps(ids)) == Tokens(ids)
  {
    if ids != [] {
      var init, last := ids[..|ids| - 1], ids[|ids| - 1];
      TokenChunks(init);
      var two := [Poll(false), Push(Token(last), true)];
      ChunksAppend(TokenOps(init), two);
      assert two[..1] == [Poll(false)] && [Poll(false)][..0] == [];
      assert Chunks([Poll(false)]) == [] + [];
      assert Chunks(two) == Chunks([Poll(false)]) + [Token(last)];
      assert Tokens(ids) == Tokens(init) + [Token(last)];
    }
  }

  lemma {:induction false} StubChunks(ids: seq<int>, max: int)
    ensures Chunks(StubProgram(ids, max)) == Tokens(ids[..StubLimit(ids, max)]) + [Done(StubReason(ids, max))]
  {
    var last := [Push(Done(StubReason(ids, max)), true)];
    TokenChunks(ids[..StubLimit(ids, max)]);
    ChunksAppend(TokenOps(ids[..StubLimit(ids, max)]), last);
    assert last[..0] == [];
    assert Chunks(last) == [] + [Done(StubReason(ids, max))];
  }

  /** The stub path operation by operation: a look at shutdown before every token. */
  lemma {:induction false} StubShape(ids: seq<int>, max: int, i: nat)
    ensures var p, n := StubProgram(ids, max), StubLimit(ids, max);
            && |p| == 2 * n + 1 && p[2 * n].Push? && p[2 * n].strict
            && (i < n ==> p[2 * i] == Poll(false) && p[2 * i + 1] == Push(Token(ids[i]), true))
  {
    TokenOpsAt(ids[..StubLimit(ids, max)], i);
  }

  lemma {:induction false} TokenOpsAt(ids: seq<int>, i: nat)
    ensures var p := TokenOps(ids);
            |p| == 2 * |ids| && (i < |ids| ==> p[2 * i] == Poll(false) && p[2 * i + 1] == Push(Token(ids[i]), true))
  {
    if ids != [] {
      TokenOpsAt(ids[..|ids| - 1], i);
    }
  }

  lemma {:induction false} StubWellEnded(ids: seq<int>, max: int)
    ensures WellEnded(StubProgram(ids, max)) && Strict(StubProgram(ids, max))
  {
    TokenOpsShape(ids[..StubLimit(ids, max)]);
  }

  lemma {:induction false} TokenOpsShape(ids: seq<int>)
    ensures forall k :: 0 <= k < |TokenOps(ids)| && TokenOps(ids)[k].Push? ==>
              TokenOps(ids)[k].strict && !TokenOps(ids)[k].chunk.Done?
  {
    if ids != [] {
      TokenOpsShape(ids[..|ids| - 1]);
    }
  }

  /** An ended run of the stub path carried some of the ids, in order, and exactly one terminal.  STOP
      means that all of them are there and max allows it, LENGTH that max cut them off and max of them
      are there, CANCELLED that somebody asked for it. */
  ghost predicate StubOutcome(x: seq<Chunk>, es: seq<Event>, ids: seq<int>, max: int) {
    exists j: nat, r: Reason ::
      && j <= |ids| && (j > 0 ==> j <= max) && x == Tokens(ids[..j]) + [Done(r)]
      && (r.Stop? ==> j == |ids| <= max)
      && (r.Length? ==> max < |ids| && (j == max || (j == 0 && max < 0)))
      && (r.Cancelled? ==> Asked(es))
  }

  lemma {:induction false} StubAlways(cap: nat, ids: seq<int>, max: int, es: seq<Event>)
    requires 0 < cap
    ensures var s := Exec(Config(cap, StubProgram(ids, max)), es);
            s.pc.Leaving? || s.pc.Gone? ==> StubOutcome(Carried(s), es, ids, max)
  {
    var c := Config(cap, StubProgram(ids, max));
    StubWellEnded(ids, max);
    OutcomeAlways(c, es);
    if Exec(c, es).pc.Leaving? || Exec(c, es).pc.Gone? {
      StubFromOutcome(c, ids, max, es);
    }
  }

  lemma {:induction false} StubFromOutcome(c: Config, ids: seq<int>, max: int, es: seq<Event>)
    requires 0 < c.cap && c.prog == StubProgram(ids, max) && Strict(c.prog) && Outcome(c, es)
    ensures StubOutcome(Carried(Exec(c, es)), es, ids, max)
  {
    var x := Carried(Exec(c, es));
    if x == Chunks(c.prog) {
      StubChunks(ids, max);
      assert x == Tokens(ids[..StubLimit(ids, max)]) + [Done(StubReason(ids, max))];
    } else {
      var y :| y <= Chunks(c.prog) && NoDone(y) && x == y + [Done(Cancelled)];
      StubCut(ids, max, y);
      assert x == Tokens(ids[..|y|]) + [Done(Cancelled)];
    }
  }

  /** What a cut stub stream carries before its CANCELLED is some of the tokens. */
  lemma {:induction false} StubCut(ids: seq<int>, max: int, y: seq<Chunk>)
    requires y <= Chunks(StubProgram(ids, max)) && NoDone(y)
    ensures |y| <= StubLimit(ids, max) && y == Tokens(ids[..|y|])
  {
    StubChunks(ids, max);
    var n := StubLimit(ids, max);
    assert Chunks(StubProgram(ids, max))[n].Done?;
  }

  // ---------------------------------------------------------------- shutdown never strands the engine

  /** The pushes that a program makes before its first poll. */
  function Lead(p: Program): (n: nat)
    ensures n <= |p| && (forall k :: 0 <= k < n ==> p[k].Push?) && (n < |p| ==> p[n].Poll?)
  {
    if p == [] || p[0].Poll? then 0 else 1 + Lead(p[1..])
  }

  /** The engine thread sleeps in stream_push, every shutdown call has run to its end, and only the
      consumer could still wake it. */
  ghost predicate Stuck(c: Config, s: State) {
    s.pc.Waiting? && s.shutdown && s.signals == 0
  }

  /** Either shutdown came after the command was inflight, and then the signal cancels the stream,
      or it came before, and then the command has not got past its first poll.  A push sleeps only
      while the ring is full and the stream not cancelled. */
  ghost predicate Wakeable(c: Config, s: State) {
    && (s.signals > 0 ==> s.shutdown)
    && (s.pc.Running? || s.pc.Waiting? || s.pc.HalfPolled? || s.pc.Refusal? ==> s.inflight)
    && (s.pc.Queued? ==> s.k == 0 && s.content == [] && s.delivered == [] && !s.inflight && !s.late)
    && (s.inflight && s.shutdown && !s.late ==> s.signals > 0 || s.cancelled)
    && (s.late ==> s.shutdown && !s.pc.HalfPolled?)
    && (s.late && (s.pc.Running? || s.pc.Waiting?) ==> s.k <= Lead(c.prog) && |s.delivered| + |s.content| <= s.k)
    && (s.pc.Waiting? ==> Full(c, s) && !s.cancelled)
  }

  ghost predicate Full(c: Config, s: State) {
    s.k < |c.prog| && c.prog[s.k].Push? && |s.content| == c.cap
  }

  lemma {:induction false} WakeableStep(c: Config, s: State, e: Event)
    requires 0 < c.cap && |s.content| <= c.cap && Wakeable(c, s)
    ensures Wakeable(c, Step(c, s, e))
  {
    if e.Engine? {
      WakeableEngine(c, s);
    }
  }

  lemma {:induction false} WakeableEngine(c: Config, s: State)
    requires 0 < c.cap && |s.content| <= c.cap && Wakeable(c, s)
    ensures Wakeable(c, EngineStep(c, s))
  {
    if s.pc.Running? && s.k < |c.prog| && s.late {
      assert c.prog[s.k].Push? ==> s.k != Lead(c.prog);
    }
  }

  lemma {:induction false} WakeableAlways(c: Config, es: seq<Event>)
    requires 0 < c.cap
    ensures Wakeable(c, Exec(c, es))
  {
    if es != [] {
      WakeableAlways(c, es[..|es| - 1]);
      WakeableStep(c, Exec(c, es[..|es| - 1]), es[|es| - 1]);
    }
  }

  /** No wake-up is lost: a push sleeps only while the ring is full and the stream not cancelled, and
      after shutdown only if a signal is still ahead or the command began after the shutdown. */
  lemma {:induction false} NoLostWakeup(c: Config, es: seq<Event>)
    requires 0 < c.cap
    ensures var s := Exec(c, es);
            s.pc.Waiting? ==> |s.content| == c.cap && !s.cancelled && (s.shutdown ==> s.signals > 0 || s.late)
  {
    WakeableAlways(c, es);
  }

  /** If the ring has room for the leading pushes, no run strands the engine. */
  lemma {:induction false} NeverStuck(c: Config, es: seq<Event>)
    requires 0 < c.cap && Lead(c.prog) <= c.cap
    ensures !Stuck(c, Exec(c, es))
  {
    WakeableAlways(c, es);
    if Exec(c, es).shutdown && Exec(c, es).signals == 0 {
      NotBlocked(c, Exec(c, es));
    }
  }

  /** Under shutdown there is always room, or a cancellation. */
  lemma {:induction false} NotBlocked(c: Config, s: State)
    requires 0 < c.cap && Lead(c.prog) <= c.cap && Wakeable(c, s) && s.shutdown && s.signals == 0
    ensures !s.pc.Waiting? && (s.pc.Running? && Full(c, s) ==> s.cancelled)
  {
    assert (s.pc.Running? || s.pc.Waiting?) && s.late && s.k < |c.prog| && c.prog[s.k].Push? ==> s.k < Lead(c.prog);
  }

  function Repeat(e: Event, n: nat): (es: seq<Event>)
    ensures |es| == n
  {
    if n == 0 then [] else Repeat(e, n - 1) + [e]
  }

  /** If it has not, some run does: shutdown is signalled while the command is still queued, and the
      leading pushes fill the ring. */
  lemma {:induction false} LeadRun(c: Config, n: nat)
    requires 0 < c.cap && n <= c.cap && n <= Lead(c.prog)
    ensures var s := Exec(c, [StoreShutdown, SignalSection, Engine] + Repeat(Engine, n));
            && s.pc.Running? && s.k == n == |s.content| && !s.cancelled && s.shutdown && s.signals == 0
  {
    var pre := [StoreShutdown, SignalSection, Engine];
    var es := pre + Repeat(Engine, n);
    if n == 0 {
      assert es == pre;
      LeadStart(c);
    } else {
      LeadRun(c, n - 1);
      assert es[..|es| - 1] == pre + Repeat(Engine, n - 1);
    }
  }

  lemma {:induction false} LeadStart(c: Config)
    requires 0 < c.cap
    ensures Exec(c, [StoreShutdown, SignalSection, Engine]) ==
              Init().(pc := Running, inflight := true, late := true, shutdown := true)
  {
    var pre := [StoreShutdown, SignalSection, Engine];
    assert pre[..2] == [StoreShutdown, SignalSection];
    assert [StoreShutdown, SignalSection][..1] == [StoreShutdown] && [StoreShutdown][..0] == [];
    assert Exec(c, [StoreShutdown]) == Step(c, Init(), StoreShutdown);
    assert Exec(c, pre[..2]) == Step(c, Exec(c, [StoreShutdown]), SignalSection);
    assert Exec(c, pre) == Step(c, Exec(c, pre[..2]), Engine);
  }

  lemma {:induction false} StuckExists(c: Config)
    requires 0 < c.cap < Lead(c.prog)
    ensures exists es :: Stuck(c, Exec(c, es))
  {
    LeadRun(c, c.cap);
    var es := [StoreShutdown, SignalSection, Engine] + Repeat(Engine, c.cap);
    ExecSnoc(c, es, Engine);
    assert Stuck(c, Exec(c, es + [Engine]));
  }

  /** The exact condition. */
  lemma {:induction false} StuckIff(c: Config)
    requires 0 < c.cap
    ensures (forall es :: !Stuck(c, Exec(c, es))) <==> Lead(c.prog) <= c.cap
  {
    if Lead(c.prog) <= c.cap {
      forall es
        ensures !Stuck(c, Exec(c, es))
      {
        NeverStuck(c, es);
      }
    } else {
      StuckExists(c);
    }
  }

  /** An upper bound on the steps the engine thread still has to take for this command. */
  function Rank(c: Config, s: State): nat {
    var left := if s.k < |c.prog| then |c.prog| - s.k else 0;
    match s.pc
    case Queued => 2 * left + 5
    case Running => 2 * left + 4
    case Waiting => 2 * left + 4
    case HalfPolled => 2 * left + 3
    case Refusal => 3
    case Aborting => 2
    case Leaving => 1
    case Gone => 0
  }

  lemma {:induction false} RankDrops(c: Config, s: State)
    requires 0 < c.cap && |s.content| <= c.cap && (s.pc.HalfPolled? ==> s.k < |c.prog|)
    requires !s.pc.Waiting? && (s.pc.Running? && Full(c, s) ==> s.cancelled)
    ensures !s.pc.Gone? ==> Rank(c, EngineStep(c, s)) < Rank(c, s)
  {
    if s.pc.Running? {
      RunningDrops(c, s);
    } else if !s.pc.Gone? {
      OthersDrop(c, s);
    }
  }

  lemma {:induction false} OthersDrop(c: Config, s: State)
    requires 0 < c.cap && |s.content| <= c.cap && (s.pc.HalfPolled? ==> s.k < |c.prog|)
    requires !s.pc.Running? && !s.pc.Waiting? && !s.pc.Gone?
    ensures Rank(c, EngineStep(c, s)) < Rank(c, s)
  {
  }

  lemma {:induction false} RunningDrops(c: Config, s: State)
    requires 0 < c.cap && |s.content| <= c.cap && s.pc.Running? && (Full(c, s) ==> s.cancelled)
    ensures Rank(c, EngineStep(c, s)) < Rank(c, s)
  {
  }

  /** Once shutdown is signalled, the engine thread finishes the command by itself in a bounded number
      of steps, even if the consumer never reads. */
  lemma {:induction false} ShutdownDrains(c: Config, es: seq<Event>) returns (n: nat)
    requires 0 < c.cap && Lead(c.prog) <= c.cap
    requires Exec(c, es).shutdown && Exec(c, es).signals == 0
    ensures n <= Rank(c, Exec(c, es)) && Exec(c, es + Repeat(Engine, n)).pc.Gone?
    decreases Rank(c, Exec(c, es))
  {
    if Exec(c, es).pc.Gone? {
      n := 0;
      assert es + [] == es;
    } else {
      DrainStep(c, es);
      var m := ShutdownDrains(c, es + [Engine]);
      n := m + 1;
      RepeatShift(m);
      Assoc(es, [Engine], Repeat(Engine, m));
    }
  }

  lemma {:induction false} DrainStep(c: Config, es: seq<Event>)
    requires 0 < c.cap && Lead(c.prog) <= c.cap
    requires Exec(c, es).shutdown && Exec(c, es).signals == 0 && !Exec(c, es).pc.Gone?
    ensures Rank(c, Exec(c, es + [Engine])) < Rank(c, Exec(c, es))
    ensures Exec(c, es + [Engine]).shutdown && Exec(c, es + [Engine]).signals == 0
  {
    FlowAlways(c, es);
    WakeableAlways(c, es);
    NotBlocked(c, Exec(c, es));
    RankDrops(c, Exec(c, es));
    ExecEngine(c, es);
  }

  lemma {:induction false} ExecEngine(c: Config, es: seq<Event>)
    requires 0 < c.cap
    ensures Exec(c, es + [Engine]) == EngineStep(c, Exec(c, es))
    ensures Exec(c, es + [Engine]).shutdown == Exec(c, es).shutdown && Exec(c, es + [Engine]).signals == Exec(c, es).signals
    ensures Exec(c, es).cancelled ==> Exec(c, es + [Engine]).cancelled
  {
    ExecSnoc(c, es, Engine);
    EngineKeeps(c, Exec(c, es));
  }

  lemma {:induction false} EngineKeeps(c: Config, s: State)
    requires 0 < c.cap && |s.content| <= c.cap
    ensures EngineStep(c, s).shutdown == s.shutdown && EngineStep(c, s).signals == s.signals
    ensures EngineStep(c, s).stopped == s.stopped
    ensures s.cancelled ==> EngineStep(c, s).cancelled
  {
  }

  lemma {:induction false} RepeatShift(m: nat)
    ensures [Engine] + Repeat(Engine, m) == Repeat(Engine, m + 1)
  {
    if m > 0 {
      RepeatShift(m - 1);
      assert [Engine] + (Repeat(Engine, m - 1) + [Engine]) == ([Engine] + Repeat(Engine, m - 1)) + [Engine];
    }
  }

  /** Once the stream is cancelled, the engine thread finishes the command by itself in a bounded number
      of steps, even if the consumer never reads, whatever the capacity. */
  lemma {:induction false} CancelDrains(c: Config, es: seq<Event>) returns (n: nat)
    requires 0 < c.cap && Exec(c, es).cancelled
    ensures n <= Rank(c, Exec(c, es)) && Exec(c, es + Repeat(Engine, n)).pc.Gone?
    decreases Rank(c, Exec(c, es))
  {
    if Exec(c, es).pc.Gone? {
      n := 0;
      assert es + [] == es;
    } else {
      FlowAlways(c, es);
      WakeableAlways(c, es);
      RankDrops(c, Exec(c, es));
      ExecEngine(c, es);
      var m := CancelDrains(c, es + [Engine]);
      n := m + 1;
      RepeatShift(m);
      Assoc(es, [Engine], Repeat(Engine, m));
    }
  }

  /** A consumer that takes a chunk before every step of the engine thread. */
  function Rounds(n: nat): seq<Event> {
    if n == 0 then [] else [Consume, Engine] + Rounds(n - 1)
  }

  /** Rounds that are enough. */
  function ReadRank(c: Config, s: State): nat {
    if s.pc.Gone? then |s.content| else Rank(c, s) + c.cap
  }

  lemma {:induction false} RoundRank(c: Config, s: State)
    requires 0 < c.cap && Flow(c, s) && Wakeable(c, s) && ReadRank(c, s) > 0
    ensures ReadRank(c, EngineStep(c, Step(c, s, Consume))) < ReadRank(c, s)
  {
    var mid := Step(c, s, Consume);
    assert Rank(c, mid) == Rank(c, s);
    if !s.pc.Gone? {
      RankDrops(c, mid);
    }
  }

  lemma ExecRound(c: Config, es: seq<Event>)
    requires 0 < c.cap
    ensures Exec(c, es + [Consume, Engine]) == EngineStep(c, Step(c, Exec(c, es), Consume))
  {
    ExecSnoc(c, es, Consume);
    ExecSnoc(c, es + [Consume], Engine);
    assert (es + [Consume]) + [Engine] == es + [Consume, Engine];
  }

  lemma {:induction false} ReadStep(c: Config, es: seq<Event>)
    requires 0 < c.cap && ReadRank(c, Exec(c, es)) > 0
    ensures ReadRank(c, Exec(c, es + [Consume, Engine])) < ReadRank(c, Exec(c, es))
  {
    FlowAlways(c, es);
    WakeableAlways(c, es);
    RoundRank(c, Exec(c, es));
    ExecRound(c, es);
  }

  lemma ReadOut(c: Config, s: State)
    ensures ReadRank(c, s) == 0 ==> s.pc.Gone? && Carried(s) == s.delivered
  {
  }

  /** With a consumer that reads, every command ends and its stream is read to the end, in a bounded
      number of rounds. */
  lemma {:induction false} ReadToTheEnd(c: Config, es: seq<Event>) returns (n: nat)
    requires 0 < c.cap
    ensures n <= ReadRank(c, Exec(c, es))
    ensures Exec(c, es + Rounds(n)).pc.Gone? && Carried(Exec(c, es + Rounds(n))) == Exec(c, es + Rounds(n)).delivered
  {
    var left := (xs: seq<Event>) => ReadRank(c, Exec(c, xs));
    forall xs: seq<Event>
      ensures left(xs) > 0 ==> left(xs + [Consume, Engine]) < left(xs)
    {
      if left(xs) > 0 {
        ReadStep(c, xs);
      }
    }
    n := Descend(left, es);
    ReadOut(c, Exec(c, es + Rounds(n)));
  }

  /** What every round lowers, rounds bring to 0. */
  lemma {:induction false} Descend(left: seq<Event> -> nat, es: seq<Event>) returns (n: nat)
    requires forall xs {:trigger left(xs + [Consume, Engine])} :: left(xs) > 0 ==> left(xs + [Consume, Engine]) < left(xs)
    ensures n <= left(es) && left(es + Rounds(n)) == 0
    decreases left(es)
  {
    if left(es) == 0 {
      n := 0;
      NoRounds(es);
    } else {
      assert left(es + [Consume, Engine]) < left(es);
      var m := Descend(left, es + [Consume, Engine]);
      n := m + 1;
      OneRound(es, m);
    }
  }

  lemma NoRounds(es: seq<Event>)
    ensures es + Rounds(0) == es
  {
  }

  lemma OneRound(es: seq<Event>, m: nat)
    ensures (es + [Consume, Engine]) + Rounds(m) == es + Rounds(m + 1)
  {
  }

  /** If nobody interferes it delivers exactly the chunks of its path. */
  lemma {:induction false} DeliversAll(c: Config, es: seq<Event>) returns (n: nat)
    requires 0 < c.cap && !Asked(es)
    ensures n <= ReadRank(c, Exec(c, es))
    ensures Exec(c, es + Rounds(n)).pc.Gone? && Exec(c, es + Rounds(n)).delivered == Chunks(c.prog)
  {
    n := ReadToTheEnd(c, es);
    RoundsAskNothing(es, n);
    UnaskedCompletes(c, es + Rounds(n));
  }

  lemma {:induction false} RoundsAskNothing(es: seq<Event>, n: nat)
    requires !Asked(es)
    ensures !Asked(es + Rounds(n))
    decreases n
  {
    if n == 0 {
      NoRounds(es);
    } else {
      RoundsAskNothing(es + [Consume, Engine], n - 1);
      OneRound(es, n - 1);
    }
  }

  /** A command that is turned away from the queue gets a stream of nothing but CANCELLED. */
  lemma {:induction false} RejectedIsCancelled(c: Config, es: seq<Event>)
    requires 0 < c.cap && Exec(c, es).pc.Queued? && (StoreShutdown in es || StopCommand in es)
    ensures var x := Exec(c, es + [Reject] + [Engine] + [Engine]);
            x.pc.Gone? && Carried(x) == [Done(Cancelled)]
  {
    FlowAlways(c, es);
    assert c.prog[..0] == [];
    TurnedAway(c, es);
    ExecSnoc(c, es, Reject);
    ExecSnoc(c, es + [Reject], Engine);
    ExecSnoc(c, es + [Reject] + [Engine], Engine);
    RejectStep(c, Exec(c, es));
    AbortStep(c, Exec(c, es + [Reject]));
    LeaveStep(c, Exec(c, es + [Reject] + [Engine]));
  }

  lemma RejectStep(c: Config, s: State)
    requires 0 < c.cap && |s.content| <= c.cap && s.pc.Queued? && (s.shutdown || s.stopped)
    ensures Step(c, s, Reject) == s.(pc := Aborting)
  {
  }

  lemma {:induction false} AbortStep(c: Config, s: State)
    requires 0 < c.cap && |s.content| <= c.cap && s.pc.Aborting? && Carried(s) == []
    ensures EngineStep(c, s).pc.Leaving? && Carried(EngineStep(c, s)) == [Done(Cancelled)]
  {
    assert s.content == [] && s.delivered == [];
  }

  lemma LeaveStep(c: Config, s: State)
    requires 0 < c.cap && |s.content| <= c.cap && s.pc.Leaving?
    ensures EngineStep(c, s).pc.Gone? && Carried(EngineStep(c, s)) == Carried(s)
  {
  }

  lemma {:induction false} TurnedAway(c: Config, es: seq<Event>)
    requires 0 < c.cap && (StoreShutdown in es || StopCommand in es)
    ensures Exec(c, es).shutdown || Exec(c, es).stopped
  {
    var init, e := es[..|es| - 1], es[|es| - 1];
    assert es == init + [e];
    if StoreShutdown in init || StopCommand in init {
      TurnedAway(c, init);
      if e.Engine? {
        EngineKeeps(c, Exec(c, init));
      }
    }
  }

  // ---------------------------------------------------------------- the other paths of engine.c

  /** generate_fail, and the model-not-loaded branch of handle_generate. */
  function FailProgram(): Program {
    [Push(Error, false), Push(Done(Stop), false)]
  }

  datatype RealEnd = Eos | Limit | Broken

  /** handle_generate_real: rejected at once; nothing to do; the forward of a chunk or of the seed
      failing after `chunks` good chunks; or prefill, seed and decode. */
  datatype Real =
    | Rejected
    | Empty
    | Failed(chunks: nat)
    | Decode(prefill: nat, tokens: seq<int>, end: RealEnd)

  function Polls(n: nat): Program {
    if n == 0 then [] else [Poll(true), Poll(true)] + Polls(n - 1)
  }

  function DecodeOps(ids: seq<int>): Program {
    if ids == [] then [] else [Poll(true), Poll(true), Push(Token(ids[0]), true)] + DecodeOps(ids[1..])
  }

  function Closing(end: RealEnd): Program {
    match end
    case Eos => [Poll(true), Poll(true), Push(Done(Stop), true)]
    case Limit => [Push(Done(Length), true)]
    case Broken => [Poll(true), Poll(true)] + FailProgram()
  }

  function RealProgram(r: Real): Program {
    match r
    case Rejected => FailProgram()
    case Empty => [Push(Done(Stop), true)]
    case Failed(chunks) => Polls(chunks + 1) + FailProgram()
    case Decode(prefill, ids, end) => Polls(prefill + 1) + DecodeOps(ids) + Closing(end)
  }

  /** Capacity 1 is enough for the stub path, capacity 2 for every other path, and capacity 1 is not
      enough for the failing ones. */
  lemma {:induction false} PathCapacities(ids: seq<int>, max: int, r: Real)
    ensures Lead(StubProgram(ids, max)) <= 1
    ensures Lead(FailProgram()) == 2
    ensures Lead(RealProgram(r)) <= 2
  {
    var n := StubLimit(ids, max);
    if n > 0 {
      TokenOpsPoll(ids[..n]);
    } else {
      var last := [Push(Done(StubReason(ids, max)), true)];
      assert StubProgram(ids, max) == last && last[1..] == [];
      assert Lead(last) == 1 + Lead(last[1..]);
    }
    var fail := FailProgram();
    assert fail[1..] == [Push(Done(Stop), false)] && fail[1..][1..] == [];
    assert Lead(fail) == 1 + Lead(fail[1..]) && Lead(fail[1..]) == 1 + Lead(fail[1..][1..]);
    if r.Empty? {
      assert RealProgram(r)[1..] == [];
      assert Lead(RealProgram(r)) == 1 + Lead(RealProgram(r)[1..]);
    } else if !r.Rejected? {
      assert RealProgram(r)[0] == Poll(true);
    }
  }

  lemma {:induction false} TokenOpsPoll(ids: seq<int>)
    requires ids != []
    ensures TokenOps(ids) != [] && TokenOps(ids)[0].Poll?
  {
    if |ids| > 1 {
      TokenOpsPoll(ids[..|ids| - 1]);
    } else {
      assert ids[..0] == [];
    }
  }

  // ---------------------------------------------------------------- what the real path carries

  function RealIds(r: Real): seq<int> {
    if r.Decode? then r.tokens else []
  }

  /** The paths that end in generate_fail. */
  predicate Fails(r: Real) {
    r.Rejected? || r.Failed? || (r.Decode? && r.end.Broken?)
  }

  function LastChunks(r: Real): seq<Chunk> {
    if Fails(r) then [Error, Done(Stop)]
    else if r.Decode? && r.end.Limit? then [Done(Length)]
    else [Done(Stop)]
  }

  /** The operations after the last token. */
  function Ending(r: Real): Program {
    match r
    case Rejected => FailProgram()
    case Empty => [Push(Done(Stop), true)]
    case Failed(_) => FailProgram()
    case Decode(_, _, end) => Closing(end)
  }

  function Opening(r: Real): Program {
    match r
    case Rejected => []
    case Empty => []
    case Failed(chunks) => Polls(chunks + 1)
    case Decode(prefill, ids, _) => Polls(prefill + 1) + DecodeOps(ids)
  }

  lemma {:induction false} PollsCarry(n: nat)
    ensures Chunks(Polls(n)) == [] && forall k :: 0 <= k < |Polls(n)| ==> Polls(n)[k].Poll?
  {
    if n > 0 {
      PollsCarry(n - 1);
      var two: Program := [Poll(true), Poll(true)];
      ChunksAppend(two, Polls(n - 1));
      assert two[..1] == [Poll(true)] && two[..1][..0] == [];
    }
  }

  /** Nothing that ends the stream or may give up. */
  ghost predicate Plain(p: Program) {
    forall k :: 0 <= k < |p| && p[k].Push? ==> p[k].strict && !p[k].chunk.Done?
  }

  lemma {:induction false} DecodeCarries(ids: seq<int>)
    ensures Chunks(DecodeOps(ids)) == Tokens(ids) && Plain(DecodeOps(ids))
    decreases |ids|
  {
    if ids != [] {
      DecodeCarries(ids[1..]);
      var three: Program := [Poll(true), Poll(true), Push(Token(ids[0]), true)];
      ChunksAppend(three, DecodeOps(ids[1..]));
      PollsCarry(1);
      assert three[..2] == Polls(1);
      assert Chunks(three) == [] + [Token(ids[0])];
      assert Tokens(ids) == [Token(ids[0])] + Tokens(ids[1..]);
    }
  }

  lemma {:induction false} OpeningCarries(r: Real)
    ensures Chunks(Opening(r)) == Tokens(RealIds(r)) && Plain(Opening(r))
  {
    if r.Failed? {
      PollsCarry(r.chunks + 1);
    } else if r.Decode? {
      DecodeOpening(r.prefill, r.tokens);
    }
  }

  lemma {:induction false} DecodeOpening(prefill: nat, ids: seq<int>)
    ensures var p := Polls(prefill + 1) + DecodeOps(ids); Chunks(p) == Tokens(ids) && Plain(p)
  {
    var a, b := Polls(prefill + 1), DecodeOps(ids);
    PollsCarry(prefill + 1);
    DecodeCarries(ids);
    ChunksAppend(a, b);
    assert Chunks(a + b) == [] + Chunks(b);
    forall k | 0 <= k < |a + b| && (a + b)[k].Push?
      ensures (a + b)[k].strict && !(a + b)[k].chunk.Done?
    {
      assert k >= |a| && (a + b)[k] == b[k - |a|];
    }
  }

  lemma {:induction false} Joined(r: Real)
    ensures RealProgram(r) == Opening(r) + Ending(r)
  {
  }

  lemma {:induction false} OneCarries(o: Op)
    requires o.Push?
    ensures Chunks([o]) == [o.chunk]
  {
    assert [o][..0] == [];
    assert Chunks([o]) == [] + [o.chunk];
  }

  lemma {:induction false} FailCarries()
    ensures var p := FailProgram();
            && Chunks(p) == [Error, Done(Stop)] && WellEnded(p) && Chunks(p[..0]) == [] && Chunks(p[..1]) == [Error]
  {
    var p := FailProgram();
    assert p[..1] == [p[0]] && p[..2] == p;
    OneCarries(p[0]);
    ChunksStep(p, 1);
  }

  lemma {:induction false} PollsFirst(q: Program)
    requires WellEnded(q)
    ensures var p := [Poll(true), Poll(true)] + q;
            && Chunks(p) == Chunks(q) && WellEnded(p)
            && forall k: nat :: QuitsAt(p, k) ==> k >= 2 && QuitsAt(q, k - 2) && Chunks(p[..k]) == Chunks(q[..k - 2])
  {
    var two: Program := [Poll(true), Poll(true)];
    var p := two + q;
    PollsCarry(1);
    assert Polls(1) == two;
    ChunksAppend(two, q);
    forall k: nat | QuitsAt(p, k)
      ensures k >= 2 && QuitsAt(q, k - 2) && Chunks(p[..k]) == Chunks(q[..k - 2])
    {
      assert p[..k] == two + q[..k - 2];
      ChunksAppend(two, q[..k - 2]);
    }
  }

  lemma {:induction false} EndingCarries(r: Real)
    ensures Chunks(Ending(r)) == LastChunks(r) && WellEnded(Ending(r))
    ensures !Fails(r) ==> Strict(Ending(r))
    ensures forall k: nat :: QuitsAt(Ending(r), k) ==>
              Fails(r) && (Chunks(Ending(r)[..k]) == [] || Chunks(Ending(r)[..k]) == [Error])
  {
    FailCarries();
    OneCarries(Push(Done(Stop), true));
    OneCarries(Push(Done(Length), true));
    if r.Decode? && r.end.Eos? {
      var q: Program := [Push(Done(Stop), true)];
      PollsFirst(q);
      assert Strict(q) && Ending(r) == [Poll(true), Poll(true)] + q;
    } else if r.Decode? && r.end.Broken? {
      PollsFirst(FailProgram());
    }
  }

  lemma {:induction false} JoinCarries(a: Program, b: Program)
    requires Plain(a) && WellEnded(b)
    ensures WellEnded(a + b) && Chunks(a + b) == Chunks(a) + Chunks(b)
    ensures forall k: nat :: QuitsAt(a + b, k) ==>
              k >= |a| && QuitsAt(b, k - |a|) && Chunks((a + b)[..k]) == Chunks(a) + Chunks(b[..k - |a|])
    ensures forall k: nat :: QuitsAt(b, k) ==> QuitsAt(a + b, |a| + k)
  {
    ChunksAppend(a, b);
    forall k: nat | QuitsAt(a + b, k)
      ensures k >= |a| && QuitsAt(b, k - |a|) && Chunks((a + b)[..k]) == Chunks(a) + Chunks(b[..k - |a|])
    {
      assert k >= |a|;
      assert (a + b)[..k] == a + b[..k - |a|];
      ChunksAppend(a, b[..k - |a|]);
    }
  }

  lemma {:induction false} RealCarries(r: Real)
    ensures Chunks(RealProgram(r)) == Tokens(RealIds(r)) + LastChunks(r)
    ensures WellEnded(RealProgram(r)) && (Strict(RealProgram(r)) <==> !Fails(r))
    ensures forall k: nat :: QuitsAt(RealProgram(r), k) ==>
              Fails(r) && exists tail :: (tail == [] || tail == [Error]) && Chunks(RealProgram(r)[..k]) == Tokens(RealIds(r)) + tail
  {
    var a, b := Opening(r), Ending(r);
    Joined(r);
    OpeningCarries(r);
    EndingCarries(r);
    JoinCarries(a, b);
    if Fails(r) {
      var k: nat := |b| - 1;
      assert QuitsAt(b, k) && QuitsAt(a + b, |a| + k);
    }
    forall k: nat | QuitsAt(a + b, k)
      ensures Fails(r) && exists tail :: (tail == [] || tail == [Error]) && Chunks((a + b)[..k]) == Tokens(RealIds(r)) + tail
    {
      assert QuitsAt(b, k - |a|);
      var tail := Chunks(b[..k - |a|]);
      assert tail == [] || tail == [Error];
    }
  }

  /** The real path operation by operation: two polls before each forward of the prefill and of the seed,
      and two before each sampled token. */
  lemma {:induction false} RealShape(r: Real, i: nat)
    ensures r.Failed? ==> var p := RealProgram(r);
            && |p| == 2 * (r.chunks + 1) + 2
            && (i < 2 * (r.chunks + 1) ==> p[i] == Poll(true))
    ensures r.Decode? ==> var p, a, n := RealProgram(r), 2 * (r.prefill + 1), |r.tokens|;
            && |p| == a + 3 * n + (match r.end case Eos => 3 case Limit => 1 case Broken => 4)
            && (i < a ==> p[i] == Poll(true))
            && (i < n ==> p[a + 3 * i] == p[a + 3 * i + 1] == Poll(true) && p[a + 3 * i + 2] == Push(Token(r.tokens[i]), true))
            && (!r.end.Limit? ==> p[a + 3 * n] == p[a + 3 * n + 1] == Poll(true))
  {
    if r.Failed? {
      PollsAt(r.chunks + 1, i);
    } else if r.Decode? {
      PollsAt(r.prefill + 1, i);
      DecodeOpsAt(r.tokens, i);
    }
  }

  lemma {:induction false} PollsAt(n: nat, i: nat)
    ensures |Polls(n)| == 2 * n && (i < 2 * n ==> Polls(n)[i] == Poll(true))
  {
    if n > 0 {
      PollsAt(n - 1, if i < 2 then 0 else i - 2);
    }
  }

  lemma {:induction false} DecodeOpsAt(ids: seq<int>, i: nat)
    ensures var p := DecodeOps(ids);
            && |p| == 3 * |ids|
            && (i < |ids| ==> p[3 * i] == p[3 * i + 1] == Poll(true) && p[3 * i + 2] == Push(Token(ids[i]), true))
    decreases |ids|
  {
    if ids != [] {
      DecodeOpsAt(ids[1..], if i == 0 then 0 else i - 1);
    }
  }

  /** An ended run of the real path carried some of the generated ids, in order, and then: STOP after an
      end token or with nothing to do, LENGTH at the limit, ERROR and STOP on a failing path, in each
      case with no id missing; a CANCELLED that somebody asked for, on a failing path perhaps after its
      ERROR; or, on a failing path only, nothing more, because it gave up. */
  ghost predicate RealOutcome(c: Config, r: Real, es: seq<Event>)
    requires 0 < c.cap
  {
    var ids, x := if r.Decode? then r.tokens else [], Carried(Exec(c, es));
    var fails := r.Rejected? || r.Failed? || (r.Decode? && r.end.Broken?);
    || (x == Tokens(ids) + [Done(Stop)] && (r.Empty? || (r.Decode? && r.end.Eos?)))
    || (x == Tokens(ids) + [Done(Length)] && r.Decode? && r.end.Limit?)
    || (x == Tokens(ids) + [Error, Done(Stop)] && fails)
    || (Asked(es) && exists j: nat :: j <= |ids| && x == Tokens(ids[..j]) + [Done(Cancelled)])
    || (Asked(es) && fails && x == Tokens(ids) + [Error] + [Done(Cancelled)])
    || (GaveUp(c, es) && fails && (x == Tokens(ids) || x == Tokens(ids) + [Error]))
  }

  lemma {:induction false} RealCut(r: Real, y: seq<Chunk>)
    requires y <= Tokens(RealIds(r)) + LastChunks(r) && NoDone(y)
    ensures (|y| <= |RealIds(r)| && y == Tokens(RealIds(r)[..|y|])) || (Fails(r) && y == Tokens(RealIds(r)) + [Error])
  {
    var ids, last := RealIds(r), LastChunks(r);
    var all := Tokens(ids) + last;
    assert all[|all| - 1].Done? && |y| < |all|;
    if |y| > |ids| {
      assert Fails(r) && |y| == |ids| + 1;
      assert y == all[..|y|] == Tokens(ids) + [Error];
    } else {
      assert y == all[..|y|];
    }
  }

  lemma {:induction false} RealAlways(cap: nat, r: Real, es: seq<Event>)
    requires 0 < cap
    ensures var c := Config(cap, RealProgram(r));
            Exec(c, es).pc.Leaving? || Exec(c, es).pc.Gone? ==> RealOutcome(c, r, es)
  {
    var c := Config(cap, RealProgram(r));
    RealCarries(r);
    OutcomeAlways(c, es);
    var s := Exec(c, es);
    if (s.pc.Leaving? || s.pc.Gone?) && Carried(s) != Chunks(c.prog) {
      if exists k: nat :: GaveUp(c, es) && QuitsAt(c.prog, k) && Carried(s) == Chunks(c.prog[..k]) {
        var k: nat :| GaveUp(c, es) && QuitsAt(c.prog, k) && Carried(s) == Chunks(c.prog[..k]);
        var tail :| (tail == [] || tail == [Error]) && Chunks(c.prog[..k]) == Tokens(RealIds(r)) + tail;
        assert Tokens(RealIds(r)) + [] == Tokens(RealIds(r));
      } else {
        var y :| y <= Chunks(c.prog) && NoDone(y) && Carried(s) == y + [Done(Cancelled)];
        RealCut(r, y);
      }
    }
  }

  /** The real path always ends with exactly one terminal unless it is one of the failing ones. */
  lemma {:induction false} RealTerminalIff(cap: nat, r: Real)
    requires 0 < cap
    ensures (forall es :: EndsWithOneTerminal(Config(cap, RealProgram(r)), es)) <==> !Fails(r)
  {
    RealCarries(r);
    TerminalIff(Config(cap, RealProgram(r)));
  }

  /** Such runs exist: "always one DONE" is false on the error path. */
  lemma {:induction false} ErrorPathWithoutTerminal(cap: nat) returns (es: seq<Event>)
    requires 0 < cap
    ensures var s := Exec(Config(cap, FailProgram()), es); s.pc.Gone? && Carried(s) == []
  {
    var c := Config(cap, FailProgram());
    var e1 := [Cancel];
    var e2 := e1 + [Engine];
    var e3 := e2 + [Engine];
    var e4 := e3 + [Engine];
    es := e4 + [Engine];
    assert e1[..0] == [] && e2[..1] == e1 && e3[..2] == e2 && e4[..3] == e3 && es[..4] == e4;
    assert Exec(c, e1) == Step(c, Init(), Cancel);
    assert Exec(c, e2) == EngineStep(c, Exec(c, e1));
    assert Exec(c, e3) == EngineStep(c, Exec(c, e2));
    assert Exec(c, e4) == EngineStep(c, Exec(c, e3));
    assert Exec(c, es) == EngineStep(c, Exec(c, e4));
  }
}
