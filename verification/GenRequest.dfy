/** The life of one HTTP generation request (gen_request.c): drained on the loop thread, notified
    from the engine thread, torn down when the engine has let go of the stream; with everything it
    writes to its connection.

    Every event of the loop thread and every critical section of the engine thread is a step; the
    notify callback that stream_push captured under the lock runs as a step of its own after the
    unlock.  A run is any sequence of events. */
module GenRequest {
  import opened SeqOps

  // ---------------------------------------------------------------- what goes to the connection

  datatype Payload = Role | Delta | Final | Usage | DoneMark | ErrorEvent | Body(status: nat)

  /** http_conn_write, whose flag asks to close the connection afterwards, and http_conn_close. */
  datatype Out = Write(what: Payload, closeAfter: bool) | Shut

  predicate Closes(o: Out) {
    o.Shut? || o.closeAfter
  }

  /** The last entry closes the connection, and no other does. */
  ghost predicate EndsOnce(out: seq<Out>) {
    && out != [] && Closes(out[|out| - 1])
    && forall i :: 0 <= i < |out| - 1 ==> !Closes(out[i])
  }

  ghost predicate NeverCloses(out: seq<Out>) {
    forall i :: 0 <= i < |out| ==> !Closes(out[i])
  }

  /** How the calls that can fail, or whose result is not this file's doing, turn out in one event. */
  datatype Luck = Luck(
    detok: bool,       // detok_feed succeeds
    text: bool,        // and yields text
    chunk: bool,       // the delta event is built
    append: bool,      // accum_append succeeds
    logprob: bool,     // the array of log-probabilities has room or grows
    congested: bool,   // the write queue is above the high-water mark
    flush: bool,       // detok_flush succeeds
    rest: bool,        // and yields text
    flushed: bool,     // the event for that text is built
    role: bool,        // the role event is built
    final: bool,       // the finish event is built
    usage: bool,       // the usage event is built
    done: bool,        // the "[DONE]" line is built
    error: bool,       // the error event is built
    document: bool,    // the error document is built
    json: bool,        // the JSON text is built
    wire: bool)        // the response around it is built

  // ---------------------------------------------------------------- the request

  datatype Phase = Running | Closing | Freed

  /** The connection as the request sees it. */
  datatype Conn = Attached | Gone | Closed

  datatype Kind = Kind(sse: bool, chat: bool, usage: bool, logprobs: bool)

  /** The fields of gen_request_t that decide its life, and the log of its output. */
  datatype Req = Req(
    kind: Kind,
    phase: Phase,
    conn: Conn,
    suppress: bool,         // suppress_writes
    roleSent: bool,
    log: seq<Out>,
    timer: bool,            // timer_inited; it then ticks until begin_close
    notify: bool,           // on_push is set
    streamRef: bool,        // the request still holds its reference
    pendingCloses: nat,
    begins: nat,            // calls of begin_close that had an effect
    frees: nat,
    terminal: bool)         // a terminal chunk, or an error that ends the response, was processed

  function NewReq(kind: Kind): Req {
    Req(kind, Running, Attached, false, false, [], false, true, true, 0, 0, 0, false)
  }

  // ---------------------------------------------------------------- teardown

  function BeginCloseR(r: Req): Req {
    r.(phase := Closing, notify := false, streamRef := false,
       pendingCloses := if r.timer then 2 else 1, begins := r.begins + 1)
  }

  function TryTeardownR(r: Req, soleOwner: bool): Req {
    if r.phase != Running then r
    else if soleOwner then BeginCloseR(r)
    else r.(timer := true)
  }

  function ConnGoneR(r: Req, soleOwner: bool): Req {
    TryTeardownR(r.(conn := Gone), soleOwner)
  }

  function TimerR(r: Req, soleOwner: bool): Req {
    if r.phase == Running && soleOwner then BeginCloseR(r) else r
  }

  function CloseCallbackR(r: Req): Req
    requires r.pendingCloses > 0
  {
    var n := r.pendingCloses - 1;
    if n == 0 then r.(pendingCloses := 0, phase := Freed, frees := r.frees + 1) else r.(pendingCloses := n)
  }

  // ---------------------------------------------------------------- output

  function When(b: bool, what: Payload): seq<Out> {
    if b then [Write(what, false)] else []
  }

  function LastLine(l: Luck): seq<Out> {
    [if l.done then Write(DoneMark, true) else Shut]
  }

  /** The text that the detokenizer still held carries the role if nothing has yet. */
  function FlushOut(r: Req, l: Luck): seq<Out> {
    When(l.rest && l.flushed, if r.kind.chat && !r.roleSent then Role else Delta)
  }

  function SseBody(r: Req, l: Luck): seq<Out> {
    FlushOut(r, l)
    + When(r.kind.chat && !r.roleSent && !(l.rest && l.flushed) && l.role, Role)
    + When(l.final, Final)
    + When(r.kind.chat && r.kind.usage && l.usage, Usage)
  }

  /** The end of an event stream. */
  function SseOut(r: Req, l: Luck): seq<Out> {
    SseBody(r, l) + LastLine(l)
  }

  function BodyOut(built: bool, status: nat): seq<Out> {
    [if built then Write(Body(status), true) else Shut]
  }

  function ResponseOut(r: Req, l: Luck): seq<Out> {
    if r.suppress then [Shut]
    else if r.kind.sse then SseOut(r, l)
    else BodyOut(l.json && l.wire, 200)
  }

  function ErrorOut(r: Req, l: Luck, status: nat): seq<Out> {
    if r.suppress then [Shut]
    else if r.kind.sse then When(l.error, ErrorEvent) + LastLine(l)
    else BodyOut(l.document && l.json && l.wire, status)
  }

  /** detach_conn and what is sent to the connection it gives back. */
  function Say(r: Req, out: seq<Out>): Req {
    if r.conn.Attached? then r.(conn := Closed, log := r.log + out) else r
  }

  function Ended(r: Req, out: seq<Out>, soleOwner: bool): Req {
    TryTeardownR(Say(r, out).(terminal := true), soleOwner)
  }

  function FinishErrorR(r: Req, l: Luck, status: nat, soleOwner: bool): Req {
    Ended(r, ErrorOut(r, l, status), soleOwner)
  }

  /** The accumulated text of a response that is not streamed cannot take in the rest. */
  predicate FlushFails(r: Req, l: Luck) {
    !l.flush || (!r.kind.sse && l.rest && !l.append)
  }

  function FinishR(r: Req, l: Luck, soleOwner: bool): Req {
    if FlushFails(r, l) then FinishErrorR(r, l, 500, soleOwner)
    else Ended(r, ResponseOut(r, l), soleOwner)
  }

  /** emit_sse_chunk for a piece that is not empty. */
  function EmitR(r: Req, l: Luck): Req {
    if !r.conn.Attached? || r.suppress || !l.chunk then r
    else if r.kind.chat && !r.roleSent then r.(log := r.log + [Write(Role, false)], roleSent := true)
    else r.(log := r.log + [Write(Delta, false)])
  }

  function Congest(r: Req, l: Luck): Req {
    if r.conn.Attached? && l.congested then r.(suppress := true) else r
  }

  /** A token that cannot be detokenized or kept ends the response. */
  predicate TokenFails(r: Req, l: Luck) {
    !l.detok || (!r.kind.sse && l.text && (!l.append || (r.kind.logprobs && !l.logprob)))
  }

  function TokenR(r: Req, l: Luck, soleOwner: bool): Req {
    if TokenFails(r, l) then FinishErrorR(r, l, 500, soleOwner)
    else if r.kind.sse then Congest(if l.text then EmitR(r, l) else r, l)
    else r
  }

  /** Whatever fails or does not, an ending says something whose last entry, and no other, closes. */
  lemma EndingsEndOnce(r: Req, l: Luck, status: nat)
    ensures EndsOnce(ResponseOut(r, l)) && EndsOnce(ErrorOut(r, l, status))
  {
    SayEnds(SseBody(r, l), LastLine(l));
    SayEnds(When(l.error, ErrorEvent), LastLine(l));
  }

  lemma SayEnds(a: seq<Out>, b: seq<Out>)
    requires NeverCloses(a) && EndsOnce(b)
    ensures EndsOnce(a + b)
  {
  }

  // ---------------------------------------------------------------- the object

  class Request {
    const kind: Kind
    var phase: Phase
    var conn: Conn
    var suppress: bool
    var roleSent: bool
    var log: seq<Out>
    var timer: bool
    var notify: bool
    var streamRef: bool
    var pendingCloses: nat
    var begins: nat
    var frees: nat
    var terminal: bool

    ghost function View(): Req
      reads this
    {
      Req(kind, phase, conn, suppress, roleSent, log, timer, notify, streamRef, pendingCloses, begins, frees, terminal)
    }

    constructor (kind: Kind)
      ensures View() == NewReq(kind)
    {
      this.kind := kind;
      phase, conn, suppress, roleSent, log := Running, Attached, false, false, [];
      timer, notify, streamRef := false, true, true;
      pendingCloses, begins, frees, terminal := 0, 0, 0, false;
    }

    method BeginClose()
      modifies this
      ensures View() == BeginCloseR(old(View()))
    {
      phase := Closing;
      notify := false;
      streamRef := false;
      begins := begins + 1;
      pendingCloses := 1;
      if timer {
        pendingCloses := pendingCloses + 1;
      }
    }

    method TryTeardown(soleOwner: bool)
      modifies this
      ensures View() == TryTeardownR(old(View()), soleOwner)
    {
      if phase != Running {
        return;
      }
      if soleOwner {
        BeginClose();
        return;
      }
      if !timer {
        timer := true;
      }
    }

    method Put(what: Payload, closeAfter: bool)
      modifies this`log
      ensures log == old(log) + [Write(what, closeAfter)]
    {
      log := log + [Write(what, closeAfter)];
    }

    method Close()
      modifies this`log
      ensures log == old(log) + [Shut]
    {
      log := log + [Shut];
    }

    method SendLastLine(l: Luck)
      modifies this`log
      ensures log == old(log) + LastLine(l)
    {
      if l.done {
        Put(DoneMark, true);
      } else {
        Close();
      }
    }

    method SendBody(built: bool, status: nat)
      modifies this`log
      ensures log == old(log) + BodyOut(built, status)
    {
      if built {
        Put(Body(status), true);
      } else {
        Close();
      }
    }

    /** The event-stream branch of finish_response. */
    method SendSseEnd(l: Luck)
      modifies this`log
      ensures log == old(log) + SseOut(old(View()), l)
    {
      ghost var before := log;
      var sent := roleSent;
      if l.rest && l.flushed {
        if kind.chat {
          Put(if sent then Delta else Role, false);
          sent := true;
        } else {
          Put(Delta, false);
        }
      }
      if kind.chat {
        if !sent && l.role {
          Put(Role, false);
        }
        if l.final {
          Put(Final, false);
        }
        if kind.usage && l.usage {
          Put(Usage, false);
        }
      } else if l.final {
        Put(Final, false);
      }
      SendLastLine(l);
      assert log == before + SseOut(old(View()), l);
    }

    method SendError(l: Luck, status: nat)
      modifies this`log
      ensures log == old(log) + ErrorOut(old(View()), l, status)
    {
      if suppress {
        Close();
      } else if kind.sse {
        if l.error {
          Put(ErrorEvent, false);
        }
        SendLastLine(l);
      } else {
        SendBody(l.document && l.json && l.wire, status);
      }
    }

    method SendResponse(l: Luck)
      modifies this`log
      ensures log == old(log) + ResponseOut(old(View()), l)
    {
      if suppress {
        Close();
      } else if kind.sse {
        SendSseEnd(l);
      } else {
        SendBody(l.json && l.wire, 200);
      }
    }

    /** The common tail of finish_response and finish_error. */
    method Conclude(ghost out: seq<Out>, ghost before: Req, soleOwner: bool)
      requires View() == Say(before, out) && EndsOnce(out)
      modifies this
      ensures View() == Ended(before, out, soleOwner)
      ensures before.log <= log
      ensures if before.conn.Attached? then EndsOnce(log[|before.log|..]) else log == before.log
    {
      terminal := true;
      TryTeardown(soleOwner);
      assert (before.log + out)[|before.log|..] == out;
    }

    /** finish_error: what an attached connection is sent ends with its only closing entry, whatever
        can be built; a connection that is not attached is sent nothing. */
    method FinishError(l: Luck, status: nat, soleOwner: bool)
      modifies this
      ensures View() == FinishErrorR(old(View()), l, status, soleOwner)
      ensures old(log) <= log && if old(conn).Attached? then EndsOnce(log[|old(log)|..]) else log == old(log)
    {
      EndingsEndOnce(View(), l, status);
      ghost var out := ErrorOut(View(), l, status);
      if conn.Attached? {
        SendError(l, status);
        conn := Closed;
      }
      Conclude(out, old(View()), soleOwner);
    }

    method Respond(l: Luck, soleOwner: bool)
      modifies this
      ensures View() == Ended(old(View()), ResponseOut(old(View()), l), soleOwner)
      ensures old(log) <= log && if old(conn).Attached? then EndsOnce(log[|old(log)|..]) else log == old(log)
    {
      EndingsEndOnce(View(), l, 500);
      ghost var out := ResponseOut(View(), l);
      if conn.Attached? {
        SendResponse(l);
        conn := Closed;
      }
      Conclude(out, old(View()), soleOwner);
    }

    /** finish_response: the same. */
    method FinishResponse(l: Luck, soleOwner: bool)
      modifies this
      ensures View() == FinishR(old(View()), l, soleOwner)
      ensures old(log) <= log && if old(conn).Attached? then EndsOnce(log[|old(log)|..]) else log == old(log)
    {
      if !l.flush {
        FinishError(l, 500, soleOwner);
        return;
      }
      if !kind.sse && l.rest {
        if !l.append {
          FinishError(l, 500, soleOwner);
          return;
        }
      }
      Respond(l, soleOwner);
    }

    /** emit_sse_chunk: nothing is sent to a connection that is lost, ended or congested, and the
        first thing a chat connection is sent carries the role. */
    method EmitSse(l: Luck)
      modifies this`log, this`roleSent
      ensures View() == EmitR(old(View()), l)
      ensures log != old(log) ==> old(conn).Attached? && !old(suppress) && (!kind.chat || roleSent)
    {
      if !conn.Attached? || suppress {
        return;
      }
      if kind.chat && !roleSent {
        if l.chunk {
          Put(Role, false);
          roleSent := true;
        }
        return;
      }
      if l.chunk {
        Put(Delta, false);
      }
    }

    /** The token branch of gen_on_async; goOn is false where it returns. */
    method OnToken(l: Luck, soleOwner: bool) returns (goOn: bool)
      modifies this
      ensures View() == TokenR(old(View()), l, soleOwner)
      ensures goOn <==> !TokenFails(old(View()), l)
      ensures goOn ==> old(log) <= log && NeverCloses(log[|old(log)|..]) && conn == old(conn)
    {
      goOn := false;
      if !l.detok {
        FinishError(l, 500, soleOwner);
        return;
      }
      if kind.sse {
        if l.text {
          EmitSse(l);
        }
        if conn.Attached? && !suppress {
          if l.congested {
            suppress := true;
          }
        }
      } else if l.text {
        if !l.append {
          FinishError(l, 500, soleOwner);
          return;
        }
        if kind.logprobs {
          if !l.logprob {
            FinishError(l, 500, soleOwner);
            return;
          }
        }
      }
      goOn := true;
    }

    method OnConnGone(soleOwner: bool)
      modifies this
      ensures View() == ConnGoneR(old(View()), soleOwner)
    {
      conn := Gone;
      TryTeardown(soleOwner);
    }

    method OnTimer(soleOwner: bool)
      modifies this
      ensures View() == TimerR(old(View()), soleOwner)
    {
      if phase != Running {
        return;
      }
      if soleOwner {
        BeginClose();
      }
    }

    /** on_close_cb; the last callback frees the object. */
    method OnClose()
      requires pendingCloses > 0
      modifies this
      ensures View() == CloseCallbackR(old(View()))
    {
      pendingCloses := pendingCloses - 1;
      if pendingCloses == 0 {
        phase := Freed;
        frees := frees + 1;
      }
    }
  }

  // ---------------------------------------------------------------- the system

  datatype Chunk = Token | Error(status: nat) | Done

  datatype System = System(
    req: Req,
    buffer: seq<Chunk>,
    engineRef: bool,       // the engine still holds its reference
    captured: bool,        // the engine thread left a critical section with the callback in hand
    draining: bool,        // the loop thread is inside gen_on_async
    wakeup: bool,          // uv_async_send is pending
    misdirected: bool)     // a callback ran after the request began to close

  /** A critical section of the engine thread leaves any buffer it likes: EngineWrite covers pushes
      and stream_finish_cancelled alike. */
  datatype Event =
    | EngineWrite(buffer: seq<Chunk>)
    | EngineNotify
    | EngineRelease
    | AsyncStart
    | AsyncChunk(luck: Luck)
    | ConnLost
    | TimerTick
    | CloseCallback

  function Init(kind: Kind): System {
    System(NewReq(kind), [], true, false, false, false, false)
  }

  function ChunkR(r: Req, c: Chunk, l: Luck, sole: bool): Req {
    match c
    case Token => TokenR(r, l, sole)
    case Error(status) => FinishErrorR(r, l, status, sole)
    case Done => FinishR(r, l, sole)
  }

  function Step(s: System, e: Event): System {
    var sole := !s.engineRef;
    match e
    case EngineWrite(b) =>
      if s.engineRef && !s.captured then s.(buffer := b, captured := s.req.notify) else s
    case EngineNotify =>
      if s.captured then s.(captured := false, wakeup := true, misdirected := s.misdirected || s.req.phase != Running) else s
    case EngineRelease => if s.engineRef && !s.captured then s.(engineRef := false) else s
    case AsyncStart =>
      if s.wakeup && !s.draining && s.req.phase != Freed
      then s.(wakeup := false, draining := s.req.phase == Running) else s
    case AsyncChunk(l) =>
      if !s.draining then s
      else if s.buffer == [] then s.(draining := false)
      else s.(buffer := s.buffer[1..], req := ChunkR(s.req, s.buffer[0], l, sole),
              draining := s.buffer[0].Token? && !TokenFails(s.req, l))
    case ConnLost =>
      if s.req.conn.Attached? && !s.draining && s.req.phase == Running then s.(req := ConnGoneR(s.req, sole)) else s
    case TimerTick => if s.req.timer && !s.draining then s.(req := TimerR(s.req, sole)) else s
    case CloseCallback => if s.req.pendingCloses > 0 && !s.draining then s.(req := CloseCallbackR(s.req)) else s
  }

  function Exec(kind: Kind, es: seq<Event>): System {
    if es == [] then Init(kind) else Step(Exec(kind, es[..|es| - 1]), es[|es| - 1])
  }

  lemma ExecSnoc(kind: Kind, es: seq<Event>, e: Event)
    ensures Exec(kind, es + [e]) == Step(Exec(kind, es), e)
  {
    assert (es + [e])[..|es|] == es;
  }

  // ---------------------------------------------------------------- life and death

  ghost predicate Inv(s: System) {
    var r := s.req;
    // a request that is closing has outlived the engine's reference and every captured callback
    && (r.phase != Running ==> !s.engineRef && !s.draining && !r.streamRef && !r.notify)
    && (s.captured ==> s.engineRef)
    && !s.misdirected
    && (r.phase == Running ==> r.streamRef && r.notify && r.pendingCloses == 0)
    // begin_close happens once, and is followed by exactly one free
    && r.begins == (if r.phase == Running then 0 else 1)
    && r.frees == (if r.phase == Freed then 1 else 0)
    && (r.phase == Closing ==> 1 <= r.pendingCloses <= if r.timer then 2 else 1)
    && (r.phase == Freed ==> r.pendingCloses == 0)
    // the connection is attached, lost, or closed by the end of the response
    && (r.terminal ==> !r.conn.Attached?)
    && (r.conn.Closed? ==> r.terminal)
    // a finished request that is not closing yet has its timer running
    && (r.phase == Running && (r.terminal || r.conn.Gone?) ==> r.timer)
    // what is buffered has been, or is about to be, announced
    && (r.phase == Running && !r.terminal && s.buffer != [] ==> s.captured || s.wakeup || s.draining)
  }

  lemma {:induction false} InvStep(s: System, e: Event)
    requires Inv(s)
    ensures Inv(Step(s, e))
  {
    match e
    case AsyncChunk(l) => InvChunk(s, l);
    case EngineWrite(_) =>
    case EngineNotify =>
    case EngineRelease =>
    case AsyncStart =>
    case ConnLost =>
    case TimerTick =>
    case CloseCallback =>
  }

  lemma {:induction false} InvChunk(s: System, l: Luck)
    requires Inv(s)
    ensures Inv(Step(s, AsyncChunk(l)))
  {
    if s.draining && s.buffer != [] {
      var n := ChunkR(s.req, s.buffer[0], l, !s.engineRef);
      if s.buffer[0].Token? && !TokenFails(s.req, l) {
        TokenEffect(s.req, l, !s.engineRef);
        assert Inv(s.(req := n, buffer := s.buffer[1..]));
      } else {
        var out := EndEffect(s.req, s.buffer[0], l, !s.engineRef);
        InvEnded(s, out, s.buffer[1..]);
      }
    }
  }

  lemma {:induction false} TokenEffect(r: Req, l: Luck, sole: bool)
    requires !TokenFails(r, l)
    ensures var n := TokenR(r, l, sole); n == r.(log := n.log, roleSent := n.roleSent, suppress := n.suppress)
  {
    EmitEffect(r, l);
  }

  lemma EmitEffect(r: Req, l: Luck)
    ensures var n := EmitR(r, l); n == r.(log := n.log, roleSent := n.roleSent)
  {
  }

  /** Every other chunk ends the response, with something that closes once. */
  lemma EndEffect(r: Req, c: Chunk, l: Luck, sole: bool) returns (out: seq<Out>)
    requires !c.Token? || TokenFails(r, l)
    ensures ChunkR(r, c, l, sole) == Ended(r, out, sole) && EndsOnce(out)
  {
    var status := if c.Error? then c.status else 500;
    EndingsEndOnce(r, l, status);
    out := if c.Done? && !FlushFails(r, l) then ResponseOut(r, l) else ErrorOut(r, l, status);
  }

  lemma InvEnded(s: System, out: seq<Out>, buffer: seq<Chunk>)
    requires Inv(s) && s.draining
    ensures Inv(s.(req := Ended(s.req, out, !s.engineRef), buffer := buffer, draining := false))
  {
  }

  lemma {:induction false} InvAlways(kind: Kind, es: seq<Event>)
    ensures Inv(Exec(kind, es))
  {
    if es != [] {
      InvAlways(kind, es[..|es| - 1]);
      InvStep(Exec(kind, es[..|es| - 1]), es[|es| - 1]);
    }
  }

  /** A request closes only after the engine has dropped its reference, so no captured callback ever
      reaches a closing or freed request. */
  lemma {:induction false} NotifyReachesLiveRequest(kind: Kind, es: seq<Event>)
    ensures var s := Exec(kind, es);
            && (s.captured ==> s.req.phase == Running)
            && (s.req.phase != Running ==> !s.engineRef)
            && !s.misdirected
  {
    InvAlways(kind, es);
  }

  /** The request is closed at most once and freed at most once, the latter only after every one of
      its handles has closed. */
  lemma {:induction false} ClosedOnce(kind: Kind, es: seq<Event>)
    ensures var r := Exec(kind, es).req;
            && r.begins <= 1 && r.frees <= r.begins
            && (r.frees == 1 ==> r.pendingCloses == 0)
  {
    InvAlways(kind, es);
  }

  /** A finished request always gets closed: once the engine has let go, the next timer tick begins
      the close, and the callbacks of the one or two handles free it. */
  lemma {:induction false} FinishedGetsFreed(kind: Kind, es: seq<Event>)
    requires var s := Exec(kind, es);
             s.req.phase == Running && (s.req.terminal || s.req.conn.Gone?) && !s.engineRef && !s.draining
    ensures Exec(kind, es + [TimerTick]).req.phase == Closing
    ensures Exec(kind, es + [TimerTick] + [CloseCallback]).req.phase == Closing
    ensures Exec(kind, es + [TimerTick] + [CloseCallback] + [CloseCallback]).req.phase == Freed
  {
    InvAlways(kind, es);
    ExecSnoc(kind, es, TimerTick);
    ExecSnoc(kind, es + [TimerTick], CloseCallback);
    ExecSnoc(kind, es + [TimerTick] + [CloseCallback], CloseCallback);
  }

  /** A connection lost after the engine has let go, before any timer was needed: one handle closes, and
      its callback frees the request. */
  lemma {:induction false} LossFrees(kind: Kind, es: seq<Event>)
    requires var s := Exec(kind, es);
             s.req.phase == Running && s.req.conn.Attached? && !s.req.timer && !s.engineRef && !s.draining
    ensures Exec(kind, es + [ConnLost]).req.phase == Closing
    ensures Exec(kind, es + [ConnLost] + [CloseCallback]).req.phase == Freed
  {
    InvAlways(kind, es);
    ExecSnoc(kind, es, ConnLost);
    ExecSnoc(kind, es + [ConnLost], CloseCallback);
  }

  // ---------------------------------------------------------------- no lost wake-up

  ghost predicate Has(buffer: seq<Chunk>) {
    exists i :: 0 <= i < |buffer| && !buffer[i].Token?
  }

  /** Draining a buffer that holds a terminal chunk gets to it, whatever the calls' outcomes. */
  lemma {:induction false} DrainReaches(kind: Kind, es: seq<Event>, l: Luck) returns (more: seq<Event>)
    requires Exec(kind, es).draining && Has(Exec(kind, es).buffer)
    ensures |more| <= |Exec(kind, es).buffer| && Exec(kind, es + more).req.terminal
    decreases |Exec(kind, es).buffer|
  {
    var s := Exec(kind, es);
    ExecSnoc(kind, es, AsyncChunk(l));
    if s.buffer[0].Token? && !TokenFails(s.req, l) {
      var i :| 0 <= i < |s.buffer| && !s.buffer[i].Token?;
      assert s.buffer[1..][i - 1] == s.buffer[i];
      var rest := DrainReaches(kind, es + [AsyncChunk(l)], l);
      more := [AsyncChunk(l)] + rest;
      Assoc(es, [AsyncChunk(l)], rest);
    } else {
      var _ := EndEffect(s.req, s.buffer[0], l, !s.engineRef);
      more := [AsyncChunk(l)];
    }
  }

  lemma {:induction false} AwokenReaches(kind: Kind, es: seq<Event>, l: Luck) returns (more: seq<Event>)
    requires var s := Exec(kind, es); s.req.phase == Running && s.wakeup && !s.draining && Has(s.buffer)
    ensures |more| <= |Exec(kind, es).buffer| + 1 && Exec(kind, es + more).req.terminal
  {
    ExecSnoc(kind, es, AsyncStart);
    more := DrainReaches(kind, es + [AsyncStart], l);
    Assoc(es, [AsyncStart], more);
    more := [AsyncStart] + more;
  }

  /** A buffered terminal is never stranded: the callback the engine thread still has to make, the
      wake-up that is pending or the drain under way leads to it. */
  lemma {:induction false} TerminalGetsProcessed(kind: Kind, es: seq<Event>, l: Luck) returns (more: seq<Event>)
    requires Exec(kind, es).req.phase == Running && Has(Exec(kind, es).buffer)
    ensures |more| <= |Exec(kind, es).buffer| + 2 && Exec(kind, es + more).req.terminal
  {
    var s := Exec(kind, es);
    InvAlways(kind, es);
    if s.req.terminal {
      more := [];
      assert es + [] == es;
    } else if s.draining {
      more := DrainReaches(kind, es, l);
    } else if s.wakeup {
      more := AwokenReaches(kind, es, l);
    } else {
      ExecSnoc(kind, es, EngineNotify);
      more := AwokenReaches(kind, es + [EngineNotify], l);
      Assoc(es, [EngineNotify], more);
      more := [EngineNotify] + more;
    }
  }

  // ---------------------------------------------------------------- what the connection is sent

  predicate Says(o: Out, what: Payload) {
    o.Write? && o.what == what
  }

  ghost predicate Never(out: seq<Out>, what: Payload) {
    forall i :: 0 <= i < |out| ==> !Says(out[i], what)
  }

  ghost predicate AtMostOnce(out: seq<Out>, what: Payload) {
    forall i, j :: 0 <= i < j < |out| ==> !Says(out[i], what) || !Says(out[j], what)
  }

  ghost predicate NoBody(out: seq<Out>) {
    forall i :: 0 <= i < |out| && out[i].Write? ==> !out[i].what.Body?
  }

  /** The log closes the connection once, at its end, if the response has ended on it, and not at all
      otherwise; a response that is not streamed is one entry, and a streamed one has no body; a chat
      stream carries its role at most once and before any text, other streams never. */
  ghost predicate LogInv(r: Req) {
    && (if r.conn.Closed? then EndsOnce(r.log) else NeverCloses(r.log))
    && (if r.kind.sse then NoBody(r.log) else |r.log| == if r.conn.Closed? then 1 else 0)
    && AtMostOnce(r.log, Role)
    && (!r.kind.chat ==> Never(r.log, Role))
    && (r.kind.chat && !r.roleSent ==> Never(r.log, Delta) && (r.conn.Attached? ==> r.log == []))
    && (r.kind.chat && r.roleSent ==> r.log != [] && Says(r.log[0], Role))
  }

  /** What an ending may say. */
  ghost predicate Fits(r: Req, out: seq<Out>) {
    && EndsOnce(out)
    && (if r.kind.sse then NoBody(out) else |out| == 1 && Never(out, Role) && Never(out, Delta))
    && AtMostOnce(out, Role)
    && (if r.kind.chat && !r.roleSent then Never(out, Delta) else Never(out, Role))
  }

  function RoleOut(r: Req, l: Luck): seq<Out> {
    FlushOut(r, l) + When(r.kind.chat && !r.roleSent && !(l.rest && l.flushed) && l.role, Role)
  }

  function TailOut(r: Req, l: Luck): seq<Out> {
    When(l.final, Final) + When(r.kind.chat && r.kind.usage && l.usage, Usage) + LastLine(l)
  }

  lemma SseParts(r: Req, l: Luck)
    ensures SseOut(r, l) == RoleOut(r, l) + TailOut(r, l)
  {
    Assoc(RoleOut(r, l), When(l.final, Final), When(r.kind.chat && r.kind.usage && l.usage, Usage));
    Assoc(RoleOut(r, l), When(l.final, Final) + When(r.kind.chat && r.kind.usage && l.usage, Usage), LastLine(l));
  }

  lemma TailSays(r: Req, l: Luck)
    ensures var out := TailOut(r, l); NoBody(out) && Never(out, Role) && Never(out, Delta)
  {
  }

  lemma JoinSays(a: seq<Out>, b: seq<Out>)
    requires |a| <= 1 && NoBody(a) && NoBody(b) && Never(b, Role) && Never(b, Delta)
    ensures NoBody(a + b) && AtMostOnce(a + b, Role)
    ensures Never(a, Role) ==> Never(a + b, Role)
    ensures Never(a, Delta) ==> Never(a + b, Delta)
  {
  }

  lemma {:induction false} SseFits(r: Req, l: Luck)
    ensures var out := SseOut(r, l);
            && NoBody(out) && AtMostOnce(out, Role)
            && if r.kind.chat && !r.roleSent then Never(out, Delta) else Never(out, Role)
  {
    SseParts(r, l);
    TailSays(r, l);
    JoinSays(RoleOut(r, l), TailOut(r, l));
  }

  lemma {:induction false} ResponseFits(r: Req, l: Luck)
    ensures Fits(r, ResponseOut(r, l))
  {
    EndingsEndOnce(r, l, 500);
    if !r.suppress && r.kind.sse {
      SseFits(r, l);
    }
  }

  lemma ErrorFits(r: Req, l: Luck, status: nat)
    ensures Fits(r, ErrorOut(r, l, status))
  {
    EndingsEndOnce(r, l, status);
  }

  lemma EndingFits(r: Req, c: Chunk, l: Luck, sole: bool) returns (out: seq<Out>)
    requires !c.Token? || TokenFails(r, l)
    ensures ChunkR(r, c, l, sole) == Ended(r, out, sole) && Fits(r, out) && (r.suppress ==> out == [Shut])
  {
    var _ := EndEffect(r, c, l, sole);
    var status := if c.Error? then c.status else 500;
    if c.Done? && !FlushFails(r, l) {
      out := ResponseOut(r, l);
      ResponseFits(r, l);
    } else {
      out := ErrorOut(r, l, status);
      ErrorFits(r, l, status);
    }
  }

  /** How a step can change what has been sent. */
  ghost predicate Quiet(r: Req, n: Req) {
    && n.kind == r.kind && n.log == r.log && n.roleSent == r.roleSent && (r.suppress ==> n.suppress)
    && (n.conn == r.conn || (r.conn.Attached? && n.conn.Gone?))
  }

  ghost predicate Emits(r: Req, n: Req) {
    && n.kind == r.kind && n.kind.sse && r.conn.Attached? && n.conn.Attached? && !r.suppress
    && (if r.kind.chat && !r.roleSent then n.roleSent && n.log == r.log + [Write(Role, false)]
        else n.roleSent == r.roleSent && n.log == r.log + [Write(Delta, false)])
  }

  ghost predicate EndsWith(r: Req, n: Req, out: seq<Out>) {
    && n.kind == r.kind && n.roleSent == r.roleSent && n.suppress == r.suppress && n.terminal
    && Fits(r, out) && (r.suppress ==> out == [Shut])
    && (if r.conn.Attached? then n.conn.Closed? && n.log == r.log + out else n.conn == r.conn && n.log == r.log)
  }

  lemma TokenCases(r: Req, l: Luck, sole: bool)
    requires !TokenFails(r, l)
    ensures Quiet(r, TokenR(r, l, sole)) || Emits(r, TokenR(r, l, sole))
  {
    if r.kind.sse && l.text {
      EmitCases(r, l);
    }
  }

  lemma EmitCases(r: Req, l: Luck)
    requires r.kind.sse
    ensures EmitR(r, l).suppress == r.suppress && (Quiet(r, EmitR(r, l)) || Emits(r, EmitR(r, l)))
  {
  }

  lemma EndedCase(r: Req, out: seq<Out>, sole: bool)
    requires Fits(r, out) && (r.suppress ==> out == [Shut])
    ensures EndsWith(r, Ended(r, out, sole), out)
  {
  }

  lemma {:induction false} StepCases(s: System, e: Event)
    ensures var r, n := s.req, Step(s, e).req;
            Quiet(r, n) || Emits(r, n) || exists out :: EndsWith(r, n, out)
  {
    if e.AsyncChunk? && s.draining && s.buffer != [] {
      if s.buffer[0].Token? && !TokenFails(s.req, e.luck) {
        TokenCases(s.req, e.luck, !s.engineRef);
      } else {
        var out := EndingFits(s.req, s.buffer[0], e.luck, !s.engineRef);
        EndedCase(s.req, out, !s.engineRef);
      }
    } else if !e.AsyncChunk? {
      QuietStep(s, e);
    }
  }

  lemma {:induction false} QuietStep(s: System, e: Event)
    requires !e.AsyncChunk?
    ensures Quiet(s.req, Step(s, e).req)
  {
  }

  lemma LogEnds(r: Req, n: Req, out: seq<Out>)
    requires LogInv(r) && EndsWith(r, n, out)
    ensures LogInv(n)
  {
    if r.conn.Attached? && r.kind.chat && !r.roleSent {
      assert n.log == out;
    }
  }

  lemma LogEmits(r: Req, n: Req)
    requires LogInv(r) && Emits(r, n)
    ensures LogInv(n)
  {
  }

  lemma {:induction false} LogAlways(kind: Kind, es: seq<Event>)
    ensures LogInv(Exec(kind, es).req)
  {
    if es != [] {
      var s, e := Exec(kind, es[..|es| - 1]), es[|es| - 1];
      LogAlways(kind, es[..|es| - 1]);
      StepCases(s, e);
      var r, n := s.req, Step(s, e).req;
      if Emits(r, n) {
        LogEmits(r, n);
      } else if !Quiet(r, n) {
        var out :| EndsWith(r, n, out);
        LogEnds(r, n, out);
      }
    }
  }

  /** A response that has ended on a connection that was not lost has closed it with its last entry,
      and with no other; as long as it has not ended, and on a connection that was lost, nothing
      closes. */
  lemma {:induction false} OneClosing(kind: Kind, es: seq<Event>)
    ensures var r := Exec(kind, es).req;
            if r.terminal && !r.conn.Gone? then EndsOnce(r.log) else NeverCloses(r.log)
  {
    InvAlways(kind, es);
    LogAlways(kind, es);
  }

  /** The event that ends the response of an attached connection is the one that closes it. */
  lemma {:induction false} TerminalClosesAttached(kind: Kind, es: seq<Event>, l: Luck)
    requires var s := Exec(kind, es);
             s.draining && s.buffer != [] && (!s.buffer[0].Token? || TokenFails(s.req, l)) && s.req.conn.Attached?
    ensures var r, n := Exec(kind, es).req, Exec(kind, es + [AsyncChunk(l)]).req;
            n.terminal && NeverCloses(r.log) && r.log <= n.log && EndsOnce(n.log[|r.log|..])
  {
    LogAlways(kind, es);
    ExecSnoc(kind, es, AsyncChunk(l));
    TerminalStep(Exec(kind, es), l);
  }

  lemma {:induction false} TerminalStep(s: System, l: Luck)
    requires s.draining && s.buffer != [] && (!s.buffer[0].Token? || TokenFails(s.req, l)) && s.req.conn.Attached?
    ensures var n := Step(s, AsyncChunk(l)).req;
            n.terminal && s.req.log <= n.log && EndsOnce(n.log[|s.req.log|..])
  {
    var out := EndEffect(s.req, s.buffer[0], l, !s.engineRef);
    assert (s.req.log + out)[|s.req.log|..] == out;
  }

  lemma {:induction false} FrozenStep(s: System, e: Event)
    requires !s.req.conn.Attached?
    ensures Step(s, e).req.log == s.req.log && Step(s, e).req.conn == s.req.conn
  {
    StepCases(s, e);
  }

  /** Nothing is sent to a connection that is lost or closed. */
  lemma {:induction false} SilentAfterwards(kind: Kind, es: seq<Event>, more: seq<Event>)
    requires !Exec(kind, es).req.conn.Attached?
    ensures Exec(kind, es + more).req.log == Exec(kind, es).req.log && !Exec(kind, es + more).req.conn.Attached?
  {
    if more == [] {
      assert es + [] == es;
    } else {
      var init, e := more[..|more| - 1], more[|more| - 1];
      SilentAfterwards(kind, es, init);
      ExecSnoc(kind, es + init, e);
      assert more == init + [e];
      Assoc(es, init, [e]);
      FrozenStep(Exec(kind, es + init), e);
    }
  }

  /** After congestion the only thing left to send is the close. */
  ghost predicate Hushed(r: Req, log: seq<Out>) {
    r.suppress && (r.log == log || (r.log == log + [Shut] && !r.conn.Attached?))
  }

  lemma {:induction false} HushedStep(s: System, e: Event, log: seq<Out>)
    requires Hushed(s.req, log)
    ensures Hushed(Step(s, e).req, log)
  {
    StepCases(s, e);
  }

  lemma {:induction false} HushedAfterwards(kind: Kind, es: seq<Event>, more: seq<Event>)
    requires Exec(kind, es).req.suppress
    ensures Hushed(Exec(kind, es + more).req, Exec(kind, es).req.log)
  {
    if more == [] {
      assert es + [] == es;
    } else {
      var init, e := more[..|more| - 1], more[|more| - 1];
      HushedAfterwards(kind, es, init);
      ExecSnoc(kind, es + init, e);
      assert more == init + [e];
      Assoc(es, init, [e]);
      HushedStep(Exec(kind, es + init), e, Exec(kind, es).req.log);
    }
  }

  // ---------------------------------------------------------------- what each chunk makes the request say

  /** The event processes a token that has to be sent: it decodes to text, and the connection is there
      to take it. */
  predicate Speaks(s: System, e: Event) {
    && e.AsyncChunk? && s.draining && s.buffer != [] && s.buffer[0].Token?
    && e.luck.detok && e.luck.text && e.luck.chunk
    && s.req.kind.sse && s.req.conn.Attached? && !s.req.suppress
  }

  /** One event for every token that is to be sent: the role, if this is a chat stream that has not
      carried it, otherwise a delta. */
  lemma {:induction false} TokenIsSent(kind: Kind, es: seq<Event>, l: Luck)
    requires Speaks(Exec(kind, es), AsyncChunk(l))
    ensures var r, n := Exec(kind, es).req, Exec(kind, es + [AsyncChunk(l)]).req;
            n.log == r.log + [Write(if kind.chat && Never(r.log, Role) then Role else Delta, false)] && n.conn.Attached?
  {
    LogAlways(kind, es);
    KindStays(kind, es);
    ExecSnoc(kind, es, AsyncChunk(l));
  }

  lemma {:induction false} KindStays(kind: Kind, es: seq<Event>)
    ensures Exec(kind, es).req.kind == kind
  {
    if es != [] {
      var s, e := Exec(kind, es[..|es| - 1]), es[|es| - 1];
      KindStays(kind, es[..|es| - 1]);
      StepCases(s, e);
    }
  }

  /** A token that neither fails nor is to be sent changes nothing that was sent; a congested connection
      is suppressed from then on. */
  lemma {:induction false} TokenOtherwise(s: System, l: Luck)
    requires s.draining && s.buffer != [] && s.buffer[0].Token? && l.detok
    requires s.req.kind.sse || !l.text || (l.append && (!s.req.kind.logprobs || l.logprob))
    ensures var n := Step(s, AsyncChunk(l));
            && n.draining && n.buffer == s.buffer[1..] && n.req.conn == s.req.conn
            && n.req.terminal == s.req.terminal && n.req.phase == s.req.phase
            && (!Speaks(s, AsyncChunk(l)) ==> n.req.log == s.req.log)
            && n.req.suppress == (s.req.suppress || (s.req.kind.sse && s.req.conn.Attached? && l.congested))
  {
  }

  /** How many tokens a run had to send. */
  ghost function Spoken(kind: Kind, es: seq<Event>): nat {
    if es == [] then 0
    else
      var init := es[..|es| - 1];
      Spoken(kind, init) + if Speaks(Exec(kind, init), es[|es| - 1]) then 1 else 0
  }

  /** The log is one entry for each of n tokens, the role first in a chat, and, once the response has
      ended on the connection, an ending. */
  ghost predicate Tells(r: Req, n: nat) {
    && n <= |r.log|
    && (forall i :: 0 <= i < n ==> r.log[i] == Write(if r.kind.chat && i == 0 then Role else Delta, false))
    && (if r.conn.Closed? then EndsOnce(r.log[n..]) else |r.log| == n)
  }

  lemma {:induction false} TellsEnds(r: Req, m: Req, out: seq<Out>, n: nat)
    requires Tells(r, n) && EndsWith(r, m, out)
    ensures Tells(m, n)
  {
    if r.conn.Attached? {
      assert m.log[n..] == out;
    }
  }

  lemma {:induction false} TellsStep(s: System, e: Event, n: nat)
    requires LogInv(s.req) && Tells(s.req, n)
    ensures Tells(Step(s, e).req, n + if Speaks(s, e) then 1 else 0)
  {
    var r, m := s.req, Step(s, e).req;
    if Speaks(s, e) {
      TellsToken(s, e.luck, n);
    } else {
      SilentUnlessSpeaks(s, e);
      if !Quiet(r, m) {
        var out :| EndsWith(r, m, out);
        TellsEnds(r, m, out, n);
      }
    }
  }

  lemma {:induction false} TellsToken(s: System, l: Luck, n: nat)
    requires LogInv(s.req) && Tells(s.req, n) && Speaks(s, AsyncChunk(l))
    ensures Tells(Step(s, AsyncChunk(l)).req, n + 1)
  {
    var m := Step(s, AsyncChunk(l)).req;
    assert m.log == s.req.log + [Write(if s.req.kind.chat && !s.req.roleSent then Role else Delta, false)];
    assert s.req.kind.chat ==> (s.req.roleSent <==> n > 0);
  }

  lemma {:induction false} SilentUnlessSpeaks(s: System, e: Event)
    requires !Speaks(s, e)
    ensures Quiet(s.req, Step(s, e).req) || exists out :: EndsWith(s.req, Step(s, e).req, out)
  {
    if e.AsyncChunk? && s.draining && s.buffer != [] {
      if s.buffer[0].Token? && !TokenFails(s.req, e.luck) {
        QuietToken(s.req, e.luck, !s.engineRef);
      } else {
        var out := EndingFits(s.req, s.buffer[0], e.luck, !s.engineRef);
        EndedCase(s.req, out, !s.engineRef);
      }
    } else if !e.AsyncChunk? {
      QuietStep(s, e);
    }
  }

  lemma {:induction false} QuietToken(r: Req, l: Luck, sole: bool)
    requires !TokenFails(r, l) && !(r.kind.sse && r.conn.Attached? && !r.suppress && l.text && l.chunk)
    ensures Quiet(r, TokenR(r, l, sole))
  {
  }

  /** In every run: before its ending a stream has been sent exactly one event for each token that was
      to be sent. */
  lemma {:induction false} TellsAlways(kind: Kind, es: seq<Event>)
    ensures Tells(Exec(kind, es).req, Spoken(kind, es))
  {
    if es != [] {
      var init, e := es[..|es| - 1], es[|es| - 1];
      TellsAlways(kind, init);
      LogAlways(kind, init);
      TellsStep(Exec(kind, init), e, Spoken(kind, init));
    }
  }

  // ---------------------------------------------------------------- what endings say

  /** Order within an ending. */
  function Place(o: Out): nat {
    if o.Shut? || o.closeAfter then 3
    else match o.what
      case Final => 1
      case Usage => 2
      case _ => 0
  }

  ghost predicate InOrder(out: seq<Out>) {
    forall i, j :: 0 <= i < j < |out| ==> Place(out[i]) < Place(out[j])
  }

  /** The ending of a stream or the body after a DONE, entry by entry. */
  ghost predicate AnswersDone(r: Req, l: Luck, out: seq<Out>) {
    if r.suppress then out == [Shut]
    else if !r.kind.sse then out == [if l.json && l.wire then Write(Body(200), true) else Shut]
    else
      && InOrder(out) && out != []
      && out[|out| - 1] == (if l.done then Write(DoneMark, true) else Shut)
      && (Write(Final, false) in out <==> l.final)
      && (Write(Usage, false) in out <==> r.kind.chat && r.kind.usage && l.usage)
      && (Write(Role, false) in out <==> r.kind.chat && !r.roleSent && ((l.rest && l.flushed) || l.role))
      && (Write(Delta, false) in out <==> l.rest && l.flushed && (!r.kind.chat || r.roleSent))
      && Write(ErrorEvent, false) !in out
  }

  /** The same after an error. */
  ghost predicate AnswersError(r: Req, l: Luck, status: nat, out: seq<Out>) {
    if r.suppress then out == [Shut]
    else if !r.kind.sse then out == [if l.document && l.json && l.wire then Write(Body(status), true) else Shut]
    else out == (if l.error then [Write(ErrorEvent, false)] else []) + [if l.done then Write(DoneMark, true) else Shut]
  }

  /** The first part of a stream's ending: at most one role or delta. */
  ghost predicate RolePart(r: Req, l: Luck, out: seq<Out>) {
    && |out| <= 1 && (forall i :: 0 <= i < |out| ==> Place(out[i]) == 0)
    && (Write(Role, false) in out <==> r.kind.chat && !r.roleSent && ((l.rest && l.flushed) || l.role))
    && (Write(Delta, false) in out <==> l.rest && l.flushed && (!r.kind.chat || r.roleSent))
    && Write(Final, false) !in out && Write(Usage, false) !in out && Write(ErrorEvent, false) !in out
  }

  /** The rest of it. */
  ghost predicate TailPart(r: Req, l: Luck, out: seq<Out>) {
    && InOrder(out) && out != [] && (forall i :: 0 <= i < |out| ==> Place(out[i]) > 0)
    && out[|out| - 1] == (if l.done then Write(DoneMark, true) else Shut)
    && (Write(Final, false) in out <==> l.final)
    && (Write(Usage, false) in out <==> r.kind.chat && r.kind.usage && l.usage)
    && Write(Role, false) !in out && Write(Delta, false) !in out && Write(ErrorEvent, false) !in out
  }

  lemma {:induction false} RoleAnswers(r: Req, l: Luck)
    ensures RolePart(r, l, RoleOut(r, l))
  {
  }

  /** The same, written out. */
  function TailList(r: Req, l: Luck): seq<Out> {
    var last := if l.done then Write(DoneMark, true) else Shut;
    if r.kind.chat && r.kind.usage && l.usage then
      if l.final then [Write(Final, false), Write(Usage, false), last] else [Write(Usage, false), last]
    else if l.final then [Write(Final, false), last] else [last]
  }

  lemma {:induction false} TailIsList(r: Req, l: Luck)
    ensures TailOut(r, l) == TailList(r, l)
  {
  }

  lemma {:induction false} ListAnswers(r: Req, l: Luck)
    ensures TailPart(r, l, TailList(r, l))
  {
  }

  lemma {:induction false} TailAnswers(r: Req, l: Luck)
    ensures TailPart(r, l, TailOut(r, l))
  {
    TailIsList(r, l);
    ListAnswers(r, l);
  }

  lemma {:induction false} JoinAnswers(r: Req, l: Luck, a: seq<Out>, b: seq<Out>)
    requires !r.suppress && r.kind.sse && RolePart(r, l, a) && TailPart(r, l, b)
    ensures AnswersDone(r, l, a + b)
  {
    assert forall o :: o in a + b <==> o in a || o in b;
    assert (a + b)[|a + b| - 1] == b[|b| - 1];
    JoinInOrder(a, b);
  }

  lemma {:induction false} JoinInOrder(a: seq<Out>, b: seq<Out>)
    requires |a| <= 1 && (forall i :: 0 <= i < |a| ==> Place(a[i]) == 0)
    requires InOrder(b) && forall i :: 0 <= i < |b| ==> Place(b[i]) > 0
    ensures InOrder(a + b)
  {
  }

  lemma {:induction false} ResponseAnswers(r: Req, l: Luck)
    ensures AnswersDone(r, l, ResponseOut(r, l))
  {
    if !r.suppress && r.kind.sse {
      RoleAnswers(r, l);
      TailAnswers(r, l);
      JoinAnswers(r, l, RoleOut(r, l), TailOut(r, l));
      SseParts(r, l);
      assert ResponseOut(r, l) == SseOut(r, l);
    }
  }

  lemma {:induction false} ErrorAnswers(r: Req, l: Luck, status: nat)
    ensures AnswersError(r, l, status, ErrorOut(r, l, status))
  {
  }

  /** The request after an ending: what was said, and on its way out at once if the engine has let go. */
  ghost predicate Finished(r: Req, n: Req, sole: bool, out: seq<Out>) {
    && n.terminal
    && (if r.conn.Attached? then n.conn.Closed? && n.log == r.log + out else n.conn == r.conn && n.log == r.log)
    && (r.phase == Running ==> if sole then n.phase == Closing && !n.streamRef && !n.notify else n.phase == Running && n.timer)
  }

  lemma {:induction false} EndedFinishes(r: Req, out: seq<Out>, sole: bool)
    ensures Finished(r, Ended(r, out, sole), sole, out)
  {
  }

  /** Every chunk that ends a response, and how: DONE by a response, unless the rest of the text cannot
      be flushed or kept; an error chunk by its status; a token that cannot be decoded or kept, and a
      DONE that cannot be finished, by status 500. */
  lemma {:induction false} EndingStep(s: System, l: Luck) returns (out: seq<Out>)
    requires s.draining && s.buffer != []
    requires s.buffer[0].Token? ==>
               !l.detok || (!s.req.kind.sse && l.text && (!l.append || (s.req.kind.logprobs && !l.logprob)))
    ensures var n := Step(s, AsyncChunk(l)); !n.draining && Finished(s.req, n.req, !s.engineRef, out)
    ensures match s.buffer[0]
            case Token => AnswersError(s.req, l, 500, out)
            case Error(status) => AnswersError(s.req, l, status, out)
            case Done =>
              if !l.flush || (!s.req.kind.sse && l.rest && !l.append) then AnswersError(s.req, l, 500, out)
              else AnswersDone(s.req, l, out)
  {
    var r, c := s.req, s.buffer[0];
    if c.Done? && !FlushFails(r, l) {
      out := ResponseOut(r, l);
      ResponseAnswers(r, l);
      EndedFinishes(r, out, !s.engineRef);
    } else {
      out := ErrorEnding(r, c, l, !s.engineRef);
    }
  }

  lemma {:induction false} ErrorEnding(r: Req, c: Chunk, l: Luck, sole: bool) returns (out: seq<Out>)
    requires c.Error? || (c.Token? && TokenFails(r, l)) || (c.Done? && FlushFails(r, l))
    ensures Finished(r, ChunkR(r, c, l, sole), sole, out)
    ensures AnswersError(r, l, if c.Error? then c.status else 500, out)
  {
    var status := if c.Error? then c.status else 500;
    out := ErrorOut(r, l, status);
    ErrorAnswers(r, l, status);
    EndedFinishes(r, out, sole);
    assert ChunkR(r, c, l, sole) == Ended(r, out, sole);
  }

  /** A lost connection is forgotten, nothing is sent, and teardown begins. */
  lemma {:induction false} LossStep(s: System)
    requires Inv(s) && s.req.conn.Attached? && !s.draining && s.req.phase == Running
    ensures var n := Step(s, ConnLost).req;
            && n.conn.Gone? && n.log == s.req.log
            && if !s.engineRef then n.phase == Closing && !n.streamRef && !n.notify else n.phase == Running && n.timer
  {
  }
}
