/** The command mailbox: engine_post from any number of threads, the engine loop, shutdown, both
    drains and engine_destroy, under every interleaving.

    A command is a number; its poster, the engine thread or the destroying thread takes one step per
    critical section or atomic access, and releasing a stream is a step of its own.  A thread asleep
    on the condition variable is woken by a signal and by nothing else.  The list
    itself is verified as a linked structure first. */
module Mailbox {
  import opened SeqOps

  // ---------------------------------------------------------------- the linked list

  class Cmd {
    var next: Cmd?
    const id: nat

    constructor (id: nat)
      ensures this.id == id && next == null
    {
      this.id := id;
      next := null;
    }
  }

  /** mailbox_head and mailbox_tail. */
  class List {
    var head: Cmd?
    var tail: Cmd?
    ghost var nodes: seq<Cmd>

    ghost predicate Valid()
      reads this, nodes
    {
      && (forall i, j :: 0 <= i < j < |nodes| ==> nodes[i] != nodes[j])
      && (nodes == [] ==> head == null && tail == null)
      && (nodes != [] ==> head == nodes[0] && tail == nodes[|nodes| - 1] && tail.next == null)
      && (forall i {:trigger nodes[i].next} :: 0 <= i < |nodes| - 1 ==> nodes[i].next == nodes[i + 1])
    }

    constructor ()
      ensures Valid() && nodes == []
    {
      head, tail, nodes := null, null, [];
    }

    /** mailbox_enqueue_locked. */
    method Enqueue(c: Cmd)
      requires Valid() && c !in nodes
      modifies this, nodes, c
      ensures Valid() && nodes == old(nodes) + [c]
    {
      c.next := null;
      if tail != null {
        tail.next := c;
      } else {
        head := c;
      }
      tail := c;
      nodes := nodes + [c];
    }

    /** The critical section of mailbox_dequeue when it does not wait. */
    method Dequeue() returns (c: Cmd?)
      requires Valid()
      modifies this, nodes
      ensures Valid()
      ensures old(nodes) == [] ==> c == null && nodes == []
      ensures old(nodes) != [] ==> c == old(nodes)[0] && nodes == old(nodes)[1..] && c.next == null
    {
      c := head;
      if c != null {
        assert |nodes| > 1 ==> nodes[0].next == nodes[1];
        head := c.next;
        if head == null {
          tail := null;
        }
        c.next := null;
        nodes := nodes[1..];
      }
    }
  }

  /** mailbox_drain_cancel: detach the whole list, then walk it; `order` is what cmd_cancel sees. */
  method DrainCancel(list: List) returns (order: seq<nat>)
    requires list.Valid()
    modifies list, list.nodes
    ensures list.Valid() && list.nodes == []
    ensures |order| == |old(list.nodes)| && forall i :: 0 <= i < |order| ==> order[i] == old(list.nodes)[i].id
  {
    ghost var nodes := list.nodes;
    var head := list.head;
    list.head, list.tail, list.nodes := null, null, [];
    order := [];
    while head != null
      invariant |order| <= |nodes| && forall i :: 0 <= i < |order| ==> order[i] == nodes[i].id
      invariant head == if |order| < |nodes| then nodes[|order|] else null
      decreases |nodes| - |order|
    {
      assert |order| + 1 < |nodes| ==> nodes[|order|].next == nodes[|order| + 1];
      order := order + [head.id];
      head := head.next;
    }
  }

  // ---------------------------------------------------------------- the protocol

  datatype Tag = Generate | Reclaim | Stop | Other

  predicate HasStream(t: Tag) {
    t.Generate? || t.Reclaim?
  }

  type Tags = nat -> Tag

  datatype PosterPc = NotPosted | Checked | Rejecting | RejectRelease | Enqueued | Cancelled

  datatype EnginePc =
    | AtCheck                 // about to read shutdown at the top of the loop
    | Dequeuing               // in mailbox_dequeue, with the mutex
    | Asleep                  // in mailbox_dequeue, waiting on the condition variable
    | Handling(cmd: nat)
    | Releasing(cmd: nat)     // the handler is through and still has to release the stream
    | StartDrain              // about to take the whole list
    | Draining(list: seq<nat>)
    | DrainRelease(cmd: nat, list: seq<nat>)
    | Exited

  datatype DestroyPc =
    | NotCalled
    | Stored                  // shutdown stored, critical section ahead
    | Joining
    | FinalTake
    | FinalDrain(list: seq<nat>)
    | FinalRelease(cmd: nat, list: seq<nat>)
    | Returned

  datatype Fate = ByHandler | ByDrain

  datatype State = State(
    shutdown: bool,
    signals: nat,                 // engine_signal_shutdown calls between their store and their section
    queue: seq<nat>,
    posters: map<nat, PosterPc>,
    engine: EnginePc,
    destroyer: DestroyPc,
    enqueued: seq<nat>,           // every command ever enqueued, in order
    consumed: seq<(nat, Fate)>,   // every command taken from the queue and disposed of, in order
    rejected: seq<nat>,           // every command cancelled by its own poster
    released: multiset<nat>)      // every release of the engine's reference to a command's stream

  datatype Event = Post(cmd: nat) | Engine | Destroy | StoreShutdown | SignalSection

  function Init(): State {
    State(false, 0, [], map[], AtCheck, NotCalled, [], [], [], multiset{})
  }

  function PosterOf(s: State, c: nat): PosterPc {
    if c in s.posters then s.posters[c] else NotPosted
  }

  /** pthread_cond_signal. */
  function Woken(e: EnginePc): EnginePc {
    if e.Asleep? then Dequeuing else e
  }

  /** engine_post for command c: fast check, check under the lock, or cmd_cancel. */
  function PostStep(tags: Tags, s: State, c: nat): State {
    match PosterOf(s, c)
    case NotPosted => s.(posters := s.posters[c := if s.shutdown then Rejecting else Checked])
    case Checked =>
      if s.shutdown then s.(posters := s.posters[c := Rejecting])
      else s.(posters := s.posters[c := Enqueued], queue := s.queue + [c], enqueued := s.enqueued + [c],
              engine := Woken(s.engine))
    case Rejecting =>
      if HasStream(tags(c)) then s.(posters := s.posters[c := RejectRelease])
      else s.(posters := s.posters[c := Cancelled], rejected := s.rejected + [c])
    case RejectRelease =>
      s.(posters := s.posters[c := Cancelled], rejected := s.rejected + [c], released := s.released + multiset{c})
    case Enqueued => s
    case Cancelled => s
  }

  /** engine_thread_main. */
  function EngineStep(tags: Tags, s: State): State {
    match s.engine
    case AtCheck => s.(engine := if s.shutdown then StartDrain else Dequeuing)
    case Dequeuing =>
      if s.queue != [] then s.(queue := s.queue[1..], engine := Handling(s.queue[0]))
      else if s.shutdown then s.(engine := AtCheck)
      else s.(engine := Asleep)
    case Asleep => s
    case Handling(c) =>
      if HasStream(tags(c)) then s.(engine := Releasing(c))
      else s.(consumed := s.consumed + [(c, ByHandler)], engine := if tags(c).Stop? then StartDrain else AtCheck)
    case Releasing(c) =>
      s.(consumed := s.consumed + [(c, ByHandler)], engine := AtCheck, released := s.released + multiset{c})
    case StartDrain => s.(queue := [], engine := Draining(s.queue))
    case Draining(l) =>
      if l == [] then s.(engine := Exited)
      else if HasStream(tags(l[0])) then s.(engine := DrainRelease(l[0], l[1..]))
      else s.(consumed := s.consumed + [(l[0], ByDrain)], engine := Draining(l[1..]))
    case DrainRelease(c, l) =>
      s.(consumed := s.consumed + [(c, ByDrain)], engine := Draining(l), released := s.released + multiset{c})
    case Exited => s
  }

  /** engine_destroy. */
  function DestroyStep(tags: Tags, s: State): State {
    match s.destroyer
    case NotCalled => s.(shutdown := true, destroyer := Stored)
    case Stored => s.(destroyer := Joining, engine := Woken(s.engine))
    case Joining => if s.engine.Exited? then s.(destroyer := FinalTake) else s
    case FinalTake => s.(queue := [], destroyer := FinalDrain(s.queue))
    case FinalDrain(l) =>
      if l == [] then s.(destroyer := Returned)
      else if HasStream(tags(l[0])) then s.(destroyer := FinalRelease(l[0], l[1..]))
      else s.(consumed := s.consumed + [(l[0], ByDrain)], destroyer := FinalDrain(l[1..]))
    case FinalRelease(c, l) =>
      s.(consumed := s.consumed + [(c, ByDrain)], destroyer := FinalDrain(l), released := s.released + multiset{c})
    case Returned => s
  }

  function Step(tags: Tags, s: State, e: Event): State {
    match e
    case Post(c) => PostStep(tags, s, c)
    case Engine => EngineStep(tags, s)
    case Destroy => DestroyStep(tags, s)
    case StoreShutdown => s.(shutdown := true, signals := s.signals + 1)
    case SignalSection => if s.signals == 0 then s else s.(signals := s.signals - 1, engine := Woken(s.engine))
  }

  function Exec(tags: Tags, es: seq<Event>): State {
    if es == [] then Init() else Step(tags, Exec(tags, es[..|es| - 1]), es[|es| - 1])
  }

  lemma ExecSnoc(tags: Tags, es: seq<Event>, e: Event)
    ensures Exec(tags, es + [e]) == Step(tags, Exec(tags, es), e)
  {
    assert (es + [e])[..|es|] == es;
  }

  // ---------------------------------------------------------------- the invariant

  function Cmds(l: seq<(nat, Fate)>): (r: seq<nat>)
    ensures |r| == |l| && forall i :: 0 <= i < |l| ==> r[i] == l[i].0
  {
    seq(|l|, i requires 0 <= i < |l| => l[i].0)
  }

  function EngineHand(s: State): seq<nat> {
    match s.engine
    case Handling(c) => [c]
    case Releasing(c) => [c]
    case Draining(l) => l
    case DrainRelease(c, l) => [c] + l
    case _ => []
  }

  function DestroyHand(s: State): seq<nat> {
    match s.destroyer
    case FinalDrain(l) => l
    case FinalRelease(c, l) => [c] + l
    case _ => []
  }

  ghost predicate Distinct(l: seq<nat>) {
    forall i, j :: 0 <= i < j < |l| ==> l[i] != l[j]
  }

  /** Each command is in exactly one place, and the places line up in enqueue order. */
  ghost predicate Line(s: State) {
    s.enqueued == Cmds(s.consumed) + EngineHand(s) + DestroyHand(s) + s.queue
  }

  ghost predicate Posters(s: State) {
    && Distinct(s.enqueued) && Distinct(s.rejected)
    && (forall c: nat :: c in s.enqueued <==> PosterOf(s, c).Enqueued?)
    && (forall c: nat :: c in s.rejected <==> PosterOf(s, c).Cancelled?)
  }

  predicate Joined(d: DestroyPc) {
    d.FinalTake? || d.FinalDrain? || d.FinalRelease? || d.Returned?
  }

  /** The last line: who sleeps has nothing to do, and whoever stored shutdown is still going to
      signal. */
  ghost predicate Phases(s: State) {
    && (!s.destroyer.NotCalled? ==> s.shutdown)
    && (s.signals > 0 ==> s.shutdown)
    && (Joined(s.destroyer) ==> s.engine.Exited?)
    && (s.destroyer.FinalDrain? || s.destroyer.FinalRelease? || s.destroyer.Returned? ==> s.queue == [])
    && (s.engine.Asleep? ==> s.queue == [] && (s.shutdown ==> s.destroyer.Stored? || (s.destroyer.NotCalled? && s.signals > 0)))
  }

  /** What has been released is what has been disposed of and had a stream. */
  ghost predicate Accounted(tags: Tags, s: State) {
    s.released == Streams(tags, Cmds(s.consumed)) + Streams(tags, s.rejected)
  }

  /** Only commands with a stream get to the releasing steps. */
  ghost predicate Tagged(tags: Tags, s: State) {
    && (s.engine.Releasing? ==> HasStream(tags(s.engine.cmd)))
    && (s.engine.DrainRelease? ==> HasStream(tags(s.engine.cmd)))
    && (s.destroyer.FinalRelease? ==> HasStream(tags(s.destroyer.cmd)))
    && (forall c: nat :: PosterOf(s, c).RejectRelease? ==> HasStream(tags(c)))
  }

  ghost function Streams(tags: Tags, l: seq<nat>): multiset<nat> {
    if l == [] then multiset{}
    else
      var c := l[|l| - 1];
      Streams(tags, l[..|l| - 1]) + if HasStream(tags(c)) then multiset{c} else multiset{}
  }

  lemma StreamsSnoc(tags: Tags, l: seq<nat>, c: nat)
    ensures Streams(tags, l + [c]) == Streams(tags, l) + if HasStream(tags(c)) then multiset{c} else multiset{}
  {
    assert (l + [c])[..|l|] == l;
  }

  lemma {:induction false} StreamsCount(tags: Tags, l: seq<nat>, c: nat)
    requires Distinct(l)
    ensures Streams(tags, l)[c] == if HasStream(tags(c)) && c in l then 1 else 0
  {
    if l != [] {
      StreamsCount(tags, l[..|l| - 1], c);
      assert l == l[..|l| - 1] + [l[|l| - 1]];
    }
  }

  ghost predicate Inv(tags: Tags, s: State) {
    Line(s) && Posters(s) && Phases(s) && Tagged(tags, s) && Accounted(tags, s)
  }

  lemma CmdsSnoc(l: seq<(nat, Fate)>, c: nat, f: Fate)
    ensures Cmds(l + [(c, f)]) == Cmds(l) + [c]
  {
  }

  lemma {:induction false} LinePost(tags: Tags, s: State, c: nat)
    requires Line(s)
    ensures Line(PostStep(tags, s, c))
  {
    var r := PostStep(tags, s, c);
    assert Cmds(r.consumed) == Cmds(s.consumed) && EngineHand(r) == EngineHand(s) && DestroyHand(r) == DestroyHand(s);
    Assoc(Cmds(s.consumed) + EngineHand(s) + DestroyHand(s), s.queue, [c]);
  }

  lemma {:induction false} HeadOff(a: seq<nat>, l: seq<nat>)
    requires l != []
    ensures a + l == (a + [l[0]]) + l[1..] && l == [l[0]] + l[1..]
  {
  }

  lemma {:induction false} LineDrain(tags: Tags, s: State)
    requires Line(s) && Phases(s) && (s.engine.Draining? || s.engine.DrainRelease?)
    ensures Line(EngineStep(tags, s))
  {
    var a := Cmds(s.consumed);
    match s.engine
    case Draining(l) =>
      if l != [] {
        CmdsSnoc(s.consumed, l[0], ByDrain);
        HeadOff(a, l);
      }
    case DrainRelease(c, l) =>
      CmdsSnoc(s.consumed, c, ByDrain);
      Assoc(a, [c], l);
  }

  lemma {:induction false} LineTake(tags: Tags, s: State)
    requires Line(s) && Phases(s) && (s.engine.Dequeuing? || s.engine.StartDrain?)
    ensures Line(EngineStep(tags, s))
  {
    var a := Cmds(s.consumed);
    assert a + [] + [] == a && DestroyHand(s) == [];
    if s.engine.StartDrain? {
      assert a + s.queue + [] + [] == a + s.queue;
    } else if s.queue != [] {
      HeadOff(a, s.queue);
    }
  }

  lemma {:induction false} LineEngine(tags: Tags, s: State)
    requires Line(s) && Phases(s)
    ensures Line(EngineStep(tags, s))
  {
    match s.engine
    case AtCheck =>
    case Dequeuing => LineTake(tags, s);
    case Asleep =>
    case Handling(c) => CmdsSnoc(s.consumed, c, ByHandler);
    case Releasing(c) => CmdsSnoc(s.consumed, c, ByHandler);
    case StartDrain => LineTake(tags, s);
    case Draining(_) => LineDrain(tags, s);
    case DrainRelease(_, _) => LineDrain(tags, s);
    case Exited =>
  }

  lemma {:induction false} LineDestroy(tags: Tags, s: State)
    requires Line(s) && Phases(s)
    ensures Line(DestroyStep(tags, s))
  {
    var a := Cmds(s.consumed);
    match s.destroyer
    case NotCalled =>
    case Stored =>
    case Joining =>
    case FinalTake =>
      assert a + [] + [] + s.queue == a + [] + s.queue + [];
    case FinalDrain(l) =>
      if l != [] {
        CmdsSnoc(s.consumed, l[0], ByDrain);
        assert a + [] + l == (a + [l[0]]) + [] + l[1..];
        assert l == [l[0]] + l[1..];
      }
    case FinalRelease(c, l) =>
      CmdsSnoc(s.consumed, c, ByDrain);
      assert a + [] + ([c] + l) == (a + [c]) + [] + l;
    case Returned =>
  }

  lemma {:induction false} LineStep(tags: Tags, s: State, e: Event)
    requires Line(s) && Phases(s)
    ensures Line(Step(tags, s, e))
  {
    match e
    case Post(c) => LinePost(tags, s, c);
    case Engine => LineEngine(tags, s);
    case Destroy => LineDestroy(tags, s);
    case StoreShutdown =>
    case SignalSection =>
  }

  lemma {:induction false} PostersPost(tags: Tags, s: State, c: nat)
    requires Posters(s)
    ensures Posters(PostStep(tags, s, c))
  {
  }

  lemma {:induction false} PostersStep(tags: Tags, s: State, e: Event)
    requires Posters(s)
    ensures Posters(Step(tags, s, e))
  {
    match e
    case Post(c) => PostersPost(tags, s, c);
    case _ =>
      var r := Step(tags, s, e);
      assert r.posters == s.posters && r.enqueued == s.enqueued && r.rejected == s.rejected;
      assert forall c: nat :: PosterOf(r, c) == PosterOf(s, c);
  }

  lemma {:induction false} PhasesStep(tags: Tags, s: State, e: Event)
    requires Phases(s)
    ensures Phases(Step(tags, s, e))
  {
  }

  lemma {:induction false} TaggedPost(tags: Tags, s: State, c: nat)
    requires Tagged(tags, s)
    ensures Tagged(tags, PostStep(tags, s, c))
  {
    var r := PostStep(tags, s, c);
    forall d: nat | PosterOf(r, d).RejectRelease?
      ensures HasStream(tags(d))
    {
      assert d != c ==> PosterOf(s, d).RejectRelease?;
    }
  }

  lemma {:induction false} TaggedStep(tags: Tags, s: State, e: Event)
    requires Tagged(tags, s)
    ensures Tagged(tags, Step(tags, s, e))
  {
    if e.Post? {
      TaggedPost(tags, s, e.cmd);
    } else {
      SamePosters(s, Step(tags, s, e));
    }
  }

  lemma {:induction false} SamePosters(s: State, r: State)
    requires r.posters == s.posters
    ensures forall c: nat :: PosterOf(r, c) == PosterOf(s, c)
  {
  }

  function OneIf(b: bool, c: nat): multiset<nat> {
    if b then multiset{c} else multiset{}
  }

  lemma {:induction false} AccountedSame(tags: Tags, s: State, r: State)
    requires Accounted(tags, s) && r.consumed == s.consumed && r.rejected == s.rejected && r.released == s.released
    ensures Accounted(tags, r)
  {
  }

  lemma {:induction false} AccountedConsumed(tags: Tags, s: State, r: State, c: nat, f: Fate)
    requires Accounted(tags, s) && r.consumed == s.consumed + [(c, f)] && r.rejected == s.rejected
    requires r.released == s.released + OneIf(HasStream(tags(c)), c)
    ensures Accounted(tags, r)
  {
    CmdsSnoc(s.consumed, c, f);
    StreamsSnoc(tags, Cmds(s.consumed), c);
  }

  lemma {:induction false} AccountedRejected(tags: Tags, s: State, r: State, c: nat)
    requires Accounted(tags, s) && r.consumed == s.consumed && r.rejected == s.rejected + [c]
    requires r.released == s.released + OneIf(HasStream(tags(c)), c)
    ensures Accounted(tags, r)
  {
    StreamsSnoc(tags, s.rejected, c);
  }

  lemma {:induction false} AccountedPost(tags: Tags, s: State, c: nat)
    requires Accounted(tags, s) && Tagged(tags, s)
    ensures Accounted(tags, PostStep(tags, s, c))
  {
    var r := PostStep(tags, s, c);
    if r.rejected == s.rejected {
      AccountedSame(tags, s, r);
    } else {
      AccountedRejected(tags, s, r, c);
    }
  }

  lemma {:induction false} AccountedHandle(tags: Tags, s: State)
    requires Accounted(tags, s) && Tagged(tags, s) && (s.engine.Handling? || s.engine.Releasing?)
    ensures Accounted(tags, EngineStep(tags, s))
  {
    var r := EngineStep(tags, s);
    if s.engine.Handling? && HasStream(tags(s.engine.cmd)) {
      AccountedSame(tags, s, r);
    } else {
      AccountedConsumed(tags, s, r, s.engine.cmd, ByHandler);
    }
  }

  lemma {:induction false} AccountedDrain(tags: Tags, s: State)
    requires Accounted(tags, s) && Tagged(tags, s) && (s.engine.Draining? || s.engine.DrainRelease?)
    ensures Accounted(tags, EngineStep(tags, s))
  {
    var r := EngineStep(tags, s);
    match s.engine
    case Draining(l) =>
      if l == [] || HasStream(tags(l[0])) {
        AccountedSame(tags, s, r);
      } else {
        AccountedConsumed(tags, s, r, l[0], ByDrain);
      }
    case DrainRelease(c, _) => AccountedConsumed(tags, s, r, c, ByDrain);
  }

  lemma {:induction false} AccountedEngine(tags: Tags, s: State)
    requires Accounted(tags, s) && Tagged(tags, s)
    ensures Accounted(tags, EngineStep(tags, s))
  {
    if s.engine.Handling? || s.engine.Releasing? {
      AccountedHandle(tags, s);
    } else if s.engine.Draining? || s.engine.DrainRelease? {
      AccountedDrain(tags, s);
    } else {
      AccountedSame(tags, s, EngineStep(tags, s));
    }
  }

  lemma {:induction false} AccountedDestroy(tags: Tags, s: State)
    requires Accounted(tags, s) && Tagged(tags, s)
    ensures Accounted(tags, DestroyStep(tags, s))
  {
    var r := DestroyStep(tags, s);
    match s.destroyer
    case FinalDrain(l) =>
      if l == [] || HasStream(tags(l[0])) {
        AccountedSame(tags, s, r);
      } else {
        AccountedConsumed(tags, s, r, l[0], ByDrain);
      }
    case FinalRelease(c, _) => AccountedConsumed(tags, s, r, c, ByDrain);
    case _ => AccountedSame(tags, s, r);
  }

  lemma {:induction false} AccountedStep(tags: Tags, s: State, e: Event)
    requires Accounted(tags, s) && Tagged(tags, s)
    ensures Accounted(tags, Step(tags, s, e))
  {
    match e
    case Post(c) => AccountedPost(tags, s, c);
    case Engine => AccountedEngine(tags, s);
    case Destroy => AccountedDestroy(tags, s);
    case StoreShutdown => AccountedSame(tags, s, Step(tags, s, e));
    case SignalSection => AccountedSame(tags, s, Step(tags, s, e));
  }

  lemma {:induction false} InvAlways(tags: Tags, es: seq<Event>)
    ensures Inv(tags, Exec(tags, es))
  {
    if es != [] {
      var s, e := Exec(tags, es[..|es| - 1]), es[|es| - 1];
      InvAlways(tags, es[..|es| - 1]);
      LineStep(tags, s, e);
      PostersStep(tags, s, e);
      PhasesStep(tags, s, e);
      TaggedStep(tags, s, e);
      AccountedStep(tags, s, e);
    }
  }

  // ---------------------------------------------------------------- consequences

  /** In every reachable state: no command is disposed of twice, by whomever, and those that went
      through the queue are disposed of in the order in which they entered it. */
  lemma {:induction false} OnceAndInOrder(tags: Tags, es: seq<Event>)
    ensures var s := Exec(tags, es);
            && Cmds(s.consumed) <= s.enqueued
            && Distinct(Cmds(s.consumed) + s.rejected)
  {
    InvAlways(tags, es);
    OnceFromInv(Exec(tags, es));
  }

  lemma {:induction false} OnceFromInv(s: State)
    requires Line(s) && Posters(s)
    ensures Cmds(s.consumed) <= s.enqueued && Distinct(Cmds(s.consumed) + s.rejected)
  {
    var a, b := Cmds(s.consumed), EngineHand(s) + DestroyHand(s) + s.queue;
    assert s.enqueued == a + b;
    forall i | 0 <= i < |a|
      ensures PosterOf(s, a[i]).Enqueued? && s.enqueued[i] == a[i]
    {
      assert s.enqueued[i] == a[i];
    }
    forall i | 0 <= i < |s.rejected|
      ensures PosterOf(s, s.rejected[i]).Cancelled?
    {
      assert s.rejected[i] in s.rejected;
    }
  }

  /** When engine_destroy has returned, every enqueued command has been disposed of, nothing is left
      anywhere, and a post that is still under way can only be cancelled by its poster. */
  lemma {:induction false} DestroyedMeansDrained(tags: Tags, es: seq<Event>)
    requires Exec(tags, es).destroyer.Returned?
    ensures var s := Exec(tags, es);
            && Cmds(s.consumed) == s.enqueued && s.queue == []
            && (forall c :: PosterOf(s, c).Enqueued? ==> c in Cmds(s.consumed))
            && (forall c :: PosterOf(s, c).Cancelled? ==> c in s.rejected)
  {
    InvAlways(tags, es);
  }

  /** After that no event can put a command into the queue or hand one to the engine. */
  lemma {:induction false} DestroyedIsFinal(tags: Tags, es: seq<Event>, e: Event)
    requires Exec(tags, es).destroyer.Returned?
    ensures var s, r := Exec(tags, es), Step(tags, Exec(tags, es), e);
            r.destroyer.Returned? && r.enqueued == s.enqueued && r.consumed == s.consumed && r.queue == []
  {
    InvAlways(tags, es);
    FinalStep(tags, Exec(tags, es), e);
  }

  lemma {:induction false} FinalStep(tags: Tags, s: State, e: Event)
    requires Phases(s) && s.destroyer.Returned?
    ensures var r := Step(tags, s, e);
            r.destroyer.Returned? && r.enqueued == s.enqueued && r.consumed == s.consumed && r.queue == []
  {
  }

  // ---------------------------------------------------------------- handled, unless there is a cause

  predicate Drains(e: EnginePc) {
    e.StartDrain? || e.Draining? || e.DrainRelease? || e.Exited?
  }

  ghost predicate HandledStop(tags: Tags, l: seq<(nat, Fate)>) {
    exists i :: 0 <= i < |l| && l[i].1 == ByHandler && tags(l[i].0).Stop?
  }

  ghost predicate AllHandled(l: seq<(nat, Fate)>) {
    forall i :: 0 <= i < |l| ==> l[i].1 == ByHandler
  }

  ghost predicate StopIsLast(tags: Tags, l: seq<(nat, Fate)>) {
    forall i, j :: 0 <= i < j < |l| && l[i].1 == ByHandler && tags(l[i].0).Stop? ==> l[j].1 == ByDrain
  }

  predicate Refused(p: PosterPc) {
    p.Rejecting? || p.RejectRelease? || p.Cancelled?
  }

  /** Shutdown, or a stop command that has been handled, is behind every drain, shutdown behind every
      refused post; nothing is handled after a stop command. */
  ghost predicate Caused(tags: Tags, s: State) {
    && (Drains(s.engine) ==> s.shutdown || HandledStop(tags, s.consumed))
    && (!AllHandled(s.consumed) ==> s.shutdown || HandledStop(tags, s.consumed))
    && (Joined(s.destroyer) ==> s.shutdown)
    && (!s.shutdown ==> s.rejected == [] && forall c: nat :: !Refused(PosterOf(s, c)))
    && (HandledStop(tags, s.consumed) ==> Drains(s.engine))
    && StopIsLast(tags, s.consumed)
  }

  lemma {:induction false} HandledStopSnoc(tags: Tags, l: seq<(nat, Fate)>, c: nat, f: Fate)
    ensures HandledStop(tags, l + [(c, f)]) <==> HandledStop(tags, l) || (f == ByHandler && tags(c).Stop?)
    ensures AllHandled(l + [(c, f)]) <==> AllHandled(l) && f == ByHandler
    ensures StopIsLast(tags, l + [(c, f)]) <==> StopIsLast(tags, l) && (HandledStop(tags, l) ==> f == ByDrain)
  {
    var r := l + [(c, f)];
    assert r[|l|] == (c, f);
    assert forall i :: 0 <= i < |l| ==> r[i] == l[i];
    if HandledStop(tags, l) {
      var i :| 0 <= i < |l| && l[i].1 == ByHandler && tags(l[i].0).Stop?;
      assert r[i] == l[i];
    }
  }

  lemma {:induction false} CausedEngine(tags: Tags, s: State)
    requires Caused(tags, s) && Tagged(tags, s)
    ensures Caused(tags, EngineStep(tags, s))
  {
    SamePosters(s, EngineStep(tags, s));
    match s.engine
    case Handling(c) => HandledStopSnoc(tags, s.consumed, c, ByHandler);
    case Releasing(c) => HandledStopSnoc(tags, s.consumed, c, ByHandler);
    case Draining(l) =>
      if l != [] {
        HandledStopSnoc(tags, s.consumed, l[0], ByDrain);
      }
    case DrainRelease(c, _) => HandledStopSnoc(tags, s.consumed, c, ByDrain);
    case _ =>
  }

  lemma {:induction false} CausedDestroy(tags: Tags, s: State)
    requires Caused(tags, s) && Phases(s)
    ensures Caused(tags, DestroyStep(tags, s))
  {
    SamePosters(s, DestroyStep(tags, s));
    match s.destroyer
    case FinalDrain(l) =>
      if l != [] {
        HandledStopSnoc(tags, s.consumed, l[0], ByDrain);
      }
    case FinalRelease(c, _) => HandledStopSnoc(tags, s.consumed, c, ByDrain);
    case _ =>
  }

  lemma {:induction false} CausedPost(tags: Tags, s: State, c: nat)
    requires Caused(tags, s)
    ensures Caused(tags, PostStep(tags, s, c))
  {
    var r := PostStep(tags, s, c);
    assert Drains(r.engine) == Drains(s.engine) && r.consumed == s.consumed;
    if !s.shutdown {
      assert !Refused(PosterOf(s, c));
      forall d: nat
        ensures !Refused(PosterOf(r, d))
      {
        assert !Refused(PosterOf(s, d));
      }
    }
  }

  lemma {:induction false} CausedStep(tags: Tags, s: State, e: Event)
    requires Caused(tags, s) && Phases(s) && Tagged(tags, s)
    ensures Caused(tags, Step(tags, s, e))
  {
    match e
    case Post(c) => CausedPost(tags, s, c);
    case Engine => CausedEngine(tags, s);
    case Destroy => CausedDestroy(tags, s);
    case StoreShutdown => SamePosters(s, Step(tags, s, e));
    case SignalSection => SamePosters(s, Step(tags, s, e));
  }

  lemma {:induction false} ShutdownStep(tags: Tags, s: State, e: Event)
    requires Phases(s)
    ensures Step(tags, s, e).shutdown <==> s.shutdown || e == StoreShutdown || e == Destroy
    ensures e != Destroy && s.destroyer.NotCalled? ==> Step(tags, s, e).destroyer.NotCalled?
  {
  }

  lemma {:induction false} CausedAlways(tags: Tags, es: seq<Event>)
    ensures Caused(tags, Exec(tags, es))
  {
    if es != [] {
      var init, e := es[..|es| - 1], es[|es| - 1];
      CausedAlways(tags, init);
      InvAlways(tags, init);
      CausedStep(tags, Exec(tags, init), e);
    }
  }

  lemma {:induction false} ShutdownIff(tags: Tags, es: seq<Event>)
    ensures Exec(tags, es).shutdown <==> StoreShutdown in es || Destroy in es
    ensures Destroy !in es ==> Exec(tags, es).destroyer.NotCalled?
  {
    if es != [] {
      var init, e := es[..|es| - 1], es[|es| - 1];
      ShutdownIff(tags, init);
      InvAlways(tags, init);
      ShutdownStep(tags, Exec(tags, init), e);
      assert es == init + [e];
    }
  }

  /** Without a shutdown, a call of engine_destroy or a handled stop command in the run, every command
      disposed of was handled, nothing was refused, and the engine thread goes on.  Whatever happens,
      nothing is handled after a stop command. */
  lemma {:induction false} HandledUnlessCaused(tags: Tags, es: seq<Event>)
    ensures var s := Exec(tags, es);
            StoreShutdown !in es && Destroy !in es ==>
              && s.rejected == []
              && (!AllHandled(s.consumed) || Drains(s.engine) ==> HandledStop(tags, s.consumed))
    ensures StopIsLast(tags, Exec(tags, es).consumed)
  {
    CausedAlways(tags, es);
    ShutdownIff(tags, es);
  }

  function Handled(l: seq<(nat, Fate)>): nat {
    if l == [] then 0 else Handled(l[..|l| - 1]) + if l[|l| - 1].1.ByHandler? then 1 else 0
  }

  lemma HandledSnoc(l: seq<(nat, Fate)>, c: nat, f: Fate)
    ensures Handled(l + [(c, f)]) == Handled(l) + if f.ByHandler? then 1 else 0
  {
    assert (l + [(c, f)])[..|l|] == l;
  }

  /** The commands that the engine thread may still handle before it reads shutdown again. */
  function InHand(e: EnginePc): nat {
    if e.Dequeuing? || e.Asleep? || e.Handling? || e.Releasing? then 1 else 0
  }

  ghost predicate Budgeted(s: State, x: State) {
    x.shutdown && Handled(s.consumed) <= Handled(x.consumed) <= Handled(s.consumed) + InHand(s.engine) - InHand(x.engine)
  }

  lemma BudgetTrans(s: State, m: State, x: State)
    requires Budgeted(s, m) && Budgeted(m, x)
    ensures Budgeted(s, x)
  {
  }

  lemma {:induction false} OneMoreEngine(tags: Tags, s: State)
    requires s.shutdown
    ensures Budgeted(s, EngineStep(tags, s))
  {
    if s.engine.Draining? || s.engine.DrainRelease? {
      OneMoreDrain(tags, s);
    } else if s.engine.Handling? || s.engine.Releasing? {
      HandledSnoc(s.consumed, s.engine.cmd, ByHandler);
    }
  }

  lemma {:induction false} OneMoreDrain(tags: Tags, s: State)
    requires s.shutdown && (s.engine.Draining? || s.engine.DrainRelease?)
    ensures Budgeted(s, EngineStep(tags, s))
  {
    if s.engine.DrainRelease? {
      HandledSnoc(s.consumed, s.engine.cmd, ByDrain);
    } else if s.engine.list != [] {
      HandledSnoc(s.consumed, s.engine.list[0], ByDrain);
    }
  }

  lemma {:induction false} OneMoreDestroy(tags: Tags, s: State)
    requires s.shutdown
    ensures Budgeted(s, DestroyStep(tags, s))
  {
    match s.destroyer
    case FinalDrain(l) => if l != [] { HandledSnoc(s.consumed, l[0], ByDrain); }
    case FinalRelease(c, l) => HandledSnoc(s.consumed, c, ByDrain);
    case _ =>
  }

  lemma {:induction false} OneMorePost(tags: Tags, s: State, c: nat)
    requires s.shutdown
    ensures Budgeted(s, PostStep(tags, s, c))
  {
  }

  lemma {:induction false} OneMoreStep(tags: Tags, s: State, e: Event)
    requires s.shutdown
    ensures Budgeted(s, Step(tags, s, e))
  {
    match e
    case Post(c) => OneMorePost(tags, s, c);
    case Engine => OneMoreEngine(tags, s);
    case Destroy => OneMoreDestroy(tags, s);
    case StoreShutdown =>
    case SignalSection =>
  }

  /** Once shutdown is stored, at most one more command is handled, and none by an engine thread that
      is about to read it: the rest is cancelled. */
  lemma {:induction false} AtMostOneMore(tags: Tags, es: seq<Event>, more: seq<Event>)
    requires Exec(tags, es).shutdown
    ensures var s, x := Exec(tags, es), Exec(tags, es + more);
            && x.shutdown && Handled(x.consumed) <= Handled(s.consumed) + 1
            && (s.engine.AtCheck? ==> Handled(x.consumed) == Handled(s.consumed))
  {
    BudgetKept(tags, es, more);
  }

  lemma {:induction false} BudgetKept(tags: Tags, es: seq<Event>, more: seq<Event>)
    requires Exec(tags, es).shutdown
    ensures Budgeted(Exec(tags, es), Exec(tags, es + more))
  {
    if more == [] {
      assert es + [] == es;
    } else {
      var init, e := more[..|more| - 1], more[|more| - 1];
      assert more == init + [e];
      Assoc(es, init, [e]);
      BudgetKept(tags, es, init);
      ExecSnoc(tags, es + init, e);
      OneMoreStep(tags, Exec(tags, es + init), e);
      BudgetTrans(Exec(tags, es), Exec(tags, es + init), Exec(tags, es + more));
    }
  }

  function Engines(n: nat): (es: seq<Event>)
    ensures |es| == n && forall i :: 0 <= i < n ==> es[i] == Engine
  {
    seq(n, _ => Engine)
  }

  /** Steps of the engine thread until the i-th queued command has been handled. */
  function Turns(e: EnginePc, i: nat): nat {
    5 * i + match e
      case Handling(_) => 6
      case Releasing(_) => 5
      case AtCheck => 4
      case _ => 3
  }

  /** The i-th queued command comes to be handled if no shutdown and no stop command is before it. */
  ghost predicate InLine(tags: Tags, s: State, i: nat) {
    && !s.shutdown && i < |s.queue| && !Drains(s.engine) && !s.engine.Asleep?
    && (s.engine.Handling? ==> !tags(s.engine.cmd).Stop?)
    && forall j :: 0 <= j < i ==> !tags(s.queue[j]).Stop?
  }

  lemma {:induction false} EnginesCons(tags: Tags, es: seq<Event>, n: nat)
    ensures Exec(tags, es + Engines(n + 1)) == Exec(tags, es + [Engine] + Engines(n))
  {
    assert es + Engines(n + 1) == es + [Engine] + Engines(n);
  }

  /** A command in hand is handled in at most two steps. */
  lemma {:induction false} HandHandled(tags: Tags, es: seq<Event>, c: nat) returns (n: nat)
    requires Exec(tags, es).engine == Handling(c) || Exec(tags, es).engine == Releasing(c)
    ensures n <= (if Exec(tags, es).engine.Handling? then 2 else 1)
    ensures (c, ByHandler) in Exec(tags, es + Engines(n)).consumed
  {
    var s := Exec(tags, es);
    var r := EngineStep(tags, s);
    ExecSnoc(tags, es, Engine);
    assert Engines(1) == [Engine] && Engines(0) == [];
    if s.engine.Handling? && HasStream(tags(c)) {
      ExecSnoc(tags, es + [Engine], Engine);
      assert es + Engines(2) == es + [Engine] + [Engine];
      assert EngineStep(tags, r).consumed[|s.consumed|] == (c, ByHandler);
      n := 2;
    } else {
      assert r.consumed[|s.consumed|] == (c, ByHandler);
      n := 1;
    }
  }

  lemma {:induction false} TurnStep(tags: Tags, s: State, i: nat)
    requires InLine(tags, s, i) && (s.engine.Dequeuing? ==> i > 0)
    ensures var r := EngineStep(tags, s);
            var k := if s.engine.Dequeuing? then i - 1 else i;
            InLine(tags, r, k) && r.queue[k] == s.queue[i] && Turns(r.engine, k) < Turns(s.engine, i)
  {
  }

  lemma {:induction false} NextTurn(tags: Tags, es: seq<Event>, i: nat) returns (k: nat)
    requires InLine(tags, Exec(tags, es), i) && (Exec(tags, es).engine.Dequeuing? ==> i > 0)
    ensures var s, r := Exec(tags, es), Exec(tags, es + [Engine]);
            InLine(tags, r, k) && r.queue[k] == s.queue[i] && Turns(r.engine, k) < Turns(s.engine, i)
  {
    var s := Exec(tags, es);
    ExecSnoc(tags, es, Engine);
    TurnStep(tags, s, i);
    k := if s.engine.Dequeuing? then i - 1 else i;
  }

  /** In turn, and in a bounded number of steps of the engine thread, a queued command is handled. */
  lemma {:induction false} HandledInTurn(tags: Tags, es: seq<Event>, i: nat) returns (n: nat)
    requires InLine(tags, Exec(tags, es), i)
    ensures n <= Turns(Exec(tags, es).engine, i)
    ensures (Exec(tags, es).queue[i], ByHandler) in Exec(tags, es + Engines(n)).consumed
    decreases Turns(Exec(tags, es).engine, i)
  {
    ExecSnoc(tags, es, Engine);
    if Exec(tags, es).engine.Dequeuing? && i == 0 {
      var m := HandHandled(tags, es + [Engine], Exec(tags, es).queue[0]);
      EnginesCons(tags, es, m);
      n := m + 1;
    } else {
      var k := NextTurn(tags, es, i);
      var m := HandledInTurn(tags, es + [Engine], k);
      EnginesCons(tags, es, m);
      n := m + 1;
    }
  }

  /** A queue that is not empty finds the engine thread awake, as the previous lemma asks. */
  lemma {:induction false} QueuedIsInLine(tags: Tags, es: seq<Event>, i: nat)
    requires var s := Exec(tags, es);
             && StoreShutdown !in es && Destroy !in es && !HandledStop(tags, s.consumed) && i < |s.queue|
             && (s.engine.Handling? ==> !tags(s.engine.cmd).Stop?)
             && forall j :: 0 <= j < i ==> !tags(s.queue[j]).Stop?
    ensures InLine(tags, Exec(tags, es), i)
  {
    InvAlways(tags, es);
    CausedAlways(tags, es);
    ShutdownIff(tags, es);
  }

  /** A post goes through: without shutdown its two steps append the command and wake the engine; after
      shutdown at most three cancel it. */
  lemma {:induction false} PostGoesThrough(tags: Tags, es: seq<Event>, c: nat)
    requires PosterOf(Exec(tags, es), c).NotPosted?
    ensures var s := Exec(tags, es); var r := Exec(tags, es + [Post(c)] + [Post(c)]);
            !s.shutdown ==> r.queue == s.queue + [c] && r.enqueued == s.enqueued + [c] && !r.engine.Asleep?
    ensures var s := Exec(tags, es); var r := Exec(tags, es + [Post(c)] + [Post(c)] + [Post(c)]);
            s.shutdown ==> r.queue == s.queue && r.rejected == s.rejected + [c]
  {
    var e1 := es + [Post(c)];
    var e2 := e1 + [Post(c)];
    ExecSnoc(tags, es, Post(c));
    ExecSnoc(tags, e1, Post(c));
    ExecSnoc(tags, e2, Post(c));
  }

  // ---------------------------------------------------------------- the destroyed mutex

  /** The event takes mailbox_mtx: a poster past its first check, or a signalling section. */
  predicate TakesMutex(s: State, e: Event) {
    match e
    case Post(c) => PosterOf(s, c).Checked?
    case SignalSection => s.signals > 0
    case _ => false
  }

  /** Nobody is left who has yet to take the mutex. */
  ghost predicate Quiescent(s: State) {
    s.signals == 0 && forall c: nat :: !PosterOf(s, c).Checked?
  }

  ghost predicate Untouched(tags: Tags, es: seq<Event>, more: seq<Event>) {
    forall i: nat :: i < |more| ==> !TakesMutex(Exec(tags, es + more[..i]), more[i])
  }

  lemma {:induction false} QuiescentStep(tags: Tags, s: State, e: Event)
    requires s.shutdown && Quiescent(s) && e != StoreShutdown
    ensures !TakesMutex(s, e) && Step(tags, s, e).shutdown && Quiescent(Step(tags, s, e))
  {
    var r := Step(tags, s, e);
    forall c: nat
      ensures !PosterOf(r, c).Checked?
    {
      assert !PosterOf(s, c).Checked?;
    }
  }

  lemma {:induction false} QuiescentStays(tags: Tags, es: seq<Event>, more: seq<Event>)
    requires Exec(tags, es).shutdown && Quiescent(Exec(tags, es)) && StoreShutdown !in more
    ensures Exec(tags, es + more).shutdown && Quiescent(Exec(tags, es + more))
  {
    if more == [] {
      assert es + [] == es;
    } else {
      var init, e := more[..|more| - 1], more[|more| - 1];
      QuiescentStays(tags, es, init);
      assert more == init + [e];
      Assoc(es, init, [e]);
      ExecSnoc(tags, es + init, e);
      QuiescentStep(tags, Exec(tags, es + init), e);
    }
  }

  /** What callers of engine_destroy have to see to: the mutex it has destroyed is never taken again,
      provided nobody signals shutdown afresh, if and only if no poster is between its two checks and
      no signaller before its section when it returns. */
  lemma {:induction false} MutexLeftAloneIff(tags: Tags, es: seq<Event>)
    requires Exec(tags, es).destroyer.Returned?
    ensures (forall more :: StoreShutdown !in more ==> Untouched(tags, es, more)) <==> Quiescent(Exec(tags, es))
  {
    var s := Exec(tags, es);
    InvAlways(tags, es);
    if Quiescent(s) {
      forall more | StoreShutdown !in more
        ensures Untouched(tags, es, more)
      {
        QuiescentUntouched(tags, es, more);
      }
    } else {
      var e := if s.signals > 0 then SignalSection else var c: nat :| PosterOf(s, c).Checked?; Post(c);
      assert [e][..0] == [] && es + [] == es && [e][0] == e;
      assert !Untouched(tags, es, [e]);
    }
  }

  lemma {:induction false} QuiescentUntouched(tags: Tags, es: seq<Event>, more: seq<Event>)
    requires Exec(tags, es).shutdown && Quiescent(Exec(tags, es)) && StoreShutdown !in more
    ensures Untouched(tags, es, more)
  {
    forall i: nat | i < |more|
      ensures !TakesMutex(Exec(tags, es + more[..i]), more[i])
    {
      QuiescentStays(tags, es, more[..i]);
      assert more[i] in more;
      QuiescentStep(tags, Exec(tags, es + more[..i]), more[i]);
    }
  }

  // ---------------------------------------------------------------- wake-ups and termination

  /** No wake-up is lost: the engine thread sleeps only while there is nothing to do, or while a
      thread that has stored shutdown still has its signal ahead. */
  lemma {:induction false} NoLostWakeup(tags: Tags, es: seq<Event>)
    ensures var s := Exec(tags, es);
            s.engine.Asleep? ==> s.queue == [] && (!s.shutdown || s.destroyer.Stored? || s.signals > 0)
  {
    InvAlways(tags, es);
  }

  /** engine_destroy cannot get stuck: until it returns, it or the engine thread can take a step. */
  lemma {:induction false} DestroyProgress(tags: Tags, es: seq<Event>)
    requires !Exec(tags, es).destroyer.Returned? && !Exec(tags, es).destroyer.NotCalled?
    ensures var s := Exec(tags, es); EngineStep(tags, s) != s || DestroyStep(tags, s) != s
  {
    InvAlways(tags, es);
  }

  function EngineRank(s: State): nat {
    match s.engine
    case AtCheck => 2 * |s.queue| + 3
    case Dequeuing => 2 * |s.queue| + 4
    case Asleep => 2 * |s.queue| + 4
    case Handling(_) => 2 * |s.queue| + 5
    case Releasing(_) => 2 * |s.queue| + 4
    case StartDrain => 2 * |s.queue| + 2
    case Draining(l) => 2 * |l| + 1
    case DrainRelease(_, l) => 2 * |l| + 2
    case Exited => 0
  }

  function DestroyRank(s: State): nat {
    match s.destroyer
    case NotCalled => 2 * |s.queue| + 5
    case Stored => 2 * |s.queue| + 4
    case Joining => 2 * |s.queue| + 3
    case FinalTake => 2 * |s.queue| + 2
    case FinalDrain(l) => 2 * |l| + 1
    case FinalRelease(_, l) => 2 * |l| + 2
    case Returned => 0
  }

  /** How many effective steps engine_destroy and the engine thread still have to take. */
  function Rank(s: State): nat {
    EngineRank(s) + DestroyRank(s)
  }

  /** After shutdown no event makes the way longer, and every effective step of the two threads makes
      it shorter, whatever the posters do in between. */
  lemma {:induction false} RankDrops(tags: Tags, s: State, e: Event)
    requires Phases(s) && s.shutdown
    ensures Rank(Step(tags, s, e)) <= Rank(s)
    ensures (e.Engine? || e.Destroy?) && Step(tags, s, e) != s ==> Rank(Step(tags, s, e)) < Rank(s)
  {
    match e
    case Engine =>
      if EngineStep(tags, s) != s {
        EngineDrops(tags, s);
      }
    case Destroy =>
      if DestroyStep(tags, s) != s {
        DestroyDrops(tags, s);
      }
    case Post(_) =>
    case StoreShutdown =>
    case SignalSection =>
  }

  lemma {:induction false} EngineDrops(tags: Tags, s: State)
    requires s.shutdown && EngineStep(tags, s) != s
    ensures EngineRank(EngineStep(tags, s)) < EngineRank(s) && DestroyRank(EngineStep(tags, s)) <= DestroyRank(s)
  {
  }

  lemma {:induction false} DestroyDrops(tags: Tags, s: State)
    requires Phases(s) && s.shutdown && DestroyStep(tags, s) != s
    ensures DestroyRank(DestroyStep(tags, s)) < DestroyRank(s) && EngineRank(DestroyStep(tags, s)) <= EngineRank(s)
  {
  }

  lemma {:induction false} DestroyMove(tags: Tags, es: seq<Event>) returns (e: Event)
    requires !Exec(tags, es).destroyer.NotCalled? && !Exec(tags, es).destroyer.Returned?
    ensures e.Engine? || e.Destroy?
    ensures Rank(Exec(tags, es + [e])) < Rank(Exec(tags, es)) && !Exec(tags, es + [e]).destroyer.NotCalled?
  {
    InvAlways(tags, es);
    DestroyProgress(tags, es);
    e := BestMove(tags, Exec(tags, es));
    ExecSnoc(tags, es, e);
  }

  lemma {:induction false} BestMove(tags: Tags, s: State) returns (e: Event)
    requires Phases(s) && s.shutdown && !s.destroyer.NotCalled? && (EngineStep(tags, s) != s || DestroyStep(tags, s) != s)
    ensures e.Engine? || e.Destroy?
    ensures Rank(Step(tags, s, e)) < Rank(s) && !Step(tags, s, e).destroyer.NotCalled?
  {
    e := if EngineStep(tags, s) != s then Engine else Destroy;
    RankDrops(tags, s, e);
  }

  /** engine_destroy returns: from every state after its call, a schedule of at most Rank steps of the
      two threads gets there. */
  lemma {:induction false} DestroyReturns(tags: Tags, es: seq<Event>) returns (more: seq<Event>)
    requires !Exec(tags, es).destroyer.NotCalled?
    ensures |more| <= Rank(Exec(tags, es)) && forall i :: 0 <= i < |more| ==> more[i].Engine? || more[i].Destroy?
    ensures Exec(tags, es + more).destroyer.Returned?
    decreases Rank(Exec(tags, es))
  {
    if Exec(tags, es).destroyer.Returned? {
      more := [];
      assert es + [] == es;
    } else {
      var e := DestroyMove(tags, es);
      var rest := DestroyReturns(tags, es + [e]);
      more := [e] + rest;
      Assoc(es, [e], rest);
    }
  }

  // ---------------------------------------------------------------- references

  /** No reference is released twice, by whichever path, and once engine_destroy has returned every
      posted command that has a stream, and whose post is complete, has had it released exactly
      once. */
  lemma {:induction false} ReleasedOnce(tags: Tags, es: seq<Event>, c: nat)
    ensures Exec(tags, es).released[c] <= 1
    ensures !HasStream(tags(c)) ==> Exec(tags, es).released[c] == 0
    ensures var s := Exec(tags, es);
            s.destroyer.Returned? && HasStream(tags(c)) && (PosterOf(s, c).Enqueued? || PosterOf(s, c).Cancelled?) ==>
            s.released[c] == 1
  {
    var s := Exec(tags, es);
    InvAlways(tags, es);
    OnceFromInv(s);
    var a, b := Cmds(s.consumed), s.rejected;
    assert Distinct(a) by {
      assert forall i :: 0 <= i < |a| ==> (a + b)[i] == a[i];
    }
    StreamsCount(tags, a, c);
    StreamsCount(tags, b, c);
    NotInBoth(a, b, c);
  }

  lemma {:induction false} NotInBoth(a: seq<nat>, b: seq<nat>, c: nat)
    requires Distinct(a + b)
    ensures !(c in a && c in b)
  {
    forall i, j | 0 <= i < |a| && 0 <= j < |b|
      ensures a[i] != b[j]
    {
      assert (a + b)[i] == a[i] && (a + b)[|a| + j] == b[j];
    }
  }
}
