/**
 Bounded state of the live stream: the outbound frame queue of a WebSocket client
 (src/stream/ws.rs) and the per-topic replay window (src/stream/hub.rs).
 */
module StreamState {
  import opened Bytes
  import opened Ring

  // ---------------------------------------------------------------------------
  // The outbound queue
  // ---------------------------------------------------------------------------

  const OUTBOUND_CAPACITY := 256

  /**
   The queue with its history: every frame ever enqueued, and the positions in it of those
   sent and those dropped, each in the order it happened.
   */
  datatype Outbound<F> = Outbound(queue: seq<F>, enqueued: seq<F>, sent: seq<nat>, dropped: seq<nat>)
  {
    /** The position of the frame at the front of the queue. */
    function Front(): nat {
      |sent| + |dropped|
    }
  }

  datatype FrameOp<F> = Enqueue(frame: F) | Pop

  /** One critical section on the queue's mutex. */
  function OnQueue<F>(o: Outbound<F>, op: FrameOp<F>): Outbound<F> {
    match op
    case Enqueue(f) =>
      if |o.queue| >= OUTBOUND_CAPACITY then
        Outbound(o.queue[1..] + [f], o.enqueued + [f], o.sent, o.dropped + [o.Front()])
      else
        Outbound(o.queue + [f], o.enqueued + [f], o.sent, o.dropped)
    case Pop =>
      if o.queue == [] then o
      else Outbound(o.queue[1..], o.enqueued, o.sent + [o.Front()], o.dropped)
  }

  function RunQueue<F>(ops: seq<FrameOp<F>>): Outbound<F> {
    if ops == [] then Outbound([], [], [], [])
    else OnQueue(RunQueue(ops[..|ops| - 1]), Last(ops))
  }

  predicate Ascending(ps: seq<nat>) {
    forall i, j :: 0 <= i < j < |ps| ==> ps[i] < ps[j]
  }

  /** The queue is the newest part of what was enqueued, and is bounded. */
  ghost predicate IsSuffix<F>(o: Outbound<F>) {
    && o.Front() <= |o.enqueued|
    && o.queue == o.enqueued[o.Front()..]
    && |o.queue| <= 256
  }

  /** Every frame before the queue was sent or dropped, not both, each kind in order. */
  ghost predicate Accounted<F>(o: Outbound<F>) {
    && Ascending(o.sent) && Ascending(o.dropped)
    && (forall p: nat :: p < o.Front() <==> p in o.sent || p in o.dropped)
    && (forall p: nat :: !(p in o.sent && p in o.dropped))
  }

  /** Only frames with at least 256 newer ones are dropped. */
  ghost predicate DropsOldOnly<F>(o: Outbound<F>) {
    forall p: nat :: p in o.dropped ==> p + 256 < |o.enqueued|
  }

  lemma {:induction false} AscendingSnoc(ps: seq<nat>, p: nat)
    requires Ascending(ps) && forall q: nat :: q in ps ==> q < p
    ensures Ascending(ps + [p])
  {
    assert forall i :: 0 <= i < |ps| ==> ps[i] in ps && (ps + [p])[i] == ps[i];
  }

  lemma {:induction false} SuffixStep<F>(o: Outbound<F>, op: FrameOp<F>)
    requires IsSuffix(o)
    ensures IsSuffix(OnQueue(o, op))
  {}

  lemma {:induction false} AccountedStep<F>(o: Outbound<F>, op: FrameOp<F>)
    requires Accounted(o)
    ensures Accounted(OnQueue(o, op))
  {
    AscendingSnoc(o.sent, o.Front());
    AscendingSnoc(o.dropped, o.Front());
  }

  lemma {:induction false} DropsStep<F>(o: Outbound<F>, op: FrameOp<F>)
    requires IsSuffix(o) && DropsOldOnly(o)
    ensures DropsOldOnly(OnQueue(o, op))
  {}

  /**
   Over every interleaving of enqueues and pops: the queue is the suffix of at most 256
   frames that nothing has happened to, every earlier frame was either sent or dropped,
   frames are sent in order, and the newest 256 are never dropped.
   */
  lemma {:induction false} QueueOverAllRuns<F>(ops: seq<FrameOp<F>>)
    ensures var o := RunQueue(ops);
            && IsSuffix(o) && Accounted(o) && DropsOldOnly(o)
            && |o.enqueued| == |o.sent| + |o.dropped| + |o.queue|
  {
    if ops != [] {
      var before := ops[..|ops| - 1];
      QueueOverAllRuns(before);
      SuffixStep(RunQueue(before), Last(ops));
      AccountedStep(RunQueue(before), Last(ops));
      DropsStep(RunQueue(before), Last(ops));
    }
  }

  class OutboundQueue<F> {
    var queue: seq<F>
    ghost var history: Outbound<F>
    ghost var ops: seq<FrameOp<F>>

    /** The queue is where some interleaving of enqueues and pops leaves it. */
    ghost predicate Valid()
      reads this
    {
      history == RunQueue(ops) && history.queue == queue
    }

    constructor ()
      ensures Valid() && queue == [] && ops == []
    {
      queue := [];
      history := Outbound([], [], [], []);
      ops := [];
    }

    ghost method Record(op: FrameOp<F>)
      requires history == RunQueue(ops)
      modifies this`history, this`ops
      ensures ops == old(ops) + [op]
      ensures history == OnQueue(old(history), op) == RunQueue(ops)
    {
      assert (ops + [op])[..|ops|] == ops;
      history := OnQueue(history, op);
      ops := ops + [op];
    }

    /** `enqueue_frame` */
    method EnqueueFrame(frame: F)
      requires Valid()
      modifies this
      ensures Valid() && ops == old(ops) + [Enqueue(frame)]
    {
      if |queue| >= OUTBOUND_CAPACITY {
        queue := queue[1..];
      }
      queue := queue + [frame];
      Record(Enqueue(frame));
    }

    /** The writer's `pop_front`. */
    method PopFrame() returns (frame: Option<F>)
      requires Valid()
      modifies this
      ensures Valid() && ops == old(ops) + [Pop]
      ensures frame == if old(queue) == [] then None else Some(old(queue)[0])
      ensures queue == if old(queue) == [] then [] else old(queue)[1..]
      ensures frame.Some? ==>
                && history.sent == old(history).sent + [old(history).Front()]
                && old(history).Front() < |history.enqueued|
                && frame.value == history.enqueued[old(history).Front()]
    {
      QueueOverAllRuns(ops);
      if queue == [] {
        frame := None;
      } else {
        frame := Some(queue[0]);
        queue := queue[1..];
      }
      Record(Pop);
    }

    /** The writer's inner loop: send until the queue is empty or the socket fails. */
    method DrainToSocket() returns (sent: seq<F>, open: bool)
      requires Valid()
      modifies this
      ensures Valid()
      ensures open ==> queue == [] && sent == old(queue)
      ensures !open ==> exists lost :: sent + [lost] + queue == old(queue)
    {
      sent, open := [], true;
      while true
        invariant Valid() && open
        invariant sent + queue == old(queue)
        decreases |queue|
      {
        ghost var before := queue;
        var frame := PopFrame();
        if frame.None? {
          return;
        }
        assert before == [frame.value] + queue;
        Associative(sent, [frame.value], queue);
        open := *;
        if !open {
          return;
        }
        sent := sent + [frame.value];
      }
    }
  }

  // ---------------------------------------------------------------------------
  // The replay window
  // ---------------------------------------------------------------------------

  /** The last `n` items. */
  function LastN<T>(s: seq<T>, n: nat): seq<T> {
    if n < |s| then s[|s| - n..] else s
  }

  /** A live topic channel: its receiver count and the rows it keeps. */
  datatype Channel<R> = Channel(receivers: nat, rows: seq<R>)

  type Topics<R> = map<Text, Channel<R>>

  /** The channels, and the calls of `remove_subscriber` that saw no receiver and have yet to remove the channel. */
  datatype Hub<R> = Hub(topics: Topics<R>, removing: set<(nat, Text)>)

  /** `remove_subscriber` lets go of the map between looking and removing, so it is two steps of one call. */
  datatype HubOp<R> =
    | Subscribe(topic: Text)
    | DropReceiver(topic: Text)
    | CheckEmpty(call: nat, topic: Text)
    | RemoveTopic(call: nat, topic: Text)
    | Send(topic: Text, row: R)

  function Lookup<R>(topics: Topics<R>, topic: Text): Option<Channel<R>> {
    if topic in topics then Some(topics[topic]) else None
  }

  /** `get_or_create_topic` */
  function OrNew<R>(ch: Option<Channel<R>>): Channel<R> {
    if ch.Some? then ch.value else Channel(0, [])
  }

  predicate NoReceivers<R>(ch: Option<Channel<R>>) {
    ch.Some? && ch.value.receivers == 0
  }

  /** What a channel keeps of a longer record; with no window, everything. */
  function Keep<R>(rows: seq<R>, window: Option<nat>): seq<R> {
    match window
    case Some(w) => LastN(rows, w)
    case None => rows
  }

  /** A topic's channel after an operation on that topic. */
  function After<R>(
      ch: Option<Channel<R>>, op: HubOp<R>, removing: set<(nat, Text)>, window: Option<nat>): Option<Channel<R>>
  {
    match op
    case Subscribe(_) => Some(OrNew(ch).(receivers := OrNew(ch).receivers + 1))
    case DropReceiver(_) =>
      if ch.Some? && ch.value.receivers > 0 then Some(ch.value.(receivers := ch.value.receivers - 1)) else ch
    case CheckEmpty(_, _) => ch
    case RemoveTopic(call, topic) => if (call, topic) in removing then None else ch
    case Send(_, row) =>
      if OrNew(ch).receivers > 0 then Some(OrNew(ch).(rows := Keep(OrNew(ch).rows + [row], window)))
      else Some(OrNew(ch))
  }

  function Removing<R>(hub: Hub<R>, op: HubOp<R>): set<(nat, Text)> {
    match op
    case CheckEmpty(call, topic) =>
      if NoReceivers(Lookup(hub.topics, topic)) then hub.removing + {(call, topic)} else hub.removing - {(call, topic)}
    case RemoveTopic(call, topic) => hub.removing - {(call, topic)}
    case _ => hub.removing
  }

  function Put<R>(topics: Topics<R>, topic: Text, ch: Option<Channel<R>>): (r: Topics<R>)
    ensures Lookup(r, topic) == ch
    ensures forall t :: t != topic ==> Lookup(r, t) == Lookup(topics, t)
  {
    match ch
    case Some(c) => topics[topic := c]
    case None => topics - {topic}
  }

  /** The hub's operations; with no window every recorded row is kept. */
  function OnHub<R>(hub: Hub<R>, op: HubOp<R>, window: Option<nat>): Hub<R> {
    Hub(
      Put(hub.topics, op.topic, After(Lookup(hub.topics, op.topic), op, hub.removing, window)),
      Removing(hub, op))
  }

  function RunHub<R>(ops: seq<HubOp<R>>, window: Option<nat>): Hub<R> {
    if ops == [] then Hub(map[], {})
    else OnHub(RunHub(ops[..|ops| - 1], window), Last(ops), window)
  }

  /** Everything recorded on the live channel of `topic`: since it was last created, while it had receivers. */
  function Recorded<R>(ops: seq<HubOp<R>>, topic: Text): seq<R> {
    OrNew(Lookup(RunHub(ops, None).topics, topic)).rows
  }

  /** `replay` */
  function Replay<R>(topics: Topics<R>, topic: Text, n: nat): seq<R> {
    LastN(OrNew(Lookup(topics, topic)).rows, n)
  }

  function Cut<R>(ch: Option<Channel<R>>, window: nat): Option<Channel<R>> {
    match ch
    case Some(c) => Some(Channel(c.receivers, LastN(c.rows, window)))
    case None => None
  }

  /** The bounded hub is the unbounded one with every record cut to the window. */
  ghost predicate Bounds<R>(small: Topics<R>, full: Topics<R>, window: nat) {
    forall topic :: Lookup(small, topic) == Cut(Lookup(full, topic), window)
  }

  lemma {:induction false} LastNTwice<T>(s: seq<T>, window: nat, n: nat)
    ensures LastN(LastN(s, window), n) == LastN(s, if n < window then n else window)
  {}

  lemma {:induction false} LastNSnoc<T>(s: seq<T>, x: T, n: nat)
    ensures LastN(LastN(s, n) + [x], n) == LastN(s + [x], n)
  {}

  /** Cutting before or after an operation makes no difference. */
  lemma {:induction false} CutAfter<R>(ch: Option<Channel<R>>, op: HubOp<R>, removing: set<(nat, Text)>, window: nat)
    ensures After(Cut(ch, window), op, removing, Some(window)) == Cut(After(ch, op, removing, None), window)
  {
    if op.Send? {
      LastNSnoc(OrNew(ch).rows, op.row, window);
    }
  }

  lemma {:induction false} BoundsPut<R>(
    small: Topics<R>, full: Topics<R>, topic: Text, cut: Option<Channel<R>>, ch: Option<Channel<R>>, window: nat)
    requires Bounds(small, full, window) && cut == Cut(ch, window)
    ensures Bounds(Put(small, topic, cut), Put(full, topic, ch), window)
  {
    forall t
      ensures Lookup(Put(small, topic, cut), t) == Cut(Lookup(Put(full, topic, ch), t), window)
    {
      assert Lookup(small, t) == Cut(Lookup(full, t), window);
    }
  }

  lemma {:induction false} BoundsStep<R>(small: Hub<R>, full: Hub<R>, op: HubOp<R>, window: nat)
    requires Bounds(small.topics, full.topics, window) && small.removing == full.removing
    ensures Bounds(OnHub(small, op, Some(window)).topics, OnHub(full, op, None).topics, window)
    ensures OnHub(small, op, Some(window)).removing == OnHub(full, op, None).removing
  {
    var before := Lookup(full.topics, op.topic);
    var after := After(before, op, full.removing, None);
    CutAfter(before, op, full.removing, window);
    assert Lookup(small.topics, op.topic) == Cut(before, window);
    BoundsPut(small.topics, full.topics, op.topic, Cut(after, window), after, window);
  }

  lemma {:induction false} WindowIsSuffix<R>(ops: seq<HubOp<R>>, window: nat)
    ensures Bounds(RunHub(ops, Some(window)).topics, RunHub(ops, None).topics, window)
    ensures RunHub(ops, Some(window)).removing == RunHub(ops, None).removing
  {
    if ops != [] {
      var before := ops[..|ops| - 1];
      WindowIsSuffix(before, window);
      BoundsStep(RunHub(before, Some(window)), RunHub(before, None), Last(ops), window);
    }
  }

  /** Over every run: `replay(topic, n)` is the last min(n, window, recorded) rows of the live channel. */
  lemma {:induction false} ReplayIsLastRecorded<R>(ops: seq<HubOp<R>>, window: nat, topic: Text, n: nat)
    ensures Replay(RunHub(ops, Some(window)).topics, topic, n)
            == LastN(RowsBetween(ops, topic, LastRemoval(ops, topic), |ops|), if n < window then n else window)
  {
    RecordedIs(ops, topic);
    var small, full := Lookup(RunHub(ops, Some(window)).topics, topic), Lookup(RunHub(ops, None).topics, topic);
    WindowIsSuffix(ops, window);
    assert small == Cut(full, window);
    LastNTwice(OrNew(full).rows, window, n);
  }

  // ---------------------------------------------------------------------------
  // What is recorded, told from the operations alone
  // ---------------------------------------------------------------------------

  /** The receivers of a topic: subscriptions less drops since its channel was last removed. */
  function Listening<R>(ops: seq<HubOp<R>>, topic: Text): nat
    decreases |ops|
  {
    if ops == [] then 0
    else
      var front, op := ops[..|ops| - 1], Last(ops);
      var before := Listening(front, topic);
      if op.topic != topic then before
      else if op.Subscribe? then before + 1
      else if op.DropReceiver? then (if before > 0 then before - 1 else 0)
      else if op.RemoveTopic? && WillRemove(front, op.call, topic) then 0
      else before
  }

  /** The topic was subscribed to or sent to since its channel was last removed. */
  predicate IsOpen<R>(ops: seq<HubOp<R>>, topic: Text)
    decreases |ops|
  {
    && ops != []
    && var front, op := ops[..|ops| - 1], Last(ops);
    if op.topic != topic then IsOpen(front, topic)
    else if op.Subscribe? || op.Send? then true
    else if op.RemoveTopic? && WillRemove(front, op.call, topic) then false
    else IsOpen(front, topic)
  }

  /** The call has looked, saw an open topic that nobody listened to, and has not removed it since. */
  predicate WillRemove<R>(ops: seq<HubOp<R>>, call: nat, topic: Text)
    decreases |ops|
  {
    && ops != []
    && var front, op := ops[..|ops| - 1], Last(ops);
    if op == CheckEmpty(call, topic) then IsOpen(front, topic) && Listening(front, topic) == 0
    else if op == RemoveTopic(call, topic) then false
    else WillRemove(front, call, topic)
  }

  /** One past the last operation that removed the topic's channel. */
  function LastRemoval<R>(ops: seq<HubOp<R>>, topic: Text): (n: nat)
    ensures n <= |ops|
  {
    if ops == [] then 0
    else
      var front, op := ops[..|ops| - 1], Last(ops);
      if op.RemoveTopic? && op.topic == topic && WillRemove(front, op.call, topic) then |ops|
      else LastRemoval(front, topic)
  }

  /** The row of the `i`-th operation, if it is sent to the topic while someone listens. */
  function RowAt<R>(ops: seq<HubOp<R>>, i: nat, topic: Text): seq<R>
    requires i < |ops|
  {
    if ops[i].Send? && ops[i].topic == topic && Listening(ops[..i], topic) > 0 then [ops[i].row] else []
  }

  function RowsBetween<R>(ops: seq<HubOp<R>>, topic: Text, from: nat, to: nat): seq<R>
    requires to <= |ops|
  {
    if to <= from then [] else RowsBetween(ops, topic, from, to - 1) + RowAt(ops, to - 1, topic)
  }

  lemma {:induction false} RowsOfPrefix<R>(ops: seq<HubOp<R>>, topic: Text, from: nat, to: nat, n: nat)
    requires to <= n <= |ops|
    ensures RowsBetween(ops[..n], topic, from, to) == RowsBetween(ops, topic, from, to)
  {
    if from < to {
      RowsOfPrefix(ops, topic, from, to - 1, n);
      assert ops[..n][..to - 1] == ops[..to - 1];
    }
  }

  lemma {:induction false} RunSnoc<R>(ops: seq<HubOp<R>>, op: HubOp<R>, window: Option<nat>)
    ensures RunHub(ops + [op], window) == OnHub(RunHub(ops, window), op, window)
  {
    assert (ops + [op])[..|ops|] == ops;
  }

  /** The hub's state, told from the operations alone. */
  lemma {:induction false} HubIs<R>(ops: seq<HubOp<R>>, topic: Text, call: nat, window: Option<nat>)
    ensures var hub := RunHub(ops, window);
            && (Lookup(hub.topics, topic).Some? <==> IsOpen(ops, topic))
            && OrNew(Lookup(hub.topics, topic)).receivers == Listening(ops, topic)
            && ((call, topic) in hub.removing <==> WillRemove(ops, call, topic))
  {
    if ops != [] {
      var front, op := ops[..|ops| - 1], Last(ops);
      HubIs(front, topic, call, window);
      if op.RemoveTopic? && op.topic == topic {
        HubIs(front, topic, op.call, window);
      }
      HubStepIs(RunHub(front, window), op, topic, window);
    }
  }

  lemma {:induction false} HubStepIs<R>(hub: Hub<R>, op: HubOp<R>, topic: Text, window: Option<nat>)
    ensures Lookup(OnHub(hub, op, window).topics, topic) ==
            if op.topic == topic then After(Lookup(hub.topics, topic), op, hub.removing, window)
            else Lookup(hub.topics, topic)
  {}

  /**
   Recorded on a topic are, in order, exactly the rows sent to it after its channel was last
   removed, at moments when someone was listening.
   */
  lemma {:induction false} RecordedIs<R>(ops: seq<HubOp<R>>, topic: Text)
    ensures Recorded(ops, topic) == RowsBetween(ops, topic, LastRemoval(ops, topic), |ops|)
  {
    if ops != [] {
      var n := |ops| - 1;
      var front, op := ops[..n], ops[n];
      RecordedIs(front, topic);
      RowsOfPrefix(ops, topic, LastRemoval(front, topic), n, n);
      RecordedStep(front, op, topic);
      assert ops == front + [op];
    }
  }

  lemma {:induction false} RecordedStep<R>(front: seq<HubOp<R>>, op: HubOp<R>, topic: Text)
    ensures Recorded(front + [op], topic) ==
            if op.topic != topic then Recorded(front, topic)
            else if op.RemoveTopic? && WillRemove(front, op.call, topic) then []
            else if op.Send? && Listening(front, topic) > 0 then Recorded(front, topic) + [op.row]
            else Recorded(front, topic)
  {
    HubIs(front, topic, if op.RemoveTopic? then op.call else 0, None);
    RunSnoc(front, op, None);
    HubStepIs(RunHub(front, None), op, topic, None);
  }

  // ---------------------------------------------------------------------------
  // When a topic is freed
  // ---------------------------------------------------------------------------

  lemma {:induction false} CheckThenRemove<R>(hub: Hub<R>, call: nat, topic: Text, window: Option<nat>)
    ensures var checked := OnHub(hub, CheckEmpty(call, topic), window);
            OnHub(checked, RemoveTopic(call, topic), window).topics ==
            if NoReceivers(Lookup(hub.topics, topic)) then hub.topics - {topic} else hub.topics
  {
    var topics := hub.topics;
    assert Put(topics, topic, Lookup(topics, topic)) == topics;
    var checked := OnHub(hub, CheckEmpty(call, topic), window);
    assert checked.topics == topics;
    assert (call, topic) in checked.removing <==> NoReceivers(Lookup(topics, topic));
  }

  /**
   Left to itself, a removal frees a topic exactly when nobody is subscribed. Unsubscribing
   drops the receiver first, so it frees the topic exactly when no other receiver is left. The
   disconnect path removes while its receiver is still held, and that receiver is never
   dropped: it changes nothing at all.
   */
  lemma {:induction false} FreedIff<R>(ops: seq<HubOp<R>>, window: nat, call: nat, topic: Text)
    requires topic in RunHub(ops, Some(window)).topics
    ensures var topics := RunHub(ops, Some(window)).topics;
            var n := topics[topic].receivers;
            var remove := [CheckEmpty(call, topic)] + [RemoveTopic(call, topic)];
            && (topic !in RunHub(ops + [DropReceiver(topic)] + remove, Some(window)).topics <==> n <= 1)
            && RunHub(ops + remove, Some(window)).topics == (if n == 0 then topics - {topic} else topics)
  {
    var check: HubOp<R>, go: HubOp<R> := CheckEmpty(call, topic), RemoveTopic(call, topic);
    var hub, dropped := RunHub(ops, Some(window)), RunHub(ops + [DropReceiver(topic)], Some(window));
    RunTwo(ops, check, go, Some(window));
    RunTwo(ops + [DropReceiver(topic)], check, go, Some(window));
    RunSnoc(ops, DropReceiver(topic), Some(window));
    CheckThenRemove(hub, call, topic, Some(window));
    CheckThenRemove(dropped, call, topic, Some(window));
  }

  lemma {:induction false} RunTwo<R>(ops: seq<HubOp<R>>, a: HubOp<R>, b: HubOp<R>, window: Option<nat>)
    ensures RunHub(ops + ([a] + [b]), window) == OnHub(OnHub(RunHub(ops, window), a, window), b, window)
  {
    Associative(ops, [a], [b]);
    RunSnoc(ops, a, window);
    RunSnoc(ops + [a], b, window);
  }

  /** The receivers of a topic that had `n`, after subscriptions and drops. */
  function Receivers<R>(n: nat, ops: seq<HubOp<R>>, topic: Text): nat {
    if ops == [] then n
    else
      var before := Receivers(n, ops[..|ops| - 1], topic);
      var op := Last(ops);
      if op.topic != topic then before
      else if op.Subscribe? then before + 1
      else if op.DropReceiver? && before > 0 then before - 1
      else before
  }

  /** Nobody removes the topic, and the call does not start over. */
  ghost predicate Undisturbed<R>(ops: seq<HubOp<R>>, call: nat, topic: Text) {
    forall op :: op in ops && op.topic == topic ==> !op.RemoveTopic? && !(op.CheckEmpty? && op.call == call)
  }

  lemma {:induction false} MeanwhileReceivers<R>(
      before: seq<HubOp<R>>, meanwhile: seq<HubOp<R>>, call: nat, topic: Text, window: Option<nat>)
    requires topic in RunHub(before, window).topics && (call, topic) in RunHub(before, window).removing
    requires Undisturbed(meanwhile, call, topic)
    ensures var hub := RunHub(before + meanwhile, window);
            && topic in hub.topics && (call, topic) in hub.removing
            && hub.topics[topic].receivers ==
              Receivers(RunHub(before, window).topics[topic].receivers, meanwhile, topic)
  {
    if meanwhile == [] {
      assert before + meanwhile == before;
    } else {
      var front, op := meanwhile[..|meanwhile| - 1], Last(meanwhile);
      assert meanwhile == front + [op] && op in meanwhile;
      MeanwhileReceivers(before, front, call, topic, window);
      Associative(before, front, [op]);
      RunSnoc(before + front, op, window);
      KeepsWatch(RunHub(before + front, window), op, call, topic, window);
    }
  }

  lemma {:induction false} KeepsWatch<R>(hub: Hub<R>, op: HubOp<R>, call: nat, topic: Text, window: Option<nat>)
    requires topic in hub.topics && (call, topic) in hub.removing
    requires op.topic == topic ==> !op.RemoveTopic? && !(op.CheckEmpty? && op.call == call)
    ensures var after := OnHub(hub, op, window);
            && topic in after.topics && (call, topic) in after.removing
            && after.topics[topic].receivers == Receivers(hub.topics[topic].receivers, [op], topic)
  {
    assert Lookup(OnHub(hub, op, window).topics, topic) ==
           if op.topic == topic then After(Lookup(hub.topics, topic), op, hub.removing, window)
             else Lookup(hub.topics, topic);
    assert [op][..0] == [];
  }

  /**
   Between looking and removing others may subscribe. A call that saw no receiver removes a
   channel that has receivers, and cuts them off, if and only if more have subscribed than
   dropped in the meantime.
   */
  lemma {:induction false} CutsOffIff<R>(
      before: seq<HubOp<R>>, meanwhile: seq<HubOp<R>>, call: nat, topic: Text, window: Option<nat>)
    requires NoReceivers(Lookup(RunHub(before, window).topics, topic))
    requires Undisturbed(meanwhile, call, topic)
    ensures var ops := before + [CheckEmpty(call, topic)] + meanwhile;
            && topic in RunHub(ops, window).topics
            && topic !in RunHub(ops + [RemoveTopic(call, topic)], window).topics
            && (RunHub(ops, window).topics[topic].receivers > 0 <==> Receivers(0, meanwhile, topic) > 0)
  {
    var checked := before + [CheckEmpty(call, topic)];
    RunSnoc(before, CheckEmpty(call, topic), window);
    var hub := RunHub(before, window);
    assert Put(hub.topics, topic, Lookup(hub.topics, topic)) == hub.topics;
    MeanwhileReceivers(checked, meanwhile, call, topic, window);
    RunSnoc(checked + meanwhile, RemoveTopic(call, topic), window);
  }

  class BroadcastHub<R> {
    const window: nat
    var topics: Topics<R>
    ghost var ops: seq<HubOp<R>>

    ghost predicate Valid()
      reads this
    {
      topics == RunHub(ops, Some(window)).topics
    }

    constructor (window: nat)
      ensures Valid() && this.window == window && ops == []
    {
      this.window := window;
      topics := map[];
      ops := [];
    }

    ghost method Record(op: HubOp<R>)
      requires topics == OnHub(RunHub(ops, Some(window)), op, Some(window)).topics
      modifies this`ops
      ensures Valid() && ops == old(ops) + [op]
    {
      ghost var hub := RunHub(ops + [op], Some(window));
      RunSnoc(ops, op, Some(window));
      assert topics == hub.topics;
      ops := ops + [op];
    }

    /** The push and the trimming loop of `send_to_topic`. */
    method SendToTopic(topic: Text, row: R)
      requires Valid()
      modifies this
      ensures Valid() && ops == old(ops) + [Send(topic, row)]
    {
      var ch := OrNew(Lookup(topics, topic));
      if ch.receivers > 0 {
        var rows := ch.rows + [row];
        while |rows| > window
          invariant LastN(rows, window) == LastN(ch.rows + [row], window)
          decreases |rows|
        {
          rows := rows[1..];
        }
        ch := ch.(rows := rows);
      }
      topics := topics[topic := ch];
      Record(Send(topic, row));
    }

    method SubscribeTo(topic: Text)
      requires Valid()
      modifies this
      ensures Valid() && ops == old(ops) + [Subscribe(topic)]
    {
      var ch := OrNew(Lookup(topics, topic));
      topics := topics[topic := ch.(receivers := ch.receivers + 1)];
      Record(Subscribe(topic));
    }

    /** The first half of `remove_subscriber`: is there a channel without receivers? */
    method SeesNoReceivers(ghost call: nat, topic: Text) returns (empty: bool)
      requires Valid()
      modifies this
      ensures Valid() && ops == old(ops) + [CheckEmpty(call, topic)] && topics == old(topics)
      ensures empty <==> (call, topic) in RunHub(ops, Some(window)).removing
    {
      empty := topic in topics && topics[topic].receivers == 0;
      assert Put(topics, topic, Lookup(topics, topic)) == topics;
      RunSnoc(ops, CheckEmpty(call, topic), Some(window));
      Record(CheckEmpty(call, topic));
    }

    /** The second half, for a call that saw none: the channel goes, whatever it has become. */
    method Remove(ghost call: nat, topic: Text)
      requires Valid() && (call, topic) in RunHub(ops, Some(window)).removing
      modifies this
      ensures Valid() && ops == old(ops) + [RemoveTopic(call, topic)] && topics == old(topics) - {topic}
    {
      topics := topics - {topic};
      Record(RemoveTopic(call, topic));
    }

    /** `replay`, proved against the full record rather than the window. */
    method ReplayRows(topic: Text, n: nat) returns (rows: seq<R>)
      requires Valid()
      ensures rows == LastN(RowsBetween(ops, topic, LastRemoval(ops, topic), |ops|), if n < window then n else window)
    {
      RecordedIs(ops, topic);
      var kept := OrNew(Lookup(topics, topic)).rows;
      rows := kept[if |kept| < n then 0 else |kept| - n..];
      assert rows == LastN(kept, n);
      ReplayIsLastRecorded(ops, window, topic, n);
    }
  }
}
