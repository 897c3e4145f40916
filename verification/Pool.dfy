/**
 The per-shard PG client pool (src/pool/pg.rs) as a concurrent protocol. Every await point
 and every lock section is one atomic step; any number of tasks interleave freely.
 */
module Pool {
  import opened Bytes
  import opened Ring

  type Conn = nat
  type Task = nat

  /** Where a task is between calling `acquire` and having dropped its `PooledClient`. */
  datatype Phase =
    | Waiting(shard: u32)                                             // at the semaphore
    | HasPermit(shard: u32)                                           // permit taken, idle list not yet popped
    | Connecting(shard: u32)                                          // found no idle client, connecting
    | Holding(shard: u32, client: Option<Conn>, returnToPool: bool)   // owns a PooledClient
    | Released(shard: u32)                                            // `drop` has run, permit not yet freed

  predicate HoldsPermit(ph: Phase, s: u32) {
    ph.shard == s && !ph.Waiting?
  }

  predicate PastPop(ph: Phase, s: u32) {
    ph.shard == s && (ph.Connecting? || ph.Holding?)
  }

  predicate HasClient(ph: Phase, s: u32) {
    ph.shard == s && ph.Holding? && ph.client.Some?
  }

  type Idle = map<u32, seq<Conn>>

  function IdleOf(clients: Idle, s: u32): seq<Conn> {
    if s in clients then clients[s] else []
  }

  /** Popping the last idle client, inside the lock. */
  function Popped(clients: Idle, s: u32): Idle
    requires IdleOf(clients, s) != []
  {
    clients[s := clients[s][..|clients[s]| - 1]]
  }

  /** `release`: push unless the list is full, in which case the client is dropped. */
  function Pushed(clients: Idle, s: u32, c: Conn, max: nat): Idle {
    clients[s := if |IdleOf(clients, s)| < max then IdleOf(clients, s) + [c] else IdleOf(clients, s)]
  }

  /** The mutex-guarded idle lists, updated in place. */
  class IdleLists {
    var clients: Idle
    const maxPerShard: nat

    constructor (maxPerShard: nat)
      ensures clients == map[] && this.maxPerShard == Max(maxPerShard, 1)
    {
      clients := map[];
      this.maxPerShard := Max(maxPerShard, 1);
    }

    method Pop(s: u32) returns (client: Option<Conn>)
      modifies this
      ensures client.None? <==> IdleOf(old(clients), s) == []
      ensures client.None? ==> clients == old(clients)
      ensures client.Some? ==> client.value == Last(IdleOf(old(clients), s)) && clients == Popped(old(clients), s)
    {
      if s in clients && clients[s] != [] {
        client := Some(Last(clients[s]));
        clients := clients[s := clients[s][..|clients[s]| - 1]];
      } else {
        client := None;
      }
    }

    method Release(s: u32, client: Conn)
      modifies this
      ensures clients == Pushed(old(clients), s, client, maxPerShard)
    {
      var vec := if s in clients then clients[s] else [];
      if |vec| < maxPerShard {
        vec := vec + [client];
      }
      clients := clients[s := vec];
    }
  }

  /** `home` and `dead` are history: the shard each client was opened to, and those invalidated. */
  datatype State = State(
    max: nat,
    permits: map<u32, nat>,
    clients: Idle,
    tasks: map<Task, Phase>,
    home: map<Conn, u32>,
    dead: set<Conn>)

  function Initial(shards: set<u32>, maxPerShard: nat): State {
    State(Max(maxPerShard, 1), map s | s in shards :: Max(maxPerShard, 1), map[], map[], map[], {})
  }

  datatype Action =
    | Acquire(task: Task, shard: u32)
    | TakePermit(task: Task)
    | PopIdle(task: Task)
    | Connected(task: Task, client: Conn)
    | ConnectFailed(task: Task)
    | Cancelled(task: Task)
    | Invalidate(task: Task)
    | DropClient(task: Task)
    | FreePermit(task: Task)

  predicate Enabled(p: State, a: Action) {
    match a
    case Acquire(t, s) => t !in p.tasks && s in p.permits
    case TakePermit(t) => t in p.tasks && p.tasks[t].Waiting? && p.tasks[t].shard in p.permits &&
      p.permits[p.tasks[t].shard] > 0
    case PopIdle(t) => t in p.tasks && p.tasks[t].HasPermit?
    case Connected(t, c) => t in p.tasks && p.tasks[t].Connecting? && c !in p.home
    case ConnectFailed(t) => t in p.tasks && p.tasks[t].Connecting? && p.tasks[t].shard in p.permits
    case Cancelled(t) => t in p.tasks && p.tasks[t].Waiting?
    case Invalidate(t) => t in p.tasks && p.tasks[t].Holding?
    case DropClient(t) => t in p.tasks && p.tasks[t].Holding?
    case FreePermit(t) => t in p.tasks && p.tasks[t].Released? && p.tasks[t].shard in p.permits
  }

  /** One atomic step. A cancelled connect is the same step as a failed one: the permit is dropped. */
  function Apply(p: State, a: Action): State
    requires Enabled(p, a)
  {
    var t := a.task;
    match a
    case Acquire(_, s) => p.(tasks := p.tasks[t := Waiting(s)])
    case TakePermit(_) =>
      var s := p.tasks[t].shard;
      p.(permits := p.permits[s := p.permits[s] - 1], tasks := p.tasks[t := HasPermit(s)])
    case PopIdle(_) =>
      var s := p.tasks[t].shard;
      if IdleOf(p.clients, s) == [] then p.(tasks := p.tasks[t := Connecting(s)])
      else p.(clients := Popped(p.clients, s),
              tasks := p.tasks[t := Holding(s, Some(Last(IdleOf(p.clients, s))), true)])
    case Connected(_, c) =>
      var s := p.tasks[t].shard;
      p.(tasks := p.tasks[t := Holding(s, Some(c), true)], home := p.home[c := s])
    case ConnectFailed(_) =>
      var s := p.tasks[t].shard;
      p.(permits := p.permits[s := p.permits[s] + 1], tasks := p.tasks - {t})
    case Cancelled(_) => p.(tasks := p.tasks - {t})
    case Invalidate(_) =>
      var ph := p.tasks[t];
      p.(tasks := p.tasks[t := Holding(ph.shard, None, false)],
         dead := p.dead + if ph.client.Some? then {ph.client.value} else {})
    case DropClient(_) =>
      var ph := p.tasks[t];
      if ph.returnToPool && ph.client.Some?
      then p.(clients := Pushed(p.clients, ph.shard, ph.client.value, p.max), tasks := p.tasks[t := Released(ph.shard)])
      else p.(tasks := p.tasks[t := Released(ph.shard)])
    case FreePermit(_) =>
      var s := p.tasks[t].shard;
      p.(permits := p.permits[s := p.permits[s] + 1], tasks := p.tasks - {t})
  }

  /** Any interleaving: disabled actions are skipped. */
  function Run(p: State, actions: seq<Action>): State {
    if actions == [] then p
    else
      var q := Run(p, actions[..|actions| - 1]);
      if Enabled(q, Last(actions)) then Apply(q, Last(actions)) else q
  }

  // ---------------------------------------------------------------------------
  // Counting tasks
  // ---------------------------------------------------------------------------

  function Members(tasks: map<Task, Phase>, f: Phase -> bool): set<Task> {
    set t | t in tasks && f(tasks[t])
  }

  function Count(tasks: map<Task, Phase>, f: Phase -> bool): nat {
    |Members(tasks, f)|
  }

  function Weight(b: bool): nat {
    if b then 1 else 0
  }

  lemma {:induction false} Remove(s: set<Task>, t: Task)
    ensures |s| == |s - {t}| + Weight(t in s)
  {
    if t !in s {
      assert s - {t} == s;
    }
  }

  /** The two task maps agree everywhere but at `t`. */
  ghost predicate SameBut(a: map<Task, Phase>, b: map<Task, Phase>, t: Task) {
    forall u :: u != t ==> (u in a <==> u in b) && (u in a ==> a[u] == b[u])
  }

  lemma {:induction false} Recount(a: map<Task, Phase>, b: map<Task, Phase>, t: Task, f: Phase -> bool)
    requires SameBut(a, b, t)
    ensures Count(b, f) + Weight(t in a && f(a[t])) == Count(a, f) + Weight(t in b && f(b[t]))
  {
    assert Members(a, f) - {t} == Members(b, f) - {t};
    Remove(Members(a, f), t);
    Remove(Members(b, f), t);
  }

  lemma {:induction false} CountImplies(tasks: map<Task, Phase>, f: Phase -> bool, g: Phase -> bool)
    requires forall ph :: f(ph) ==> g(ph)
    ensures Count(tasks, f) <= Count(tasks, g)
  {
    SubsetCount(Members(tasks, f), Members(tasks, g));
  }

  lemma {:induction false} SubsetCount(a: set<Task>, b: set<Task>)
    requires a <= b
    ensures |a| <= |b|
  {
    assert b == a + (b - a);
  }

  /** How many tasks hold a permit, are past the pop, or own a live client, on shard `s`. */
  function Permitted(p: State, s: u32): nat {
    Count(p.tasks, ph => HoldsPermit(ph, s))
  }

  function Popping(p: State, s: u32): nat {
    Count(p.tasks, ph => PastPop(ph, s))
  }

  function Owning(p: State, s: u32): nat {
    Count(p.tasks, ph => HasClient(ph, s))
  }

  // ---------------------------------------------------------------------------
  // The connection bound
  // ---------------------------------------------------------------------------

  /** Permits are conserved: free ones and held ones always add up to the pool size. */
  ghost predicate PermitsConserved(p: State) {
    && (forall t :: t in p.tasks ==> p.tasks[t].shard in p.permits)
    && (forall s :: s in p.permits ==> p.permits[s] + Permitted(p, s) == p.max)
  }

  /** Idle clients plus tasks past the pop never exceed the pool size. */
  ghost predicate Bounded(p: State) {
    forall s :: s in p.permits ==> |IdleOf(p.clients, s)| + Popping(p, s) <= p.max
  }

  lemma {:induction false} StepTouchesOneTask(p: State, a: Action)
    requires Enabled(p, a)
    ensures SameBut(p.tasks, Apply(p, a).tasks, a.task)
    ensures a.task in p.tasks && a.task in Apply(p, a).tasks ==>
            p.tasks[a.task].shard == Apply(p, a).tasks[a.task].shard
    ensures Apply(p, a).max == p.max && Apply(p, a).permits.Keys == p.permits.Keys
  {}

  /** What a step does to the permits of shard `s`, seen from the acting task. */
  lemma {:induction false} PermitFlow(p: State, a: Action, s: u32)
    requires Enabled(p, a) && s in p.permits
    ensures var q := Apply(p, a);
            q.permits[s] + Weight(a.task in q.tasks && HoldsPermit(q.tasks[a.task], s)) ==
            p.permits[s] + Weight(a.task in p.tasks && HoldsPermit(p.tasks[a.task], s))
  {}

  lemma {:induction false} PermitsStep(p: State, a: Action, s: u32)
    requires PermitsConserved(p) && Enabled(p, a) && s in p.permits
    ensures s in Apply(p, a).permits
    ensures Apply(p, a).permits[s] + Permitted(Apply(p, a), s) == p.max
  {
    StepTouchesOneTask(p, a);
    PermitFlow(p, a, s);
    Recount(p.tasks, Apply(p, a).tasks, a.task, ph => HoldsPermit(ph, s));
  }

  /** Only a pop that finds the list empty adds to idle clients plus tasks past the pop. */
  lemma {:induction false} ClientFlow(p: State, a: Action, s: u32)
    requires Enabled(p, a)
    ensures var q := Apply(p, a);
            |IdleOf(q.clients, s)| + Weight(a.task in q.tasks && PastPop(q.tasks[a.task], s)) <=
            |IdleOf(p.clients, s)| + Weight(a.task in p.tasks && PastPop(p.tasks[a.task], s))
            || (IdleOf(q.clients, s) == [] && a.task in q.tasks && q.tasks[a.task] == Connecting(s))
  {}

  lemma {:induction false} BoundStep(p: State, a: Action, s: u32)
    requires PermitsConserved(p) && Bounded(p) && Enabled(p, a) && s in p.permits
    ensures |IdleOf(Apply(p, a).clients, s)| + Popping(Apply(p, a), s) <= p.max
  {
    StepTouchesOneTask(p, a);
    ClientFlow(p, a, s);
    Recount(p.tasks, Apply(p, a).tasks, a.task, ph => PastPop(ph, s));
    PermitsStep(p, a, s);
    CountImplies(Apply(p, a).tasks, ph => PastPop(ph, s), ph => HoldsPermit(ph, s));
  }

  // ---------------------------------------------------------------------------
  // Ownership
  // ---------------------------------------------------------------------------

  /** The client a task owns. */
  function ClientOf(ph: Phase): Option<Conn> {
    if ph.Holding? then ph.client else None
  }

  predicate Distinct(s: seq<Conn>) {
    forall i, j :: 0 <= i < j < |s| ==> s[i] != s[j]
  }

  /** A live client under the shard it was opened to. */
  predicate AtHome(p: State, c: Conn, s: u32) {
    c in p.home && p.home[c] == s && c !in p.dead
  }

  /** An idle client is live, listed once, and under its own shard. */
  ghost predicate IdleOwned(p: State) {
    forall s: u32 :: Distinct(IdleOf(p.clients, s)) && forall c :: c in IdleOf(p.clients, s) ==> AtHome(p, c, s)
  }

  /** A held client is live, on its own shard, and not idle; it will be returned unless invalidated. */
  ghost predicate HeldOwned(p: State) {
    forall t :: t in p.tasks && ClientOf(p.tasks[t]).Some? ==>
      && p.tasks[t].returnToPool
      && AtHome(p, ClientOf(p.tasks[t]).value, p.tasks[t].shard)
      && ClientOf(p.tasks[t]).value !in IdleOf(p.clients, p.tasks[t].shard)
  }

  /** No two tasks hold the same client. */
  ghost predicate Exclusive(p: State) {
    forall t, u :: t in p.tasks && u in p.tasks && t != u && ClientOf(p.tasks[t]).Some? ==>
      ClientOf(p.tasks[t]) != ClientOf(p.tasks[u])
  }

  ghost predicate Owned(p: State) {
    IdleOwned(p) && HeldOwned(p) && Exclusive(p) && forall c :: c in p.dead ==> c in p.home
  }

  /** Steps that move no client. */
  lemma {:induction false} OwnedQuiet(p: State, a: Action)
    requires Owned(p) && Enabled(p, a)
    requires Apply(p, a) == p.(permits := Apply(p, a).permits, tasks := Apply(p, a).tasks)
    requires a.task in Apply(p, a).tasks ==> ClientOf(Apply(p, a).tasks[a.task]).None?
    ensures Owned(Apply(p, a))
  {
    StepTouchesOneTask(p, a);
    var q := Apply(p, a);
    assert forall s: u32 :: IdleOf(q.clients, s) == IdleOf(p.clients, s);
    assert IdleOwned(p) ==> IdleOwned(q);
  }

  lemma {:induction false} OwnedPop(p: State, a: Action)
    requires Owned(p) && Enabled(p, a) && a.PopIdle? && IdleOf(p.clients, p.tasks[a.task].shard) != []
    ensures Owned(Apply(p, a))
  {
    StepTouchesOneTask(p, a);
    var q, s := Apply(p, a), p.tasks[a.task].shard;
    var idle := IdleOf(p.clients, s);
    var c := Last(idle);
    assert AtHome(p, c, s);
    assert IdleOf(q.clients, s) == idle[..|idle| - 1];
    assert c !in IdleOf(q.clients, s);
    assert forall r: u32 :: r != s ==> IdleOf(q.clients, r) == IdleOf(p.clients, r);
    assert Distinct(IdleOf(q.clients, s));
    forall r: u32, d | d in IdleOf(q.clients, r)
      ensures AtHome(q, d, r)
    {
      assert d in IdleOf(p.clients, r) && AtHome(p, d, r);
    }
    assert HeldOwned(q);
    forall u | u in p.tasks && u != a.task
      ensures ClientOf(p.tasks[u]) != Some(c)
    {
      assert c in idle;
    }
  }

  lemma {:induction false} OwnedConnected(p: State, a: Action)
    requires Owned(p) && Enabled(p, a) && a.Connected?
    ensures Owned(Apply(p, a))
  {
    StepTouchesOneTask(p, a);
    var q := Apply(p, a);
    assert forall s: u32 :: IdleOf(q.clients, s) == IdleOf(p.clients, s);
    forall s: u32, c | c in IdleOf(q.clients, s)
      ensures AtHome(q, c, s) && c != a.client
    {
      assert AtHome(p, c, s);
    }
    assert forall u :: u in p.tasks && ClientOf(p.tasks[u]).Some? ==> ClientOf(p.tasks[u]).value != a.client;
  }

  lemma {:induction false} OwnedInvalidate(p: State, a: Action)
    requires Owned(p) && Enabled(p, a) && a.Invalidate?
    ensures Owned(Apply(p, a))
  {
    StepTouchesOneTask(p, a);
    var q := Apply(p, a);
    assert forall s: u32 :: IdleOf(q.clients, s) == IdleOf(p.clients, s);
    forall s: u32, c | c in IdleOf(q.clients, s)
      ensures AtHome(q, c, s)
    {
      assert AtHome(p, c, s);
    }
  }

  lemma {:induction false} OwnedRelease(p: State, a: Action)
    requires Owned(p) && Enabled(p, a) && a.DropClient? && ClientOf(p.tasks[a.task]).Some?
    ensures Owned(Apply(p, a))
  {
    StepTouchesOneTask(p, a);
    var q, ph := Apply(p, a), p.tasks[a.task];
    var idle := IdleOf(p.clients, ph.shard);
    assert AtHome(p, ph.client.value, ph.shard) && ph.client.value !in idle;
    assert forall r: u32 :: r != ph.shard ==> IdleOf(q.clients, r) == IdleOf(p.clients, r);
    assert IdleOf(q.clients, ph.shard) == idle + [ph.client.value] || IdleOf(q.clients, ph.shard) == idle;
    assert Distinct(IdleOf(q.clients, ph.shard));
  }

  lemma {:induction false} OwnedStep(p: State, a: Action)
    requires Owned(p) && Enabled(p, a)
    ensures Owned(Apply(p, a))
  {
    if a.PopIdle? && IdleOf(p.clients, p.tasks[a.task].shard) != [] {
      OwnedPop(p, a);
    } else if a.Connected? {
      OwnedConnected(p, a);
    } else if a.Invalidate? {
      OwnedInvalidate(p, a);
    } else if a.DropClient? && ClientOf(p.tasks[a.task]).Some? {
      OwnedRelease(p, a);
    } else {
      OwnedQuiet(p, a);
    }
  }

  // ---------------------------------------------------------------------------
  // Every reachable state
  // ---------------------------------------------------------------------------

  ghost predicate Inv(p: State) {
    p.max >= 1 && PermitsConserved(p) && Bounded(p) && Owned(p)
  }

  lemma {:induction false} TasksStayOnShards(p: State, a: Action)
    requires PermitsConserved(p) && Enabled(p, a)
    ensures forall t :: t in Apply(p, a).tasks ==> Apply(p, a).tasks[t].shard in p.permits
  {
    StepTouchesOneTask(p, a);
  }

  lemma {:induction false} InvStep(p: State, a: Action)
    requires Inv(p) && Enabled(p, a)
    ensures Inv(Apply(p, a))
  {
    OwnedStep(p, a);
    StepTouchesOneTask(p, a);
    TasksStayOnShards(p, a);
    forall s | s in p.permits
      ensures Apply(p, a).permits[s] + Permitted(Apply(p, a), s) == p.max
      ensures |IdleOf(Apply(p, a).clients, s)| + Popping(Apply(p, a), s) <= p.max
    {
      PermitsStep(p, a, s);
      BoundStep(p, a, s);
    }
  }

  lemma {:induction false} InitialInv(shards: set<u32>, maxPerShard: nat)
    ensures Inv(Initial(shards, maxPerShard))
  {}

  /** The invariant holds in every state any interleaving reaches. */
  lemma {:induction false} Reachable(shards: set<u32>, maxPerShard: nat, actions: seq<Action>)
    ensures Inv(Run(Initial(shards, maxPerShard), actions))
    ensures Run(Initial(shards, maxPerShard), actions).max == Max(maxPerShard, 1)
    ensures Run(Initial(shards, maxPerShard), actions).permits.Keys == shards
  {
    if actions == [] {
      InitialInv(shards, maxPerShard);
    } else {
      Reachable(shards, maxPerShard, actions[..|actions| - 1]);
      var q := Run(Initial(shards, maxPerShard), actions[..|actions| - 1]);
      if Enabled(q, Last(actions)) {
        InvStep(q, Last(actions));
        StepTouchesOneTask(q, Last(actions));
      }
    }
  }

  /**
   The connection bound, under every interleaving: on each shard, idle clients plus tasks past
   the pop stay within max(1, max_per_shard), and so do live connections.
   */
  lemma {:induction false} ConnectionBound(shards: set<u32>, maxPerShard: nat, actions: seq<Action>, s: u32)
    requires s in shards
    ensures var p := Run(Initial(shards, maxPerShard), actions);
            && |IdleOf(p.clients, s)| + Popping(p, s) <= Max(1, maxPerShard)
            && |IdleOf(p.clients, s)| + Owning(p, s) <= Max(1, maxPerShard)
  {
    Reachable(shards, maxPerShard, actions);
    var p := Run(Initial(shards, maxPerShard), actions);
    CountImplies(p.tasks, ph => HasClient(ph, s), ph => PastPop(ph, s));
  }

  lemma {:induction false} CountPositive(tasks: map<Task, Phase>, t: Task, f: Phase -> bool)
    requires t in tasks && f(tasks[t])
    ensures Count(tasks, f) >= 1
  {
    Remove(Members(tasks, f), t);
  }

  lemma {:induction false} RoomToRelease(p: State, t: Task)
    requires Inv(p) && t in p.tasks && ClientOf(p.tasks[t]).Some?
    ensures |IdleOf(p.clients, p.tasks[t].shard)| < p.max
  {
    var s := p.tasks[t].shard;
    CountPositive(p.tasks, t, ph => PastPop(ph, s));
  }

  lemma {:induction false} ReleaseKeeps(p: State, t: Task)
    requires Owned(p) && t in p.tasks && ClientOf(p.tasks[t]).Some? && |IdleOf(p.clients, p.tasks[t].shard)| < p.max
    ensures var s, c := p.tasks[t].shard, ClientOf(p.tasks[t]).value;
            IdleOf(Apply(p, DropClient(t)).clients, s) == IdleOf(p.clients, s) + [c]
  {}

  /** The capacity guard of `release` never fires: a live client always gets back on the idle list. */
  lemma {:induction false} ReleaseNeverDiscards(shards: set<u32>, maxPerShard: nat, actions: seq<Action>, t: Task)
    requires var p := Run(Initial(shards, maxPerShard), actions);
             t in p.tasks && ClientOf(p.tasks[t]).Some?
    ensures var p := Run(Initial(shards, maxPerShard), actions);
            var s, c := p.tasks[t].shard, ClientOf(p.tasks[t]).value;
            && |IdleOf(p.clients, s)| < p.max
            && IdleOf(Apply(p, DropClient(t)).clients, s) == IdleOf(p.clients, s) + [c]
  {
    var p := Run(Initial(shards, maxPerShard), actions);
    Reachable(shards, maxPerShard, actions);
    RoomToRelease(p, t);
    ReleaseKeeps(p, t);
  }

  // ---------------------------------------------------------------------------
  // Every live client is accounted for
  // ---------------------------------------------------------------------------

  /** A task owns the client. */
  ghost predicate Held(p: State, c: Conn) {
    exists t :: t in p.tasks && ClientOf(p.tasks[t]) == Some(c)
  }

  /** Every client that was opened and not invalidated is idle on its own shard or held by a task. */
  ghost predicate Accounted(p: State) {
    forall c :: c in p.home && c !in p.dead ==> c in IdleOf(p.clients, p.home[c]) || Held(p, c)
  }

  /** A client that its holder keeps is still held. */
  lemma {:induction false} StillHeld(p: State, a: Action, c: Conn)
    requires Enabled(p, a) && Held(p, c)
    ensures Held(Apply(p, a), c) || (a.task in p.tasks && ClientOf(p.tasks[a.task]) == Some(c))
  {
    StepTouchesOneTask(p, a);
    var t :| t in p.tasks && ClientOf(p.tasks[t]) == Some(c);
    if t != a.task {
      assert t in Apply(p, a).tasks && Apply(p, a).tasks[t] == p.tasks[t];
    }
  }

  lemma {:induction false} AccountedStep(p: State, a: Action, c: Conn)
    requires Inv(p) && Accounted(p) && Enabled(p, a)
    requires c in Apply(p, a).home && c !in Apply(p, a).dead
    ensures c in IdleOf(Apply(p, a).clients, Apply(p, a).home[c]) || Held(Apply(p, a), c)
  {
    var q := Apply(p, a);
    if c !in p.home {
      assert q.tasks[a.task] == Holding(p.tasks[a.task].shard, Some(c), true);
    } else if Held(p, c) {
      StillHeld(p, a, c);
      if !Held(q, c) {
        AccountedRelease(p, a, c);
      }
    } else {
      AccountedIdle(p, a, c);
    }
  }

  lemma {:induction false} AccountedRelease(p: State, a: Action, c: Conn)
    requires Inv(p) && Enabled(p, a) && !Held(Apply(p, a), c) && c !in Apply(p, a).dead
    requires a.task in p.tasks && ClientOf(p.tasks[a.task]) == Some(c)
    ensures c in p.home && c in IdleOf(Apply(p, a).clients, p.home[c])
  {
    assert AtHome(p, c, p.tasks[a.task].shard);
    assert a.DropClient?;
    RoomToRelease(p, a.task);
    ReleaseKeeps(p, a.task);
  }

  lemma {:induction false} AccountedIdle(p: State, a: Action, c: Conn)
    requires Enabled(p, a) && c in p.home && c in IdleOf(p.clients, p.home[c])
    ensures c in IdleOf(Apply(p, a).clients, p.home[c]) || Held(Apply(p, a), c)
  {
    var q, s := Apply(p, a), p.home[c];
    var idle := IdleOf(p.clients, s);
    if a.PopIdle? && p.tasks[a.task].shard == s {
      if c == Last(idle) {
        assert ClientOf(q.tasks[a.task]) == Some(c);
      } else {
        assert IdleOf(q.clients, s) == idle[..|idle| - 1] && idle == idle[..|idle| - 1] + [Last(idle)];
      }
    } else {
      assert idle <= IdleOf(q.clients, s);
    }
  }

  /** No live client is ever lost: in every reachable state it is idle on its own shard or held. */
  lemma {:induction false} LiveClientsAccounted(shards: set<u32>, maxPerShard: nat, actions: seq<Action>)
    ensures Accounted(Run(Initial(shards, maxPerShard), actions))
  {
    if actions != [] {
      var q, a := Run(Initial(shards, maxPerShard), actions[..|actions| - 1]), Last(actions);
      LiveClientsAccounted(shards, maxPerShard, actions[..|actions| - 1]);
      Reachable(shards, maxPerShard, actions[..|actions| - 1]);
      if Enabled(q, a) {
        forall c | c in Apply(q, a).home && c !in Apply(q, a).dead
          ensures c in IdleOf(Apply(q, a).clients, Apply(q, a).home[c]) || Held(Apply(q, a), c)
        {
          AccountedStep(q, a, c);
        }
      }
    }
  }

  /** The connections open to a shard. */
  function LiveOn(p: State, s: u32): set<Conn> {
    set c | c in p.home && p.home[c] == s && c !in p.dead
  }

  lemma {:induction false} CountHolders(p: State, held: set<Conn>, tasks: set<Task>)
    requires forall c :: c in held ==> exists t :: t in tasks && t in p.tasks && ClientOf(p.tasks[t]) == Some(c)
    ensures |held| <= |tasks|
  {
    if held != {} {
      var c :| c in held;
      var t :| t in tasks && t in p.tasks && ClientOf(p.tasks[t]) == Some(c);
      CountHolders(p, held - {c}, tasks - {t});
    }
  }

  lemma {:induction false} CountListed(s: seq<Conn>, listed: set<Conn>)
    requires forall c :: c in listed ==> c in s
    ensures |listed| <= |s|
  {
    if s != [] {
      var front := s[..|s| - 1];
      assert s == front + [Last(s)];
      CountListed(front, listed - {Last(s)});
    } else {
      assert listed == {};
    }
  }

  lemma {:induction false} HolderOf(p: State, s: u32, c: Conn) returns (t: Task)
    requires HeldOwned(p) && Accounted(p) && c in LiveOn(p, s) && c !in IdleOf(p.clients, s)
    ensures t in Members(p.tasks, ph => HasClient(ph, s)) && t in p.tasks && ClientOf(p.tasks[t]) == Some(c)
  {
    t :| t in p.tasks && ClientOf(p.tasks[t]) == Some(c);
  }

  lemma {:induction false} SplitCount(all: set<Conn>, part: set<Conn>)
    requires part <= all
    ensures |all| == |part| + |all - part|
  {
    assert all == part + (all - part);
  }

  lemma {:induction false} LiveCount(p: State, s: u32)
    requires HeldOwned(p) && Accounted(p)
    ensures |LiveOn(p, s)| <= |IdleOf(p.clients, s)| + Owning(p, s)
  {
    var live, idle := LiveOn(p, s), IdleOf(p.clients, s);
    var owners := Members(p.tasks, ph => HasClient(ph, s));
    var listed := set c | c in live && c in idle;
    SplitCount(live, listed);
    CountListed(idle, listed);
    forall c | c in live - listed
      ensures exists t :: t in owners && t in p.tasks && ClientOf(p.tasks[t]) == Some(c)
    {
      var t := HolderOf(p, s, c);
    }
    CountHolders(p, live - listed, owners);
  }

  /** The connections open to a shard, idle or in use, never exceed max(1, max_per_shard). */
  lemma {:induction false} LiveBound(shards: set<u32>, maxPerShard: nat, actions: seq<Action>, s: u32)
    requires s in shards
    ensures |LiveOn(Run(Initial(shards, maxPerShard), actions), s)| <= Max(1, maxPerShard)
  {
    Reachable(shards, maxPerShard, actions);
    LiveClientsAccounted(shards, maxPerShard, actions);
    LiveCount(Run(Initial(shards, maxPerShard), actions), s);
    ConnectionBound(shards, maxPerShard, actions, s);
  }

  lemma {:induction false} OwnersBesides(p: State, t: Task)
    requires Inv(p) && t in p.tasks && p.tasks[t].HasPermit?
    ensures Owning(p, p.tasks[t].shard) < p.max
  {
    var s := p.tasks[t].shard;
    var owners, permitted := Members(p.tasks, ph => HasClient(ph, s)), Members(p.tasks, ph => HoldsPermit(ph, s));
    assert owners <= permitted - {t};
    SubsetCount(owners, permitted - {t});
    Remove(permitted, t);
  }

  /**
   A client is back on the list before its permit is free, so there is no window between a
   free permit and an empty list: a task that holds a permit and finds no idle client opens a
   new connection only when fewer than max_per_shard are open to that shard.
   */
  lemma {:induction false} ConnectsOnlyBelowCapacity(shards: set<u32>, maxPerShard: nat, actions: seq<Action>, t: Task)
    requires var p := Run(Initial(shards, maxPerShard), actions);
             t in p.tasks && p.tasks[t].HasPermit? && IdleOf(p.clients, p.tasks[t].shard) == []
    ensures var p := Run(Initial(shards, maxPerShard), actions);
            |LiveOn(p, p.tasks[t].shard)| < p.max
  {
    var p := Run(Initial(shards, maxPerShard), actions);
    Reachable(shards, maxPerShard, actions);
    LiveClientsAccounted(shards, maxPerShard, actions);
    LiveCount(p, p.tasks[t].shard);
    OwnersBesides(p, t);
  }

  /**
   The pool gives what it has: in every reachable state a waiting task can take a permit exactly
   when fewer than the maximum hold one on its shard, and a task with a permit gets the newest
   idle client when there is one and connects only when there is none.
   */
  lemma {:induction false} PermitIsThereIff(shards: set<u32>, maxPerShard: nat, actions: seq<Action>, t: Task)
    requires var p := Run(Initial(shards, maxPerShard), actions); t in p.tasks
    ensures var p := Run(Initial(shards, maxPerShard), actions);
            && (p.tasks[t].Waiting? ==>
                  (Enabled(p, TakePermit(t)) <==> Permitted(p, p.tasks[t].shard) < Max(1, maxPerShard)))
            && (p.tasks[t].HasPermit? ==>
                  && Enabled(p, PopIdle(t))
                  && var idle := IdleOf(p.clients, p.tasks[t].shard);
                  Apply(p, PopIdle(t)).tasks[t] ==
                  if idle == [] then Connecting(p.tasks[t].shard)
                  else Holding(p.tasks[t].shard, Some(idle[|idle| - 1]), true))
  {
    Reachable(shards, maxPerShard, actions);
  }

  /** Ownership in every reachable state: one holder or one idle slot, on the client's own shard. */
  lemma {:induction false} ClientOwnership(shards: set<u32>, maxPerShard: nat, actions: seq<Action>, c: Conn)
    ensures var p := Run(Initial(shards, maxPerShard), actions);
            && (forall s: u32 :: c in IdleOf(p.clients, s) ==>
                  && AtHome(p, c, s) && Distinct(IdleOf(p.clients, s))
                  && forall t :: t in p.tasks ==> ClientOf(p.tasks[t]) != Some(c))
            && (forall t, u ::
                  t in p.tasks && u in p.tasks && ClientOf(p.tasks[t]) == ClientOf(p.tasks[u]) == Some(c) ==>
                  t == u && AtHome(p, c, p.tasks[t].shard))
  {
    Reachable(shards, maxPerShard, actions);
    var p := Run(Initial(shards, maxPerShard), actions);
    forall s: u32, t | c in IdleOf(p.clients, s) && t in p.tasks
      ensures ClientOf(p.tasks[t]) != Some(c)
    {
      assert AtHome(p, c, s);
    }
  }

  lemma {:induction false} DeadStaysDead(p: State, actions: seq<Action>)
    ensures p.dead <= Run(p, actions).dead
  {
    if actions != [] {
      DeadStaysDead(p, actions[..|actions| - 1]);
    }
  }

  lemma {:induction false} RunAppend(p: State, a: seq<Action>, b: seq<Action>)
    ensures Run(p, a + b) == Run(Run(p, a), b)
  {
    if b == [] {
      assert a + b == a;
    } else {
      RunAppend(p, a, b[..|b| - 1]);
      assert (a + b)[..|a + b| - 1] == a + b[..|b| - 1];
    }
  }

  /** Once invalidated, a client is never idle or held again, however the run continues. */
  lemma {:induction false} InvalidatedNeverReturns(
      shards: set<u32>, maxPerShard: nat, before: seq<Action>, after: seq<Action>, t: Task)
    requires var p := Run(Initial(shards, maxPerShard), before);
             t in p.tasks && ClientOf(p.tasks[t]).Some?
    ensures var p := Run(Initial(shards, maxPerShard), before);
            var c := ClientOf(p.tasks[t]).value;
            var q := Run(Initial(shards, maxPerShard), before + [Invalidate(t)] + after);
            && (forall s: u32 :: c !in IdleOf(q.clients, s))
            && (forall u :: u in q.tasks ==> ClientOf(q.tasks[u]) != Some(c))
  {
    var start := Initial(shards, maxPerShard);
    var p := Run(start, before);
    var c := ClientOf(p.tasks[t]).value;
    var q := Run(start, before + [Invalidate(t)] + after);
    RunAppend(start, before + [Invalidate(t)], after);
    RunAppend(start, before, [Invalidate(t)]);
    assert [Invalidate(t)][..0] == [];
    assert Run(p, [Invalidate(t)]) == Apply(p, Invalidate(t));
    DeadStaysDead(Apply(p, Invalidate(t)), after);
    Reachable(shards, maxPerShard, before + [Invalidate(t)] + after);
    assert c in q.dead;
    forall s: u32
      ensures c !in IdleOf(q.clients, s)
    {
      assert !AtHome(q, c, s);
    }
  }
}
