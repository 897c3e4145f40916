/**
 Consistent-hash shard selection (src/routing/ring.rs): weighted virtual nodes, the
 primary lookup, and the health-filtered lookup with its three stages of failover.
 */
module Ring {
  import opened Bytes

  const U32_MAX := 0xFFFF_FFFF
  type u32 = x: int | 0 <= x <= U32_MAX

  datatype ShardConfig = ShardConfig(id: u32, ilpAddress: Text, pgAddress: Text, weight: u32, virtualNodes: u32)

  datatype VNode = VNode(shardId: u32, vnodeId: u32)

  /** What is hashed: the bare key, or the key salted with a probe number. */
  datatype HashInput = Plain(key: Text) | Salted(key: Text, attempt: nat)

  /**
   The `hashring` crate seen from outside. `pick` stands for hashing plus the search on
   the circle; reduced modulo the number of nodes it can be any deterministic choice,
   total on a non-empty ring, of a node that was added.
   */
  datatype HashRing = HashRing(nodes: seq<VNode>, pick: HashInput -> nat) {
    function Get(input: HashInput): (r: Option<VNode>)
      ensures r.Some? <==> nodes != []
      ensures r.Some? ==> r.value in nodes
    {
      if nodes == [] then None else Some(nodes[pick(input) % |nodes|])
    }
  }

  function Max(a: int, b: int): int {
    if a < b then b else a
  }

  /** `weight.max(1).saturating_mul(virtual_nodes.max(1))` */
  function EffectiveVNodeCount(shard: ShardConfig): (n: u32)
    ensures n >= 1
    ensures n <= Max(shard.weight, 1) * Max(shard.virtualNodes, 1)
    ensures n < Max(shard.weight, 1) * Max(shard.virtualNodes, 1) ==> n == U32_MAX
  {
    var product := Max(shard.weight, 1) * Max(shard.virtualNodes, 1);
    ProductPositive(Max(shard.weight, 1), Max(shard.virtualNodes, 1));
    if product > U32_MAX then U32_MAX else product
  }

  lemma {:induction false} ProductPositive(a: int, b: int)
    requires a >= 1 && b >= 1
    ensures a * b >= 1
  {}

  function VNodesOf(shard: ShardConfig, count: u32): (r: seq<VNode>)
    ensures |r| == count
    ensures forall v :: 0 <= v < count ==> r[v] == VNode(shard.id, v)
  {
    seq(count, v requires 0 <= v < count => VNode(shard.id, v))
  }

  /** All virtual nodes, in the order they are added to the ring. */
  function VNodes(shards: seq<ShardConfig>): seq<VNode> {
    if shards == [] then []
    else VNodes(shards[..|shards| - 1]) + VNodesOf(Last(shards), EffectiveVNodeCount(Last(shards)))
  }

  function VNodeCount(shards: seq<ShardConfig>): nat {
    if shards == [] then 0 else VNodeCount(shards[..|shards| - 1]) + EffectiveVNodeCount(Last(shards))
  }

  predicate HasId(shards: seq<ShardConfig>, id: int) {
    exists i :: 0 <= i < |shards| && shards[i].id == id
  }

  /** `shards.iter().find(|s| s.id == id)` */
  function ById(shards: seq<ShardConfig>, id: int): (r: Option<ShardConfig>)
    ensures r.Some? <==> HasId(shards, id)
    ensures r.Some? ==> r.value in shards && r.value.id == id
  {
    if shards == [] then None
    else if shards[0].id == id then Some(shards[0])
    else
      var r := ById(shards[1..], id);
      assert forall i :: 0 <= i < |shards[1..]| ==> shards[1..][i] == shards[i + 1];
      assert HasId(shards, id) ==> HasId(shards[1..], id) by {
        if HasId(shards, id) {
          var i :| 0 <= i < |shards| && shards[i].id == id;
          assert shards[1..][i - 1].id == id;
        }
      }
      r
  }

  datatype ShardRing = ShardRing(ring: HashRing, shards: seq<ShardConfig>) {
    /** The ring holds exactly the virtual nodes of its shards. */
    predicate Valid() {
      ring.nodes == VNodes(shards)
    }

    /** `shard_by_key`: the primary shard of a key. */
    function ShardByKey(key: Text): Option<ShardConfig> {
      if shards == [] then None
      else
        match ring.Get(Plain(key))
        case None => None
        case Some(vnode) => ById(shards, vnode.shardId)
    }

    function MaxProbes(): nat {
      Max(VNodeCount(shards), 1)
    }

    /** The probe loop of `shard_by_key_filtered`, from `attempt` on. */
    function Probe(key: Text, excluded: u32 -> bool, attempt: nat): Option<ShardConfig>
      decreases MaxProbes() + 1 - attempt
    {
      if attempt > MaxProbes() then None
      else
        match ring.Get(Salted(key, attempt))
        case Some(vnode) =>
          if !excluded(vnode.shardId) && ById(shards, vnode.shardId).Some?
          then ById(shards, vnode.shardId)
          else Probe(key, excluded, attempt + 1)
        case None => Probe(key, excluded, attempt + 1)
    }

    /** `shard_by_key_filtered`: primary, then salted probes, then the lowest allowed id. */
    function Lookup(key: Text, excluded: u32 -> bool): Option<ShardConfig> {
      if shards == [] then None
      else
        var primary := ShardByKey(key);
        if primary.Some? && !excluded(primary.value.id) then primary
        else
          var probed := Probe(key, excluded, 1);
          if probed.Some? then probed else LowestAllowed(shards, excluded)
    }
  }

  /** `filter(|s| !is_excluded(s.id)).min_by_key(|s| s.id)`: the first shard of the least allowed id. */
  function LowestAllowed(shards: seq<ShardConfig>, excluded: u32 -> bool): (r: Option<ShardConfig>)
    ensures r.Some? ==> r.value in shards && !excluded(r.value.id)
    ensures forall s :: s in shards && !excluded(s.id) ==> r.Some? && r.value.id <= s.id
  {
    if shards == [] then None
    else
      var front := shards[..|shards| - 1];
      var last := Last(shards);
      assert shards == front + [last];
      var best := LowestAllowed(front, excluded);
      if excluded(last.id) then best
      else if best.None? || last.id < best.value.id then Some(last)
      else best
  }

  /** `from_shards`: the nested insertion loops. */
  method FromShards(shards: seq<ShardConfig>, pick: HashInput -> nat) returns (r: ShardRing)
    ensures r.Valid() && r.shards == shards
    ensures r.ring.pick == pick
    ensures |r.ring.nodes| == VNodeCount(shards)
  {
    var nodes: seq<VNode> := [];
    for i := 0 to |shards|
      invariant nodes == VNodes(shards[..i])
      invariant |nodes| == VNodeCount(shards[..i])
    {
      var count := EffectiveVNodeCount(shards[i]);
      for v := 0 to count
        invariant nodes == VNodes(shards[..i]) + VNodesOf(shards[i], count)[..v]
      {
        nodes := nodes + [VNode(shards[i].id, v)];
        assert VNodesOf(shards[i], count)[..v + 1] == VNodesOf(shards[i], count)[..v] + [VNode(shards[i].id, v)];
      }
      assert VNodesOf(shards[i], count)[..count] == VNodesOf(shards[i], count);
      assert shards[..i + 1][..i] == shards[..i];
    }
    assert shards[..|shards|] == shards;
    r := ShardRing(HashRing(nodes, pick), shards);
  }

  /** Some configured shard contributes this virtual node. */
  predicate IsVNodeOf(shards: seq<ShardConfig>, n: VNode) {
    exists i :: 0 <= i < |shards| && Contributes(shards[i], n)
  }

  predicate Contributes(shard: ShardConfig, n: VNode) {
    shard.id == n.shardId && n.vnodeId < EffectiveVNodeCount(shard)
  }

  lemma {:induction false} OwnVNodes(shard: ShardConfig, n: VNode)
    ensures n in VNodesOf(shard, EffectiveVNodeCount(shard)) <==> Contributes(shard, n)
  {
    if Contributes(shard, n) {
      assert VNodesOf(shard, EffectiveVNodeCount(shard))[n.vnodeId] == n;
    }
  }

  lemma {:induction false} IsVNodeOfSnoc(front: seq<ShardConfig>, last: ShardConfig, n: VNode)
    ensures IsVNodeOf(front + [last], n) <==> IsVNodeOf(front, n) || Contributes(last, n)
  {
    var shards := front + [last];
    if i :| 0 <= i < |front| && Contributes(front[i], n) {
      assert Contributes(shards[i], n);
    }
    if Contributes(last, n) {
      assert Contributes(shards[|front|], n);
    }
  }

  /** The vnodes on the ring are exactly those of configured shards, below each shard's count. */
  lemma {:induction false} VNodesExactly(shards: seq<ShardConfig>, n: VNode)
    ensures n in VNodes(shards) <==> IsVNodeOf(shards, n)
  {
    if shards != [] {
      var front, last := shards[..|shards| - 1], Last(shards);
      VNodesExactly(front, n);
      OwnVNodes(last, n);
      IsVNodeOfSnoc(front, last, n);
      assert shards == front + [last];
    }
  }

  /** Every lookup on a non-empty ring lands on a configured shard. */
  lemma {:induction false} GetIsConfigured(r: ShardRing, input: HashInput)
    requires r.Valid() && r.shards != []
    ensures r.ring.Get(input).Some?
    ensures HasId(r.shards, r.ring.Get(input).value.shardId)
  {
    assert |VNodes(r.shards)| >= |VNodesOf(Last(r.shards), EffectiveVNodeCount(Last(r.shards)))|;
    var n := r.ring.Get(input).value;
    VNodesExactly(r.shards, n);
    var i :| 0 <= i < |r.shards| && Contributes(r.shards[i], n);
    assert r.shards[i].id == n.shardId;
  }

  /** `shard_by_key_filtered` as the source runs it, with its early returns. */
  method ShardByKeyFiltered(r: ShardRing, key: Text, excluded: u32 -> bool) returns (result: Option<ShardConfig>)
    requires r.Valid()
    ensures result == r.Lookup(key, excluded)
  {
    if r.shards == [] {
      return None;
    }
    var primary := r.ShardByKey(key);
    if primary.Some? && !excluded(primary.value.id) {
      return primary;
    }
    var attempt := 1;
    while attempt <= r.MaxProbes()
      invariant 1 <= attempt <= r.MaxProbes() + 1
      invariant r.Probe(key, excluded, 1) == r.Probe(key, excluded, attempt)
    {
      var vnode := r.ring.Get(Salted(key, attempt));
      if vnode.Some? && !excluded(vnode.value.shardId) {
        var shard := ById(r.shards, vnode.value.shardId);
        if shard.Some? {
          return shard;
        }
      }
      attempt := attempt + 1;
    }
    result := LowestAllowed(r.shards, excluded);
  }

  // ---------------------------------------------------------------------------
  // The reference: a fixed preference order per key
  // ---------------------------------------------------------------------------

  /** The shard ids of the salted probes, from `attempt` on. */
  ghost function ProbeIds(r: ShardRing, key: Text, attempt: nat): seq<u32>
    requires r.Valid() && r.shards != []
    decreases r.MaxProbes() + 1 - attempt
  {
    GetIsConfigured(r, Salted(key, attempt));
    if attempt > r.MaxProbes() then []
    else [r.ring.Get(Salted(key, attempt)).value.shardId] + ProbeIds(r, key, attempt + 1)
  }

  /** Configured ids below `bound`, ascending. */
  ghost function AscendingIds(shards: seq<ShardConfig>, bound: nat): (ids: seq<u32>)
    requires bound <= U32_MAX + 1
    ensures forall id :: id in ids <==> 0 <= id < bound && HasId(shards, id)
  {
    if bound == 0 then []
    else AscendingIds(shards, bound - 1) + (if HasId(shards, bound - 1) then [bound - 1] else [])
  }

  /** Shards in the order a key tries them; health plays no part. */
  ghost function Preference(r: ShardRing, key: Text): seq<u32>
    requires r.Valid() && r.shards != []
  {
    GetIsConfigured(r, Plain(key));
    [r.ring.Get(Plain(key)).value.shardId] + ProbeIds(r, key, 1) + AscendingIds(r.shards, U32_MAX + 1)
  }

  function FirstAllowed(ids: seq<u32>, excluded: u32 -> bool): (r: Option<u32>)
    ensures r.Some? ==> r.value in ids && !excluded(r.value)
    ensures r.None? ==> forall id :: id in ids ==> excluded(id)
  {
    if ids == [] then None
    else if !excluded(ids[0]) then Some(ids[0])
    else FirstAllowed(ids[1..], excluded)
  }

  lemma {:induction false} FirstAllowedAppend(a: seq<u32>, b: seq<u32>, excluded: u32 -> bool)
    ensures FirstAllowed(a + b, excluded) ==
            if FirstAllowed(a, excluded).Some? then FirstAllowed(a, excluded) else FirstAllowed(b, excluded)
  {
    if a == [] {
      assert a + b == b;
    } else {
      FirstAllowedAppend(a[1..], b, excluded);
      assert (a + b)[1..] == a[1..] + b;
    }
  }

  function Resolve(shards: seq<ShardConfig>, id: Option<u32>): Option<ShardConfig> {
    match id
    case None => None
    case Some(i) => ById(shards, i)
  }

  lemma {:induction false} ProbeIsFirstAllowed(r: ShardRing, key: Text, excluded: u32 -> bool, attempt: nat)
    requires r.Valid() && r.shards != []
    ensures r.Probe(key, excluded, attempt) == Resolve(r.shards, FirstAllowed(ProbeIds(r, key, attempt), excluded))
    ensures FirstAllowed(ProbeIds(r, key, attempt), excluded).Some? ==> r.Probe(key, excluded, attempt).Some?
    decreases r.MaxProbes() + 1 - attempt
  {
    if attempt <= r.MaxProbes() {
      GetIsConfigured(r, Salted(key, attempt));
      ProbeIsFirstAllowed(r, key, excluded, attempt + 1);
      assert ProbeIds(r, key, attempt)[1..] == ProbeIds(r, key, attempt + 1);
    }
  }

  lemma {:induction false} AscendingFirstIsLeast(shards: seq<ShardConfig>, bound: nat, excluded: u32 -> bool, id: u32)
    requires bound <= U32_MAX + 1
    requires id < bound && HasId(shards, id) && !excluded(id)
    ensures var r := FirstAllowed(AscendingIds(shards, bound), excluded); r.Some? && r.value <= id
  {
    FirstAllowedAppend(AscendingIds(shards, bound - 1),
      if HasId(shards, bound - 1) then [bound - 1] else [], excluded);
    if id < bound - 1 {
      AscendingFirstIsLeast(shards, bound - 1, excluded, id);
    }
  }

  /** `min_by_key` keeps the first of equal ids, so it agrees with a lookup by id. */
  lemma {:induction false} LowestAllowedIsById(shards: seq<ShardConfig>, excluded: u32 -> bool)
    ensures var r := LowestAllowed(shards, excluded); r.Some? ==> r == ById(shards, r.value.id)
  {
    if shards != [] {
      var front, last := shards[..|shards| - 1], Last(shards);
      assert shards == front + [last];
      LowestAllowedIsById(front, excluded);
      var r := LowestAllowed(shards, excluded);
      if r.Some? {
        ByIdAppend(front, last, r.value.id);
        if r == Some(last) && ById(front, last.id).Some? {
          assert ById(front, last.id).value in front;
        }
      }
    }
  }

  lemma {:induction false} ByIdAppend(front: seq<ShardConfig>, last: ShardConfig, id: int)
    ensures ById(front + [last], id) ==
            if ById(front, id).Some? then ById(front, id) else if last.id == id then Some(last) else None
  {
    if front == [] {
      assert (front + [last])[1..] == [];
    } else {
      ByIdAppend(front[1..], last, id);
      assert (front + [last])[1..] == front[1..] + [last];
    }
  }

  lemma {:induction false} MemberHasId(shards: seq<ShardConfig>, s: ShardConfig)
    requires s in shards
    ensures HasId(shards, s.id)
  {
    var i :| 0 <= i < |shards| && shards[i] == s;
  }

  /** The least allowed id resolves to the lowest allowed shard. */
  lemma {:induction false} LowestIsLeast(shards: seq<ShardConfig>, excluded: u32 -> bool, least: Option<u32>)
    requires least.Some? ==> HasId(shards, least.value) && !excluded(least.value)
    requires forall id: u32 :: HasId(shards, id) && !excluded(id) ==> least.Some? && least.value <= id
    ensures LowestAllowed(shards, excluded) == Resolve(shards, least)
  {
    var low := LowestAllowed(shards, excluded);
    LowestAllowedIsById(shards, excluded);
    if low.Some? {
      MemberHasId(shards, low.value);
    }
    if least.Some? {
      var s := ById(shards, least.value).value;
      assert s in shards && !excluded(s.id);
    }
  }

  lemma {:induction false} LowestStage(shards: seq<ShardConfig>, excluded: u32 -> bool, bound: nat)
    requires bound == U32_MAX + 1
    ensures LowestAllowed(shards, excluded) ==
            Resolve(shards, FirstAllowed(AscendingIds(shards, bound), excluded))
  {
    var first := FirstAllowed(AscendingIds(shards, bound), excluded);
    forall id: u32 | HasId(shards, id) && !excluded(id)
      ensures first.Some? && first.value <= id
    {
      AscendingFirstIsLeast(shards, bound, excluded, id);
    }
    LowestIsLeast(shards, excluded, first);
  }

  /**
   The three stages of failover are one rule: a key goes to the first shard of its
   preference order that is not excluded.
   */
  lemma {:induction false} LookupIsFirstPreferred(r: ShardRing, key: Text, excluded: u32 -> bool)
    requires r.Valid() && r.shards != []
    ensures r.Lookup(key, excluded) == Resolve(r.shards, FirstAllowed(Preference(r, key), excluded))
    ensures FirstAllowed(Preference(r, key), excluded).Some? ==> r.Lookup(key, excluded).Some?
  {
    GetIsConfigured(r, Plain(key));
    var primary := [r.ring.Get(Plain(key)).value.shardId];
    var probes := ProbeIds(r, key, 1);
    var lowest := AscendingIds(r.shards, U32_MAX + 1);
    FirstAllowedAppend(primary + probes, lowest, excluded);
    FirstAllowedAppend(primary, probes, excluded);
    ProbeIsFirstAllowed(r, key, excluded, 1);
    LowestStage(r.shards, excluded, U32_MAX + 1);
  }

  // ---------------------------------------------------------------------------
  // The candidates one by one
  // ---------------------------------------------------------------------------

  /** Where the ring sends the key itself (`a == 0`) and its `a`-th salted form. */
  function Candidate(r: ShardRing, key: Text, a: nat): u32
    requires r.Valid() && r.shards != []
  {
    var input := if a == 0 then Plain(key) else Salted(key, a);
    GetIsConfigured(r, input);
    r.ring.Get(input).value.shardId
  }

  lemma {:induction false} NodesCounted(shards: seq<ShardConfig>)
    ensures |VNodes(shards)| == VNodeCount(shards)
    ensures shards != [] ==> VNodeCount(shards) >= 1
  {
    if shards != [] {
      NodesCounted(shards[..|shards| - 1]);
    }
  }

  lemma {:induction false} ProbesAre(r: ShardRing, key: Text, attempt: nat)
    requires r.Valid() && r.shards != [] && 1 <= attempt <= |r.ring.nodes| + 1
    ensures |ProbeIds(r, key, attempt)| == |r.ring.nodes| + 1 - attempt
    ensures forall i :: 0 <= i < |ProbeIds(r, key, attempt)| ==>
              ProbeIds(r, key, attempt)[i] == Candidate(r, key, attempt + i)
    decreases |r.ring.nodes| + 1 - attempt
  {
    NodesCounted(r.shards);
    if attempt <= |r.ring.nodes| {
      ProbesAre(r, key, attempt + 1);
      var ids, rest := ProbeIds(r, key, attempt), ProbeIds(r, key, attempt + 1);
      assert ids == [Candidate(r, key, attempt)] + rest;
      forall i | 0 <= i < |ids|
        ensures ids[i] == Candidate(r, key, attempt + i)
      {
        if i > 0 {
          assert ids[i] == rest[i - 1] == Candidate(r, key, attempt + 1 + (i - 1));
        }
      }
    }
  }

  /** The ids that are configured, each once. */
  function ConfiguredIds(shards: seq<ShardConfig>): set<u32> {
    set s | s in shards :: s.id
  }

  lemma {:induction false} ConfiguredHasId(shards: seq<ShardConfig>, id: u32)
    ensures id in ConfiguredIds(shards) <==> HasId(shards, id)
  {
    if id in ConfiguredIds(shards) {
      var s :| s in shards && s.id == id;
      MemberHasId(shards, s);
    }
  }

  function Below(ids: set<u32>, bound: nat): set<u32> {
    set id | id in ids && id < bound
  }

  lemma {:induction false} BelowNext(ids: set<u32>, id: u32)
    ensures |Below(ids, id + 1)| == |Below(ids, id)| + if id in ids then 1 else 0
  {
    assert Below(ids, id + 1) == if id in ids then Below(ids, id) + {id} else Below(ids, id);
  }

  lemma {:induction false} AscendingNext(shards: seq<ShardConfig>, id: u32)
    ensures |AscendingIds(shards, id + 1)| ==
            |AscendingIds(shards, id)| + if id in ConfiguredIds(shards) then 1 else 0
  {
    ConfiguredHasId(shards, id);
  }

  lemma {:induction false} AscendingCount(shards: seq<ShardConfig>, bound: nat)
    requires bound <= U32_MAX + 1
    ensures |AscendingIds(shards, bound)| == |Below(ConfiguredIds(shards), bound)|
  {
    if bound == 0 {
      assert Below(ConfiguredIds(shards), 0) == {};
    } else {
      var id: u32 := bound - 1;
      AscendingCount(shards, id);
      AscendingNext(shards, id);
      BelowNext(ConfiguredIds(shards), id);
      assert id + 1 == bound;
    }
  }

  /** The preference order: the primary, one probe per virtual node, then every configured id once. */
  lemma {:induction false} PreferenceIs(r: ShardRing, key: Text)
    requires r.Valid() && r.shards != []
    ensures |Preference(r, key)| == 1 + |r.ring.nodes| + |ConfiguredIds(r.shards)|
    ensures forall a :: 0 <= a <= |r.ring.nodes| ==> Preference(r, key)[a] == Candidate(r, key, a)
  {
    PreferenceWithin(r, key, U32_MAX + 1);
  }

  lemma {:induction false} PreferenceWithin(r: ShardRing, key: Text, bound: nat)
    requires r.Valid() && r.shards != [] && bound == U32_MAX + 1
    ensures |Preference(r, key)| == 1 + |r.ring.nodes| + |ConfiguredIds(r.shards)|
    ensures forall a :: 0 <= a <= |r.ring.nodes| ==> Preference(r, key)[a] == Candidate(r, key, a)
  {
    var probes, lowest := ProbeIds(r, key, 1), AscendingIds(r.shards, bound);
    ProbesAre(r, key, 1);
    AscendingCount(r.shards, bound);
    assert Below(ConfiguredIds(r.shards), bound) == ConfiguredIds(r.shards);
    var order := [Candidate(r, key, 0)] + probes + lowest;
    assert Preference(r, key) == order;
    forall a | 0 <= a <= |r.ring.nodes|
      ensures order[a] == Candidate(r, key, a)
    {
      if a > 0 {
        assert order[a] == probes[a - 1];
      }
    }
  }

  lemma {:induction false} FirstAllowedAt(ids: seq<u32>, excluded: u32 -> bool, k: nat)
    requires k < |ids| && !excluded(ids[k]) && forall j :: 0 <= j < k ==> excluded(ids[j])
    ensures FirstAllowed(ids, excluded) == Some(ids[k])
  {
    if k > 0 {
      assert excluded(ids[0]);
      FirstAllowedAt(ids[1..], excluded, k - 1);
    }
  }

  /** The key, or its `a`-th salted form, decides when everything before it is excluded. */
  lemma {:induction false} CandidateDecides(r: ShardRing, key: Text, excluded: u32 -> bool, a: nat)
    requires r.Valid() && r.shards != [] && a <= |r.ring.nodes|
    requires !excluded(Candidate(r, key, a)) && forall b: nat :: b < a ==> excluded(Candidate(r, key, b))
    ensures r.Lookup(key, excluded) == ById(r.shards, Candidate(r, key, a))
  {
    var order := Preference(r, key);
    PreferenceIs(r, key);
    assert forall b :: 0 <= b < a ==> order[b] == Candidate(r, key, b);
    FirstAllowedAt(order, excluded, a);
    LookupIsFirstPreferred(r, key, excluded);
  }

  /**
   The lowest allowed id is reached only when the primary and one probe for each virtual node
   on the ring are all excluded, and then it is the answer.
   */
  lemma {:induction false} LowestOnlyLast(r: ShardRing, key: Text, excluded: u32 -> bool)
    requires r.Valid() && r.shards != []
    requires forall a: nat :: a <= |r.ring.nodes| ==> excluded(Candidate(r, key, a))
    ensures var found := r.Lookup(key, excluded);
            && (found.Some? ==> found.value in r.shards && !excluded(found.value.id))
            && forall s :: s in r.shards && !excluded(s.id) ==> found.Some? && found.value.id <= s.id
  {
    assert excluded(Candidate(r, key, 0));
    ProbesAre(r, key, 1);
    var ids := ProbeIds(r, key, 1);
    assert forall i :: 0 <= i < |ids| ==> excluded(ids[i]) by {
      forall i | 0 <= i < |ids|
        ensures excluded(ids[i])
      {
        assert ids[i] == Candidate(r, key, 1 + i);
      }
    }
    ProbeIsFirstAllowed(r, key, excluded, 1);
    assert FirstAllowed(ids, excluded).None?;
  }

  // ---------------------------------------------------------------------------
  // What failover promises
  // ---------------------------------------------------------------------------

  /** A lookup succeeds exactly when some configured shard is allowed, and returns an allowed one. */
  lemma {:induction false} LookupTotal(r: ShardRing, key: Text, excluded: u32 -> bool)
    requires r.Valid()
    ensures r.Lookup(key, excluded).Some? <==> exists s :: s in r.shards && !excluded(s.id)
    ensures r.Lookup(key, excluded).Some? ==>
              var s := r.Lookup(key, excluded).value;
              s in r.shards && !excluded(s.id) && ById(r.shards, s.id) == Some(s)
  {
    if r.shards != [] {
      LookupIsFirstPreferred(r, key, excluded);
      if s :| s in r.shards && !excluded(s.id) {
        var i :| 0 <= i < |r.shards| && r.shards[i] == s;
        assert HasId(r.shards, s.id);
        assert s.id in AscendingIds(r.shards, U32_MAX + 1);
        assert s.id in Preference(r, key);
      }
    }
  }

  lemma {:induction false} FirstAllowedStable(ids: seq<u32>, few: u32 -> bool, many: u32 -> bool)
    requires forall id :: few(id) ==> many(id)
    requires FirstAllowed(ids, few).Some? && !many(FirstAllowed(ids, few).value)
    ensures FirstAllowed(ids, many) == FirstAllowed(ids, few)
  {
    if few(ids[0]) {
      FirstAllowedStable(ids[1..], few, many);
    }
  }

  /**
   Minimal disruption: excluding more shards moves a key only if its own shard is
   among those excluded.
   */
  lemma {:induction false} FailoverMinimalDisruption(r: ShardRing, key: Text, few: u32 -> bool, many: u32 -> bool)
    requires r.Valid()
    requires forall id :: few(id) ==> many(id)
    requires r.Lookup(key, few).Some? && !many(r.Lookup(key, few).value.id)
    ensures r.Lookup(key, many) == r.Lookup(key, few)
  {
    LookupIsFirstPreferred(r, key, few);
    LookupIsFirstPreferred(r, key, many);
    FirstAllowedStable(Preference(r, key), few, many);
  }

  /** Recovery: when shards come back, a key stays where it is or moves to one that came back. */
  lemma {:induction false} RecoveryMovesOnlyToRecovered(r: ShardRing, key: Text, few: u32 -> bool, many: u32 -> bool)
    requires r.Valid()
    requires forall id :: few(id) ==> many(id)
    requires r.Lookup(key, many).Some?
    ensures r.Lookup(key, few).Some?
    ensures var now := r.Lookup(key, few).value;
            now == r.Lookup(key, many).value || (many(now.id) && !few(now.id))
  {
    LookupTotal(r, key, many);
    LookupTotal(r, key, few);
    if !many(r.Lookup(key, few).value.id) {
      FailoverMinimalDisruption(r, key, few, many);
    }
  }

  /** A lookup depends only on which ids are excluded. */
  lemma {:induction false} LookupCongruent(r: ShardRing, key: Text, a: u32 -> bool, b: u32 -> bool)
    requires r.Valid()
    requires forall id :: a(id) == b(id)
    ensures r.Lookup(key, a) == r.Lookup(key, b)
  {
    LookupTotal(r, key, a);
    LookupTotal(r, key, b);
    if r.Lookup(key, a).Some? {
      FailoverMinimalDisruption(r, key, a, b);
    }
  }

  /** While a key's primary shard is allowed the key goes there, whatever else is excluded. */
  lemma {:induction false} PrimaryWins(r: ShardRing, key: Text, excluded: u32 -> bool)
    requires r.Valid() && r.shards != []
    ensures r.ShardByKey(key).Some?
    ensures !excluded(r.ShardByKey(key).value.id) ==> r.Lookup(key, excluded) == r.ShardByKey(key)
  {
    GetIsConfigured(r, Plain(key));
  }
}
