/**
 Cluster metadata: the immutable snapshot every request routes with
 (src/metadata/snapshot.rs) and the actor that folds health reports into new
 snapshots (src/metadata/actor.rs).
 */
module Cluster {
  import opened Bytes
  import opened Ring

  datatype Protocol = Ilp | Pg

  datatype ShardHealth = ShardHealth(ilpOk: bool, pgOk: bool) {
    predicate IsOkFor(protocol: Protocol) {
      match protocol
      case Ilp => ilpOk
      case Pg => pgOk
    }
  }

  const HEALTHY_ALL := ShardHealth(true, true)

  datatype RoutingError =
    | InsufficientHealthyShards(required: nat, available: nat)
    | ShardNotFound(key: Text)

  datatype Routed<+T> = Ok(value: T) | Err(error: RoutingError)

  /** Per-table routing configuration, keyed by lower-cased table name. */
  datatype TableConfig = TableConfig(sharded: bool, shardKey: Option<Text>)
  type TableRegistry = map<Text, TableConfig>

  /** `TableRegistry::shard_key_for` */
  function ShardKeyFor(registry: TableRegistry, table: Text, default: Text): Text {
    if Lower(table) in registry && registry[Lower(table)].shardKey.Some?
    then registry[Lower(table)].shardKey.value
    else default
  }

  datatype Snapshot = Snapshot(
    ring: ShardRing,
    registry: TableRegistry,
    health: map<u32, ShardHealth>,
    excludeUnhealthy: bool,
    minHealthyShards: nat)
  {
    /** What construction establishes and every health update keeps. */
    predicate Valid() {
      && ring.Valid()
      && forall s :: s in ring.shards ==> s.id in health
    }

    predicate IsExcluded(id: u32, protocol: Protocol) {
      excludeUnhealthy && id in health && !health[id].IsOkFor(protocol)
    }

    predicate IsHealthy(id: u32, protocol: Protocol) {
      !excludeUnhealthy || (id in health && health[id].IsOkFor(protocol))
    }

    /** The exclusion test handed to the ring. */
    function Exclusion(protocol: Protocol): u32 -> bool {
      (id: u32) => IsExcluded(id, protocol)
    }

    function HealthyCount(protocol: Protocol): nat {
      |HealthyShardIds(protocol)|
    }

    /** `ensure_min_healthy` and the error it raises. */
    function EnsureMinHealthy(protocol: Protocol): Option<RoutingError> {
      if excludeUnhealthy && HealthyCount(protocol) < minHealthyShards
      then Some(InsufficientHealthyShards(minHealthyShards, HealthyCount(protocol)))
      else None
    }

    function ShardForKey(key: Text, protocol: Protocol): Routed<ShardConfig> {
      match EnsureMinHealthy(protocol)
      case Some(e) => Err(e)
      case None =>
        match ring.Lookup(key, Exclusion(protocol))
        case Some(s) => Ok(s)
        case None => Err(ShardNotFound(key))
    }

    function HealthyShardIds(protocol: Protocol): seq<u32> {
      IdsWhere(ring.shards, (id: u32) => IsHealthy(id, protocol))
    }

    /** `default_healthy_shard`: the first configured shard that is not excluded. */
    function DefaultHealthyShard(protocol: Protocol): Routed<ShardConfig> {
      match EnsureMinHealthy(protocol)
      case Some(e) => Err(e)
      case None =>
        match FirstWhere(ring.shards, (id: u32) => !IsExcluded(id, protocol))
        case Some(s) => Ok(s)
        case None => Err(InsufficientHealthyShards(Max(minHealthyShards, 1), 0))
    }
  }

  /** Ids of the shards passing `keep`, in configuration order. */
  function IdsWhere(shards: seq<ShardConfig>, keep: u32 -> bool): (ids: seq<u32>)
    ensures forall id: u32 :: id in ids <==> keep(id) && HasId(shards, id)
  {
    if shards == [] then []
    else
      var rest := IdsWhere(shards[1..], keep);
      HasIdCons(shards);
      if keep(shards[0].id) then [shards[0].id] + rest else rest
  }

  function FirstWhere(shards: seq<ShardConfig>, keep: u32 -> bool): (r: Option<ShardConfig>)
    ensures r.Some? ==> r.value in shards && keep(r.value.id)
    ensures r.None? ==> forall s :: s in shards ==> !keep(s.id)
  {
    if shards == [] then None
    else if keep(shards[0].id) then Some(shards[0])
    else FirstWhere(shards[1..], keep)
  }

  lemma {:induction false} HasIdCons(shards: seq<ShardConfig>)
    requires shards != []
    ensures forall id: int :: HasId(shards, id) <==> shards[0].id == id || HasId(shards[1..], id)
  {}

  /** `ClusterSnapshot::new`: every configured shard starts healthy. */
  function Initial(
      ring: ShardRing, registry: TableRegistry, excludeUnhealthy: bool, minHealthyShards: nat): (s: Snapshot)
    requires ring.Valid()
    ensures s.Valid()
  {
    assert forall c :: c in ring.shards ==> c.id in AllHealthy(ring.shards) by {
      forall c | c in ring.shards
        ensures c.id in AllHealthy(ring.shards)
      {
        MemberHasId(ring.shards, c);
      }
    }
    Snapshot(ring, registry, AllHealthy(ring.shards), excludeUnhealthy, minHealthyShards)
  }

  function AllHealthy(shards: seq<ShardConfig>): (h: map<u32, ShardHealth>)
    ensures forall id: u32 :: id in h <==> HasId(shards, id)
    ensures forall id :: id in h ==> h[id].ilpOk && h[id].pgOk
  {
    if shards == [] then map[]
    else
      HasIdCons(shards);
      AllHealthy(shards[1..])[shards[0].id := HEALTHY_ALL]
  }

  // ---------------------------------------------------------------------------
  // When routing succeeds, and where it goes
  // ---------------------------------------------------------------------------

  /** The configured shard at this position is reported up for the protocol. */
  predicate UpAt(s: Snapshot, i: nat, protocol: Protocol)
    requires s.Valid() && i < |s.ring.shards|
  {
    var h := s.health[s.ring.shards[i].id];
    if protocol.Ilp? then h.ilpOk else h.pgOk
  }

  /** The positions of the shards that are up. */
  function Up(s: Snapshot, protocol: Protocol): set<nat>
    requires s.Valid()
  {
    set i: nat | i < |s.ring.shards| && UpAt(s, i, protocol)
  }

  /** The positions from `from` on whose shard passes `keep`. */
  function PositionsWhere(shards: seq<ShardConfig>, keep: u32 -> bool, from: nat): set<nat> {
    set i: nat | from <= i < |shards| && keep(shards[i].id)
  }

  /** Every configured shard counts as often as it is configured. */
  lemma {:induction false} IdsCounted(shards: seq<ShardConfig>, keep: u32 -> bool, from: nat)
    requires from <= |shards|
    ensures |IdsWhere(shards[from..], keep)| == |PositionsWhere(shards, keep, from)|
    decreases |shards| - from
  {
    if from < |shards| {
      IdsCounted(shards, keep, from + 1);
      PositionsCons(shards, keep, from);
      var rest := shards[from..];
      assert rest[0] == shards[from] && rest[1..] == shards[from + 1..];
    }
  }

  lemma {:induction false} PositionsCons(shards: seq<ShardConfig>, keep: u32 -> bool, from: nat)
    requires from < |shards|
    ensures |PositionsWhere(shards, keep, from)| ==
            (if keep(shards[from].id) then 1 else 0) + |PositionsWhere(shards, keep, from + 1)|
  {
    var later := PositionsWhere(shards, keep, from + 1);
    assert PositionsWhere(shards, keep, from) == if keep(shards[from].id) then {from} + later else later;
  }

  lemma {:induction false} HealthyIsUp(s: Snapshot, protocol: Protocol)
    requires s.Valid() && s.excludeUnhealthy
    ensures s.HealthyCount(protocol) == |Up(s, protocol)|
    ensures forall id: u32 :: id in s.HealthyShardIds(protocol) <==>
              exists i :: 0 <= i < |s.ring.shards| && s.ring.shards[i].id == id && UpAt(s, i, protocol)
  {
    var shards, keep := s.ring.shards, (id: u32) => s.IsHealthy(id, protocol);
    assert forall i :: 0 <= i < |shards| ==> shards[i] in shards;
    assert forall i :: 0 <= i < |shards| ==> (keep(shards[i].id) <==> UpAt(s, i, protocol));
    UpIsPositions(s, keep, protocol);
    IdsCounted(shards, keep, 0);
    assert shards[0..] == shards;
  }

  lemma {:induction false} UpIsPositions(s: Snapshot, keep: u32 -> bool, protocol: Protocol)
    requires s.Valid()
    requires forall i :: 0 <= i < |s.ring.shards| ==> (keep(s.ring.shards[i].id) <==> UpAt(s, i, protocol))
    ensures Up(s, protocol) == PositionsWhere(s.ring.shards, keep, 0)
  {}

  /**
   With exclusion on, a key can be routed exactly when enough shards are up (and at least
   one), whatever the key, and the chosen shard is one that is up; a refusal says why.
   */
  lemma {:induction false} ShardForKeySucceedsIff(s: Snapshot, key: Text, protocol: Protocol)
    requires s.Valid()
    ensures s.excludeUnhealthy ==>
              (s.ShardForKey(key, protocol).Ok? <==>
                 |Up(s, protocol)| >= 1 && |Up(s, protocol)| >= s.minHealthyShards)
    ensures !s.excludeUnhealthy ==> (s.ShardForKey(key, protocol).Ok? <==> s.ring.shards != [])
    ensures s.ShardForKey(key, protocol).Ok? ==>
              exists i :: 0 <= i < |s.ring.shards| && s.ring.shards[i] == s.ShardForKey(key, protocol).value &&
                          (s.excludeUnhealthy ==> UpAt(s, i, protocol))
    ensures s.ShardForKey(key, protocol).Err? ==>
              s.ShardForKey(key, protocol).error ==
                if s.excludeUnhealthy && |Up(s, protocol)| < s.minHealthyShards
                then InsufficientHealthyShards(s.minHealthyShards, |Up(s, protocol)|) else ShardNotFound(key)
  {
    RoutedAmongHealthy(s, key, protocol);
    if s.excludeUnhealthy {
      HealthyIsUp(s, protocol);
    }
    var r := s.ring.Lookup(key, s.Exclusion(protocol));
    LookupTotal(s.ring, key, s.Exclusion(protocol));
    if r.Some? {
      var i :| 0 <= i < |s.ring.shards| && s.ring.shards[i] == r.value;
    }
  }

  lemma {:induction false} RoutedAmongHealthy(s: Snapshot, key: Text, protocol: Protocol)
    requires s.Valid()
    ensures s.excludeUnhealthy ==>
              (s.ShardForKey(key, protocol).Ok? <==> s.HealthyCount(protocol) >= Max(1, s.minHealthyShards))
    ensures !s.excludeUnhealthy ==> (s.ShardForKey(key, protocol).Ok? <==> s.ring.shards != [])
    ensures s.ShardForKey(key, protocol).Ok? ==>
              s.ShardForKey(key, protocol).value.id in s.HealthyShardIds(protocol)
  {
    var excluded := s.Exclusion(protocol);
    var ids := s.HealthyShardIds(protocol);
    LookupTotal(s.ring, key, excluded);
    assert ids != [] <==> exists c :: c in s.ring.shards && !excluded(c.id) by {
      if ids != [] {
        assert ids[0] in ids;
        var c := ById(s.ring.shards, ids[0]).value;
        assert c in s.ring.shards && !excluded(c.id);
      }
      if c :| c in s.ring.shards && !excluded(c.id) {
        MemberHasId(s.ring.shards, c);
        assert c.id in ids;
      }
    }
    if s.ring.Lookup(key, excluded).Some? {
      MemberHasId(s.ring.shards, s.ring.Lookup(key, excluded).value);
    }
    if s.ring.shards != [] {
      assert s.ring.shards[0] in s.ring.shards;
    }
  }

  /** The sticky default shard exists under the same condition as any keyed route. */
  lemma {:induction false} DefaultShardSucceedsIff(s: Snapshot, key: Text, protocol: Protocol)
    requires s.Valid()
    ensures s.DefaultHealthyShard(protocol).Ok? <==> s.ShardForKey(key, protocol).Ok?
    ensures s.DefaultHealthyShard(protocol).Ok? ==>
              && s.HealthyShardIds(protocol) != []
              && s.DefaultHealthyShard(protocol).value.id == s.HealthyShardIds(protocol)[0]
  {
    LookupTotal(s.ring, key, s.Exclusion(protocol));
    var first := FirstWhere(s.ring.shards, (id: u32) => !s.IsExcluded(id, protocol));
    FirstOfIds(s.ring.shards, (id: u32) => s.IsHealthy(id, protocol));
    FirstWhereCongruent(s.ring.shards,
      (id: u32) => s.IsHealthy(id, protocol), (id: u32) => !s.IsExcluded(id, protocol));
    if first.Some? {
      MemberHasId(s.ring.shards, first.value);
    }
  }

  lemma {:induction false} FirstOfIds(shards: seq<ShardConfig>, keep: u32 -> bool)
    ensures FirstWhere(shards, keep).Some? <==> IdsWhere(shards, keep) != []
    ensures FirstWhere(shards, keep).Some? ==> FirstWhere(shards, keep).value.id == IdsWhere(shards, keep)[0]
  {
    if shards != [] {
      FirstOfIds(shards[1..], keep);
    }
  }

  lemma {:induction false} FirstWhereCongruent(shards: seq<ShardConfig>, a: u32 -> bool, b: u32 -> bool)
    requires forall s :: s in shards ==> a(s.id) == b(s.id)
    ensures FirstWhere(shards, a) == FirstWhere(shards, b)
  {
    if shards != [] {
      assert forall s :: s in shards[1..] ==> s in shards;
      FirstWhereCongruent(shards[1..], a, b);
    }
  }

  // ---------------------------------------------------------------------------
  // The metadata actor
  // ---------------------------------------------------------------------------

  datatype Report = Report(shardId: u32, health: ShardHealth)

  /** `apply_health`: an unknown shard counts as healthy; an unchanged report publishes nothing. */
  function ApplyHealth(s: Snapshot, report: Report): Snapshot {
    var prev := if report.shardId in s.health then s.health[report.shardId] else HEALTHY_ALL;
    if prev == report.health then s else AlwaysApply(s, report)
  }

  /** The plain fold: every report is written into the map. */
  function AlwaysApply(s: Snapshot, report: Report): Snapshot {
    s.(health := s.health[report.shardId := report.health])
  }

  function FoldReports(s: Snapshot, reports: seq<Report>): Snapshot {
    if reports == [] then s
    else ApplyHealth(FoldReports(s, reports[..|reports| - 1]), Last(reports))
  }

  function FoldAlways(s: Snapshot, reports: seq<Report>): Snapshot {
    if reports == [] then s
    else AlwaysApply(FoldAlways(s, reports[..|reports| - 1]), Last(reports))
  }

  /** The last report about a shard, or healthy when there was none. */
  function LastReport(reports: seq<Report>, id: u32): ShardHealth {
    if reports == [] then HEALTHY_ALL
    else if Last(reports).shardId == id then Last(reports).health
    else LastReport(reports[..|reports| - 1], id)
  }

  /** Two snapshots that differ at most in writing "healthy" for an id with no entry. */
  ghost predicate SameHealth(a: Snapshot, b: Snapshot) {
    && a.ring == b.ring && a.registry == b.registry
    && a.excludeUnhealthy == b.excludeUnhealthy && a.minHealthyShards == b.minHealthyShards
    && (forall id: u32 :: HealthOf(a, id) == HealthOf(b, id))
  }

  function HealthOf(s: Snapshot, id: u32): ShardHealth {
    if id in s.health then s.health[id] else HEALTHY_ALL
  }

  /**
   After any reports, a configured shard's entry is its last report (healthy at first),
   and nothing else about the snapshot has changed.
   */
  lemma {:induction false} HealthIsLastReport(initial: Snapshot, reports: seq<Report>)
    requires initial.Valid()
    requires forall id :: id in initial.health ==> initial.health[id] == HEALTHY_ALL
    ensures var s := FoldReports(initial, reports);
            && s.Valid()
            && s == initial.(health := s.health)
            && (forall id :: id in initial.health ==> id in s.health)
            && (forall id: u32 :: HealthOf(s, id) == LastReport(reports, id))
  {
    if reports != [] {
      HealthIsLastReport(initial, reports[..|reports| - 1]);
    }
  }

  /** The same for the fold that never skips. */
  lemma {:induction false} AlwaysIsLastReport(initial: Snapshot, reports: seq<Report>)
    requires initial.Valid()
    requires forall id :: id in initial.health ==> initial.health[id] == HEALTHY_ALL
    ensures var s := FoldAlways(initial, reports);
            && s.Valid()
            && s == initial.(health := s.health)
            && (forall id: u32 :: HealthOf(s, id) == LastReport(reports, id))
  {
    if reports != [] {
      AlwaysIsLastReport(initial, reports[..|reports| - 1]);
    }
  }

  lemma {:induction false} IdsWhereCongruent(shards: seq<ShardConfig>, a: u32 -> bool, b: u32 -> bool)
    requires forall id: u32 :: HasId(shards, id) ==> a(id) == b(id)
    ensures IdsWhere(shards, a) == IdsWhere(shards, b)
  {
    if shards != [] {
      HasIdCons(shards);
      IdsWhereCongruent(shards[1..], a, b);
    }
  }

  /** Snapshots with the same effective health route every key identically. */
  lemma {:induction false} SameHealthRoutesAlike(a: Snapshot, b: Snapshot, key: Text, protocol: Protocol)
    requires a.Valid() && b.Valid() && SameHealth(a, b)
    ensures a.ShardForKey(key, protocol) == b.ShardForKey(key, protocol)
    ensures a.HealthyShardIds(protocol) == b.HealthyShardIds(protocol)
  {
    forall id: u32 | HasId(a.ring.shards, id)
      ensures a.IsHealthy(id, protocol) == b.IsHealthy(id, protocol)
    {
      var c := ById(a.ring.shards, id).value;
      assert c in a.ring.shards && c in b.ring.shards;
      assert HealthOf(a, id) == HealthOf(b, id);
    }
    IdsWhereCongruent(a.ring.shards, (id: u32) => a.IsHealthy(id, protocol), (id: u32) => b.IsHealthy(id, protocol));
    forall id: u32
      ensures a.IsExcluded(id, protocol) == b.IsExcluded(id, protocol)
    {
      assert HealthOf(a, id) == HealthOf(b, id);
    }
    LookupCongruent(a.ring, key, a.Exclusion(protocol), b.Exclusion(protocol));
  }

  /** Skipping unchanged reports is invisible to routing, after any sequence of reports. */
  lemma {:induction false} SkipUnchangedIsInvisible(
      initial: Snapshot, reports: seq<Report>, key: Text, protocol: Protocol)
    requires initial.Valid()
    requires forall id :: id in initial.health ==> initial.health[id] == HEALTHY_ALL
    ensures FoldReports(initial, reports).ShardForKey(key, protocol) ==
            FoldAlways(initial, reports).ShardForKey(key, protocol)
    ensures FoldReports(initial, reports).HealthyShardIds(protocol) ==
            FoldAlways(initial, reports).HealthyShardIds(protocol)
  {
    HealthIsLastReport(initial, reports);
    AlwaysIsLastReport(initial, reports);
    SameHealthRoutesAlike(FoldReports(initial, reports), FoldAlways(initial, reports), key, protocol);
  }

  /** The actor: one mutable published snapshot, replaced message by message. */
  class MetadataActor {
    var published: Snapshot

    constructor (ring: ShardRing, registry: TableRegistry, excludeUnhealthy: bool, minHealthyShards: nat)
      requires ring.Valid()
      ensures published == Initial(ring, registry, excludeUnhealthy, minHealthyShards)
    {
      published := Initial(ring, registry, excludeUnhealthy, minHealthyShards);
    }

    method OnReport(report: Report)
      modifies this
      ensures published == ApplyHealth(old(published), report)
      ensures HealthOf(published, report.shardId) == report.health
      ensures forall id: u32 :: id != report.shardId ==> HealthOf(published, id) == HealthOf(old(published), id)
    {
      var prev := HEALTHY_ALL;
      if report.shardId in published.health {
        prev := published.health[report.shardId];
      }
      if prev.ilpOk == report.health.ilpOk && prev.pgOk == report.health.pgOk {
        return;
      }
      var health := published.health[report.shardId := report.health];
      published := Snapshot(published.ring, published.registry, health,
                            published.excludeUnhealthy, published.minHealthyShards);
    }

    /** `run`: drain the mailbox. */
    method Run(mailbox: seq<Report>)
      modifies this
      ensures published == FoldReports(old(published), mailbox)
    {
      for i := 0 to |mailbox|
        invariant published == FoldReports(old(published), mailbox[..i])
      {
        OnReport(mailbox[i]);
        assert mailbox[..i + 1][..i] == mailbox[..i];
      }
      assert mailbox[..|mailbox|] == mailbox;
    }
  }
}
