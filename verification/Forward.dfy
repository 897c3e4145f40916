/**
 The ILP write path: newline framing of a TCP byte stream (src/protocol/ilp.rs) and the
 buffered per-shard forwarder (src/protocol/ilp_forward.rs).
 */
module Forward {
  import opened Bytes
  import opened Ring
  import opened Cluster
  import opened IlpLine

  // ---------------------------------------------------------------------------
  // The rule: route each complete line, append it to that shard's stream
  // ---------------------------------------------------------------------------

  /** The newline-terminated lines of a byte string, newline included. */
  function CompleteLines(s: Text): seq<Text>
    decreases |s|
  {
    match Find(NEWLINE, s)
    case None => []
    case Some(i) => [s[..i + 1]] + CompleteLines(s[i + 1..])
  }

  /** What follows the last newline. */
  function Remainder(s: Text): Text
    decreases |s|
  {
    match Find(NEWLINE, s)
    case None => s
    case Some(i) => Remainder(s[i + 1..])
  }

  predicate Blank(line: Text) {
    line == [] || line[0] == NEWLINE
  }

  /** Where a line goes under a snapshot, by the tag its table is sharded on. */
  function RouteLine(snap: Snapshot, defaultKey: Text, line: Text): Routed<ShardConfig> {
    snap.ShardForKey(LineKey(snap, defaultKey, line), Ilp)
  }

  /** The key of a line: the value of the tag its table is sharded on. */
  function LineKey(snap: Snapshot, defaultKey: Text, line: Text): Text {
    var table := match Measurement(line) case Some(m) => m case None => [];
    ShardKey(line, ShardKeyFor(snap.registry, table, defaultKey))
  }

  /** The bytes sent for a line: a missing final newline is supplied. */
  function Wire(line: Text): Text {
    if line != [] && line[|line| - 1] == NEWLINE then line else line + [NEWLINE]
  }

  /** The routing decisions one snapshot makes. */
  type Route = Text -> Routed<ShardConfig>

  function Router(snap: Snapshot, defaultKey: Text): Route {
    line => RouteLine(snap, defaultKey, line)
  }

  /** The snapshot is read anew for every line: the decisions in force at the n-th one. */
  type Routing = nat -> Route

  /** A line and the decisions it was routed by. */
  datatype Job = Job(line: Text, route: Route)

  /** The jobs of successive lines, the first of them being line number `from`. */
  function Jobs(lines: seq<Text>, routing: Routing, from: nat): (jobs: seq<Job>)
    ensures |jobs| == |lines|
    ensures forall i :: 0 <= i < |lines| ==> jobs[i] == Job(lines[i], routing(from + i))
  {
    seq(|lines|, i requires 0 <= i < |lines| => Job(lines[i], routing(from + i)))
  }

  lemma {:induction false} JobsAppend(a: seq<Text>, b: seq<Text>, routing: Routing, from: nat)
    ensures Jobs(a + b, routing, from) == Jobs(a, routing, from) + Jobs(b, routing, from + |a|)
  {}

  /** Bytes destined for one shard. */
  datatype Entry = Entry(shard: u32, bytes: Text)

  /** What one line sends: nothing when it is blank or cannot be routed. */
  function EntryOf(job: Job): seq<Entry> {
    var routed := job.route(job.line);
    if !Blank(job.line) && routed.Ok? then [Entry(routed.value.id, Wire(job.line))] else []
  }

  function Entries(jobs: seq<Job>): seq<Entry> {
    FlatMap(jobs, EntryOf)
  }

  function BytesFor(e: Entry, s: u32): Text {
    if e.shard == s then e.bytes else []
  }

  /** The bytes a log of entries puts on shard `s`, in order. */
  function StreamOf(log: seq<Entry>, s: u32): Text {
    FlatMap(log, (e: Entry) => BytesFor(e, s))
  }

  /** The stream of shard `s` after `jobs`, in arrival order. */
  function Forwarded(jobs: seq<Job>, s: u32): Text {
    StreamOf(Entries(jobs), s)
  }

  // ---------------------------------------------------------------------------
  // Framing
  // ---------------------------------------------------------------------------

  /** One line: a newline at the end and nowhere else. */
  predicate IsLine(line: Text) {
    line != [] && line[|line| - 1] == NEWLINE && NEWLINE !in line[..|line| - 1]
  }

  lemma {:induction false} LinesCons(line: Text, rest: Text)
    requires IsLine(line)
    ensures CompleteLines(line + rest) == [line] + CompleteLines(rest)
    ensures Remainder(line + rest) == Remainder(rest)
  {
    var i := |line| - 1;
    assert (line + rest)[..i] == line[..i];
    FindIs(NEWLINE, line + rest, i);
    assert (line + rest)[..i + 1] == line;
    assert (line + rest)[i + 1..] == rest;
  }

  /** A string with a newline is a first line and the rest. */
  lemma {:induction false} FirstLineAndRest(s: Text) returns (line: Text, rest: Text)
    requires NEWLINE in s
    ensures IsLine(line) && s == line + rest && |rest| < |s|
  {
    var i := Find(NEWLINE, s).value;
    line, rest := s[..i + 1], s[i + 1..];
    assert line[..i] == s[..i];
  }

  lemma {:induction false} NoLine(s: Text)
    requires NEWLINE !in s
    ensures CompleteLines(s) == [] && Remainder(s) == s
  {}

  /** Cutting lines early and carrying the rest over loses and invents nothing. */
  lemma {:induction false} LinesAppend(a: Text, b: Text)
    ensures CompleteLines(a + b) == CompleteLines(a) + CompleteLines(Remainder(a) + b)
    ensures Remainder(a + b) == Remainder(Remainder(a) + b)
    decreases |a|
  {
    if NEWLINE in a {
      var line, rest := FirstLineAndRest(a);
      LinesAppend(rest, b);
      Associative(line, rest, b);
      LinesCons(line, rest);
      LinesCons(line, rest + b);
      Associative([line], CompleteLines(rest), CompleteLines(Remainder(rest) + b));
    } else {
      NoLine(a);
    }
  }

  /** Framing is lossless: the lines and the unfinished tail are the input. */
  lemma {:induction false} LinesAndRemainder(s: Text)
    ensures NEWLINE !in Remainder(s)
    ensures forall i :: 0 <= i < |CompleteLines(s)| ==> IsLine(CompleteLines(s)[i])
    ensures s == Concat(CompleteLines(s)) + Remainder(s)
    decreases |s|
  {
    if NEWLINE in s {
      var line, rest := FirstLineAndRest(s);
      LinesAndRemainder(rest);
      LinesCons(line, rest);
      assert CompleteLines(s)[1..] == CompleteLines(rest);
      Associative(line, Concat(CompleteLines(rest)), Remainder(rest));
    } else {
      NoLine(s);
    }
  }

  /** Framing state: the lines cut so far and the unfinished tail. */
  datatype Framed = Framed(lines: seq<Text>, tail: Text)

  /** One read: append the chunk to the tail, cut every complete line. */
  function Feed(f: Framed, chunk: Text): Framed {
    Framed(f.lines + CompleteLines(f.tail + chunk), Remainder(f.tail + chunk))
  }

  function FeedAll(chunks: seq<Text>): Framed {
    if chunks == [] then Framed([], []) else Feed(FeedAll(chunks[..|chunks| - 1]), Last(chunks))
  }

  /** Framing depends only on the concatenated bytes, not on where reads were split. */
  lemma {:induction false} FramingIgnoresChunks(chunks: seq<Text>)
    ensures FeedAll(chunks) == Framed(CompleteLines(Concat(chunks)), Remainder(Concat(chunks)))
  {
    if chunks != [] {
      var front, last := chunks[..|chunks| - 1], Last(chunks);
      FramingIgnoresChunks(front);
      ConcatSnoc(front, last);
      assert chunks == front + [last];
      LinesAppend(Concat(front), last);
    }
  }

  /**
   Chunking independence: however two clients' writes are split into reads, equal bytes
   give every shard an equal stream.
   */
  lemma {:induction false} ChunkingIndependence(a: seq<Text>, b: seq<Text>, routing: Routing, s: u32)
    requires Concat(a) == Concat(b)
    ensures Forwarded(Jobs(FeedAll(a).lines, routing, 0), s) == Forwarded(Jobs(FeedAll(b).lines, routing, 0), s)
    ensures FeedAll(a).tail == FeedAll(b).tail
  {
    FramingIgnoresChunks(a);
    FramingIgnoresChunks(b);
  }

  /** An earlier log is an earlier part of every stream. */
  lemma {:induction false} StreamPrefix(early: seq<Entry>, all: seq<Entry>, s: u32)
    requires early <= all
    ensures StreamOf(early, s) <= StreamOf(all, s)
  {
    FlatMapAppend(early, all[|early|..], (e: Entry) => BytesFor(e, s));
    assert all == early + all[|early|..];
  }

  lemma {:induction false} StreamSnoc(log: seq<Entry>, e: Entry)
    ensures forall s: u32 :: StreamOf(log + [e], s) == StreamOf(log, s) + BytesFor(e, s)
  {
    forall s: u32
      ensures StreamOf(log + [e], s) == StreamOf(log, s) + BytesFor(e, s)
    {
      FlatMapSnoc(log + [e], |log|, (x: Entry) => BytesFor(x, s));
      assert (log + [e])[..|log| + 1] == log + [e] && (log + [e])[..|log|] == log;
    }
  }

  lemma {:induction false} EntriesSnoc(jobs: seq<Job>, job: Job)
    ensures Entries(jobs + [job]) == Entries(jobs) + EntryOf(job)
  {
    FlatMapSnoc(jobs + [job], |jobs|, EntryOf);
    assert (jobs + [job])[..|jobs| + 1] == jobs + [job] && (jobs + [job])[..|jobs|] == jobs;
  }

  lemma {:induction false} AcceptedSnoc(log: seq<Entry>, jobs: seq<Job>, job: Job, all: seq<Job>)
    requires jobs + [job] <= all
    ensures log + Entries(jobs) + EntryOf(job) == log + Entries(jobs + [job])
    ensures log + Entries(jobs + [job]) <= log + Entries(all)
    ensures log + Entries(jobs) <= log + Entries(all)
  {
    EntriesSnoc(jobs, job);
    Associative(log, Entries(jobs), EntryOf(job));
    EntriesPrefix(jobs + [job], all);
    EntriesPrefix(jobs, all);
  }

  lemma {:induction false} EntriesPrefix(early: seq<Job>, all: seq<Job>)
    requires early <= all
    ensures Entries(early) <= Entries(all)
  {
    FlatMapAppend(early, all[|early|..], EntryOf);
    assert all == early + all[|early|..];
  }

  // ---------------------------------------------------------------------------
  // What reaches a shard, byte for byte
  // ---------------------------------------------------------------------------

  /** The job's line has content and is routed to shard `s`. */
  predicate SentTo(job: Job, s: u32) {
    && job.line != [] && job.line[0] != NEWLINE
    && job.route(job.line).Ok? && job.route(job.line).value.id == s
  }

  /** The lines with content that are routed to shard `s`, as they came. */
  function LinesTo(jobs: seq<Job>, s: u32): seq<Text> {
    if jobs == [] then []
    else (if SentTo(jobs[0], s) then [jobs[0].line] else []) + LinesTo(jobs[1..], s)
  }

  lemma {:induction false} ForwardedCons(jobs: seq<Job>, s: u32)
    requires jobs != []
    ensures Forwarded(jobs, s) == StreamOf(EntryOf(jobs[0]), s) + Forwarded(jobs[1..], s)
  {
    FlatMapAppend(EntryOf(jobs[0]), Entries(jobs[1..]), (e: Entry) => BytesFor(e, s));
  }

  lemma {:induction false} OneForwarded(job: Job, s: u32)
    ensures StreamOf(EntryOf(job), s) == if SentTo(job, s) then Wire(job.line) else []
  {
    var entries := EntryOf(job);
    if entries != [] {
      assert entries[1..] == [] && StreamOf(entries[1..], s) == [];
    }
  }

  /** Complete lines are passed on unchanged: a shard's stream is the plain concatenation of its lines. */
  lemma {:induction false} ForwardedIsConcat(jobs: seq<Job>, s: u32)
    requires forall i :: 0 <= i < |jobs| ==> IsLine(jobs[i].line)
    ensures Forwarded(jobs, s) == Concat(LinesTo(jobs, s))
  {
    if jobs != [] {
      ForwardedIsConcat(jobs[1..], s);
      ForwardedCons(jobs, s);
      OneForwarded(jobs[0], s);
      if SentTo(jobs[0], s) {
        assert LinesTo(jobs, s)[1..] == LinesTo(jobs[1..], s);
      } else {
        assert LinesTo(jobs, s) == LinesTo(jobs[1..], s);
      }
    }
  }

  /** Each line with a newline of its own. */
  function Ended(lines: seq<Text>): (r: seq<Text>)
    ensures |r| == |lines| && forall i :: 0 <= i < |lines| ==> r[i] == lines[i] + [NEWLINE]
  {
    seq(|lines|, i requires 0 <= i < |lines| => lines[i] + [NEWLINE])
  }

  lemma {:induction false} EndedCons(line: Text, lines: seq<Text>)
    ensures Ended([line] + lines) == [line + [NEWLINE]] + Ended(lines)
  {}

  /** A line without newline, ended and in front of a stream, is that stream's first line. */
  lemma {:induction false} EndedInFront(line: Text, stream: Text)
    requires NEWLINE !in line
    ensures CompleteLines(line + [NEWLINE] + stream) == [line + [NEWLINE]] + CompleteLines(stream)
    ensures Remainder(line + [NEWLINE] + stream) == Remainder(stream)
  {
    assert (line + [NEWLINE])[..|line|] == line;
    LinesCons(line + [NEWLINE], stream);
  }

  lemma {:induction false} WireEnds(line: Text)
    requires NEWLINE !in line
    ensures Wire(line) == line + [NEWLINE]
  {}

  /**
   Lines that come without newlines are ended on the way: cut into lines again, a shard's stream
   is exactly its lines, each ended by one newline, and nothing is left over.
   */
  lemma {:induction false} BatchArrivesAsLines(jobs: seq<Job>, s: u32)
    requires forall i :: 0 <= i < |jobs| ==> NEWLINE !in jobs[i].line
    ensures CompleteLines(Forwarded(jobs, s)) == Ended(LinesTo(jobs, s))
    ensures Remainder(Forwarded(jobs, s)) == []
  {
    if jobs == [] {
      assert Forwarded(jobs, s) == [];
    } else {
      var line, rest := jobs[0].line, jobs[1..];
      BatchArrivesAsLines(rest, s);
      ForwardedCons(jobs, s);
      OneForwarded(jobs[0], s);
      WireEnds(line);
      EndedInFront(line, Forwarded(rest, s));
      EndedCons(line, LinesTo(rest, s));
      assert [] + Forwarded(rest, s) == Forwarded(rest, s) && [] + LinesTo(rest, s) == LinesTo(rest, s);
    }
  }

  lemma {:induction false} JobsOfLines(input: Text, routing: Routing, from: nat, s: u32)
    ensures Forwarded(JobsIn(input, routing, from), s) == Concat(LinesTo(JobsIn(input, routing, from), s))
  {
    LinesAndRemainder(input);
    ForwardedIsConcat(JobsIn(input, routing, from), s);
  }

  /** A line of a table with its own shard key is routed by the tag of that name. */
  lemma {:induction false} OverriddenTable(snap: Snapshot, defaultKey: Text, line: Text, table: Text, key: Text)
    requires Measurement(line) == Some(table)
    requires Lower(table) in snap.registry && snap.registry[Lower(table)].shardKey == Some(key)
    ensures RouteLine(snap, defaultKey, line) == snap.ShardForKey(ShardKey(line, key), Ilp)
  {}

  /** A line of any other table, or without a readable table name and no such entry, by the default tag. */
  lemma {:induction false} DefaultTable(snap: Snapshot, defaultKey: Text, line: Text)
    requires var table := match Measurement(line) case Some(m) => m case None => [];
             Lower(table) in snap.registry ==> snap.registry[Lower(table)].shardKey.None?
    ensures RouteLine(snap, defaultKey, line) == snap.ShardForKey(ShardKey(line, defaultKey), Ilp)
  {}

  // ---------------------------------------------------------------------------
  // The forwarder
  // ---------------------------------------------------------------------------

  const SHARD_BUF_FLUSH_BYTES := 256 * 1024

  /** A buffer is written out as soon as it holds 256 KiB. */
  function Unsent(buf: Text): Text {
    if |buf| >= 262144 then [] else buf
  }

  /** One shard connection: the bytes its TCP stream took, and the write buffer. */
  datatype Upstream = Upstream(written: Text, buf: Text)

  datatype Outcome = Done | RoutingFailed(error: RoutingError) | IoFailed

  /**
   Connects and writes may fail at any time, and a failing write may have sent any part
   of its chunk; every contract below holds for all such behaviours. The ghost log
   records what was accepted for which shard.
   */
  class IlpForwarder {
    var upstreams: map<u32, Upstream>
    ghost var log: seq<Entry>

    constructor ()
      ensures Synced() && Bounded() && log == []
      ensures forall s: u32 :: Written(s) == []
    {
      upstreams := map[];
      log := [];
    }

    /** What shard `s` has received. */
    ghost function Written(s: u32): Text
      reads this
    {
      if s in upstreams then upstreams[s].written else []
    }

    /** What shard `s` has received or will receive at the next flush. */
    ghost function Stream(s: u32): Text
      reads this
    {
      if s in upstreams then upstreams[s].written + upstreams[s].buf else []
    }

    /** What waits in the buffer of shard `s`. */
    ghost function Waiting(s: u32): Text
      reads this
    {
      if s in upstreams then upstreams[s].buf else []
    }

    /** Nothing accepted is lost: it is written, or waits in the buffer. */
    ghost predicate Synced()
      reads this
    {
      forall s: u32 :: Stream(s) == StreamOf(log, s)
    }

    /** What a shard has received is an initial part of what was accepted for it. */
    ghost predicate Safe()
      reads this
    {
      forall s: u32 :: Written(s) <= StreamOf(log, s)
    }

    /** No buffer is past the flush threshold. */
    ghost predicate Bounded()
      reads this
    {
      forall s :: s in upstreams ==> |upstreams[s].buf| < SHARD_BUF_FLUSH_BYTES
    }

    /** `write_all` of a whole buffer: all of it, or failure after some part of it. */
    method WriteOut(s: u32) returns (ok: bool)
      requires s in upstreams && Synced()
      modifies this`upstreams
      ensures upstreams.Keys == old(upstreams.Keys)
      ensures forall t :: t in upstreams && t != s ==> upstreams[t] == old(upstreams[t])
      ensures upstreams[s].buf == []
      ensures ok ==> Synced()
      ensures Safe()
      ensures forall s: u32 :: old(Written(s)) <= Written(s)
    {
      var u := upstreams[s];
      ok := *;
      var sent: nat :| sent <= |u.buf|;
      assert forall t: u32 :: Stream(t) == StreamOf(log, t);
      upstreams := upstreams[s := Upstream(u.written + (if ok then u.buf else u.buf[..sent]), [])];
    }

    /** The buffering half of `route_and_buffer`: connect if needed, append, flush past the threshold. */
    method Buffer(id: u32, bytes: Text) returns (r: Outcome)
      requires Synced() && Bounded()
      modifies this
      ensures r.Done? ==> Synced() && log == old(log) + [Entry(id, bytes)]
      ensures r.Done? ==> Waiting(id) == Unsent(old(Waiting(id)) + bytes)
      ensures r.Done? || r.IoFailed?
      ensures Safe() && Bounded() && old(log) <= log <= old(log) + [Entry(id, bytes)]
      ensures forall s: u32 :: old(Written(s)) <= Written(s)
    {
      if id !in upstreams {
        var connected: bool := *;
        if !connected {
          return IoFailed;
        }
        upstreams := upstreams[id := Upstream([], [])];
      }
      StreamSnoc(log, Entry(id, bytes));
      var u := upstreams[id];
      Associative(u.written, u.buf, bytes);
      upstreams := upstreams[id := u.(buf := u.buf + bytes)];
      log := log + [Entry(id, bytes)];
      if |upstreams[id].buf| >= SHARD_BUF_FLUSH_BYTES {
        var ok := WriteOut(id);
        if !ok {
          return IoFailed;
        }
      }
      r := Done;
    }

    /** `route_and_buffer` */
    method RouteAndBuffer(route: Route, line: Text) returns (r: Outcome)
      requires Synced() && Bounded()
      modifies this
      ensures r.RoutingFailed? <==> !Blank(line) && route(line).Err?
      ensures r.RoutingFailed? ==> upstreams == old(upstreams)
      ensures r.Done? ==> Synced() && log == old(log) + EntryOf(Job(line, route))
      ensures Safe() && Bounded() && old(log) <= log <= old(log) + EntryOf(Job(line, route))
      ensures forall s: u32 :: old(Written(s)) <= Written(s)
    {
      if Blank(line) {
        return Done;
      }
      var routed := route(line);
      if routed.Err? {
        return RoutingFailed(routed.error);
      }
      r := Buffer(routed.value.id, Wire(line));
    }

    /** `flush`: write out every non-empty buffer and flush its stream, which may fail too. */
    method Flush() returns (r: Outcome)
      requires Synced() && Bounded()
      modifies this`upstreams
      ensures r.Done? || r.IoFailed?
      ensures r.Done? ==> Synced() && forall s: u32 :: Written(s) == StreamOf(log, s)
      ensures Safe() && Bounded()
      ensures forall s: u32 :: old(Written(s)) <= Written(s)
    {
      var todo := upstreams.Keys;
      while todo != {}
        invariant Synced() && Bounded() && todo <= upstreams.Keys
        invariant forall s :: s in upstreams.Keys - todo ==> upstreams[s].buf == []
        invariant forall s: u32 :: old(Written(s)) <= Written(s)
      {
        var s :| s in todo;
        if upstreams[s].buf != [] {
          var ok := WriteOut(s);
          if !ok {
            return IoFailed;
          }
        }
        var flushed: bool := *;
        if !flushed {
          return IoFailed;
        }
        todo := todo - {s};
      }
      r := Done;
    }

    /** Route lines one after another, each by the snapshot of its moment, until one fails. */
    method ForwardLines(routing: Routing, lines: seq<Text>) returns (r: Outcome)
      requires Synced() && Bounded()
      modifies this
      ensures r.Done? ==> Synced() && log == old(log) + Entries(Jobs(lines, routing, 0))
      ensures r.Done? ==> !Unroutable(Jobs(lines, routing, 0))
      ensures Safe() && Bounded() && log <= old(log) + Entries(Jobs(lines, routing, 0))
      ensures forall s: u32 :: old(Written(s)) <= Written(s)
    {
      r := Done;
      ghost var all := Jobs(lines, routing, 0);
      for i := 0 to |lines|
        invariant r.Done? && Synced() && Bounded() && Safe()
        invariant log == old(log) + Entries(all[..i])
        invariant !Unroutable(all[..i])
        invariant forall s: u32 :: old(Written(s)) <= Written(s)
      {
        r := RouteAndBuffer(routing(i), lines[i]);
        assert all[..i + 1] == all[..i] + [all[i]];
        AcceptedSnoc(old(log), all[..i], all[i], all);
        if !r.Done? {
          return;
        }
      }
      assert all[..|lines|] == all;
    }

    /** `forward_batch`: route every line, then flush. */
    method ForwardBatch(routing: Routing, lines: seq<Text>) returns (r: Outcome)
      requires Synced() && Bounded()
      modifies this
      ensures r.Done? ==> Synced() && log == old(log) + Entries(Jobs(lines, routing, 0))
      ensures r.Done? ==> !Unroutable(Jobs(lines, routing, 0))
      ensures r.Done? ==> forall s: u32 :: Written(s) == StreamOf(log, s)
      ensures r.Done? ==> forall s: u32 :: Written(s) == old(Stream(s)) + Forwarded(Jobs(lines, routing, 0), s)
      ensures Safe() && Bounded() && log <= old(log) + Entries(Jobs(lines, routing, 0))
      ensures forall s: u32 :: old(Written(s)) <= Written(s)
    {
      r := ForwardLines(routing, lines);
      if r.Done? {
        r := Flush();
      }
      forall s: u32
        ensures StreamOf(old(log) + Entries(Jobs(lines, routing, 0)), s) ==
                old(Stream(s)) + Forwarded(Jobs(lines, routing, 0), s)
      {
        FlatMapAppend(old(log), Entries(Jobs(lines, routing, 0)), (e: Entry) => BytesFor(e, s));
      }
    }

    /**
     After a failure some accepted bytes may be gone. A caller that keeps the forwarder
     restarts its log from what is written or still buffered.
     */
    ghost method Rebase()
      modifies this`log
      ensures Synced()
    {
      log := [];
      var todo := upstreams.Keys;
      while todo != {}
        invariant todo <= upstreams.Keys
        invariant forall s: u32 :: StreamOf(log, s) == if s in todo then [] else Stream(s)
      {
        var s :| s in todo;
        StreamSnoc(log, Entry(s, Stream(s)));
        log := log + [Entry(s, Stream(s))];
        todo := todo - {s};
      }
    }
  }

  /** Some line of content cannot be routed. */
  ghost predicate Unroutable(jobs: seq<Job>) {
    exists i :: 0 <= i < |jobs| && !Blank(jobs[i].line) && jobs[i].route(jobs[i].line).Err?
  }

  /** The jobs of the lines in one piece of input, the first being line number `from`. */
  function JobsIn(input: Text, routing: Routing, from: nat): seq<Job> {
    Jobs(CompleteLines(input), routing, from)
  }

  /** Cutting a line off the input takes the first job off its jobs. */
  lemma {:induction false} JobsCons(line: Text, rest: Text, tail: Text, routing: Routing, n: nat)
    requires CompleteLines(rest) == [line] + CompleteLines(tail)
    ensures JobsIn(rest, routing, n) == [Job(line, routing(n))] + JobsIn(tail, routing, n + 1)
  {
    JobsAppend([line], CompleteLines(tail), routing, n);
    assert Jobs([line], routing, n) == [Job(line, routing(n))];
  }

  lemma {:induction false} NoneLeft(rest: Text, tail: Text, routing: Routing, n: nat, done: seq<Job>, all: seq<Job>)
    requires Cuts(rest, None, tail) && done + JobsIn(rest, routing, n) == all
    ensures done == all && rest == Remainder(rest)
  {
    assert JobsIn(rest, routing, n) == [];
  }

  lemma {:induction false} TakeOne(done: seq<Job>, job: Job, todo: seq<Job>, all: seq<Job>)
    requires done + ([job] + todo) == all
    ensures (done + [job]) + todo == all && done + [job] <= all && done <= all
  {
    Associative(done, [job], todo);
  }

  /** The first line of `buf` is `line`, with `rest` behind it; or there is none. */
  ghost predicate Cuts(buf: Text, line: Option<Text>, rest: Text) {
    match line
    case None => CompleteLines(buf) == [] && Remainder(buf) == buf
    case Some(l) =>
      && CompleteLines(buf) == [l] + CompleteLines(rest)
      && Remainder(buf) == Remainder(rest) && |rest| < |buf|
  }

  /** `memchr` and `split_to`: the first line of a buffer, newline included, and the rest. */
  method SplitLine(buf: Text) returns (line: Option<Text>, rest: Text)
    ensures Cuts(buf, line, rest)
  {
    line, rest := None, buf;
    var newline := Find(NEWLINE, buf);
    if newline.Some? {
      line, rest := Some(buf[..newline.value + 1]), buf[newline.value + 1..];
    }
  }

  /** One job of a longer list: what the log becomes, and that it stays within what the list brings. */
  method ForwardOne(
      f: IlpForwarder, route: Route, line: Text, ghost start: seq<Entry>, ghost done: seq<Job>, ghost all: seq<Job>)
    returns (r: Outcome)
    requires f.Synced() && f.Bounded() && f.log == start + Entries(done) && done + [Job(line, route)] <= all
    modifies f
    ensures r.Done? ==> f.Synced() && f.log == start + Entries(done + [Job(line, route)])
    ensures r.RoutingFailed? ==> Unroutable(all)
    ensures f.Safe() && f.Bounded() && f.log <= start + Entries(all)
  {
    AcceptedSnoc(start, done, Job(line, route), all);
    r := f.RouteAndBuffer(route, line);
    assert all[|done|] == Job(line, route);
  }

  /** The jobs done are logged, and those of the remaining input complete the list. */
  ghost predicate Progress(
      log: seq<Entry>, start: seq<Entry>, done: seq<Job>, rest: Text, routing: Routing, n: nat, all: seq<Job>)
  {
    log == start + Entries(done) && done + JobsIn(rest, routing, n) == all
  }

  lemma {:induction false} NothingYet(log: seq<Entry>, input: Text, routing: Routing, n: nat)
    ensures Progress(log, log, [], input, routing, n, JobsIn(input, routing, n))
  {
    var all := JobsIn(input, routing, n);
    assert Entries([]) == [] && log + [] == log && [] + all == all;
  }

  /** One turn of the inner loop of `handle_connection`: split off a line, if there is one, and forward it. */
  method DrainOne(
      f: IlpForwarder, routing: Routing, n: nat, input: Text, ghost start: seq<Entry>, ghost done: seq<Job>,
      ghost all: seq<Job>)
    returns (r: Outcome, more: bool, rest: Text, ghost now: seq<Job>)
    requires f.Synced() && f.Bounded() && f.Safe() && Progress(f.log, start, done, input, routing, n, all)
    modifies f
    ensures f.Safe() && f.Bounded() && f.log <= start + Entries(all)
    ensures r.RoutingFailed? ==> Unroutable(all)
    ensures r.Done? ==> f.Synced() && Remainder(rest) == Remainder(input)
    ensures r.Done? && more ==> |rest| < |input| && |now| == |done| + 1
    ensures r.Done? && more ==> Progress(f.log, start, now, rest, routing, n + 1, all)
    ensures !more ==> r.Done? && rest == input == Remainder(input) && now == done == all
    ensures !more ==> f.log == old(f.log) == start + Entries(all)
  {
    var line, tail := SplitLine(input);
    if line.None? {
      NoneLeft(input, tail, routing, n, done, all);
      return Done, false, input, all;
    }
    JobsCons(line.value, input, tail, routing, n);
    now := done + [Job(line.value, routing(n))];
    TakeOne(done, Job(line.value, routing(n)), JobsIn(tail, routing, n + 1), all);
    r := ForwardOne(f, routing(n), line.value, start, done, all);
    more, rest := true, tail;
  }

  /** The inner loop of `handle_connection`: split off and forward lines while there is a newline. */
  method DrainLines(
      f: IlpForwarder, routing: Routing, from: nat, input: Text)
    returns (r: Outcome, rest: Text, next: nat)
    requires f.Synced() && f.Bounded()
    modifies f
    ensures r.Done? ==> f.Synced() && rest == Remainder(input) && next == from + |CompleteLines(input)|
    ensures r.Done? ==> f.log == old(f.log) + Entries(JobsIn(input, routing, from))
    ensures r.RoutingFailed? ==> Unroutable(JobsIn(input, routing, from))
    ensures f.Safe() && f.Bounded() && f.log <= old(f.log) + Entries(JobsIn(input, routing, from))
  {
    r, rest, next := Done, input, from;
    var more := true;
    ghost var start, all := f.log, JobsIn(input, routing, from);
    ghost var done: seq<Job> := [];
    NothingYet(start, input, routing, from);
    while more
      invariant r.Done? && f.Synced() && f.Bounded() && f.Safe() && Remainder(rest) == Remainder(input)
      invariant more ==> next == from + |done| && Progress(f.log, start, done, rest, routing, next, all)
      invariant !more ==> next == from + |all| && rest == Remainder(input) && f.log == start + Entries(all)
      decreases more, |rest|
    {
      r, more, rest, done := DrainOne(f, routing, next, rest, start, done, all);
      if !r.Done? {
        return;
      }
      if more {
        next := next + 1;
      }
    }
  }

  /** One turn of the read loop: drain the complete lines, then flush. */
  method OnChunk(f: IlpForwarder, routing: Routing, from: nat, input: Text) returns (r: Outcome, rest: Text, next: nat)
    requires f.Synced() && f.Bounded()
    modifies f
    ensures r.Done? ==> f.Synced() && rest == Remainder(input) && next == from + |CompleteLines(input)|
    ensures r.Done? ==> f.log == old(f.log) + Entries(JobsIn(input, routing, from))
    ensures r.RoutingFailed? ==> Unroutable(JobsIn(input, routing, from))
    ensures f.Safe() && f.Bounded() && f.log <= old(f.log) + Entries(JobsIn(input, routing, from))
  {
    r, rest, next := DrainLines(f, routing, from, input);
    if r.Done? {
      r := f.Flush();
    }
  }

  /**
   `handle_connection`: read, forward complete lines, flush; at end of input flush once
   more. `chunks` are the non-empty reads before end of input, and a read may fail; the
   snapshot may change before any line. Whatever happens, each shard has received an initial
   part of the lines routed to it; on a normal end it has received exactly those, in arrival
   order.
   */
  method HandleConnection(chunks: seq<Text>, routing: Routing) returns (f: IlpForwarder, r: Outcome)
    ensures fresh(f)
    ensures r.Done? ==> forall s: u32 :: f.Written(s) == Concat(LinesTo(JobsIn(Concat(chunks), routing, 0), s))
    ensures forall s: u32 :: f.Written(s) <= Concat(LinesTo(JobsIn(Concat(chunks), routing, 0), s))
    ensures r.RoutingFailed? ==> Unroutable(JobsIn(Concat(chunks), routing, 0))
  {
    f := new IlpForwarder();
    var buf: Text, n: nat := [], 0;
    ghost var all := JobsIn(Concat(chunks), routing, 0);
    forall s: u32
      ensures StreamOf(Entries(all), s) == Concat(LinesTo(all, s))
    {
      JobsOfLines(Concat(chunks), routing, 0, s);
    }
    for i := 0 to |chunks|
      invariant fresh(f) && f.Synced() && f.Bounded() && f.Safe()
      invariant f.log == Entries(JobsIn(Concat(chunks[..i]), routing, 0))
      invariant buf == Remainder(Concat(chunks[..i])) && n == |CompleteLines(Concat(chunks[..i]))|
    {
      LinesSoFar(chunks, i, routing);
      var readOk: bool := *;
      if !readOk {
        r := IoFailed;
      } else {
        r, buf, n := OnChunk(f, routing, n, buf + chunks[i]);
      }
      if !r.Done? {
        SafeWithin(f, Entries(all));
        return;
      }
    }
    assert chunks[..|chunks|] == chunks;
    r := f.Flush();
  }

  lemma {:induction false} LinesSoFar(chunks: seq<Text>, i: nat, routing: Routing)
    requires i < |chunks|
    ensures var before := Concat(chunks[..i]);
            var input := Remainder(before) + chunks[i];
            var jobs := JobsIn(input, routing, |CompleteLines(before)|);
            && |CompleteLines(Concat(chunks[..i + 1]))| == |CompleteLines(before)| + |CompleteLines(input)|
            && Entries(JobsIn(Concat(chunks[..i + 1]), routing, 0)) ==
              Entries(JobsIn(before, routing, 0)) + Entries(jobs)
            && Remainder(Concat(chunks[..i + 1])) == Remainder(input)
            && Entries(JobsIn(before, routing, 0)) + Entries(jobs) <= Entries(JobsIn(Concat(chunks), routing, 0))
            && (Unroutable(jobs) ==> Unroutable(JobsIn(Concat(chunks), routing, 0)))
  {
    var before, chunk := Concat(chunks[..i]), chunks[i];
    var input, after := Remainder(before) + chunk, Concat(chunks[i + 1..]);
    ConcatSplit(chunks, i);
    JobsSplit(before, chunk, routing);
    JobsSplit(before + chunk, after, routing);
    var jobs := JobsIn(input, routing, |CompleteLines(before)|);
    FlatMapAppend(JobsIn(before, routing, 0), jobs, EntryOf);
    EntriesPrefix(JobsIn(before + chunk, routing, 0), JobsIn(Concat(chunks), routing, 0));
    UnroutableWithin(JobsIn(before, routing, 0), jobs,
      JobsIn(Remainder(before + chunk) + after, routing, |CompleteLines(before + chunk)|));
  }

  /** The jobs of two pieces of input: the second continues with the tail and the count of the first. */
  lemma {:induction false} JobsSplit(a: Text, b: Text, routing: Routing)
    ensures CompleteLines(a + b) == CompleteLines(a) + CompleteLines(Remainder(a) + b)
    ensures Remainder(a + b) == Remainder(Remainder(a) + b)
    ensures JobsIn(a + b, routing, 0) ==
            JobsIn(a, routing, 0) + JobsIn(Remainder(a) + b, routing, |CompleteLines(a)|)
  {
    LinesAppend(a, b);
    JobsAppend(CompleteLines(a), CompleteLines(Remainder(a) + b), routing, 0);
  }

  lemma {:induction false} ConcatSplit(chunks: seq<Text>, i: nat)
    requires i < |chunks|
    ensures Concat(chunks[..i + 1]) == Concat(chunks[..i]) + chunks[i]
    ensures Concat(chunks) == (Concat(chunks[..i]) + chunks[i]) + Concat(chunks[i + 1..])
  {
    assert chunks[..i + 1] == chunks[..i] + [chunks[i]];
    ConcatSnoc(chunks[..i], chunks[i]);
    assert chunks == chunks[..i + 1] + chunks[i + 1..];
    FlatMapAppend(chunks[..i + 1], chunks[i + 1..], (part: Text) => part);
  }

  lemma {:induction false} UnroutableWithin(before: seq<Job>, jobs: seq<Job>, after: seq<Job>)
    ensures Unroutable(jobs) ==> Unroutable(before + jobs + after)
  {
    if i :| 0 <= i < |jobs| && !Blank(jobs[i].line) && jobs[i].route(jobs[i].line).Err? {
      assert (before + jobs + after)[|before| + i] == jobs[i];
    }
  }

  lemma {:induction false} SafeWithin(f: IlpForwarder, all: seq<Entry>)
    requires f.Safe() && f.log <= all
    ensures forall s: u32 :: f.Written(s) <= StreamOf(all, s)
  {
    forall s: u32
      ensures f.Written(s) <= StreamOf(all, s)
    {
      StreamPrefix(f.log, all, s);
    }
  }

  /** A snapshot routes every key or none: while it is in force, a routing failure leaves every shard untouched. */
  lemma {:induction false} UnroutableSendsNothing(
      snap: Snapshot, defaultKey: Text, bad: Text, lines: seq<Text>, from: nat, s: u32)
    requires snap.Valid()
    requires Router(snap, defaultKey)(bad).Err?
    ensures Forwarded(Jobs(lines, _ => Router(snap, defaultKey), from), s) == []
  {
    var route := Router(snap, defaultKey);
    var key := (line: Text) => LineKey(snap, defaultKey, line);
    RoutedAmongHealthy(snap, key(bad), Ilp);
    forall line: Text
      ensures route(line).Err?
    {
      RoutedAmongHealthy(snap, key(line), Ilp);
    }
    NoEntries(Jobs(lines, _ => route, from));
  }

  lemma {:induction false} NoEntries(jobs: seq<Job>)
    requires forall i :: 0 <= i < |jobs| ==> jobs[i].route(jobs[i].line).Err?
    ensures Entries(jobs) == []
  {
    if jobs != [] {
      NoEntries(jobs[1..]);
    }
  }
}
