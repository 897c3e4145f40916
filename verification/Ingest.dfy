/**
 Object ingest: the checkpoint file (src/ingest/checkpoint.rs) and the actor that forwards
 each object's lines and then checkpoints it (src/ingest/actor.rs). The actor is a class;
 its steps, crashes and restarts form a state machine whose runs carry the safety results.
 */
module Ingest {
  import opened Bytes
  import opened Ring
  import opened Forward

  // ---------------------------------------------------------------------------
  // Objects and checkpoint entries
  // ---------------------------------------------------------------------------

  const NUL: byte := 0

  datatype Object = Object(bucket: Text, key: Text, etag: Option<Text>)

  datatype Meta = Meta(etag: Option<Text>, rows: nat)

  type Entries = map<Text, Meta>

  /** `ObjectKey::encode` */
  function Encode(bucket: Text, key: Text): Text {
    bucket + [NUL] + key
  }

  /** One object's encoding runs into the other's: the longer bucket holds a NUL. */
  ghost predicate Overlap(short: Object, long: Object) {
    exists mid: Text ::
      && long.bucket == Encode(short.bucket, mid)
      && short.key == Encode(mid, long.key)
  }

  predicate SameObject(a: Object, b: Object) {
    a.bucket == b.bucket && a.key == b.key
  }

  lemma {:induction false} OverlapCollides(a: Object, b: Object)
    requires Overlap(a, b)
    ensures Encode(a.bucket, a.key) == Encode(b.bucket, b.key)
  {
    var mid: Text :| b.bucket == Encode(a.bucket, mid) && a.key == Encode(mid, b.key);
    assert a.bucket + [NUL] + (mid + [NUL] + b.key) == (a.bucket + [NUL] + mid) + [NUL] + b.key;
  }

  lemma {:induction false} CollisionOverlaps(a: Object, b: Object)
    requires Encode(a.bucket, a.key) == Encode(b.bucket, b.key)
    requires |a.bucket| <= |b.bucket|
    ensures SameObject(a, b) || Overlap(a, b)
  {
    var n, m := |a.bucket|, |b.bucket|;
    var code := Encode(a.bucket, a.key);
    assert code[..n] == a.bucket && code[n] == NUL && code[n + 1..] == a.key;
    assert code[..m] == b.bucket && code[m] == NUL && code[m + 1..] == b.key;
    if n < m {
      var mid := code[n + 1..m];
      assert b.bucket == Encode(a.bucket, mid);
      assert a.key == Encode(mid, b.key);
    }
  }

  /** Two objects share a checkpoint entry exactly when they are one object or overlap. */
  lemma {:induction false} EncodeCollidesIff(a: Object, b: Object)
    ensures Encode(a.bucket, a.key) == Encode(b.bucket, b.key)
            <==> SameObject(a, b) || Overlap(a, b) || Overlap(b, a)
  {
    if Encode(a.bucket, a.key) == Encode(b.bucket, b.key) {
      if |a.bucket| <= |b.bucket| {
        CollisionOverlaps(a, b);
      } else {
        CollisionOverlaps(b, a);
      }
    }
    if Overlap(a, b) {
      OverlapCollides(a, b);
    }
    if Overlap(b, a) {
      OverlapCollides(b, a);
    }
  }

  predicate CleanBucket(o: Object) {
    NUL !in o.bucket
  }

  /** Without NULs in bucket names the encoding is injective. */
  lemma {:induction false} EncodeInjective(a: Object, b: Object)
    requires CleanBucket(a) && CleanBucket(b)
    ensures Encode(a.bucket, a.key) == Encode(b.bucket, b.key) <==> SameObject(a, b)
  {
    EncodeCollidesIff(a, b);
    forall mid: Text
      ensures NUL in Encode(a.bucket, mid) && NUL in Encode(b.bucket, mid)
    {
      assert Encode(a.bucket, mid)[|a.bucket|] == NUL;
      assert Encode(b.bucket, mid)[|b.bucket|] == NUL;
    }
  }

  /** `should_process` */
  predicate ShouldProcess(entries: Entries, o: Object) {
    var code := Encode(o.bucket, o.key);
    code !in entries || entries[code].etag.None? || o.etag.None? || entries[code].etag != o.etag
  }

  // ---------------------------------------------------------------------------
  // The file
  // ---------------------------------------------------------------------------

  datatype Path = Path(stem: Text, extension: Option<Text>)

  const TMP: Text := [116, 109, 112]

  /** `path.with_extension("tmp")` */
  function TmpPath(path: Path): Path {
    Path(path.stem, Some(TMP))
  }

  type Disk = map<Path, Text>

  /** JSON as far as it matters here; `blank` is `trim().is_empty()`. */
  datatype Codec = Codec(render: Entries -> Text, parse: Text -> Option<Entries>, blank: Text -> bool)
  {
    ghost predicate Faithful() {
      && blank([])
      && forall e: Entries :: !blank(render(e)) && parse(render(e)) == Some(e)
    }
  }

  /** `CheckpointStore::load`: a missing or blank file is an empty checkpoint. */
  function Load(codec: Codec, disk: Disk, path: Path): Option<Entries> {
    if path !in disk || codec.blank(disk[path]) then Some(map[]) else codec.parse(disk[path])
  }

  /** The temporary file holds `part`, whole or torn. */
  function Written(disk: Disk, path: Path, part: Text): Disk {
    disk[TmpPath(path) := part]
  }

  /** The atomic rename that ends `persist`. */
  function Rename(disk: Disk, from: Path, to: Path): Disk
    requires from in disk
  {
    (disk - {from})[to := disk[from]]
  }

  /** Every file system a crash anywhere in `persist` can leave behind, its end included. */
  ghost predicate PersistMayLeave(codec: Codec, disk: Disk, path: Path, entries: Entries, left: Disk) {
    var tmp, data := TmpPath(path), codec.render(entries);
    || left == disk
    || (exists part: Text :: left == Written(disk, path, part))
    || left == Rename(Written(disk, path, data), tmp, path)
  }

  /** A prefix of a JSON object that is neither blank nor an object: the text before its closing brace, say. */
  ghost predicate Torn(codec: Codec, entries: Entries, k: nat) {
    var data := codec.render(entries);
    k < |data| && !codec.blank(data[..k]) && codec.parse(data[..k]).None?
  }

  /**
   `persist` is atomic exactly when the checkpoint file is not itself named `.tmp`: a
   reload after a crash anywhere in it, the first save included, yields the whole earlier or
   the whole current map. A file named `.tmp` is overwritten in place, so a crash in the
   middle leaves a prefix that does not load.
   */
  lemma {:induction false} PersistIsAtomicIff(codec: Codec, disk: Disk, path: Path, entries: Entries, before: Entries)
    requires codec.Faithful() && exists k: nat :: Torn(codec, entries, k)
    requires Load(codec, disk, path) == Some(before)
    ensures (forall left :: PersistMayLeave(codec, disk, path, entries, left) ==>
               Load(codec, left, path) in [Some(before), Some(entries)])
            <==> path.extension != Some(TMP)
  {
    var tmp := TmpPath(path);
    if path.extension == Some(TMP) {
      assert tmp == path;
      var k: nat :| Torn(codec, entries, k);
      var left := Written(disk, path, codec.render(entries)[..k]);
      assert PersistMayLeave(codec, disk, path, entries, left);
      assert Load(codec, left, path) == None;
    } else {
      assert tmp != path;
    }
  }

  /** `CheckpointStore::load`: an unreadable file is an error, and there is no store. */
  method OpenStore(codec: Codec, disk: Disk, path: Path) returns (store: CheckpointStore?)
    ensures store == null <==> path in disk && !codec.blank(disk[path]) && codec.parse(disk[path]).None?
    ensures store != null ==> fresh(store) && store.codec == codec && store.path == path && store.disk == disk
    ensures store != null ==>
              Some(store.entries) ==
              (if path in disk && !codec.blank(disk[path]) then codec.parse(disk[path]) else Some(map[]))
  {
    store := null;
    var loaded := Load(codec, disk, path);
    if loaded.Some? {
      store := new CheckpointStore(codec, disk, path, loaded.value);
    }
  }

  class CheckpointStore {
    const codec: Codec
    const path: Path
    var entries: Entries
    /** The files around the store; they outlive it. */
    var disk: Disk

    constructor (codec: Codec, disk: Disk, path: Path, entries: Entries)
      ensures this.codec == codec && this.path == path && this.disk == disk && this.entries == entries
    {
      this.codec, this.path, this.disk, this.entries := codec, path, disk, entries;
    }

    /** `persist`: write the temporary file, then rename it. Either may fail. */
    method Persist() returns (ok: bool)
      modifies this`disk
      ensures ok ==> disk == Rename(Written(old(disk), path, codec.render(entries)), TmpPath(path), path)
      ensures !ok ==> disk == old(disk) || exists part: Text :: disk == Written(old(disk), path, part)
    {
      ok := *;
      if !ok {
        return;
      }
      var tmp, data := TmpPath(path), codec.render(entries);
      ok := *;
      if !ok {
        var part: Text := *;
        disk := Written(disk, path, part);
        return;
      }
      disk := Written(disk, path, data);
      ok := *;
      if ok {
        disk := Rename(disk, tmp, path);
      }
    }

    /** `mark_processed`: the entry is in memory even when it could not be saved. */
    method MarkProcessed(o: Object, rows: nat) returns (ok: bool)
      modifies this
      ensures entries == old(entries)[Encode(o.bucket, o.key) := Meta(o.etag, rows)]
      ensures ok ==> disk == Rename(Written(old(disk), path, codec.render(entries)), TmpPath(path), path)
      ensures !ok ==> disk == old(disk) || exists part: Text :: disk == Written(old(disk), path, part)
    {
      entries := entries[Encode(o.bucket, o.key) := Meta(o.etag, rows)];
      ok := Persist();
    }
  }

  // ---------------------------------------------------------------------------
  // The machine: receive, try, deliver, mark, save; crash and restart anywhere
  // ---------------------------------------------------------------------------

  /**
   One attempt that forwarded and flushed a whole batch for the object `target` of a message:
   the object it was fetched from, and its lines, each with the routing of its moment.
   */
  datatype Delivery = Delivery(target: Object, source: Object, jobs: seq<Job>)

  datatype Phase =
    | Down
    | Idle
    | Trying(target: Object, attempt: nat)
    | Delivered(delivery: Delivery)
    | Saving
    | Renaming

  /** What each shard has taken from this process and its earlier incarnations. */
  type Received = imap<u32, Text>

  function At(received: Received, s: u32): Text {
    if s in received then received[s] else []
  }

  /**
   `log` holds every delivery ever made. `marks` are those the current checkpoint accounts
   for; the first `saved` of them are on disk. Neither is read by the program.
   */
  datatype State = State(
    phase: Phase,
    entries: Entries,
    disk: Disk,
    received: Received,
    log: seq<Delivery>,
    marks: seq<Delivery>,
    saved: nat)

  /**
   `bucket` is the one bucket objects are fetched from; `content` is what the object stored
   there under a key and etag decodes to; `wanted` is `should_ingest_key` and `matches_prefix`
   together.
   */
  datatype Config = Config(
    path: Path,
    codec: Codec,
    bucket: Text,
    content: Object -> Option<seq<Text>>,
    wanted: Text -> bool)

  const MAX_ATTEMPTS := 3

  datatype Action =
    | Receive(target: Object)
    | AttemptFails
    | AttemptSucceeds(etag: Option<Text>, jobs: seq<Job>)
    | Mark
    | WritePart(bytes: Text)
    | WriteAll
    | Commit
    | PersistFails
    | Crash
    | Restart

  /** Shards only ever receive more. */
  ghost predicate Grows(before: Received, after: Received) {
    forall s: u32 :: At(before, s) <= At(after, s)
  }

  /** `part` was sent in one piece. */
  ghost predicate Contains(text: Text, part: Text) {
    exists front: Text :: front + part <= text
  }

  /** Every shard has been sent its part of the batch, contiguous and in order. */
  ghost predicate Holds(received: Received, jobs: seq<Job>) {
    forall s: u32 :: Contains(At(received, s), Forwarded(jobs, s))
  }

  /** A batch with something in it, every line of which had a shard to go to and got there. */
  ghost predicate Arrived(received: Received, jobs: seq<Job>) {
    jobs != [] && !Unroutable(jobs) && Holds(received, jobs)
  }

  /** The jobs are those of the lines, one for one. */
  ghost predicate Carries(jobs: seq<Job>, lines: Option<seq<Text>>) {
    lines.Some? && |jobs| == |lines.value| && forall i :: 0 <= i < |jobs| ==> jobs[i].line == lines.value[i]
  }

  /** `get_object`: the message's key in the configured bucket, whatever bucket and etag the message names. */
  function FetchedFrom(cfg: Config, target: Object, etag: Option<Text>): Object {
    Object(cfg.bucket, target.key, etag)
  }

  /** A delivery sent what its key holds in the configured bucket, whole. */
  ghost predicate Fetched(cfg: Config, d: Delivery) {
    && d.source == FetchedFrom(cfg, d.target, d.source.etag)
    && Carries(d.jobs, cfg.content(d.source))
  }

  function MarkEntry(entries: Entries, d: Delivery): Entries {
    entries[Encode(d.target.bucket, d.target.key) := Meta(d.target.etag, |d.jobs|)]
  }

  ghost predicate Step(cfg: Config, s: State, a: Action, t: State) {
    match a
    case Receive(o) =>
      && s.phase == Idle
      && t == s.(phase := if cfg.wanted(o.key) && ShouldProcess(s.entries, o) then Trying(o, 0) else Idle)
    case AttemptFails =>
      && s.phase.Trying?
      && Grows(s.received, t.received)
      && t == s.(
        received := t.received,
        phase := if s.phase.attempt + 1 < MAX_ATTEMPTS then Trying(s.phase.target, s.phase.attempt + 1) else Idle)
    case AttemptSucceeds(etag, jobs) =>
      && s.phase.Trying?
      && Grows(s.received, t.received)
      && var d := Delivery(s.phase.target, FetchedFrom(cfg, s.phase.target, etag), jobs);
      && Arrived(t.received, jobs) && Fetched(cfg, d)
      && t == s.(received := t.received, log := s.log + [d], phase := Delivered(d))
    case Mark =>
      && s.phase.Delivered?
      && t == s.(
        entries := MarkEntry(s.entries, s.phase.delivery),
        marks := s.marks + [s.phase.delivery],
        phase := Saving)
    case WritePart(bytes) =>
      && s.phase == Saving
      && t == s.(disk := Written(s.disk, cfg.path, bytes))
    case WriteAll =>
      && s.phase == Saving
      && t == s.(disk := Written(s.disk, cfg.path, cfg.codec.render(s.entries)), phase := Renaming)
    case Commit =>
      && s.phase == Renaming
      && TmpPath(cfg.path) in s.disk
      && t == s.(disk := Rename(s.disk, TmpPath(cfg.path), cfg.path), saved := |s.marks|, phase := Idle)
    case PersistFails =>
      && s.phase in {Saving, Renaming}
      && t == s.(phase := Idle)
    case Crash =>
      && s.phase != Down
      && s.saved <= |s.marks|
      && t == s.(entries := map[], marks := s.marks[..s.saved], phase := Down)
    case Restart =>
      && s.phase == Down
      && Load(cfg.codec, s.disk, cfg.path).Some?
      && t == s.(entries := Load(cfg.codec, s.disk, cfg.path).value, phase := Idle)
  }

  ghost predicate Next(cfg: Config, s: State, t: State) {
    exists a :: Step(cfg, s, a, t)
  }

  /** Before the first start: no checkpoint file, nothing sent. */
  ghost predicate Init(cfg: Config, s: State) {
    && s.phase == Down
    && cfg.path !in s.disk
    && s.entries == map[] && s.log == [] && s.marks == [] && s.saved == 0
  }

  ghost predicate IsRun(cfg: Config, run: seq<State>) {
    var n := |run| - 1;
    && run != []
    && if n == 0 then Init(cfg, run[0]) else IsRun(cfg, run[..n]) && Next(cfg, run[n - 1], run[n])
  }

  ghost predicate Reachable(cfg: Config, s: State) {
    exists run :: IsRun(cfg, run) && Last(run) == s
  }

  lemma {:induction false} ReachableNext(cfg: Config, s: State, a: Action, t: State)
    requires Reachable(cfg, s) && Step(cfg, s, a, t)
    ensures Reachable(cfg, t)
  {
    var run :| IsRun(cfg, run) && Last(run) == s;
    assert (run + [t])[..|run|] == run;
    assert IsRun(cfg, run + [t]) && Last(run + [t]) == t;
  }

  /** The checkpoint a list of marks amounts to. */
  function Fold(marks: seq<Delivery>): Entries {
    if marks == [] then map[] else MarkEntry(Fold(marks[..|marks| - 1]), Last(marks))
  }

  lemma {:induction false} FoldSnoc(marks: seq<Delivery>, d: Delivery)
    ensures Fold(marks + [d]) == MarkEntry(Fold(marks), d)
  {
    assert (marks + [d])[..|marks|] == marks;
  }

  /** A sound deployment: JSON reads back, and the file's name does not end in `.tmp`. */
  ghost predicate Sound(cfg: Config) {
    cfg.codec.Faithful() && cfg.path.extension != Some(TMP)
  }

  /** Memory and disk are the folds of all marks and of the saved ones. */
  ghost predicate Persistent(cfg: Config, s: State) {
    && s.saved <= |s.marks|
    && (s.phase == Down ==> s.saved == |s.marks|)
    && (s.phase != Down ==> s.entries == Fold(s.marks))
    && Load(cfg.codec, s.disk, cfg.path) == Some(Fold(s.marks[..s.saved]))
    && (s.phase == Renaming ==>
          TmpPath(cfg.path) in s.disk && s.disk[TmpPath(cfg.path)] == cfg.codec.render(s.entries))
  }

  /** Marks are deliveries, and deliveries reached the shards. */
  ghost predicate Honest(cfg: Config, s: State) {
    && (forall d :: d in s.marks ==> d in s.log)
    && (s.phase.Delivered? ==> s.phase.delivery in s.log)
    && (forall d :: d in s.log ==> Arrived(s.received, d.jobs) && Fetched(cfg, d))
  }

  lemma {:induction false} PersistentInit(cfg: Config, s: State)
    requires Init(cfg, s)
    ensures Persistent(cfg, s) && Honest(cfg, s)
  {}

  lemma {:induction false} HoldsLater(before: Received, after: Received, jobs: seq<Job>)
    requires Holds(before, jobs) && Grows(before, after)
    ensures Holds(after, jobs)
  {
    forall s: u32
      ensures Contains(At(after, s), Forwarded(jobs, s))
    {
      var front: Text :| front + Forwarded(jobs, s) <= At(before, s);
      assert front + Forwarded(jobs, s) <= At(after, s);
    }
  }

  lemma {:induction false} HonestStep(cfg: Config, s: State, a: Action, t: State)
    requires Honest(cfg, s) && Step(cfg, s, a, t)
    ensures Honest(cfg, t)
  {
    forall d | d in s.log
      ensures Arrived(t.received, d.jobs)
    {
      if t.received != s.received {
        HoldsLater(s.received, t.received, d.jobs);
      }
    }
  }

  /** The commit step puts the whole of memory on disk. */
  lemma {:induction false} CommitSaves(cfg: Config, s: State, t: State)
    requires Sound(cfg) && Persistent(cfg, s) && Step(cfg, s, Commit, t)
    ensures Persistent(cfg, t)
  {
    assert t.marks[..t.saved] == t.marks;
    assert t.disk[cfg.path] == cfg.codec.render(s.entries);
  }

  lemma {:induction false} PersistentStep(cfg: Config, s: State, a: Action, t: State)
    requires Sound(cfg) && Persistent(cfg, s) && Step(cfg, s, a, t)
    ensures Persistent(cfg, t)
  {
    assert TmpPath(cfg.path) != cfg.path;
    match a
    case Mark =>
      FoldSnoc(s.marks, s.phase.delivery);
      assert t.marks[..t.saved] == s.marks[..s.saved];
    case Commit =>
      CommitSaves(cfg, s, t);
    case Restart =>
      assert s.marks[..s.saved] == s.marks;
    case Crash =>
      assert t.marks[..t.saved] == t.marks;
    case _ =>
  }

  lemma {:induction false} SavedStep(cfg: Config, s: State, a: Action, t: State)
    requires s.saved <= |s.marks| && Step(cfg, s, a, t)
    ensures s.saved <= t.saved <= |t.marks|
    ensures s.marks[..s.saved] <= t.marks[..t.saved]
  {}

  lemma {:induction false} RunInvariant(cfg: Config, run: seq<State>)
    requires Sound(cfg) && IsRun(cfg, run)
    ensures Persistent(cfg, Last(run)) && Honest(cfg, Last(run))
  {
    if |run| == 1 {
      PersistentInit(cfg, run[0]);
    } else {
      var n := |run| - 1;
      RunInvariant(cfg, run[..n]);
      var a :| Step(cfg, run[n - 1], a, run[n]);
      PersistentStep(cfg, run[n - 1], a, run[n]);
      HonestStep(cfg, run[n - 1], a, run[n]);
    }
  }

  // ---------------------------------------------------------------------------
  // What a checkpoint means
  // ---------------------------------------------------------------------------

  /** The latest mark of one object, told apart by bucket and key. */
  function LastMark(marks: seq<Delivery>, o: Object): Option<Delivery> {
    if marks == [] then None
    else if SameObject(Last(marks).target, o) then Some(Last(marks))
    else LastMark(marks[..|marks| - 1], o)
  }

  ghost predicate CleanBuckets(marks: seq<Delivery>) {
    forall d :: d in marks ==> CleanBucket(d.target)
  }

  lemma {:induction false} FoldIsLastMark(marks: seq<Delivery>, o: Object)
    requires CleanBuckets(marks) && CleanBucket(o)
    ensures var code, last := Encode(o.bucket, o.key), LastMark(marks, o);
            && (code in Fold(marks) <==> last.Some?)
            && (last.Some? ==> Fold(marks)[code] == Meta(last.value.target.etag, |last.value.jobs|))
  {
    if marks != [] {
      EncodeInjective(Last(marks).target, o);
      FoldIsLastMark(marks[..|marks| - 1], o);
    }
  }

  lemma {:induction false} LastMarkIsMark(marks: seq<Delivery>, o: Object)
    requires LastMark(marks, o).Some?
    ensures LastMark(marks, o).value in marks && SameObject(LastMark(marks, o).value.target, o)
  {
    if !SameObject(Last(marks).target, o) {
      LastMarkIsMark(marks[..|marks| - 1], o);
    }
  }

  /** The program's test against the checkpoint, in terms of the marks it stands for. */
  lemma {:induction false} SkippedIffLastMarkMatches(marks: seq<Delivery>, o: Object)
    requires CleanBuckets(marks) && CleanBucket(o)
    ensures !ShouldProcess(Fold(marks), o) <==>
            o.etag.Some? && LastMark(marks, o).Some? && LastMark(marks, o).value.target.etag == o.etag
  {
    FoldIsLastMark(marks, o);
  }

  lemma {:induction false} ReachableInvariant(cfg: Config, s: State)
    requires Sound(cfg) && Reachable(cfg, s)
    ensures Persistent(cfg, s) && Honest(cfg, s)
  {
    var run :| IsRun(cfg, run) && Last(run) == s;
    RunInvariant(cfg, run);
  }

  /**
   In every reachable state, crashes included, an object is skipped exactly when the last
   delivery the checkpoint accounts for was for a message with the object's own etag. That
   delivery sent the whole content found under the object's key in the configured bucket,
   every line had a shard to go to under the snapshot it was routed by, and every shard holds
   its part, whatever happened to the shards between attempts, batches and restarts. It was
   the object itself if and only if the message named the configured bucket and the stored
   etag was the message's.
   */
  lemma {:induction false} SkippedWasForwarded(cfg: Config, s: State, o: Object)
    requires Sound(cfg) && Reachable(cfg, s) && s.phase != Down
    requires CleanBuckets(s.log) && CleanBucket(o)
    ensures var last := LastMark(s.marks, o);
            && (!ShouldProcess(s.entries, o) <==>
                  o.etag.Some? && last.Some? && last.value.target.etag == o.etag)
            && (!ShouldProcess(s.entries, o) ==>
                  && last.value in s.log
                  && last.value.target == o
                  && Arrived(s.received, last.value.jobs)
                  && Fetched(cfg, last.value)
                  && (last.value.source == o <==> o.bucket == cfg.bucket && last.value.source.etag == o.etag))
  {
    ReachableInvariant(cfg, s);
    SkippedIffLastMarkMatches(s.marks, o);
    if LastMark(s.marks, o).Some? {
      LastMarkIsMark(s.marks, o);
    }
  }

  /** Receiving an object changes nothing at all exactly when it repeats the last successful etag. */
  lemma {:induction false} RepeatForwardsNothing(cfg: Config, s: State, o: Object, t: State)
    requires Sound(cfg) && Reachable(cfg, s)
    requires CleanBuckets(s.log) && CleanBucket(o)
    requires Step(cfg, s, Receive(o), t) && cfg.wanted(o.key)
    ensures var last := LastMark(s.marks, o);
            t == s <==> o.etag.Some? && last.Some? && last.value.target.etag == o.etag
  {
    SkippedWasForwarded(cfg, s, o);
  }

  /** Saved marks survive every later step, crashes included. */
  lemma {:induction false} SavedMarksSurvive(cfg: Config, run: seq<State>, i: nat)
    requires Sound(cfg) && IsRun(cfg, run) && i < |run|
    ensures run[i].saved <= |run[i].marks| && Last(run).saved <= |Last(run).marks|
    ensures run[i].marks[..run[i].saved] <= Last(run).marks[..Last(run).saved]
    decreases |run|
  {
    var n := |run| - 1;
    if i == n {
      RunInvariant(cfg, run);
    } else {
      SavedMarksSurvive(cfg, run[..n], i);
      var a :| Step(cfg, run[n - 1], a, run[n]);
      SavedStep(cfg, run[n - 1], a, run[n]);
    }
  }

  /** A restart finds a complete earlier checkpoint: the fold of the saved marks, never an error. */
  lemma {:induction false} ReloadIsSavedPrefix(cfg: Config, s: State)
    requires Sound(cfg) && Reachable(cfg, s)
    ensures s.saved <= |s.marks|
    ensures Load(cfg.codec, s.disk, cfg.path) == Some(Fold(s.marks[..s.saved]))
  {
    ReachableInvariant(cfg, s);
  }

  /** With NULs in bucket names, one object's checkpoint hides another that was never sent. */
  lemma {:induction false} NulBucketHidesObject(source: Object, jobs: seq<Job>)
    ensures exists a: Object, b: Object ::
              !SameObject(a, b) && !ShouldProcess(Fold([Delivery(a, source, jobs)]), b)
  {
    var a, b := Object([1, NUL, 2], [3], Some([7])), Object([1], [2, NUL, 3], Some([7]));
    var d := Delivery(a, source, jobs);
    FoldSnoc([], d);
    assert [] + [d] == [d];
    assert Encode(a.bucket, a.key) == [1, NUL, 2, NUL, 3] == Encode(b.bucket, b.key);
    assert !SameObject(a, b) && !ShouldProcess(Fold([Delivery(a, source, jobs)]), b);
  }

  /** A router that has just started, and what it has sent once one batch is delivered and marked. */
  lemma {:induction false} OneDelivery(
      cfg: Config, first: State, o: Object, etag: Option<Text>, jobs: seq<Job>)
    returns (s: State)
    requires Init(cfg, first) && first.received == imap[] && cfg.wanted(o.key)
    requires jobs != [] && !Unroutable(jobs) && Carries(jobs, cfg.content(FetchedFrom(cfg, o, etag)))
    ensures Reachable(cfg, s) && s.phase == Saving
    ensures var d := Delivery(o, FetchedFrom(cfg, o, etag), jobs); s.log == [d] && s.entries == MarkEntry(map[], d)
  {
    var d := Delivery(o, FetchedFrom(cfg, o, etag), jobs);
    var received: Received := imap id: u32 :: Forwarded(jobs, id);
    assert IsRun(cfg, [first]) && Last([first]) == first;
    var started := first.(phase := Idle);
    ReachableNext(cfg, first, Restart, started);
    var trying := started.(phase := Trying(o, 0));
    ReachableNext(cfg, started, Receive(o), trying);
    SentAtOnce(jobs, received);
    var sent := trying.(received := received, log := [d], phase := Delivered(d));
    ReachableNext(cfg, trying, AttemptSucceeds(etag, jobs), sent);
    s := sent.(entries := MarkEntry(map[], d), marks := [d], phase := Saving);
    ReachableNext(cfg, sent, Mark, s);
  }

  lemma {:induction false} SentAtOnce(jobs: seq<Job>, received: Received)
    requires forall id: u32 :: At(received, id) == Forwarded(jobs, id)
    ensures Holds(received, jobs)
  {
    forall id: u32
      ensures Contains(At(received, id), Forwarded(jobs, id))
    {
      assert [] + Forwarded(jobs, id) <= At(received, id);
    }
  }

  /**
   The bucket of a message is not the bucket fetched from. Under every configuration, a
   message for another bucket delivers what the configured bucket holds under the key and
   marks the foreign object; its repeat is skipped, though nothing of it was ever fetched.
   */
  lemma {:induction false} ForeignBucketIsSkipped(
      cfg: Config, first: State, o: Object, etag: Option<Text>, jobs: seq<Job>)
    returns (s: State)
    requires Init(cfg, first) && first.received == imap[] && cfg.wanted(o.key)
    requires jobs != [] && !Unroutable(jobs) && Carries(jobs, cfg.content(FetchedFrom(cfg, o, etag)))
    requires o.bucket != cfg.bucket && o.etag.Some?
    ensures Reachable(cfg, s)
    ensures !ShouldProcess(s.entries, o)
    ensures forall d :: d in s.log ==> d.source.bucket != o.bucket
  {
    s := OneDelivery(cfg, first, o, etag, jobs);
  }

  // ---------------------------------------------------------------------------
  // The actor: every execution is a run of the machine
  // ---------------------------------------------------------------------------

  class IngestActor {
    const cfg: Config
    const store: CheckpointStore
    const forwarder: IlpForwarder
    /** The machine's state, and what earlier incarnations had sent. */
    ghost var now: State
    ghost const past: Received

    /** The machine can be where the program is. */
    ghost predicate Valid()
      reads this, store, forwarder
    {
      && Reachable(cfg, now)
      && store.codec == cfg.codec && store.path == cfg.path
      && forwarder.Synced() && forwarder.Bounded()
      && now.entries == store.entries
      && now.disk == store.disk
      && Sent(now.received)
    }

    /** What shards have received: from earlier incarnations, then from this one. */
    ghost predicate Sent(received: Received)
      reads this, forwarder
    {
      forall id: u32 :: At(received, id) == At(past, id) + forwarder.Written(id)
    }

    /** The actor around a freshly loaded store: the machine's restart. */
    constructor (cfg: Config, store: CheckpointStore, ghost stopped: State)
      requires Reachable(cfg, stopped) && stopped.phase == Down
      requires store.codec == cfg.codec && store.path == cfg.path && store.disk == stopped.disk
      requires Some(store.entries) == Load(cfg.codec, stopped.disk, cfg.path)
      ensures Valid() && this.cfg == cfg && this.store == store && fresh(forwarder)
      ensures now == stopped.(entries := store.entries, phase := Idle)
    {
      this.cfg := cfg;
      this.store := store;
      forwarder := new IlpForwarder();
      past := stopped.received;
      ghost var started := stopped.(entries := store.entries, phase := Idle);
      now := started;
      ReachableNext(cfg, stopped, Restart, started);
    }

    ghost method Advance(a: Action, t: State)
      requires Reachable(cfg, now) && Step(cfg, now, a, t)
      modifies this`now
      ensures now == t && Reachable(cfg, now)
    {
      ReachableNext(cfg, now, a, t);
      now := t;
    }

    /**
     `fetch_decode_forward`: get the key from the configured bucket, with whatever etag it has
     there now; fetching and decoding may fail, and no rows is a failure.
     */
    method FetchDecodeForward(o: Object, routing: Routing, ghost before: Received)
      returns (batch: Option<seq<Text>>, etag: Option<Text>, ghost after: Received)
      requires forwarder.Synced() && forwarder.Bounded() && Sent(before)
      modifies forwarder
      ensures forwarder.Synced() && forwarder.Bounded() && Sent(after)
      ensures Grows(before, after)
      ensures batch.Some? ==> Arrived(after, Jobs(batch.value, routing, 0))
      ensures batch.Some? ==> cfg.content(FetchedFrom(cfg, o, etag)) == batch
    {
      var fetched: bool := *;
      etag := *;
      var decoded := cfg.content(FetchedFrom(cfg, o, etag));
      if !fetched || decoded.None? || decoded == Some([]) {
        return None, etag, before;
      }
      var lines := decoded.value;
      ghost var log := forwarder.log;
      var r := forwarder.ForwardBatch(routing, lines);
      after := SentNow(past, forwarder);
      forall id: u32
        ensures At(before, id) <= At(after, id)
      {
        PrefixUnder(At(past, id), old(forwarder.Written(id)), forwarder.Written(id));
      }
      if !r.Done? {
        forwarder.Rebase();
        return None, etag, after;
      }
      WholeBatchArrives(forwarder, log, Jobs(lines, routing, 0));
      ContainedLater(past, after, forwarder, Jobs(lines, routing, 0));
      batch := Some(lines);
    }

    /** One turn of the retry loop, up to the checkpoint. */
    method Attempt(o: Object, routing: Routing) returns (batch: Option<seq<Text>>, etag: Option<Text>)
      requires Valid() && now.phase.Trying? && now.phase.target == o
      modifies this, forwarder
      ensures Valid()
      ensures var s := old(now);
              if batch.None? then
                now == s.(received := now.received, phase :=
                  if s.phase.attempt + 1 < MAX_ATTEMPTS then Trying(o, s.phase.attempt + 1) else Idle)
              else
                var d := Delivery(o, FetchedFrom(cfg, o, etag), Jobs(batch.value, routing, 0));
                now == s.(received := now.received, log := s.log + [d], phase := Delivered(d))
    {
      ghost var s := now;
      ghost var received;
      batch, etag, received := FetchDecodeForward(o, routing, s.received);
      if batch.None? {
        Advance(AttemptFails, s.(received := received, phase :=
          if s.phase.attempt + 1 < MAX_ATTEMPTS then Trying(o, s.phase.attempt + 1) else Idle));
      } else {
        ghost var d := Delivery(o, FetchedFrom(cfg, o, etag), Jobs(batch.value, routing, 0));
        Advance(AttemptSucceeds(etag, d.jobs), s.(received := received, log := s.log + [d], phase := Delivered(d)));
      }
    }

    /** The checkpoint after a delivery; on failure the entry stays in memory only. */
    method Checkpoint(o: Object, rows: nat) returns (ok: bool)
      requires Valid() && now.phase.Delivered?
      requires now.phase.delivery.target == o && |now.phase.delivery.jobs| == rows
      modifies this, store
      ensures Valid()
      ensures var s := old(now);
              && now.phase == Idle && now.log == s.log
              && now.marks == s.marks + [s.phase.delivery]
              && now.saved == (if ok then |now.marks| else s.saved)
    {
      ghost var s := now;
      ghost var disk := store.disk;
      ok := store.MarkProcessed(o, rows);
      ghost var marked := s.(entries := store.entries, marks := s.marks + [s.phase.delivery], phase := Saving);
      Advance(Mark, marked);
      if ok {
        ghost var wrote := marked.(disk := Written(disk, cfg.path, cfg.codec.render(store.entries)), phase := Renaming);
        Advance(WriteAll, wrote);
        Advance(Commit, wrote.(disk := store.disk, saved := |marked.marks|, phase := Idle));
      } else {
        if store.disk != disk {
          ghost var part: Text :| store.disk == Written(disk, cfg.path, part);
          Advance(WritePart(part), marked.(disk := store.disk));
        }
        Advance(PersistFails, marked.(disk := store.disk, phase := Idle));
      }
    }

    /**
     The retry loop of `process_object`: up to three attempts and one checkpoint. Each
     attempt meets the snapshots of its own time.
     */
    method Retry(o: Object, routings: nat -> Routing) returns (ok: bool, ghost tries: nat)
      requires Valid() && now.phase == Trying(o, 0)
      modifies this, store, forwarder
      ensures Valid() && Tried(old(now).(phase := Idle), o, ok, now)
      ensures 1 <= tries <= 3 && (|now.log| == |old(now).log| ==> tries == 3)
    {
      ghost var s := now;
      var attempt := 0;
      tries := 0;
      while attempt < MAX_ATTEMPTS
        invariant 0 <= attempt <= MAX_ATTEMPTS && tries == attempt
        invariant Valid()
        invariant now == s.(received := now.received, phase :=
                    if attempt < MAX_ATTEMPTS then Trying(o, attempt) else Idle)
      {
        var batch, _ := Attempt(o, routings(attempt));
        tries := tries + 1;
        if batch.Some? {
          ok := Checkpoint(o, |batch.value|);
          return;
        }
        attempt := attempt + 1;
      }
      ok := false;
    }

    /**
     `process_object`: skip, or try. The object is marked only after an attempt delivered
     its whole batch, and at most one does.
     */
    method ProcessObject(o: Object, routings: nat -> Routing) returns (ok: bool, ghost tries: nat)
      requires Valid() && now.phase == Idle
      modifies this, store, forwarder
      ensures Valid()
      ensures if cfg.wanted(o.key) && ShouldProcess(old(now).entries, o) then Tried(old(now), o, ok, now)
              else ok && now == old(now) && forwarder.upstreams == old(forwarder.upstreams)
      ensures tries <= 3 && (tries == 0 <==> !(cfg.wanted(o.key) && ShouldProcess(old(now).entries, o)))
      ensures tries > 0 && |now.log| == |old(now).log| ==> tries == 3
    {
      ghost var s := now;
      var go := cfg.wanted(o.key) && ShouldProcess(store.entries, o);
      if !go {
        return true, 0;
      }
      Advance(Receive(o), s.(phase := Trying(o, 0)));
      assert now.(phase := Idle) == s;
      ok, tries := Retry(o, routings);
    }
  }

  /** `spawn`: load the checkpoint a stopped process left and start; an unreadable file stops the start. */
  method Spawn(cfg: Config, disk: Disk, ghost stopped: State) returns (actor: IngestActor?)
    requires Reachable(cfg, stopped) && stopped.phase == Down && stopped.disk == disk
    ensures actor == null <==> Load(cfg.codec, disk, cfg.path).None?
    ensures actor != null ==> fresh(actor) && fresh(actor.store) && fresh(actor.forwarder) && actor.Valid()
    ensures actor != null ==>
              && actor.cfg == cfg
              && actor.now == stopped.(entries := Load(cfg.codec, disk, cfg.path).value, phase := Idle)
  {
    actor := null;
    var store := OpenStore(cfg.codec, disk, cfg.path);
    if store != null {
      actor := new IngestActor(cfg, store, stopped);
    }
  }

  /** From idle to idle: no attempt delivered, or one did and the object was marked. */
  ghost predicate Tried(s: State, o: Object, ok: bool, t: State) {
    && t.phase == Idle
    && if |t.log| == |s.log| then !ok && t == s.(received := t.received)
       else
         && |t.log| == |s.log| + 1
         && s.log < t.log && Last(t.log).target == o
         && t.marks == s.marks + [Last(t.log)]
         && t.saved == (if ok then |t.marks| else s.saved)
  }

  ghost function SentNow(past: Received, f: IlpForwarder): (r: Received)
    reads f
    ensures forall id: u32 :: At(r, id) == At(past, id) + f.Written(id)
  {
    imap id: u32 :: At(past, id) + f.Written(id)
  }

  lemma {:induction false} PrefixUnder(front: Text, short: Text, long: Text)
    requires short <= long
    ensures front + short <= front + long
  {}

  lemma {:induction false} WholeBatchArrives(f: IlpForwarder, before: seq<Entry>, jobs: seq<Job>)
    requires f.log == before + Forward.Entries(jobs)
    requires forall id: u32 :: f.Written(id) == StreamOf(f.log, id)
    ensures forall id: u32 :: Contains(f.Written(id), Forwarded(jobs, id))
  {
    forall id: u32
      ensures Contains(f.Written(id), Forwarded(jobs, id))
    {
      FlatMapAppend(before, Forward.Entries(jobs), (e: Entry) => BytesFor(e, id));
      assert StreamOf(before, id) + Forwarded(jobs, id) <= f.Written(id);
    }
  }

  lemma {:induction false} ContainedUnder(front: Text, text: Text, part: Text)
    requires Contains(text, part)
    ensures Contains(front + text, part)
  {
    var before: Text :| before + part <= text;
    Associative(front, before, part);
    assert (front + before) + part <= front + text;
  }

  lemma {:induction false} ContainedLater(past: Received, now: Received, f: IlpForwarder, jobs: seq<Job>)
    requires forall id: u32 :: At(now, id) == At(past, id) + f.Written(id)
    requires forall id: u32 :: Contains(f.Written(id), Forwarded(jobs, id))
    ensures Holds(now, jobs)
  {
    forall id: u32
      ensures Contains(At(now, id), Forwarded(jobs, id))
    {
      ContainedUnder(At(past, id), f.Written(id), Forwarded(jobs, id));
    }
  }
}
