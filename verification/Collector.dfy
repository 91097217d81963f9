/**
 The collector itself: the state database it keeps and the cycle it runs.

 Every commit and every request is one step of the protocol, and after each of them the objects
 mirror a reachable state of it. A process that stops anywhere therefore leaves a state that the
 protocol's theorems cover, and that a new process takes over.
 */
module Collector {
  import opened Sequences
  import opened Wrappers
  import opened KeepMax
  import opened CollectorProtocol

  datatype FileOffset = FileOffset(offset: nat, size: nat)

  datatype QueuedBatch = QueuedBatch(id: nat, batch: Batch, attempts: nat)

  predicate Ascending(queue: seq<QueuedBatch>, nextId: nat) {
    && (forall i, j :: 0 <= i < j < |queue| ==> queue[i].id < queue[j].id)
    && (forall i :: 0 <= i < |queue| ==> queue[i].id < nextId)
  }

  function WithoutId(queue: seq<QueuedBatch>, id: nat): seq<QueuedBatch> {
    if queue == [] then []
    else (if queue[0].id == id then [] else [queue[0]]) + WithoutId(queue[1..], id)
  }

  lemma {:induction false} WithoutIdMeaning(queue: seq<QueuedBatch>, id: nat, nextId: nat)
    requires Ascending(queue, nextId)
    ensures Ascending(WithoutId(queue, id), nextId)
    ensures forall q :: q in WithoutId(queue, id) <==> q in queue && q.id != id
    decreases |queue|
  {
    if queue != [] {
      WithoutIdMeaning(queue[1..], id, nextId);
    }
  }

  function Bumped(queue: seq<QueuedBatch>, id: nat): (r: seq<QueuedBatch>)
    ensures |r| == |queue|
    ensures forall i :: 0 <= i < |r| ==>
      r[i].id == queue[i].id && r[i].batch == queue[i].batch
      && r[i].attempts == queue[i].attempts + (if queue[i].id == id then 1 else 0)
  {
    if queue == [] then [] else
    var q := queue[0];
    [if q.id == id then q.(attempts := q.attempts + 1) else q] + Bumped(queue[1..], id)
  }

  lemma {:induction false} WithoutAbsentId(queue: seq<QueuedBatch>, id: nat)
    requires forall i :: 0 <= i < |queue| ==> queue[i].id != id
    ensures WithoutId(queue, id) == queue
    decreases |queue|
  {
    if queue != [] {
      WithoutAbsentId(queue[1..], id);
    }
  }

  /** The offset table and the upload queue. Each method is one commit. */
  class CollectorState {
    var offsets: map<FileId, FileOffset>
    var queue: seq<QueuedBatch>
    var nextId: nat

    ghost predicate Valid()
      reads this
    {
      Ascending(queue, nextId)
    }

    constructor ()
      ensures Valid() && offsets == map[] && queue == []
    {
      offsets, queue, nextId := map[], [], 0;
    }

    method GetOffset(file: FileId) returns (r: Option<FileOffset>)
      ensures r == if file in offsets then Some(offsets[file]) else None
    {
      r := if file in offsets then Some(offsets[file]) else None;
    }

    method SetOffset(file: FileId, offset: nat, size: nat)
      modifies this`offsets
      ensures offsets == old(offsets)[file := FileOffset(offset, size)]
    {
      offsets := offsets[file := FileOffset(offset, size)];
    }

    method Enqueue(batch: Batch) returns (id: nat)
      requires Valid()
      modifies this`queue, this`nextId
      ensures Valid()
      ensures queue == old(queue) + [QueuedBatch(id, batch, 0)]
      ensures forall i :: 0 <= i < |old(queue)| ==> old(queue)[i].id < id
    {
      id := nextId;
      queue := queue + [QueuedBatch(id, batch, 0)];
      nextId := nextId + 1;
    }

    /** The oldest batches, at most `limit` of them. */
    method Pending(limit: nat) returns (rows: seq<QueuedBatch>)
      ensures rows == queue[..if limit <= |queue| then limit else |queue|]
    {
      rows := queue[..if limit <= |queue| then limit else |queue|];
    }

    /** Deletes by id; the id of the oldest batch removes that batch and nothing else. */
    method MarkUploaded(id: nat)
      requires Valid()
      modifies this`queue
      ensures Valid()
      ensures queue == WithoutId(old(queue), id)
      ensures old(queue) != [] && id == old(queue)[0].id ==> queue == old(queue)[1..]
    {
      WithoutIdMeaning(queue, id, nextId);
      if queue != [] && id == queue[0].id {
        WithoutAbsentId(queue[1..], id);
      }
      queue := WithoutId(queue, id);
    }

    method BumpAttempts(id: nat)
      requires Valid()
      modifies this`queue
      ensures Valid()
      ensures queue == Bumped(old(queue), id)
    {
      queue := Bumped(queue, id);
    }
  }

  // ----- chunks -----

  /** Pieces of at most `size` events, all but the last of exactly that size. */
  predicate Chunked(chunks: seq<seq<Event>>, size: nat) {
    && (forall i :: 0 <= i < |chunks| ==> 0 < |chunks[i]| <= size)
    && (forall i :: 0 <= i < |chunks| - 1 ==> |chunks[i]| == size)
  }

  /** The events in order, piece by piece. */
  method Chunks(events: seq<Event>, size: nat) returns (chunks: seq<seq<Event>>)
    requires size > 0
    ensures Flatten(chunks) == events && Chunked(chunks, size)
  {
    chunks := [];
    var at := 0;
    while at < |events|
      invariant 0 <= at <= |events|
      invariant Flatten(chunks) == events[..at]
      invariant forall i :: 0 <= i < |chunks| ==> 0 < |chunks[i]| <= size
      invariant forall i :: 0 <= i < |chunks| ==> at < |events| ==> |chunks[i]| == size
      invariant forall i :: 0 <= i < |chunks| - 1 ==> |chunks[i]| == size
    {
      var end := if at + size <= |events| then at + size else |events|;
      FlattenSnoc(chunks, events[at..end]);
      assert events[..end] == events[..at] + events[at..end];
      chunks := chunks + [events[at..end]];
      at := end;
    }
    assert events[..at] == events;
  }

  // ----- the protocol's view of the objects -----

  function OffsetsOf(offsets: map<FileId, FileOffset>): map<FileId, nat> {
    map f | f in offsets :: offsets[f].offset
  }

  function BatchesOf(queue: seq<QueuedBatch>): (r: seq<Batch>)
    ensures |r| == |queue|
  {
    if queue == [] then [] else [queue[0].batch] + BatchesOf(queue[1..])
  }

  function EventBatches(chunks: seq<seq<Event>>): (r: seq<Batch>)
    ensures |r| == |chunks|
  {
    if chunks == [] then [] else [Events(chunks[0])] + EventBatches(chunks[1..])
  }

  lemma {:induction false} EventBatchAt(chunks: seq<seq<Event>>, i: nat)
    requires i < |chunks|
    ensures EventBatches(chunks)[i] == Events(chunks[i])
    decreases i
  {
    if i > 0 {
      EventBatchAt(chunks[1..], i - 1);
    }
  }

  lemma {:induction false} EventBatchesHold(chunks: seq<seq<Event>>)
    ensures PendingEvents(EventBatches(chunks)) == Flatten(chunks)
    decreases |chunks|
  {
    if chunks != [] {
      EventBatchesHold(chunks[1..]);
      assert EventBatches(chunks)[1..] == EventBatches(chunks[1..]);
    }
  }

  lemma {:induction false} BatchesSnoc(queue: seq<QueuedBatch>, last: QueuedBatch)
    ensures BatchesOf(queue + [last]) == BatchesOf(queue) + [last.batch]
    decreases |queue|
  {
    if queue == [] {
      assert queue + [last] == [last] && [last][1..] == [];
    } else {
      assert (queue + [last])[1..] == queue[1..] + [last];
      BatchesSnoc(queue[1..], last);
    }
  }

  lemma {:induction false} BumpedBatches(queue: seq<QueuedBatch>, id: nat)
    ensures BatchesOf(Bumped(queue, id)) == BatchesOf(queue)
    decreases |queue|
  {
    if queue != [] {
      BumpedBatches(queue[1..], id);
      assert Bumped(queue, id)[1..] == Bumped(queue[1..], id);
    }
  }

  // ----- uploads -----

  /** What became of one request: no reply at all, or its status. */
  datatype Upload = Upload(batch: Batch, reply: Option<nat>)

  predicate Success(reply: Option<nat>) {
    reply.Some? && 200 <= reply.value < 300
  }

  class Uploader {
    const server: UsageStore
    /** Every request made so far. */
    ghost var sent: seq<Upload>

    constructor ()
      ensures fresh(server) && server.rows == map[] && sent == []
    {
      server := new UsageStore();
      sent := [];
    }

    /**
     One request. The server may be unreachable or refuse the batch, may apply it although the
     reply is lost or a failure, or may apply and acknowledge it; nothing else is known about it.
     */
    method Send(batch: Batch) returns (ok: bool)
      modifies this`sent, server
      ensures Requested(old(sent), sent, batch, ok)
      ensures Wire(server.rows) == UpsertAll(Wire(old(server.rows)), BatchEvents(batch))
              || (!ok && server.rows == old(server.rows))
    {
      var applied: bool := *;
      var reply: Option<nat> := *;
      if applied && batch.Events? {
        var _, _ := server.IngestEvents(batch.events, true);
      }
      if !applied && Success(reply) {
        reply := None;
      }
      sent := sent + [Upload(batch, reply)];
      ok := Success(reply);
    }
  }

  /** One request more, and its answer. */
  predicate Requested(before: seq<Upload>, after: seq<Upload>, batch: Batch, ok: bool) {
    && before <= after && |after| == |before| + 1
    && after[|before|].batch == batch
    && var reply := after[|before|].reply;
       ok == (reply.Some? && 200 <= reply.value <= 299)
  }

  /**
   The requests made in between were the first batches of the queue in order; all were confirmed but the
   last `failed`.
   */
  predicate UploadedSince(before: seq<Upload>, after: seq<Upload>, queue: seq<Batch>, uploaded: nat, failed: nat) {
    && before <= after && |after| == |before| + uploaded + failed && uploaded + failed <= |queue|
    && forall i :: |before| <= i < |after| ==>
         && after[i].batch == queue[i - |before|]
         && (Success(after[i].reply) <==> i < |before| + uploaded)
  }

  // ----- the cycle -----

  /** The counts of one cycle. */
  datatype Counts = Counts(
    filesScanned: nat,
    eventsFound: nat,
    limitsFound: nat,
    batchesEnqueued: nat,
    batchesUploaded: nat,
    batchesFailed: nat,
    queueSize: nat,
    unreadableFiles: seq<FileId>)

  const NOTHING_COUNTED := Counts(0, 0, 0, 0, 0, 0, 0, [])

  class CollectStats {
    var filesScanned: nat
    var eventsFound: nat
    var limitsFound: nat
    var batchesEnqueued: nat
    var batchesUploaded: nat
    var batchesFailed: nat
    var queueSize: nat
    var unreadableFiles: seq<FileId>

    constructor ()
      ensures Shown() == NOTHING_COUNTED
    {
      filesScanned, eventsFound, limitsFound, batchesEnqueued := 0, 0, 0, 0;
      batchesUploaded, batchesFailed, queueSize, unreadableFiles := 0, 0, 0, [];
    }

    ghost function Shown(): Counts
      reads this
    {
      Counts(filesScanned, eventsFound, limitsFound, batchesEnqueued, batchesUploaded, batchesFailed, queueSize,
             unreadableFiles)
    }
  }

  /** A pass over one file: what it found, and the batches it queued. */
  function WithPass(c: Counts, chunks: seq<seq<Event>>): Counts {
    c.(eventsFound := c.eventsFound + |Flatten(chunks)|, batchesEnqueued := c.batchesEnqueued + |chunks|)
  }

  /** One file's turn in the tail loop. */
  function WithTurn(c: Counts, file: FileId, readable: bool, chunks: seq<seq<Event>>): Counts {
    WithPass(c, chunks).(
      filesScanned := c.filesScanned + 1,
      unreadableFiles := c.unreadableFiles + Skipped(file, readable))
  }

  /** The whole tail loop. */
  function WithTail(c: Counts, discovered: seq<FileId>, readable: set<FileId>, chunks: seq<seq<Event>>): Counts {
    WithPass(c, chunks).(
      filesScanned := c.filesScanned + |discovered|,
      unreadableFiles := c.unreadableFiles + Unreadable(discovered, readable))
  }

  function WithPolls(c: Counts, polls: seq<Option<nat>>): Counts {
    c.(limitsFound := c.limitsFound + Snapshots(polls), batchesEnqueued := c.batchesEnqueued + |LimitBatches(polls)|)
  }

  /** Everything a cycle counts. */
  function WithCycle(c: Counts, discovered: seq<FileId>, readable: set<FileId>, passes: seq<Pass>,
      polls: seq<Option<nat>>, uploaded: nat, failed: nat): Counts
  {
    WithUploads(WithPolls(WithTail(c, discovered, readable, AllChunks(passes)), polls), uploaded, failed)
  }

  function WithUploads(c: Counts, uploaded: nat, failed: nat): Counts {
    c.(batchesUploaded := c.batchesUploaded + uploaded, batchesFailed := c.batchesFailed + failed)
  }

  /** The files on this machine; other programs write them. */
  class Disk {
    var files: map<FileId, File>

    constructor ()
      ensures files == map[]
    {
      files := map[];
    }
  }

  class Agent {
    const disk: Disk
    const state: CollectorState
    const uploader: Uploader
    const server: UsageStore
    /** The protocol state these objects are in. */
    ghost var now: State

    constructor ()
      ensures Valid() && now == INITIAL
      ensures fresh(disk) && fresh(state) && fresh(uploader) && fresh(server)
    {
      disk := new Disk();
      state := new CollectorState();
      var u := new Uploader();
      uploader, server, now := u, u.server, INITIAL;
    }

    /** A new process takes over what a stopped one has left on disk and in the database. */
    constructor Restart(stopped: Agent)
      requires stopped.Valid()
      ensures Valid() && now == stopped.now.(phase := Idle)
      ensures disk == stopped.disk && state == stopped.state && server == stopped.server
    {
      disk, state, uploader, server := stopped.disk, stopped.state, stopped.uploader, stopped.server;
      now := Apply(stopped.now, Crash);
      ReachableStep(stopped.now, Crash);
    }

    ghost predicate Valid()
      reads this, disk, state, uploader, server
    {
      && state.Valid() && uploader.server == server
      && now.files == disk.files && now.store == Wire(server.rows)
      && now.offsets == OffsetsOf(state.offsets) && now.queue == BatchesOf(state.queue)
      && Reachable(now)
    }

    /** What other programs write while the collector runs: any number of appends and new files. */
    method Meanwhile()
      requires Valid()
      modifies this, disk
      ensures Valid() && now == old(now).(files := now.files) && Extends(old(now).files, now.files)
    {
      ghost var start := now;
      var writes: nat := *;
      while writes > 0
        invariant Valid() && now == start.(files := now.files) && Extends(start.files, now.files)
      {
        var file: FileId, more: seq<Option<Event>>, unfinished: nat := *, *, *;
        ghost var append := Grow(file, more, unfinished);
        var complete := if file in disk.files then disk.files[file].complete else [];
        disk.files := disk.files[file := File(complete + more, unfinished)];
        ReachableStep(now, append);
        now := Apply(now, append);
        writes := writes - 1;
      }
    }

    /** The new records of a file, deduplicated within the pass by sources that do so. */
    method Parse(bytes: seq<Option<Event>>, dedupes: bool) returns (events: seq<Event>)
      ensures events == Parsed(bytes, dedupes)
    {
      events := Records(bytes);
      if dedupes {
        events := DedupeKeepMax(events);
      }
    }

    /** Queueing one chunk is one protocol step. */
    method EnqueueNext(chunk: seq<Event>)
      requires Valid() && now.phase.Tailing? && now.phase.chunks != [] && now.phase.chunks[0] == chunk
      modifies this, state`queue, state`nextId
      ensures Valid() && now == Apply(old(now), EnqueueChunk)
    {
      ghost var before := state.queue;
      var _ := state.Enqueue(Events(chunk));
      BatchesSnoc(before, state.queue[|before|]);
      ReachableStep(now, EnqueueChunk);
      now := Apply(now, EnqueueChunk);
    }

    /** Committing the new offset is one protocol step. */
    method CommitFile(file: FileId, newOffset: nat, size: nat)
      requires Valid() && now.phase.Tailing? && now.phase.chunks == []
      requires now.phase.file == file && now.phase.newOffset == newOffset
      modifies this, state`offsets
      ensures Valid() && now == Apply(old(now), CommitOffset)
      ensures state.offsets == old(state.offsets)[file := FileOffset(newOffset, size)]
    {
      ghost var before := state.offsets;
      state.SetOffset(file, newOffset, size);
      assert OffsetsOf(state.offsets) == OffsetsOf(before)[file := newOffset];
      ReachableStep(now, CommitOffset);
      now := Apply(now, CommitOffset);
    }

    /** One commit for each chunk, in order. */
    method EnqueueChunks(chunks: seq<seq<Event>>, stats: CollectStats)
      requires Valid() && now.phase.Tailing? && now.phase.chunks == chunks
      modifies this, state`queue, state`nextId, stats`batchesEnqueued
      ensures Valid()
      ensures ChunksQueued(old(now), now, chunks, |chunks|)
      ensures stats.batchesEnqueued == old(stats.batchesEnqueued) + |chunks|
    {
      ghost var start := now;
      for i := 0 to |chunks|
        invariant Valid()
        invariant ChunksQueued(start, now, chunks, i)
        invariant stats.batchesEnqueued == old(stats.batchesEnqueued) + i
      {
        OneMoreQueued(start, now, chunks, i);
        EnqueueNext(chunks[i]);
        stats.batchesEnqueued := stats.batchesEnqueued + 1;
      }
    }

    /**
     One file of the tail loop: parse from the stored offset, enqueue the chunks, commit the offset. The
     size is the one the file was listed with; it may have grown since.
     */
    method TailFile(file: FileId, size: nat, dedupes: bool, batchSize: nat, stats: CollectStats)
        returns (ghost chunks: seq<seq<Event>>)
      requires Valid() && batchSize > 0 && now.phase.Idle? && file in now.files
      requires Offset(now, file) <= size && Offset(now, file) <= |now.files[file].complete|
      modifies this, state, stats
      ensures Valid()
      ensures PassDone(old(now), now, file, chunks)
      ensures state.offsets == old(state.offsets)[file := FileOffset(|now.files[file].complete|, size)]
      ensures Flatten(chunks) == Parsed(now.files[file].complete[Offset(old(now), file)..], dedupes)
      ensures Chunked(chunks, batchSize)
      ensures stats.Shown() == WithPass(old(stats.Shown()), chunks)
    {
      var events := ParseFile(file, size, dedupes);
      stats.eventsFound := stats.eventsFound + |events|;
      var parts := Chunks(events, batchSize);
      chunks := parts;
      EnqueueFile(file, dedupes, parts, |disk.files[file].complete|, size, stats);
    }

    /** The new records of a file, from the offset where the last pass over it ended. */
    method ParseFile(file: FileId, size: nat, dedupes: bool) returns (events: seq<Event>)
      requires Valid() && now.phase.Idle? && file in now.files
      requires Offset(now, file) <= size && Offset(now, file) <= |now.files[file].complete|
      ensures events == Parsed(now.files[file].complete[Offset(now, file)..], dedupes)
      ensures forall chunks :: Flatten(chunks) == events ==> Enabled(now, StartPass(file, dedupes, chunks))
    {
      var stored := state.GetOffset(file);
      var offset := ResumeOffset(if stored.None? then None else Some(stored.value.offset), size);
      assert offset == Offset(now, file);
      events := Parse(disk.files[file].complete[offset..], dedupes);
    }

    /** The commits of one pass: every chunk, then the offset. */
    method EnqueueFile(file: FileId, dedupes: bool, chunks: seq<seq<Event>>, newOffset: nat, size: nat,
        stats: CollectStats)
      requires Valid() && Enabled(now, StartPass(file, dedupes, chunks)) && newOffset == |now.files[file].complete|
      modifies this, state, stats`batchesEnqueued
      ensures Valid() && PassDone(old(now), now, file, chunks)
      ensures state.offsets == old(state.offsets)[file := FileOffset(newOffset, size)]
      ensures stats.batchesEnqueued == old(stats.batchesEnqueued) + |chunks|
    {
      ghost var start := now;
      ReachableStep(now, StartPass(file, dedupes, chunks));
      now := Apply(now, StartPass(file, dedupes, chunks));
      ghost var started := now;
      EnqueueChunks(chunks, stats);
      ghost var sent := now;
      CommitFile(file, newOffset, size);
      PassIsDone(start, started, sent, now, file, chunks);
    }

    /** The turn of a file that can be read; it may have grown since it was listed. */
    method TailReadable(file: FileId, size: nat, dedupes: bool, batchSize: nat, stats: CollectStats)
        returns (ghost pass: Pass)
      requires Valid() && batchSize > 0 && now.phase.Idle?
      requires file in now.files && Offset(now, file) <= size
      modifies this, disk, state, stats
      ensures Valid() && Turn(old(now), now, file, true, pass)
      ensures WellParsed(now.files, pass, dedupes, batchSize)
      ensures stats.Shown() == WithPass(old(stats.Shown()), pass.chunks)
    {
      ghost var start := now;
      Meanwhile();
      ghost var grown := now;
      OffsetsReach(now);
      ghost var chunks := TailFile(file, size, dedupes, batchSize, stats);
      pass := Pass(file, Offset(grown, file), |Content(grown, file)|, chunks);
      TurnTaken(start, grown, now, pass, dedupes, batchSize);
    }

    /** The turn of a file that cannot be read. */
    method TailUnreadable(file: FileId, dedupes: bool, batchSize: nat, stats: CollectStats) returns (ghost pass: Pass)
      requires Valid() && now.phase.Idle? && file in now.files
      modifies this, disk, stats
      ensures Valid() && Turn(old(now), now, file, false, pass)
      ensures WellParsed(now.files, pass, dedupes, batchSize) && pass.chunks == []
      ensures stats.Shown() == old(stats.Shown()).(unreadableFiles := old(stats.unreadableFiles) + [file])
    {
      ghost var start := now;
      Meanwhile();
      stats.unreadableFiles := stats.unreadableFiles + [file];
      pass := Pass(file, 0, 0, []);
      TurnSkipped(start, now, file, dedupes, batchSize);
    }

    /** The turn of one file. */
    method TailNext(file: FileId, size: nat, readable: bool, dedupes: bool, batchSize: nat, stats: CollectStats)
        returns (ghost pass: Pass)
      requires Valid() && batchSize > 0 && now.phase.Idle?
      requires file in now.files && Offset(now, file) <= size
      modifies this, disk, state, stats
      ensures Valid() && Turn(old(now), now, file, readable, pass)
      ensures WellParsed(now.files, pass, dedupes, batchSize)
      ensures stats.Shown() == WithTurn(old(stats.Shown()), file, readable, pass.chunks)
    {
      ghost var counts := stats.Shown();
      stats.filesScanned := stats.filesScanned + 1;
      if readable {
        pass := TailReadable(file, size, dedupes, batchSize, stats);
      } else {
        pass := TailUnreadable(file, dedupes, batchSize, stats);
      }
      assert stats.Shown() == WithTurn(counts, file, readable, pass.chunks);
    }

    /**
     The tail loop over the listed files, each of them listed once; a file that cannot be read is
     skipped. Every file may grow until its turn comes.
     */
    method TailUsage(discovered: seq<FileId>, readable: set<FileId>, deduping: set<string>, batchSize: nat,
        stats: CollectStats)
        returns (ghost passes: seq<Pass>)
      requires Valid() && batchSize > 0 && now.phase.Idle?
      requires Listed(discovered, now.files)
      modifies this, disk, state, stats
      ensures Valid() && Tailed(old(now), now, discovered, readable, deduping, batchSize, passes)
      ensures stats.Shown() == WithTail(old(stats.Shown()), discovered, readable, AllChunks(passes))
    {
      passes := [];
      ghost var counts := stats.Shown();
      var listed := disk.files;
      ghost var start := now;
      OffsetsReach(now);
      NothingTailed(start, discovered, readable, deduping, batchSize);
      for i := 0 to |discovered|
        invariant Valid() && Tailed(start, now, discovered[..i], readable, deduping, batchSize, passes)
        invariant stats.Shown() == WithTail(counts, discovered[..i], readable, AllChunks(passes))
      {
        var file := discovered[i];
        ListedSize(start, now, discovered, readable, i);
        ghost var before := now;
        ghost var pass := TailNext(
          file, Size(listed[file]), file in readable, file.source in deduping, batchSize, stats);
        TailedNext(start, before, now, discovered, readable, i, deduping, batchSize, passes, pass);
        CountedNext(counts, discovered, readable, i, passes, pass);
        passes := passes + [pass];
      }
      assert discovered[..|discovered|] == discovered;
    }

    /** One limit source: what it reports is queued as one batch; unavailable or nothing to report, no batch. */
    method PollSource(poll: Option<nat>, stats: CollectStats)
      requires Valid() && now.phase.Idle?
      modifies this, state`queue, state`nextId, stats
      ensures Valid() && now == Polled(old(now), old(now).files, [poll])
      ensures stats.Shown() == WithPolls(old(stats.Shown()), [poll])
    {
      PolledOne(poll);
      if poll.Some? && poll.value > 0 {
        EnqueueLimits();
        stats.batchesEnqueued := stats.batchesEnqueued + 1;
      }
      stats.limitsFound := stats.limitsFound + if poll.Some? then poll.value else 0;
    }

    method EnqueueLimits()
      requires Valid() && now.phase.Idle?
      modifies this, state`queue, state`nextId
      ensures Valid() && now == Apply(old(now), EnqueueOther("limits"))
    {
      ghost var before := state.queue;
      var _ := state.Enqueue(Other("limits"));
      BatchesSnoc(before, state.queue[|before|]);
      ReachableStep(now, EnqueueOther("limits"));
      now := Apply(now, EnqueueOther("limits"));
    }

    /** All limit sources in turn. */
    method PollLimits(polls: seq<Option<nat>>, stats: CollectStats)
      requires Valid() && now.phase.Idle?
      modifies this, state`queue, state`nextId, stats
      ensures Valid() && now == Polled(old(now), old(now).files, polls)
      ensures stats.Shown() == WithPolls(old(stats.Shown()), polls)
    {
      ghost var start, counts := now, stats.Shown();
      for i := 0 to |polls|
        invariant Valid() && now == Polled(start, start.files, polls[..i])
        invariant stats.Shown() == WithPolls(counts, polls[..i])
      {
        PolledNext(start, counts, polls, i);
        PollSource(polls[i], stats);
      }
      assert polls[..|polls|] == polls;
    }

    /** One request with the oldest batch, which stays in the queue. */
    method SendHead(batch: Batch) returns (ok: bool)
      requires Valid() && now.queue != [] && now.queue[0] == batch && now.phase.Idle?
      modifies this, server, uploader`sent
      ensures Valid()
      ensures if ok then now == Apply(old(now), Deliver(true))
        else now == Apply(old(now), Deliver(false)) || now == Apply(old(now), Refuse)
      ensures Requested(old(uploader.sent), uploader.sent, batch, ok)
    {
      DedupePreservesMerge(now.store, BatchEvents(batch));
      ghost var s := now;
      ok := uploader.Send(batch);
      ghost var step := if ok then Deliver(true) else if Wire(server.rows) == s.store then Refuse else Deliver(false);
      ReachableStep(now, step);
      now := Apply(now, step);
    }

    /** One attempt at the oldest batch: it leaves the queue only when the server confirmed it. */
    method UploadHead() returns (ok: bool)
      requires Valid() && now.queue != [] && now.phase.Idle?
      modifies this, state`queue, server, uploader`sent
      ensures Valid() && Attempt(old(now), now, ok)
      ensures Requested(old(uploader.sent), uploader.sent, old(now).queue[0], ok)
      ensures state.queue == if ok then old(state.queue)[1..] else Bumped(old(state.queue), old(state.queue)[0].id)
    {
      var pending := state.Pending(1);
      var batch := pending[0];
      ghost var s := now;
      ok := SendHead(batch.batch);
      ghost var sent := now;
      if ok {
        RemoveHead(batch.id);
      } else {
        RetryLater(batch.id);
      }
      AttemptMade(s, sent, now, ok);
    }

    /** The oldest batch has been confirmed. */
    method RemoveHead(id: nat)
      requires Valid() && now.phase.Acked? && state.queue != [] && id == state.queue[0].id
      modifies this, state`queue
      ensures Valid() && now == Apply(old(now), Dequeue) && state.queue == old(state.queue)[1..]
    {
      state.MarkUploaded(id);
      ReachableStep(now, Dequeue);
      now := Apply(now, Dequeue);
    }

    /** It has not, and stays at the head of the queue. */
    method RetryLater(id: nat)
      requires Valid()
      modifies state`queue
      ensures Valid() && state.queue == Bumped(old(state.queue), id)
    {
      BumpedBatches(state.queue, id);
      state.BumpAttempts(id);
    }

    /** Uploads the oldest batch until one fails or the queue is empty. */
    method Drain(stats: CollectStats) returns (ghost uploaded: nat, ghost failed: nat)
      requires Valid() && now.phase.Idle?
      modifies this, state`queue, server, uploader`sent, stats
      ensures Valid() && Drained(old(now), now, uploaded, failed)
      ensures UploadedSince(old(uploader.sent), uploader.sent, old(now).queue, uploaded, failed)
      ensures stats.Shown() == WithUploads(old(stats.Shown()), uploaded, failed)
    {
      ghost var start, sent, counts := now, uploader.sent, stats.Shown();
      uploaded, failed := 0, 0;
      NothingDrained(start, sent, counts);
      while true
        invariant Valid() && Draining(start, now, sent, uploader.sent, counts, stats.Shown(), uploaded, failed)
        invariant failed == 0
        decreases |now.queue|
      {
        if state.queue == [] {
          return;
        }
        ghost var before, sentBefore, shown := now, uploader.sent, stats.Shown();
        var ok := DrainNext(stats);
        DrainedFurther(start, before, now, sent, sentBefore, uploader.sent, counts, shown, uploaded, ok);
        if !ok {
          failed := 1;
          return;
        }
        uploaded := uploaded + 1;
      }
    }

    /** One attempt, counted. */
    method DrainNext(stats: CollectStats) returns (ok: bool)
      requires Valid() && now.queue != [] && now.phase.Idle?
      modifies this, state`queue, server, uploader`sent, stats
      ensures Valid() && Attempt(old(now), now, ok)
      ensures Requested(old(uploader.sent), uploader.sent, old(now).queue[0], ok)
      ensures stats.Shown() == WithUploads(old(stats.Shown()), if ok then 1 else 0, if ok then 0 else 1)
    {
      ok := UploadHead();
      if ok {
        stats.batchesUploaded := stats.batchesUploaded + 1;
      } else {
        stats.batchesFailed := stats.batchesFailed + 1;
      }
    }

    /** The rest of a cycle: poll the limit sources if it is time, then upload. */
    method PollAndDrain(polls: seq<Option<nat>>, stats: CollectStats)
        returns (ghost uploaded: nat, ghost failed: nat)
      requires Valid() && now.phase.Idle?
      modifies this, disk, state`queue, state`nextId, server, uploader`sent, stats
      ensures Valid() && Extends(old(now).files, now.files)
      ensures Drained(Polled(old(now), now.files, polls), now, uploaded, failed)
      ensures UploadedSince(old(uploader.sent), uploader.sent, old(now).queue + LimitBatches(polls), uploaded, failed)
      ensures stats.Shown() == WithUploads(WithPolls(old(stats.Shown()), polls), uploaded, failed)
    {
      PollLimits(polls, stats);
      Meanwhile();
      uploaded, failed := Drain(stats);
    }

    /**
     One full cycle, from any state a run can have left behind, while the files may grow. The queue is
     uploaded in order until a request fails, and then the rest stays. If the cycle empties the queue,
     then for every key that at its start only files recorded which it has read, the store holds
     what one of the files comes to as far as it has been read, and no file comes to more; nothing the
     files held at the start is missing, and if they did not grow the row is the largest of what they hold.
     */
    method CollectOnce(discovered: seq<FileId>, readable: set<FileId>, deduping: set<string>, batchSize: nat,
        pollLimits: bool, polls: seq<Option<nat>>)
        returns (stats: CollectStats, ghost passes: seq<Pass>, ghost uploaded: nat, ghost failed: nat)
      requires Valid() && batchSize > 0 && now.phase.Idle?
      requires Listed(discovered, now.files)
      modifies this, disk, state, server, uploader`sent
      ensures fresh(stats) && Valid()
      ensures CycleDone(
        old(now), now, discovered, readable, deduping, batchSize, Due(pollLimits, polls), passes, uploaded, failed)
      ensures UploadedSince(
        old(uploader.sent), uploader.sent, CycleQueued(old(now), passes, Due(pollLimits, polls)), uploaded, failed)
      ensures stats.Shown() ==
        WithCycle(NOTHING_COUNTED, discovered, readable, passes, Due(pollLimits, polls), uploaded, failed).(
          queueSize := |now.queue|)
    {
      stats := new CollectStats();
      passes, uploaded, failed :=
        TailAndDrain(discovered, readable, deduping, batchSize, Due(pollLimits, polls), stats);
      stats.queueSize := |state.queue|;
    }

    /** The parts of a cycle in turn. */
    method TailAndDrain(discovered: seq<FileId>, readable: set<FileId>, deduping: set<string>, batchSize: nat,
        polls: seq<Option<nat>>, stats: CollectStats)
        returns (ghost passes: seq<Pass>, ghost uploaded: nat, ghost failed: nat)
      requires Valid() && batchSize > 0 && now.phase.Idle?
      requires Listed(discovered, now.files)
      modifies this, disk, state, server, uploader`sent, stats
      ensures Valid()
      ensures CycleDone(old(now), now, discovered, readable, deduping, batchSize, polls, passes, uploaded, failed)
      ensures UploadedSince(
        old(uploader.sent), uploader.sent, CycleQueued(old(now), passes, polls), uploaded, failed)
      ensures stats.Shown() == WithCycle(old(stats.Shown()), discovered, readable, passes, polls, uploaded, failed)
    {
      ghost var start := now;
      passes := TailUsage(discovered, readable, deduping, batchSize, stats);
      ghost var tailed := now;
      uploaded, failed := PollAndDrain(polls, stats);
      CycleIsDone(start, tailed, polls, now, discovered, readable, deduping, batchSize, passes, uploaded, failed);
    }
  }

  lemma OneMoreRequest(queue: seq<Batch>, sent: seq<Upload>, before: seq<Upload>, after: seq<Upload>, uploaded: nat,
      ok: bool)
    requires UploadedSince(sent, before, queue, uploaded, 0)
    requires uploaded < |queue| && Requested(before, after, queue[uploaded], ok)
    ensures UploadedSince(sent, after, queue, uploaded + (if ok then 1 else 0), if ok then 0 else 1)
  {
    assert forall i :: 0 <= i < |before| ==> after[i] == before[i];
  }

  // ----- what a cycle does to the protocol's state -----

  /** The first `n` chunks have been queued. */
  ghost predicate ChunksQueued(s: State, t: State, chunks: seq<seq<Event>>, n: nat)
    requires n <= |chunks| && s.phase.Tailing?
  {
    && t.phase.Tailing?
    && t.files == s.files && t.offsets == s.offsets && t.store == s.store
    && t.queue == s.queue + EventBatches(chunks)[..n]
    && t.phase == s.phase.(sent := t.phase.sent, chunks := chunks[n..])
    && forall g :: g != s.phase.file ==> SameProgress(s, t, g)
  }

  lemma OneMoreQueued(s: State, t: State, chunks: seq<seq<Event>>, n: nat)
    requires n < |chunks| && s.phase.Tailing? && ChunksQueued(s, t, chunks, n)
    ensures Enabled(t, EnqueueChunk) && t.phase.chunks[0] == chunks[n]
    ensures ChunksQueued(s, Apply(t, EnqueueChunk), chunks, n + 1)
  {
    OthersKeepProgress(s, t, EnqueueChunk, s.phase.file);
    EventBatchAt(chunks, n);
    assert EventBatches(chunks)[..n + 1] == EventBatches(chunks)[..n] + [Events(chunks[n])];
  }

  /** The file has been read to its end, its chunks are queued, and no other file is touched. */
  ghost predicate PassDone(s: State, t: State, file: FileId, chunks: seq<seq<Event>>) {
    && t.files == s.files && t.store == s.store && t.phase.Idle?
    && t.queue == s.queue + EventBatches(chunks)
    && ReadUpTo(t, file, |Content(s, file)|)
    && forall g :: g != file ==> SameProgress(s, t, g)
  }

  lemma PassIsDone(s: State, started: State, sent: State, t: State, file: FileId, chunks: seq<seq<Event>>)
    requires s.phase.Idle? && started == s.(phase := started.phase) && started.phase.Tailing?
    requires started.phase.file == file && started.phase.newOffset == |Content(s, file)|
    requires ChunksQueued(started, sent, chunks, |chunks|)
    requires Enabled(sent, CommitOffset) && t == Apply(sent, CommitOffset)
    ensures PassDone(s, t, file, chunks)
  {
    forall g | g != file ensures SameProgress(s, t, g) {
      assert SameProgress(started, sent, g);
    }
    assert EventBatches(chunks)[..|chunks|] == EventBatches(chunks);
  }

  /** A pass over the bytes of a file between two offsets, and the chunks it queued. */
  datatype Pass = Pass(file: FileId, from: nat, to: nat, chunks: seq<seq<Event>>)

  /** The chunks hold what the parser returns for these bytes, cut to the configured size. */
  predicate WellParsed(files: map<FileId, File>, pass: Pass, dedupes: bool, batchSize: nat) {
    && Chunked(pass.chunks, batchSize) && pass.file in files
    && pass.from <= pass.to <= |files[pass.file].complete|
    && Flatten(pass.chunks) == Parsed(files[pass.file].complete[pass.from..pass.to], dedupes)
  }

  lemma StillParsed(files: map<FileId, File>, later: map<FileId, File>, pass: Pass, dedupes: bool, batchSize: nat)
    requires WellParsed(files, pass, dedupes, batchSize) && Extends(files, later)
    ensures WellParsed(later, pass, dedupes, batchSize)
  {
    var c, d := files[pass.file].complete, later[pass.file].complete;
    assert d[pass.from..pass.to] == c[pass.from..pass.to];
  }

  /** The file whose turn it is, if it can be read. */
  function Taken(file: FileId, readable: bool): set<FileId> {
    if readable then {file} else {}
  }

  /** The file whose turn it is, if it cannot. */
  function Skipped(file: FileId, readable: bool): seq<FileId> {
    if readable then [] else [file]
  }

  /** One file's turn: files have grown, and the file, if it can be read, has been read to its end. */
  ghost predicate Turn(s: State, t: State, file: FileId, readable: bool, pass: Pass) {
    && Extends(s.files, t.files) && t.store == s.store && t.phase.Idle?
    && t.queue == s.queue + EventBatches(pass.chunks) && pass.file == file
    && (if readable then pass.from == Offset(s, file) && pass.to == Offset(t, file) else pass.chunks == [])
    && Progressed(s, t, Taken(file, readable))
  }

  lemma TurnSkipped(s: State, t: State, file: FileId, dedupes: bool, batchSize: nat)
    requires file in s.files && s.phase.Idle? && t == s.(files := t.files) && Extends(s.files, t.files)
    ensures Turn(s, t, file, false, Pass(file, 0, 0, []))
    ensures WellParsed(t.files, Pass(file, 0, 0, []), dedupes, batchSize)
  {
    assert s.queue + [] == s.queue;
    assert t.files[file].complete[0..0] == [];
  }

  lemma TurnTaken(s: State, grown: State, t: State, pass: Pass, dedupes: bool, batchSize: nat)
    requires pass.file in s.files && grown == s.(files := grown.files) && Extends(s.files, grown.files)
    requires PassDone(grown, t, pass.file, pass.chunks) && Chunked(pass.chunks, batchSize)
    requires pass.from == Offset(s, pass.file) <= pass.to == |Content(grown, pass.file)| == Offset(t, pass.file)
    requires Flatten(pass.chunks) == Parsed(Content(grown, pass.file)[pass.from..], dedupes)
    ensures Turn(s, t, pass.file, true, pass) && WellParsed(t.files, pass, dedupes, batchSize)
  {
    OnlyOneProgressed(s, grown, t, pass.file);
    var c := Content(grown, pass.file);
    assert c[pass.from..pass.to] == c[pass.from..];
  }

  function AllChunks(passes: seq<Pass>): seq<seq<Event>> {
    if passes == [] then []
    else AllChunks(passes[..|passes| - 1]) + passes[|passes| - 1].chunks
  }

  /** One pass for each listed file, empty if it cannot be read, otherwise parsed as its source does. */
  predicate Passed(files: map<FileId, File>, discovered: seq<FileId>, readable: set<FileId>, deduping: set<string>,
      batchSize: nat, passes: seq<Pass>)
  {
    && |passes| == |discovered|
    && forall i :: 0 <= i < |passes| ==>
         && passes[i].file == discovered[i]
         && (discovered[i] !in readable ==> passes[i].chunks == [])
         && WellParsed(files, passes[i], discovered[i].source in deduping, batchSize)
  }

  lemma StillPassed(files: map<FileId, File>, later: map<FileId, File>, discovered: seq<FileId>,
      readable: set<FileId>, deduping: set<string>, batchSize: nat, passes: seq<Pass>)
    requires Passed(files, discovered, readable, deduping, batchSize, passes) && Extends(files, later)
    ensures Passed(later, discovered, readable, deduping, batchSize, passes)
  {
    forall i | 0 <= i < |passes| ensures WellParsed(later, passes[i], discovered[i].source in deduping, batchSize) {
      StillParsed(files, later, passes[i], discovered[i].source in deduping, batchSize);
    }
  }

  /** Each pass over a readable file covers exactly the bytes between its old and its new offset. */
  ghost predicate Covered(s: State, t: State, discovered: seq<FileId>, readable: set<FileId>, passes: seq<Pass>) {
    && |passes| == |discovered|
    && forall i :: 0 <= i < |discovered| && discovered[i] in readable ==>
         passes[i].from == Offset(s, discovered[i]) && passes[i].to == Offset(t, discovered[i])
  }

  /** These files have been read at least to the end they had, and what was parsed has been queued. */
  ghost predicate Tailed(s: State, t: State, discovered: seq<FileId>, readable: set<FileId>, deduping: set<string>,
      batchSize: nat, passes: seq<Pass>)
  {
    && Extends(s.files, t.files) && t.store == s.store && t.phase.Idle?
    && t.queue == s.queue + EventBatches(AllChunks(passes))
    && Passed(t.files, discovered, readable, deduping, batchSize, passes)
    && Covered(s, t, discovered, readable, passes)
    && Progressed(s, t, Among(discovered, readable))
  }

  lemma NothingTailed(s: State, discovered: seq<FileId>, readable: set<FileId>, deduping: set<string>, batchSize: nat)
    requires s.phase.Idle?
    ensures Tailed(s, s, discovered[..0], readable, deduping, batchSize, [])
  {
    assert s.queue + [] == s.queue && discovered[..0] == [];
  }

  lemma {:induction false} EventBatchesConcat(a: seq<seq<Event>>, b: seq<seq<Event>>)
    ensures EventBatches(a + b) == EventBatches(a) + EventBatches(b)
    decreases |a|
  {
    if a == [] {
      assert a + b == b;
    } else {
      assert (a + b)[0] == a[0] && (a + b)[1..] == a[1..] + b;
      EventBatchesConcat(a[1..], b);
    }
  }

  lemma AllChunksNext(passes: seq<Pass>, pass: Pass)
    ensures AllChunks(passes + [pass]) == AllChunks(passes) + pass.chunks
  {
    assert (passes + [pass])[..|passes|] == passes;
  }

  lemma OnePassMore(passes: seq<Pass>, pass: Pass)
    ensures EventBatches(AllChunks(passes + [pass])) == EventBatches(AllChunks(passes)) + EventBatches(pass.chunks)
    ensures Flatten(AllChunks(passes + [pass])) == Flatten(AllChunks(passes)) + Flatten(pass.chunks)
  {
    AllChunksNext(passes, pass);
    EventBatchesConcat(AllChunks(passes), pass.chunks);
    FlattenConcat(AllChunks(passes), pass.chunks);
  }

  /** The first `i` files have had their turn, and from `t` to `u` the next one has. */
  ghost predicate TurnFollows(s: State, t: State, u: State, discovered: seq<FileId>, readable: set<FileId>, i: nat,
      deduping: set<string>, batchSize: nat, passes: seq<Pass>, pass: Pass)
  {
    && i < |discovered| && discovered[i] !in Among(discovered[..i], readable)
    && Tailed(s, t, discovered[..i], readable, deduping, batchSize, passes)
    && Turn(t, u, discovered[i], discovered[i] in readable, pass)
    && WellParsed(u.files, pass, discovered[i].source in deduping, batchSize)
  }

  lemma QueuedNext(s: State, t: State, u: State, discovered: seq<FileId>, readable: set<FileId>, i: nat,
      deduping: set<string>, batchSize: nat, passes: seq<Pass>, pass: Pass)
    requires TurnFollows(s, t, u, discovered, readable, i, deduping, batchSize, passes, pass)
    ensures u.queue == s.queue + EventBatches(AllChunks(passes + [pass]))
  {
    OnePassMore(passes, pass);
  }

  lemma AllPassedNext(s: State, t: State, u: State, discovered: seq<FileId>, readable: set<FileId>, i: nat,
      deduping: set<string>, batchSize: nat, passes: seq<Pass>, pass: Pass)
    requires TurnFollows(s, t, u, discovered, readable, i, deduping, batchSize, passes, pass)
    ensures Passed(u.files, discovered[..i + 1], readable, deduping, batchSize, passes + [pass])
  {
    PassedNext(t.files, u.files, discovered, readable, i, deduping, batchSize, passes, pass);
  }

  lemma AllProgressedNext(s: State, t: State, u: State, discovered: seq<FileId>, readable: set<FileId>, i: nat,
      deduping: set<string>, batchSize: nat, passes: seq<Pass>, pass: Pass)
    requires TurnFollows(s, t, u, discovered, readable, i, deduping, batchSize, passes, pass)
    ensures Progressed(s, u, Among(discovered[..i + 1], readable))
  {
    ProgressedNext(s, t, u, discovered, readable, i);
  }

  lemma AllCoveredNext(s: State, t: State, u: State, discovered: seq<FileId>, readable: set<FileId>, i: nat,
      deduping: set<string>, batchSize: nat, passes: seq<Pass>, pass: Pass)
    requires TurnFollows(s, t, u, discovered, readable, i, deduping, batchSize, passes, pass)
    ensures Covered(s, u, discovered[..i + 1], readable, passes + [pass])
  {
    CoveredNext(s, t, u, discovered, readable, i, passes, pass);
  }

  lemma CoveredNext(s: State, t: State, u: State, discovered: seq<FileId>, readable: set<FileId>, i: nat,
      passes: seq<Pass>, pass: Pass)
    requires i < |discovered| && discovered[i] !in Among(discovered[..i], readable)
    requires Covered(s, t, discovered[..i], readable, passes) && Progressed(s, t, Among(discovered[..i], readable))
    requires Turn(t, u, discovered[i], discovered[i] in readable, pass)
    ensures Covered(s, u, discovered[..i + 1], readable, passes + [pass])
  {
    assert SameProgress(s, t, discovered[i]);
    forall j | 0 <= j < i && discovered[j] in readable
      ensures passes[j].from == Offset(s, discovered[j]) && passes[j].to == Offset(u, discovered[j])
    {
      assert discovered[..i][j] == discovered[j];
      assert discovered[j] in Among(discovered[..i], readable);
      assert SameProgress(t, u, discovered[j]);
    }
  }

  lemma TailedNext(s: State, t: State, u: State, discovered: seq<FileId>, readable: set<FileId>, i: nat,
      deduping: set<string>, batchSize: nat, passes: seq<Pass>, pass: Pass)
    requires TurnFollows(s, t, u, discovered, readable, i, deduping, batchSize, passes, pass)
    ensures Tailed(s, u, discovered[..i + 1], readable, deduping, batchSize, passes + [pass])
  {
    ExtendsTransitive(s.files, t.files, u.files);
    QueuedNext(s, t, u, discovered, readable, i, deduping, batchSize, passes, pass);
    AllPassedNext(s, t, u, discovered, readable, i, deduping, batchSize, passes, pass);
    AllCoveredNext(s, t, u, discovered, readable, i, deduping, batchSize, passes, pass);
    AllProgressedNext(s, t, u, discovered, readable, i, deduping, batchSize, passes, pass);
  }

  lemma ProgressedNext(s: State, t: State, u: State, discovered: seq<FileId>, readable: set<FileId>, i: nat)
    requires i < |discovered| && discovered[i] !in Among(discovered[..i], readable) && Extends(s.files, t.files)
    requires Progressed(s, t, Among(discovered[..i], readable))
    requires Progressed(t, u, Taken(discovered[i], discovered[i] in readable))
    ensures Progressed(s, u, Among(discovered[..i + 1], readable))
  {
    AmongNext(discovered, readable, i);
    var read := Taken(discovered[i], discovered[i] in readable);
    ProgressedFurther(s, t, u, Among(discovered[..i], readable), read);
  }

  lemma PassedNext(files: map<FileId, File>, later: map<FileId, File>, discovered: seq<FileId>,
      readable: set<FileId>, i: nat, deduping: set<string>, batchSize: nat, passes: seq<Pass>, pass: Pass)
    requires i < |discovered| && Extends(files, later) && pass.file == discovered[i]
    requires Passed(files, discovered[..i], readable, deduping, batchSize, passes)
    requires WellParsed(later, pass, pass.file.source in deduping, batchSize)
    requires pass.file !in readable ==> pass.chunks == []
    ensures Passed(later, discovered[..i + 1], readable, deduping, batchSize, passes + [pass])
  {
    StillPassed(files, later, discovered[..i], readable, deduping, batchSize, passes);
    assert discovered[..i + 1] == discovered[..i] + [discovered[i]];
  }

  lemma UnreadableNext(discovered: seq<FileId>, readable: set<FileId>, i: nat)
    requires i < |discovered|
    ensures Unreadable(discovered[..i + 1], readable) ==
      Unreadable(discovered[..i], readable) + Skipped(discovered[i], discovered[i] in readable)
  {
    assert discovered[..i + 1][..i] == discovered[..i];
  }

  /** What is counted with one turn more. */
  lemma CountedNext(c: Counts, discovered: seq<FileId>, readable: set<FileId>, i: nat, passes: seq<Pass>, pass: Pass)
    requires i < |discovered|
    ensures WithTail(c, discovered[..i + 1], readable, AllChunks(passes + [pass])) ==
      WithTurn(WithTail(c, discovered[..i], readable, AllChunks(passes)), discovered[i], discovered[i] in readable,
               pass.chunks)
  {
    AllChunksNext(passes, pass);
    FlattenConcat(AllChunks(passes), pass.chunks);
    UnreadableNext(discovered, readable, i);
    var before, file := Unreadable(discovered[..i], readable), discovered[i];
    assert c.unreadableFiles + (before + Skipped(file, file in readable)) ==
           c.unreadableFiles + before + Skipped(file, file in readable);
  }

  /** What one attempt at the head of the queue does; a failed one may have been applied nevertheless. */
  ghost predicate Attempt(s: State, t: State, ok: bool) {
    && s.queue != [] && t == s.(queue := t.queue, store := t.store)
    && t.queue == (if ok then s.queue[1..] else s.queue)
    && var applied := UpsertAll(s.store, BatchEvents(s.queue[0]));
       t.store == applied || (!ok && t.store == s.store)
  }

  lemma AttemptMade(s: State, sent: State, t: State, ok: bool)
    requires s.phase.Idle? && s.queue != []
    requires if ok then sent == Apply(s, Deliver(true)) && t == Apply(sent, Dequeue)
      else t == sent && (sent == Apply(s, Deliver(false)) || sent == Apply(s, Refuse))
    ensures Attempt(s, t, ok)
  {
    DedupePreservesMerge(s.store, BatchEvents(s.queue[0]));
  }

  /** So many batches have left the queue, and so many have been applied, in order. */
  ghost predicate DrainedTo(s: State, t: State, uploaded: nat, applied: nat) {
    && uploaded <= applied <= |s.queue|
    && t == s.(queue := s.queue[uploaded..], store := UpsertAll(s.store, PendingEvents(s.queue[..applied])))
  }

  /**
   The first batches have left the queue and have been applied in order. One attempt failed, applied or
   not, unless nothing is left.
   */
  ghost predicate Drained(s: State, t: State, uploaded: nat, failed: nat) {
    && (DrainedTo(s, t, uploaded, uploaded) || DrainedTo(s, t, uploaded, uploaded + failed))
    && failed == if t.queue == [] then 0 else 1
  }

  /** The limit batches have been queued, and files may have been written. */
  function Polled(s: State, files: map<FileId, File>, polls: seq<Option<nat>>): State {
    s.(files := files, queue := s.queue + LimitBatches(polls))
  }

  /** Where the drain loop is: so many uploaded, and the last attempt failed or not. */
  ghost predicate Draining(s: State, t: State, before: seq<Upload>, after: seq<Upload>, c: Counts, shown: Counts,
      uploaded: nat, failed: nat)
  {
    && (if failed == 0 then DrainedTo(s, t, uploaded, uploaded) else Drained(s, t, uploaded, failed))
    && UploadedSince(before, after, s.queue, uploaded, failed) && shown == WithUploads(c, uploaded, failed)
  }

  lemma NothingDrained(s: State, sent: seq<Upload>, c: Counts)
    ensures Draining(s, s, sent, sent, c, c, 0, 0)
  {
    assert s.queue[0..] == s.queue && s.queue[..0] == [];
  }

  lemma OneMoreDrained(s: State, t: State, u: State, uploaded: nat, ok: bool)
    requires DrainedTo(s, t, uploaded, uploaded) && Attempt(t, u, ok)
    ensures uploaded < |s.queue| && t.queue[0] == s.queue[uploaded]
    ensures ok ==> DrainedTo(s, u, uploaded + 1, uploaded + 1)
    ensures !ok ==> Drained(s, u, uploaded, 1)
  {
    assert s.queue[..uploaded + 1] == s.queue[..uploaded] + [s.queue[uploaded]];
    PendingSnoc(s.queue[..uploaded], s.queue[uploaded]);
    UpsertAllConcat(s.store, PendingEvents(s.queue[..uploaded]), BatchEvents(s.queue[uploaded]));
  }

  lemma DrainedFurther(s: State, t: State, u: State, sent: seq<Upload>, before: seq<Upload>, after: seq<Upload>,
      c: Counts, shown: Counts, uploaded: nat, ok: bool)
    requires Draining(s, t, sent, before, c, shown, uploaded, 0)
    requires Attempt(t, u, ok) && Requested(before, after, t.queue[0], ok)
    ensures var counted := WithUploads(shown, if ok then 1 else 0, if ok then 0 else 1);
      Draining(s, u, sent, after, c, counted, uploaded + (if ok then 1 else 0), if ok then 0 else 1)
  {
    OneMoreDrained(s, t, u, uploaded, ok);
    OneMoreRequest(s.queue, sent, before, after, uploaded, ok);
  }

  /** What the store holds after a cycle that has emptied the queue. */
  ghost predicate ReadDone(s: State, t: State, read: set<FileId>)
    requires Bounded(t)
  {
    && Extends(s.files, t.files) && Progressed(s, t, read)
    && (t.queue == [] ==> forall k :: RecordedOnlyAmong(s.files, read, k) ==>
         && IsLargestRead(t, Lookup(t.store, k), k)
         && (forall f :: f in s.files ==> AtMost(RowIn(s.files[f], k), Lookup(t.store, k)))
         && (s.files == t.files ==> IsLargestRow(t.files, Lookup(t.store, k), k)))
  }

  lemma OffsetsReach(s: State)
    requires Reachable(s)
    ensures Bounded(s)
  {
    ReachableKeepsInv(s);
  }

  /** A cycle: the tail loop from `s` to `tailed`, then polling and uploading. */
  ghost predicate CycleRuns(s: State, tailed: State, polls: seq<Option<nat>>, t: State, discovered: seq<FileId>,
      readable: set<FileId>, deduping: set<string>, batchSize: nat, passes: seq<Pass>, uploaded: nat, failed: nat)
  {
    && Tailed(s, tailed, discovered, readable, deduping, batchSize, passes)
    && Extends(tailed.files, t.files) && Drained(Polled(tailed, t.files, polls), t, uploaded, failed)
  }

  lemma CycleProgress(s: State, tailed: State, polls: seq<Option<nat>>, t: State, discovered: seq<FileId>,
      readable: set<FileId>, deduping: set<string>, batchSize: nat, passes: seq<Pass>, uploaded: nat, failed: nat)
    requires CycleRuns(s, tailed, polls, t, discovered, readable, deduping, batchSize, passes, uploaded, failed)
    ensures Extends(s.files, t.files) && Progressed(s, t, Among(discovered, readable))
  {
    var read := Among(discovered, readable);
    ExtendsTransitive(s.files, tailed.files, t.files);
    assert forall f :: SameProgress(tailed, t, f);
    ProgressedFurther(s, tailed, t, read, {});
    assert read + {} == read;
  }

  lemma CycleQueue(s: State, tailed: State, polls: seq<Option<nat>>, t: State, discovered: seq<FileId>,
      readable: set<FileId>, deduping: set<string>, batchSize: nat, passes: seq<Pass>, uploaded: nat, failed: nat)
    requires CycleRuns(s, tailed, polls, t, discovered, readable, deduping, batchSize, passes, uploaded, failed)
    ensures tailed.queue + LimitBatches(polls) == CycleQueued(s, passes, polls)
    ensures uploaded <= |CycleQueued(s, passes, polls)| && t.queue == CycleQueued(s, passes, polls)[uploaded..]
    ensures failed == if t.queue == [] then 0 else 1
  {
  }

  /** Everything that has been in the queue during the cycle, oldest first. */
  function CycleQueued(s: State, passes: seq<Pass>, polls: seq<Option<nat>>): seq<Batch> {
    s.queue + EventBatches(AllChunks(passes)) + LimitBatches(polls)
  }

  /**
   What a cycle has done: parsed exactly the new bytes of the readable files and queued what it found there
   and from the limit sources; uploaded the first batches of the queue, so that either nothing is left or
   one attempt failed; and if nothing is left, the store holds what the files come to.
   */
  ghost predicate CycleDone(s: State, t: State, discovered: seq<FileId>, readable: set<FileId>,
      deduping: set<string>, batchSize: nat, polls: seq<Option<nat>>, passes: seq<Pass>, uploaded: nat, failed: nat)
  {
    && t.phase.Idle? && Bounded(t) && ReadDone(s, t, Among(discovered, readable))
    && Passed(t.files, discovered, readable, deduping, batchSize, passes)
    && Covered(s, t, discovered, readable, passes)
    && uploaded <= |CycleQueued(s, passes, polls)| && t.queue == CycleQueued(s, passes, polls)[uploaded..]
    && failed == if t.queue == [] then 0 else 1
  }

  lemma CycleIsDone(s: State, tailed: State, polls: seq<Option<nat>>, t: State, discovered: seq<FileId>,
      readable: set<FileId>, deduping: set<string>, batchSize: nat, passes: seq<Pass>, uploaded: nat, failed: nat)
    requires Reachable(s) && Reachable(t)
    requires CycleRuns(s, tailed, polls, t, discovered, readable, deduping, batchSize, passes, uploaded, failed)
    ensures CycleDone(s, t, discovered, readable, deduping, batchSize, polls, passes, uploaded, failed)
    ensures tailed.queue + LimitBatches(polls) == CycleQueued(s, passes, polls)
  {
    CycleProgress(s, tailed, polls, t, discovered, readable, deduping, batchSize, passes, uploaded, failed);
    CycleQueue(s, tailed, polls, t, discovered, readable, deduping, batchSize, passes, uploaded, failed);
    StillPassed(tailed.files, t.files, discovered, readable, deduping, batchSize, passes);
    ReadCycleDone(s, t, Among(discovered, readable));
  }

  lemma ReadCycleDone(s: State, t: State, read: set<FileId>)
    requires Reachable(s) && Reachable(t) && Extends(s.files, t.files) && Progressed(s, t, read)
    ensures Bounded(t) && ReadDone(s, t, read)
  {
    ReachableKeepsInv(s);
    ReachableKeepsInv(t);
    if t.queue == [] {
      CycleStores(s, t, read);
    }
  }

  // ----- what a cycle does -----

  /** The listed files that cannot be read, in order. */
  function Unreadable(discovered: seq<FileId>, readable: set<FileId>): (r: seq<FileId>)
    ensures forall f :: f in r <==> f in discovered && f !in readable
  {
    if discovered == [] then []
    else
      var last := discovered[|discovered| - 1];
      Unreadable(discovered[..|discovered| - 1], readable) + Skipped(last, last in readable)
  }

  /** The limit sources have a slower rhythm of their own. */
  function Due(pollLimits: bool, polls: seq<Option<nat>>): seq<Option<nat>> {
    if pollLimits then polls else []
  }

  /** What one limit source adds to the queue; `None` if it is unavailable. */
  function LimitBatch(poll: Option<nat>): seq<Batch> {
    if poll.Some? && poll.value > 0 then [Other("limits")] else []
  }

  function LimitBatches(polls: seq<Option<nat>>): seq<Batch> {
    if polls == [] then [] else LimitBatches(polls[..|polls| - 1]) + LimitBatch(polls[|polls| - 1])
  }

  function Snapshots(polls: seq<Option<nat>>): nat {
    if polls == [] then 0
    else
      var last := polls[|polls| - 1];
      Snapshots(polls[..|polls| - 1]) + (if last.Some? then last.value else 0)
  }

  lemma PolledOne(poll: Option<nat>)
    ensures LimitBatches([poll]) == LimitBatch(poll) && Snapshots([poll]) == if poll.Some? then poll.value else 0
  {
    assert [poll][..0] == [];
  }

  lemma LimitBatchesNext(polls: seq<Option<nat>>, i: nat)
    requires i < |polls|
    ensures LimitBatches(polls[..i + 1]) == LimitBatches(polls[..i]) + LimitBatches([polls[i]])
    ensures Snapshots(polls[..i + 1]) == Snapshots(polls[..i]) + Snapshots([polls[i]])
  {
    assert polls[..i + 1][..i] == polls[..i];
    PolledOne(polls[i]);
  }

  lemma PolledNext(s: State, c: Counts, polls: seq<Option<nat>>, i: nat)
    requires i < |polls|
    ensures Polled(s, s.files, polls[..i + 1]) == Polled(Polled(s, s.files, polls[..i]), s.files, [polls[i]])
    ensures WithPolls(c, polls[..i + 1]) == WithPolls(WithPolls(c, polls[..i]), [polls[i]])
  {
    var before, one := LimitBatches(polls[..i]), LimitBatches([polls[i]]);
    LimitBatchesNext(polls, i);
    assert s.queue + (before + one) == s.queue + before + one;
  }

  // ----- what a cycle reads -----

  /** The listed files that can be read. */
  function Among(discovered: seq<FileId>, readable: set<FileId>): (r: set<FileId>)
    ensures forall f :: f in r <==> f in discovered && f in readable
  {
    set f | f in discovered && f in readable
  }

  lemma AmongNext(discovered: seq<FileId>, readable: set<FileId>, i: nat)
    requires i < |discovered|
    ensures Among(discovered[..i + 1], readable) ==
      Among(discovered[..i], readable) + Taken(discovered[i], discovered[i] in readable)
  {
    assert discovered[..i + 1] == discovered[..i] + [discovered[i]];
  }

  /** What a source lists: files that exist, each of them once. */
  predicate Listed(discovered: seq<FileId>, files: map<FileId, File>) {
    && (forall i :: 0 <= i < |discovered| ==> discovered[i] in files)
    && (forall i, j :: 0 <= i < j < |discovered| ==> discovered[i] != discovered[j])
  }

  /** A file whose turn has not come has been read no further than the size it was listed with. */
  lemma ListedSize(s: State, t: State, discovered: seq<FileId>, readable: set<FileId>, i: nat)
    requires Bounded(s) && i < |discovered| && Listed(discovered, s.files) && Extends(s.files, t.files)
    requires Progressed(s, t, Among(discovered[..i], readable))
    ensures discovered[i] !in Among(discovered[..i], readable) && discovered[i] in s.files && discovered[i] in t.files
    ensures Offset(t, discovered[i]) <= Size(s.files[discovered[i]])
  {
    var f := discovered[i];
    assert f !in discovered[..i];
    assert SameProgress(s, t, f);
    assert Offset(s, f) <= |Content(s, f)|;
  }

  /** One file is read to its end after the files have grown. */
  lemma OnlyOneProgressed(s: State, t: State, u: State, f: FileId)
    requires Extends(s.files, t.files) && f in s.files && t == s.(files := t.files)
    requires ReadUpTo(u, f, |Content(t, f)|) && forall g :: g != f ==> SameProgress(t, u, g)
    ensures Progressed(s, u, {f})
  {
    forall g | g != f ensures SameProgress(s, u, g) {
      assert SameProgress(t, u, g);
    }
  }

  /** What a cycle that empties the queue leaves in the store, for every key. */
  lemma CycleStores(s: State, t: State, read: set<FileId>)
    requires Inv(s) && Inv(t) && t.queue == [] && Extends(s.files, t.files) && Progressed(s, t, read)
    ensures forall k :: RecordedOnlyAmong(s.files, read, k) ==>
      && IsLargestRead(t, Lookup(t.store, k), k)
      && (forall f :: f in s.files ==> AtMost(RowIn(s.files[f], k), Lookup(t.store, k)))
      && (s.files == t.files ==> IsLargestRow(t.files, Lookup(t.store, k), k))
  {
    forall k | RecordedOnlyAmong(s.files, read, k)
      ensures IsLargestRead(t, Lookup(t.store, k), k)
      ensures forall f :: f in s.files ==> AtMost(RowIn(s.files[f], k), Lookup(t.store, k))
      ensures s.files == t.files ==> IsLargestRow(t.files, Lookup(t.store, k), k)
    {
      CycleStore(s, t, read, k);
    }
  }
}
