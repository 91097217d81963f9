/**
 The collector's delivery protocol as a transition system.

 Every database commit of the collector, every request it sends and every way it can
 stop between two of them is one step. Files only grow; the server is free to refuse,
 to apply a batch without the acknowledgement arriving, or to apply and acknowledge it.
 */
module CollectorProtocol {
  import opened Sequences
  import opened Wrappers
  import opened KeepMax

  datatype FileId = FileId(source: string, path: string)

  /**
   A file on disk. `complete` has one entry per byte up to the last newline; the entry is
   `Some(e)` at the byte that ends the record of event `e`. `unfinished` counts the bytes of
   the line still being written, which a parse pass leaves alone.
   */
  datatype File = File(complete: seq<Option<Event>>, unfinished: nat)

  function Records(bytes: seq<Option<Event>>): seq<Event> {
    if bytes == [] then []
    else (if bytes[0].Some? then [bytes[0].value] else []) + Records(bytes[1..])
  }

  /** A queued upload. Batches of other kinds never touch the event table. */
  datatype Batch = Events(events: seq<Event>) | Other(kind: string)

  function BatchEvents(b: Batch): seq<Event> {
    if b.Events? then b.events else []
  }

  /** What the running process remembers between two commits; lost when it stops. */
  datatype Phase =
    | Idle
    | Tailing(file: FileId, dedupes: bool, sent: seq<Event>, chunks: seq<seq<Event>>, newOffset: nat)
    | Acked

  /**
   `unsettled` is an auxiliary variable: the events enqueued for a file since its offset was
   last committed. It is empty exactly when no unfinished pass has left batches behind.
   */
  datatype State = State(
    files: map<FileId, File>,
    offsets: map<FileId, nat>,
    queue: seq<Batch>,
    store: Store,
    phase: Phase,
    unsettled: map<FileId, seq<Event>>)

  const INITIAL := State(map[], map[], [], map[], Idle, map[])

  function Content(s: State, f: FileId): seq<Option<Event>> {
    if f in s.files then s.files[f].complete else []
  }

  function Offset(s: State, f: FileId): nat {
    if f in s.offsets then s.offsets[f] else 0
  }

  function Unsettled(s: State, f: FileId): seq<Event> {
    if f in s.unsettled then s.unsettled[f] else []
  }

  /** Where a pass resumes: from the start when the file is shorter than the stored offset. */
  function ResumeOffset(stored: Option<nat>, size: nat): nat {
    if stored.None? then 0
    else if size < stored.value then 0
    else stored.value
  }

  function Size(file: File): nat {
    |file.complete| + file.unfinished
  }

  /** What a parse pass returns: the new records, deduplicated within the pass by sources that do so. */
  function Parsed(bytes: seq<Option<Event>>, dedupes: bool): seq<Event> {
    if dedupes then Deduped(Records(bytes)) else Records(bytes)
  }

  datatype Step =
    | Grow(file: FileId, more: seq<Option<Event>>, unfinished: nat)
    | StartPass(file: FileId, dedupes: bool, chunks: seq<seq<Event>>)
    | EnqueueChunk
    | CommitOffset
    | EnqueueOther(kind: string)
    | Crash
    | Refuse
    | Deliver(acked: bool)
    | Dequeue

  predicate Enabled(s: State, step: Step) {
    match step
    case Grow(_, _, _) => true
    case StartPass(f, dedupes, chunks) =>
      && s.phase.Idle? && f in s.files
      && var stored := if f in s.offsets then Some(s.offsets[f]) else None;
         var from := ResumeOffset(stored, Size(s.files[f]));
         from <= |s.files[f].complete| && Flatten(chunks) == Parsed(s.files[f].complete[from..], dedupes)
    case EnqueueChunk => s.phase.Tailing? && s.phase.chunks != []
    case CommitOffset => s.phase.Tailing? && s.phase.chunks == []
    case EnqueueOther(_) => s.phase.Idle?
    case Crash => true
    case Refuse => s.phase.Idle? && s.queue != []
    case Deliver(_) => s.phase.Idle? && s.queue != []
    case Dequeue => s.phase.Acked? && s.queue != []
  }

  function Apply(s: State, step: Step): State
    requires Enabled(s, step)
  {
    match step
    case Grow(f, more, unfinished) => s.(files := s.files[f := File(Content(s, f) + more, unfinished)])
    case StartPass(f, dedupes, chunks) => s.(phase := Tailing(f, dedupes, [], chunks, |s.files[f].complete|))
    case EnqueueChunk =>
      var p := s.phase;
      s.(queue := s.queue + [Events(p.chunks[0])],
         phase := p.(sent := p.sent + p.chunks[0], chunks := p.chunks[1..]),
         unsettled := s.unsettled[p.file := Unsettled(s, p.file) + p.chunks[0]])
    case CommitOffset =>
      s.(offsets := s.offsets[s.phase.file := s.phase.newOffset],
         unsettled := s.unsettled[s.phase.file := []],
         phase := Idle)
    case EnqueueOther(kind) => s.(queue := s.queue + [Other(kind)])
    case Crash => s.(phase := Idle)
    case Refuse => s
    case Deliver(acked) =>
      s.(store := IngestBatch(s.store, BatchEvents(s.queue[0])), phase := if acked then Acked else Idle)
    case Dequeue => s.(queue := s.queue[1..], phase := Idle)
  }

  /** A run: each step is enabled in the state its predecessors leave. */
  predicate Runs(s: State, steps: seq<Step>)
    decreases |steps|
  {
    steps == [] || (Enabled(s, steps[0]) && Runs(Apply(s, steps[0]), steps[1..]))
  }

  function Exec(s: State, steps: seq<Step>): State
    requires Runs(s, steps)
    decreases |steps|
  {
    if steps == [] then s else Exec(Apply(s, steps[0]), steps[1..])
  }

  lemma {:induction false} RunsExtend(s: State, steps: seq<Step>, step: Step)
    requires Runs(s, steps) && Enabled(Exec(s, steps), step)
    ensures Runs(s, steps + [step])
    ensures Exec(s, steps + [step]) == Apply(Exec(s, steps), step)
    decreases |steps|
  {
    if steps == [] {
      assert steps + [step] == [step] && [step][1..] == [];
    } else {
      assert (steps + [step])[0] == steps[0] && (steps + [step])[1..] == steps[1..] + [step];
      RunsExtend(Apply(s, steps[0]), steps[1..], step);
    }
  }

  /** A run from `s` that ends in `t`. */
  predicate Leads(s: State, steps: seq<Step>, t: State) {
    Runs(s, steps) && Exec(s, steps) == t
  }

  lemma LeadsStep(s: State, steps: seq<Step>, t: State, step: Step)
    requires Leads(s, steps, t) && Enabled(t, step)
    ensures Leads(s, steps + [step], Apply(t, step))
  {
    RunsExtend(s, steps, step);
  }

  lemma {:induction false} RunsCompose(s: State, a: seq<Step>, b: seq<Step>)
    requires Runs(s, a) && Runs(Exec(s, a), b)
    ensures Runs(s, a + b)
    ensures Exec(s, a + b) == Exec(Exec(s, a), b)
    decreases |a|
  {
    if a == [] {
      assert a + b == b;
    } else {
      assert (a + b)[0] == a[0] && (a + b)[1..] == a[1..] + b;
      RunsCompose(Apply(s, a[0]), a[1..], b);
    }
  }

  lemma LeadsCompose(s: State, a: seq<Step>, t: State, b: seq<Step>, u: State)
    requires Leads(s, a, t) && Leads(t, b, u)
    ensures Leads(s, a + b, u)
  {
    RunsCompose(s, a, b);
  }

  /** A complete pass of one file: start, enqueue every chunk, commit the offset. */
  lemma PassLeads(s: State, f: FileId, dedupes: bool, chunks: seq<seq<Event>>, more: seq<Step>, t: State)
    requires Enabled(s, StartPass(f, dedupes, chunks))
    requires Leads(Apply(s, StartPass(f, dedupes, chunks)), more, t) && Enabled(t, CommitOffset)
    ensures Leads(s, [StartPass(f, dedupes, chunks)] + more + [CommitOffset], Apply(t, CommitOffset))
  {
    var start := StartPass(f, dedupes, chunks);
    LeadsStep(s, [], s, start);
    assert [] + [start] == [start];
    LeadsCompose(s, [start], Apply(s, start), more, t);
    LeadsStep(s, [start] + more, t, CommitOffset);
  }

  // ----- the invariant -----

  function PendingEvents(queue: seq<Batch>): seq<Event> {
    if queue == [] then [] else BatchEvents(queue[0]) + PendingEvents(queue[1..])
  }

  /** The store once everything queued has been delivered. */
  function Promised(s: State): Store {
    UpsertAll(s.store, PendingEvents(s.queue))
  }

  /** No committed offset is beyond the end of its file. */
  ghost predicate Bounded(s: State) {
    forall f :: Offset(s, f) <= |Content(s, f)|
  }

  /** The records below a file's committed offset. */
  function Below(s: State, f: FileId): seq<Event>
    requires Offset(s, f) <= |Content(s, f)|
  {
    Records(Content(s, f)[..Offset(s, f)])
  }

  /** What the file would contribute on its own: its committed records, then the unsettled ones. */
  function Share(s: State, f: FileId): Store
    requires Offset(s, f) <= |Content(s, f)|
  {
    UpsertAll(map[], Below(s, f) + Unsettled(s, f))
  }

  predicate AtMost(a: Option<Event>, b: Option<Event>) {
    a.Some? ==> b.Some? && a.value.output <= b.value.output
  }

  /** The row is what one of the files contributes for the key, and none contributes a larger one. */
  ghost predicate IsLargestShare(s: State, row: Option<Event>, k: Key)
    requires Bounded(s)
  {
    && (forall f :: AtMost(Lookup(Share(s, f), k), row))
    && (row.Some? ==> exists f :: Lookup(Share(s, f), k) == row)
  }

  ghost predicate Represented(s: State)
    requires Bounded(s)
  {
    forall k :: IsLargestShare(s, Lookup(Promised(s), k), k)
  }

  /** Everything unsettled will be read again by the next pass of its file. */
  ghost predicate Replayable(s: State)
    requires Bounded(s)
  {
    forall f :: AllIn(Unsettled(s, f), Records(Content(s, f)[Offset(s, f)..]))
  }

  predicate EndsWith(es: seq<Event>, tail: seq<Event>) {
    |tail| <= |es| && es[|es| - |tail|..] == tail
  }

  lemma EndsWithAppend(es: seq<Event>, tail: seq<Event>, more: seq<Event>)
    requires EndsWith(es, tail)
    ensures EndsWith(es + more, tail + more)
  {
    assert (es + more)[|es| - |tail|..] == es[|es| - |tail|..] + more;
  }

  /** A pass over the bytes between two offsets: what it has sent ends what is unsettled. */
  predicate TailingInv(content: seq<Option<Event>>, offset: nat, p: Phase, unsettled: seq<Event>)
    requires p.Tailing?
  {
    && offset <= p.newOffset <= |content|
    && p.sent + Flatten(p.chunks) == Parsed(content[offset..p.newOffset], p.dedupes)
    && AllIn(unsettled, Records(content[offset..p.newOffset]))
    && EndsWith(unsettled, p.sent)
  }

  ghost predicate PhaseInv(s: State) {
    match s.phase
    case Idle => true
    case Acked => s.queue != [] && UpsertAll(s.store, BatchEvents(s.queue[0])) == s.store
    case Tailing(f, _, _, _, _) => TailingInv(Content(s, f), Offset(s, f), s.phase, Unsettled(s, f))
  }

  ghost predicate Inv(s: State) {
    Bounded(s) && Replayable(s) && Represented(s) && PhaseInv(s)
  }

  // ----- facts about records and queues -----

  lemma {:induction false} RecordsConcat(a: seq<Option<Event>>, b: seq<Option<Event>>)
    ensures Records(a + b) == Records(a) + Records(b)
    decreases |a|
  {
    if a == [] {
      assert a + b == b;
    } else {
      assert (a + b)[0] == a[0] && (a + b)[1..] == a[1..] + b;
      RecordsConcat(a[1..], b);
    }
  }

  lemma RecordsOfSlice(c: seq<Option<Event>>, i: nat, j: nat)
    requires i <= j <= |c|
    ensures AllIn(Records(c[i..j]), Records(c[i..])) && AllIn(Records(c[i..]), Records(c))
  {
    var tail := c[i..];
    assert tail[..j - i] == c[i..j] && tail[j - i..] == c[j..];
    RecordsConcat(tail[..j - i], tail[j - i..]);
    assert tail == tail[..j - i] + tail[j - i..];
    assert c == c[..i] + c[i..];
    RecordsConcat(c[..i], c[i..]);
  }

  lemma {:induction false} PendingConcat(a: seq<Batch>, b: seq<Batch>)
    ensures PendingEvents(a + b) == PendingEvents(a) + PendingEvents(b)
    decreases |a|
  {
    if a == [] {
      assert a + b == b;
    } else {
      assert (a + b)[0] == a[0] && (a + b)[1..] == a[1..] + b;
      PendingConcat(a[1..], b);
    }
  }

  lemma PendingSnoc(queue: seq<Batch>, b: Batch)
    ensures PendingEvents(queue + [b]) == PendingEvents(queue) + BatchEvents(b)
  {
    PendingConcat(queue, [b]);
    assert [b][1..] == [] && PendingEvents([b]) == BatchEvents(b);
  }

  lemma DedupedEventsAreEvents(es: seq<Event>)
    ensures AllIn(Deduped(es), es)
  {
    DedupeMeaning(es);
  }

  lemma ParsedEventsAreRecords(bytes: seq<Option<Event>>, dedupes: bool)
    ensures AllIn(Parsed(bytes, dedupes), Records(bytes))
  {
    DedupedEventsAreEvents(Records(bytes));
  }

  lemma ParsedEventsFoldAlike(s: Store, bytes: seq<Option<Event>>, dedupes: bool)
    ensures UpsertAll(s, Parsed(bytes, dedupes)) == UpsertAll(s, Records(bytes))
  {
    DedupePreservesMerge(s, Records(bytes));
  }

  lemma SettledShare(s: State, f: FileId)
    requires Offset(s, f) <= |Content(s, f)| && Unsettled(s, f) == []
    ensures Share(s, f) == UpsertAll(map[], Below(s, f))
  {
    assert Below(s, f) + [] == Below(s, f);
  }

  /** When neither the promise nor any file's share changes, the promise still represents the shares. */
  lemma StillRepresented(s: State, s': State)
    requires Bounded(s) && Represented(s) && Bounded(s')
    requires Promised(s') == Promised(s) && forall f :: Share(s', f) == Share(s, f)
    ensures Represented(s')
  {
    forall k ensures IsLargestShare(s', Lookup(Promised(s'), k), k) {
      var row := Lookup(Promised(s), k);
      assert IsLargestShare(s, row, k);
      if row.Some? {
        var f :| Lookup(Share(s, f), k) == row;
        assert Lookup(Share(s', f), k) == row;
      }
    }
  }

  /** Joining the same row to two keeps their order. */
  lemma JoinKeepsAtMost(a: Option<Event>, b: Option<Event>, more: Option<Event>)
    requires AtMost(a, b)
    ensures AtMost(a, Join(b, more)) && AtMost(Join(a, more), Join(b, more))
    ensures Join(b, more) == b || Join(b, more) == Join(a, more)
  {
  }

  /** Adding the same events to the promise and to the share of one file keeps the promise the largest share. */
  lemma LargestAfterMore(s: State, s': State, f: FileId, row: Option<Event>, more: Option<Event>, k: Key)
    requires Bounded(s) && IsLargestShare(s, row, k) && Bounded(s')
    requires forall g :: Lookup(Share(s', g), k) == if g == f then Join(Lookup(Share(s, g), k), more)
      else Lookup(Share(s, g), k)
    ensures IsLargestShare(s', Join(row, more), k)
  {
    forall g ensures AtMost(Lookup(Share(s', g), k), Join(row, more)) {
      JoinKeepsAtMost(Lookup(Share(s, g), k), row, more);
    }
    if Join(row, more).Some? {
      JoinKeepsAtMost(Lookup(Share(s, f), k), row, more);
      if Join(row, more) != Lookup(Share(s', f), k) {
        var g :| Lookup(Share(s, g), k) == row;
        assert Lookup(Share(s', g), k) == row;
      }
    }
  }

  // ----- each step keeps the invariant -----

  /** Shares depend on files, offsets and unsettled events alone. */
  lemma SharesKept(s: State, s': State)
    requires Bounded(s) && Replayable(s)
    requires s'.files == s.files && s'.offsets == s.offsets && s'.unsettled == s.unsettled
    ensures Bounded(s') && Replayable(s') && forall f :: Share(s', f) == Share(s, f)
  {
    forall f
      ensures Offset(s', f) <= |Content(s', f)| && Share(s', f) == Share(s, f)
      ensures AllIn(Unsettled(s', f), Records(Content(s', f)[Offset(s', f)..]))
    {
      assert Content(s', f) == Content(s, f) && Offset(s', f) == Offset(s, f);
      assert AllIn(Unsettled(s, f), Records(Content(s, f)[Offset(s, f)..]));
    }
  }

  lemma GrowKeepsShare(s: State, step: Step, g: FileId)
    requires Bounded(s) && step.Grow?
    ensures var s' := Apply(s, step); Offset(s', g) <= |Content(s', g)| && Share(s', g) == Share(s, g)
  {
    var s', c, o := Apply(s, step), Content(s, g), Offset(s, g);
    assert Content(s', g)[..o] == c[..o];
  }

  lemma GrowKeepsReplayable(s: State, step: Step, g: FileId)
    requires Bounded(s) && Replayable(s) && step.Grow?
    ensures var s' := Apply(s, step);
      && Offset(s', g) <= |Content(s', g)|
      && AllIn(Unsettled(s', g), Records(Content(s', g)[Offset(s', g)..]))
  {
    var c, o := Content(s, g), Offset(s, g);
    assert AllIn(Unsettled(s, g), Records(c[o..]));
    if g == step.file {
      assert (c + step.more)[o..] == c[o..] + step.more;
      RecordsConcat(c[o..], step.more);
    }
  }

  lemma GrowKeepsPhase(s: State, step: Step)
    requires PhaseInv(s) && step.Grow?
    ensures PhaseInv(Apply(s, step))
  {
    if s.phase.Tailing? && s.phase.file == step.file {
      var c, o, n := Content(s, step.file), Offset(s, step.file), s.phase.newOffset;
      assert (c + step.more)[o..n] == c[o..n];
    }
  }

  lemma GrowKeepsInv(s: State, step: Step)
    requires Inv(s) && step.Grow?
    ensures Inv(Apply(s, step))
  {
    var s' := Apply(s, step);
    forall g
      ensures Offset(s', g) <= |Content(s', g)| && Share(s', g) == Share(s, g)
      ensures AllIn(Unsettled(s', g), Records(Content(s', g)[Offset(s', g)..]))
    {
      GrowKeepsShare(s, step, g);
      GrowKeepsReplayable(s, step, g);
    }
    StillRepresented(s, s');
    GrowKeepsPhase(s, step);
  }

  lemma StartPassKeepsInv(s: State, step: Step)
    requires Inv(s) && step.StartPass? && Enabled(s, step)
    ensures Inv(Apply(s, step))
  {
    var s', f := Apply(s, step), step.file;
    var c, o := Content(s, f), Offset(s, f);
    assert o <= |c| && AllIn(Unsettled(s, f), Records(c[o..]));
    assert c[o..|c|] == c[o..];
    assert [] + Flatten(step.chunks) == Flatten(step.chunks);
    assert EndsWith(Unsettled(s, f), []);
    SharesKept(s, s');
    StillRepresented(s, s');
  }

  /** The next chunk of a pass consists of records between the committed and the new offset. */
  lemma ChunkIsRead(s: State)
    requires PhaseInv(s) && Enabled(s, EnqueueChunk)
    ensures var p := s.phase;
      && Offset(s, p.file) <= p.newOffset <= |Content(s, p.file)|
      && AllIn(p.chunks[0], Records(Content(s, p.file)[Offset(s, p.file)..p.newOffset]))
      && AllIn(p.chunks[0], Records(Content(s, p.file)[Offset(s, p.file)..]))
  {
    var p := s.phase;
    var chunk, c, o := p.chunks[0], Content(s, p.file), Offset(s, p.file);
    ParsedEventsAreRecords(c[o..p.newOffset], p.dedupes);
    assert AllIn(chunk, p.sent + (chunk + Flatten(p.chunks[1..])));
    RecordsOfSlice(c, o, p.newOffset);
  }

  lemma EnqueueChunkPromise(s: State)
    requires Enabled(s, EnqueueChunk)
    ensures Promised(Apply(s, EnqueueChunk)) == UpsertAll(Promised(s), s.phase.chunks[0])
  {
    var chunk := s.phase.chunks[0];
    PendingSnoc(s.queue, Events(chunk));
    UpsertAllConcat(s.store, PendingEvents(s.queue), chunk);
  }

  lemma EnqueueChunkShare(s: State, g: FileId)
    requires Bounded(s) && Enabled(s, EnqueueChunk)
    ensures var s', f, chunk := Apply(s, EnqueueChunk), s.phase.file, s.phase.chunks[0];
      Offset(s', g) <= |Content(s', g)| && Share(s', g) == if g == f then UpsertAll(Share(s, f), chunk) else Share(s, g)
  {
    var s', chunk, below, u := Apply(s, EnqueueChunk), s.phase.chunks[0], Below(s, g), Unsettled(s, g);
    assert Below(s', g) == below;
    if g == s.phase.file {
      UpsertAllConcat(map[], below + u, chunk);
      assert below + (u + chunk) == (below + u) + chunk;
      assert Unsettled(s', g) == u + chunk;
    } else {
      assert Unsettled(s', g) == u;
    }
  }

  /** The next chunk goes out: what has been sent still ends what is unsettled. */
  lemma TailingNext(content: seq<Option<Event>>, offset: nat, p: Phase, unsettled: seq<Event>)
    requires p.Tailing? && p.chunks != [] && TailingInv(content, offset, p, unsettled)
    requires AllIn(p.chunks[0], Records(content[offset..p.newOffset]))
    ensures TailingInv(content, offset, p.(sent := p.sent + p.chunks[0], chunks := p.chunks[1..]), unsettled +
      p.chunks[0])
  {
    var chunk, rest := p.chunks[0], Flatten(p.chunks[1..]);
    assert (p.sent + chunk) + rest == p.sent + (chunk + rest);
    EndsWithAppend(unsettled, p.sent, chunk);
  }

  lemma EnqueueChunkKeepsPhase(s: State)
    requires Bounded(s) && PhaseInv(s) && Enabled(s, EnqueueChunk)
    ensures PhaseInv(Apply(s, EnqueueChunk))
  {
    var f := s.phase.file;
    ChunkIsRead(s);
    TailingNext(Content(s, f), Offset(s, f), s.phase, Unsettled(s, f));
  }

  lemma EnqueueChunkReplayable(s: State, g: FileId)
    requires Bounded(s) && Replayable(s) && Enabled(s, EnqueueChunk)
    requires AllIn(s.phase.chunks[0], Records(Content(s, s.phase.file)[Offset(s, s.phase.file)..]))
    ensures var s' := Apply(s, EnqueueChunk);
      Offset(s', g) <= |Content(s', g)| && AllIn(Unsettled(s', g), Records(Content(s', g)[Offset(s', g)..]))
  {
    var s' := Apply(s, EnqueueChunk);
    assert AllIn(Unsettled(s, g), Records(Content(s, g)[Offset(s, g)..]));
    assert Unsettled(s', g) == if g == s.phase.file then Unsettled(s, g) + s.phase.chunks[0] else Unsettled(s, g);
  }

  lemma EnqueueChunkKeepsInv(s: State)
    requires Inv(s) && Enabled(s, EnqueueChunk)
    ensures Inv(Apply(s, EnqueueChunk))
  {
    var s', p := Apply(s, EnqueueChunk), s.phase;
    ChunkIsRead(s);
    EnqueueChunkPromise(s);
    forall g
      ensures Offset(s', g) <= |Content(s', g)|
      ensures Share(s', g) == if g == p.file then UpsertAll(Share(s, g), p.chunks[0]) else Share(s, g)
    {
      EnqueueChunkShare(s, g);
    }
    forall k ensures IsLargestShare(s', Lookup(Promised(s'), k), k) {
      FoldIsJoin(Promised(s), p.chunks[0], k);
      FoldIsJoin(Share(s, p.file), p.chunks[0], k);
      LargestAfterMore(s, s', p.file, Lookup(Promised(s), k), Lookup(UpsertAll(map[], p.chunks[0]), k), k);
    }
    forall f ensures AllIn(Unsettled(s', f), Records(Content(s', f)[Offset(s', f)..])) {
      EnqueueChunkReplayable(s, f);
    }
    EnqueueChunkKeepsPhase(s);
  }

  /** Folding in a completed pass absorbs the batches `w` that abandoned passes left behind. */
  lemma CompletedPassSettles(base: Store, w: seq<Event>, read: seq<Option<Event>>, dedupes: bool)
    requires AllIn(w, Records(read))
    ensures UpsertAll(base, w + Parsed(read, dedupes)) == UpsertAll(base, Records(read))
  {
    var r, sent := Records(read), Parsed(read, dedupes);
    calc {
      UpsertAll(base, w + sent);
      { UpsertAllConcat(base, w, sent); }
      UpsertAll(UpsertAll(base, w), sent);
      { ParsedEventsFoldAlike(UpsertAll(base, w), read, dedupes); }
      UpsertAll(UpsertAll(base, w), r);
      { UpsertAllConcat(base, w, r); }
      UpsertAll(base, w + r);
      { ReplayAbsorbed(base, w, r); }
      UpsertAll(base, r);
    }
  }

  /** What a completed pass over `c[o..n]` leaves unsettled brings the fold from `o` to `n`. */
  lemma PassBringsFoldTo(c: seq<Option<Event>>, o: nat, n: nat, u: seq<Event>, dedupes: bool)
    requires o <= n <= |c| && AllIn(u, Records(c[o..n])) && EndsWith(u, Parsed(c[o..n], dedupes))
    ensures UpsertAll(map[], Records(c[..o]) + u) == UpsertAll(map[], Records(c[..n]))
  {
    var read, below := c[o..n], Records(c[..o]);
    var sent := Parsed(read, dedupes);
    var w := u[..|u| - |sent|];
    assert u == w + sent;
    RecordsConcat(c[..o], read);
    assert c[..o] + read == c[..n];
    UpsertAllConcat(map[], below, u);
    CompletedPassSettles(UpsertAll(map[], below), w, read, dedupes);
    UpsertAllConcat(map[], below, Records(read));
  }

  /** At a commit, the file's share is already the fold of the records below the new offset. */
  lemma CommitSettles(s: State)
    requires Bounded(s) && PhaseInv(s) && Enabled(s, CommitOffset)
    ensures var f, n := s.phase.file, s.phase.newOffset;
      && Offset(s, f) <= n <= |Content(s, f)|
      && Share(s, f) == UpsertAll(map[], Records(Content(s, f)[..n]))
  {
    var p, f := s.phase, s.phase.file;
    assert p.sent + Flatten(p.chunks) == p.sent;
    PassBringsFoldTo(Content(s, f), Offset(s, f), p.newOffset, Unsettled(s, f), p.dedupes);
  }

  lemma CommitKeepsShare(s: State, g: FileId)
    requires Bounded(s) && Enabled(s, CommitOffset)
    requires var f, n := s.phase.file, s.phase.newOffset;
      n <= |Content(s, f)| && Share(s, f) == UpsertAll(map[], Records(Content(s, f)[..n]))
    ensures var s' := Apply(s, CommitOffset); Offset(s', g) <= |Content(s', g)| && Share(s', g) == Share(s, g)
  {
    var s' := Apply(s, CommitOffset);
    if g == s.phase.file {
      SettledShare(s', g);
    } else {
      assert Content(s', g) == Content(s, g) && Offset(s', g) == Offset(s, g);
      assert Below(s', g) == Below(s, g) && Unsettled(s', g) == Unsettled(s, g);
    }
  }

  lemma CommitKeepsReplayable(s: State, g: FileId)
    requires Bounded(s) && Replayable(s) && Enabled(s, CommitOffset) && s.phase.newOffset <= |Content(s, s.phase.file)|
    ensures var s' := Apply(s, CommitOffset);
      && Offset(s', g) <= |Content(s', g)|
      && AllIn(Unsettled(s', g), Records(Content(s', g)[Offset(s', g)..]))
  {
    assert AllIn(Unsettled(s, g), Records(Content(s, g)[Offset(s, g)..]));
  }

  lemma CommitOffsetKeepsInv(s: State)
    requires Inv(s) && Enabled(s, CommitOffset)
    ensures Inv(Apply(s, CommitOffset))
  {
    var s' := Apply(s, CommitOffset);
    CommitSettles(s);
    forall g
      ensures Offset(s', g) <= |Content(s', g)| && Share(s', g) == Share(s, g)
      ensures AllIn(Unsettled(s', g), Records(Content(s', g)[Offset(s', g)..]))
    {
      CommitKeepsShare(s, g);
      CommitKeepsReplayable(s, g);
    }
    StillRepresented(s, s');
  }

  /** Delivering the head, and removing a head that was delivered, change nothing about the promise. */
  lemma PromiseKept(s: State, step: Step)
    requires PhaseInv(s) && Enabled(s, step)
    requires !step.EnqueueChunk?
    ensures Promised(Apply(s, step)) == Promised(s)
  {
    if step.EnqueueOther? {
      PendingSnoc(s.queue, Other(step.kind));
      assert PendingEvents(s.queue) + [] == PendingEvents(s.queue);
    } else if step.Dequeue? {
      UpsertAllConcat(s.store, BatchEvents(s.queue[0]), PendingEvents(s.queue[1..]));
    } else if step.Deliver? {
      var head, rest := BatchEvents(s.queue[0]), PendingEvents(s.queue[1..]);
      DedupePreservesMerge(s.store, head);
      UpsertAllConcat(s.store, head, head);
      ReplayAbsorbed(s.store, head, head);
      UpsertAllConcat(s.store, head, rest);
      UpsertAllConcat(Apply(s, step).store, head, rest);
    }
  }

  /** Steps that touch neither files nor offsets nor the pass leave every share as it is. */
  lemma QueueStepKeepsInv(s: State, step: Step)
    requires Inv(s) && Enabled(s, step)
    requires step.EnqueueOther? || step.Crash? || step.Refuse? || step.Dequeue? || step.Deliver?
    ensures Inv(Apply(s, step))
  {
    var s' := Apply(s, step);
    PromiseKept(s, step);
    SharesKept(s, s');
    StillRepresented(s, s');
    if step.Deliver? {
      DedupePreservesMerge(s.store, BatchEvents(s.queue[0]));
      UpsertAllConcat(s.store, BatchEvents(s.queue[0]), BatchEvents(s.queue[0]));
      ReplayAbsorbed(s.store, BatchEvents(s.queue[0]), BatchEvents(s.queue[0]));
    }
  }

  lemma StepKeepsInv(s: State, step: Step)
    requires Inv(s) && Enabled(s, step)
    ensures Inv(Apply(s, step))
  {
    match step
    case Grow(_, _, _) => GrowKeepsInv(s, step);
    case StartPass(_, _, _) => StartPassKeepsInv(s, step);
    case EnqueueChunk => EnqueueChunkKeepsInv(s);
    case CommitOffset => CommitOffsetKeepsInv(s);
    case _ => QueueStepKeepsInv(s, step);
  }

  lemma InitialInv()
    ensures Inv(INITIAL)
  {
    forall f ensures Share(INITIAL, f) == map[] {
      assert Below(INITIAL, f) + Unsettled(INITIAL, f) == [];
    }
  }

  lemma {:induction false} RunKeepsInv(s: State, steps: seq<Step>)
    requires Inv(s) && Runs(s, steps)
    ensures Inv(Exec(s, steps))
    decreases |steps|
  {
    if steps != [] {
      StepKeepsInv(s, steps[0]);
      RunKeepsInv(Apply(s, steps[0]), steps[1..]);
    }
  }

  lemma ReachableInv(steps: seq<Step>)
    requires Runs(INITIAL, steps)
    ensures Inv(Exec(INITIAL, steps))
  {
    InitialInv();
    RunKeepsInv(INITIAL, steps);
  }

  // ----- nothing is lost -----

  /** An event at least as large is still queued, or already in the store. */
  predicate Safe(s: State, e: Event) {
    || (exists q :: q in PendingEvents(s.queue) && q.key == e.key && q.output >= e.output)
    || (e.key in s.store && s.store[e.key].output >= e.output)
  }

  lemma FoldDominates(es: seq<Event>, e: Event)
    requires e in es
    ensures AtMost(Some(e), Lookup(UpsertAll(map[], es), e.key))
  {
    var j :| 0 <= j < |es| && es[j] == e;
    assert HasKey(es, e.key);
    SettledMeaning(es, e.key);
  }

  lemma InvNoLoss(s: State, f: FileId, e: Event)
    requires Inv(s)
    ensures e in Below(s, f) + Unsettled(s, f) ==> Safe(s, e)
  {
    if e in Below(s, f) + Unsettled(s, f) {
      var pending := PendingEvents(s.queue);
      FoldDominates(Below(s, f) + Unsettled(s, f), e);
      assert IsLargestShare(s, Lookup(Promised(s), e.key), e.key);
      assert AtMost(Lookup(Share(s, f), e.key), Lookup(Promised(s), e.key));
      FoldIsJoin(s.store, pending, e.key);
      SettledMeaning(pending, e.key);
    }
  }

  /**
   No loss: after any run at all, every record below a file's committed offset, and every record
   enqueued since, is covered by a queued event or by the store. This includes states left by a
   stop in the middle of a pass, and files that record the same keys.
   */
  lemma NoLoss(steps: seq<Step>, f: FileId, e: Event)
    requires Runs(INITIAL, steps)
    ensures var s := Exec(INITIAL, steps);
      Offset(s, f) <= |Content(s, f)| && (e in Below(s, f) + Unsettled(s, f) ==> Safe(s, e))
  {
    ReachableInv(steps);
    InvNoLoss(Exec(INITIAL, steps), f, e);
  }

  /** The set holds the initial state, and with each state what any step makes of it. */
  ghost predicate Closed(states: iset<State>) {
    && INITIAL in states
    && forall s, step :: s in states && Enabled(s, step) ==> Apply(s, step) in states
  }

  /** The state is in every such set. */
  ghost predicate Reachable(s: State) {
    forall states: iset<State> :: Closed(states) ==> s in states
  }

  lemma ReachableStep(s: State, step: Step)
    requires Reachable(s) && Enabled(s, step)
    ensures Reachable(Apply(s, step))
  {
  }

  lemma {:induction false} ClosedUnderRuns(states: iset<State>, s: State, steps: seq<Step>)
    requires Closed(states) && s in states && Runs(s, steps)
    ensures Exec(s, steps) in states
    decreases |steps|
  {
    if steps != [] {
      ClosedUnderRuns(states, Apply(s, steps[0]), steps[1..]);
    }
  }

  ghost predicate EndsSomeRun(s: State) {
    exists steps :: Leads(INITIAL, steps, s)
  }

  /** The reachable states are exactly those in which some run ends. */
  lemma ReachableIff(s: State)
    ensures Reachable(s) <==> EndsSomeRun(s)
  {
    if Reachable(s) {
      var ends := iset t | EndsSomeRun(t);
      assert Leads(INITIAL, [], INITIAL);
      forall t, step | t in ends && Enabled(t, step) ensures Apply(t, step) in ends {
        var steps :| Leads(INITIAL, steps, t);
        LeadsStep(INITIAL, steps, t, step);
      }
      assert Closed(ends);
    }
    if EndsSomeRun(s) {
      var steps :| Leads(INITIAL, steps, s);
      forall states: iset<State> | Closed(states) ensures s in states {
        ClosedUnderRuns(states, INITIAL, steps);
      }
    }
  }

  lemma ReachableKeepsInv(s: State)
    requires Reachable(s)
    ensures Inv(s)
  {
    ReachableIff(s);
    var steps :| Leads(INITIAL, steps, s);
    ReachableInv(steps);
  }

  // ----- what a drained store holds -----

  /** Whatever happened before: the row of a key is what one of the files contributes, and none contributes more. */
  lemma DrainedStore(steps: seq<Step>, k: Key)
    requires Runs(INITIAL, steps) && Exec(INITIAL, steps).queue == []
    ensures var s := Exec(INITIAL, steps); Bounded(s) && IsLargestShare(s, Lookup(s.store, k), k)
  {
    ReachableInv(steps);
    var s := Exec(INITIAL, steps);
    assert Promised(s) == s.store;
  }

  /** Queue empty, and no pass of any file left unfinished. */
  ghost predicate Settled(s: State) {
    s.queue == [] && forall f :: Unsettled(s, f) == []
  }

  /** The row of a key as the records below the file's offset leave it. */
  function FileRow(s: State, f: FileId, k: Key): Option<Event>
    requires Offset(s, f) <= |Content(s, f)|
  {
    Lookup(UpsertAll(map[], Below(s, f)), k)
  }

  /**
   Files may share keys. In a settled state the row of a key is the fold of one file's committed
   records, and its output is the maximum over all files' records below their offsets.
   */
  lemma SharedKeys(steps: seq<Step>, k: Key)
    requires Runs(INITIAL, steps) && Settled(Exec(INITIAL, steps))
    ensures var s := Exec(INITIAL, steps);
      && Bounded(s)
      && (forall f, e :: e in Below(s, f) && e.key == k ==> AtMost(Some(e), Lookup(s.store, k)))
      && (k in s.store ==> exists f :: FileRow(s, f, k) == Some(s.store[k]) && s.store[k] in Below(s, f))
  {
    DrainedStore(steps, k);
    var s := Exec(INITIAL, steps);
    forall f, e | e in Below(s, f) && e.key == k ensures AtMost(Some(e), Lookup(s.store, k)) {
      SettledShare(s, f);
      FoldDominates(Below(s, f), e);
      assert AtMost(Lookup(Share(s, f), k), Lookup(s.store, k));
    }
    if k in s.store {
      var f :| Lookup(Share(s, f), k) == Lookup(s.store, k);
      SettledShare(s, f);
      SettledMeaning(Below(s, f), k);
      assert FileRow(s, f, k) == Some(s.store[k]);
    }
  }

  /** The key occurs in no other file. */
  ghost predicate RecordedOnlyIn(s: State, f: FileId, k: Key) {
    forall g :: g != f ==> !HasKey(Records(Content(s, g)), k)
  }

  lemma EnqueuedAreRecords(s: State, f: FileId)
    requires Bounded(s) && Replayable(s)
    ensures AllIn(Below(s, f) + Unsettled(s, f), Records(Content(s, f)))
  {
    var c, o := Content(s, f), Offset(s, f);
    assert c == c[..o] + c[o..];
    RecordsConcat(c[..o], c[o..]);
    assert AllIn(Unsettled(s, f), Records(c[o..]));
  }

  /** A file contributes only keys that it records. */
  lemma ShareIsRecorded(s: State, f: FileId, k: Key)
    requires Bounded(s) && Replayable(s) && k in Share(s, f)
    ensures HasKey(Records(Content(s, f)), k)
  {
    var es := Below(s, f) + Unsettled(s, f);
    EnqueuedAreRecords(s, f);
    SettledMeaning(es, k);
    var i :| IsSettled(es, i) && es[i].key == k;
    assert es[i] in Records(Content(s, f));
  }

  /** What is promised for a key of one file is that file's share. */
  lemma PromiseOfOnlyFile(s: State, f: FileId, k: Key)
    requires Inv(s) && RecordedOnlyIn(s, f, k)
    ensures Lookup(Promised(s), k) == Lookup(Share(s, f), k)
  {
    var row := Lookup(Promised(s), k);
    assert IsLargestShare(s, row, k);
    assert AtMost(Lookup(Share(s, f), k), row);
    if row.Some? {
      var g :| Lookup(Share(s, g), k) == row;
      ShareIsRecorded(s, g, k);
      assert g == f;
    }
  }

  /**
   Exactly once: take any run, with any number of crashes, refusals and lost acknowledgements, that
   ends with an empty queue, and a key that one file records. Its row is the fold of the records
   below the committed offset, which is what a run without faults would have stored, if and only if
   what abandoned passes enqueued since for the key is nothing, or has a smaller output, or is that
   very row.
   */
  lemma ExactlyOnceIff(steps: seq<Step>, f: FileId, k: Key)
    requires Runs(INITIAL, steps) && Exec(INITIAL, steps).queue == [] && RecordedOnlyIn(Exec(INITIAL, steps), f, k)
    ensures var s := Exec(INITIAL, steps);
      && Offset(s, f) <= |Content(s, f)|
      && var left := Lookup(UpsertAll(map[], Unsettled(s, f)), k);
         Lookup(s.store, k) == FileRow(s, f, k) <==>
           left.None? || left == FileRow(s, f, k)
           || (FileRow(s, f, k).Some? && left.value.output < FileRow(s, f, k).value.output)
  {
    ReachableInv(steps);
    var s := Exec(INITIAL, steps);
    assert Promised(s) == s.store;
    PromiseOfOnlyFile(s, f, k);
    UpsertAllConcat(map[], Below(s, f), Unsettled(s, f));
    FoldIsJoin(UpsertAll(map[], Below(s, f)), Unsettled(s, f), k);
  }

  /** In particular when no pass of the file has been left unfinished. */
  lemma ExactlyOnce(steps: seq<Step>, f: FileId, k: Key)
    requires Runs(INITIAL, steps) && RecordedOnlyIn(Exec(INITIAL, steps), f, k)
    requires Exec(INITIAL, steps).queue == [] && Unsettled(Exec(INITIAL, steps), f) == []
    ensures var s := Exec(INITIAL, steps);
      Offset(s, f) <= |Content(s, f)| && Lookup(s.store, k) == FileRow(s, f, k)
  {
    ExactlyOnceIff(steps, f, k);
  }

  /** What a whole file comes to for the key. */
  function RowIn(file: File, k: Key): Option<Event> {
    Lookup(UpsertAll(map[], Records(file.complete)), k)
  }

  /** The row is what one of the files comes to for the key, and none comes to more. */
  ghost predicate IsLargestRow(files: map<FileId, File>, row: Option<Event>, k: Key) {
    && (forall f :: f in files ==> AtMost(RowIn(files[f], k), row))
    && (row.Some? ==> exists f :: f in files && RowIn(files[f], k) == row)
  }

  // ----- what one cycle adds -----

  /** Files are appended to and created, never shortened. */
  ghost predicate Extends(files: map<FileId, File>, later: map<FileId, File>) {
    forall f :: f in files ==> f in later && files[f].complete <= later[f].complete
  }

  /** The file has been read at least up to `n` and no abandoned pass of it is outstanding. */
  predicate ReadUpTo(s: State, f: FileId, n: nat) {
    n <= Offset(s, f) && Unsettled(s, f) == []
  }

  predicate SameProgress(s: State, t: State, f: FileId) {
    Offset(s, f) == Offset(t, f) && Unsettled(s, f) == Unsettled(t, f)
  }

  /** Each of these files has been read at least to the end it had in `s`; the others have not been touched. */
  ghost predicate Progressed(s: State, t: State, read: set<FileId>) {
    && (forall f :: f in read ==> ReadUpTo(t, f, |Content(s, f)|))
    && (forall f :: f !in read ==> SameProgress(s, t, f))
  }

  /** Only a pass of the file itself changes how far it has been read. */
  lemma OthersKeepProgress(s: State, t: State, step: Step, f: FileId)
    requires forall g :: g != f ==> SameProgress(s, t, g)
    requires Enabled(t, step) && (step.EnqueueChunk? || step.CommitOffset? ==> t.phase.file == f)
    ensures forall g :: g != f ==> SameProgress(s, Apply(t, step), g)
  {
    forall g | g != f ensures SameProgress(s, Apply(t, step), g) {
      assert SameProgress(s, t, g);
    }
  }

  lemma ProgressedFurther(s: State, t: State, u: State, read: set<FileId>, more: set<FileId>)
    requires Extends(s.files, t.files) && Progressed(s, t, read) && Progressed(t, u, more) && read !! more
    ensures Progressed(s, u, read + more)
  {
    forall f | f in read + more ensures ReadUpTo(u, f, |Content(s, f)|) {
      assert f in read ==> SameProgress(t, u, f);
      assert f in more ==> SameProgress(s, t, f);
    }
    forall f | f !in read + more ensures SameProgress(s, u, f) {
      assert SameProgress(s, t, f) && SameProgress(t, u, f);
    }
  }

  lemma ExtendsTransitive(a: map<FileId, File>, b: map<FileId, File>, c: map<FileId, File>)
    requires Extends(a, b) && Extends(b, c)
    ensures Extends(a, c)
  {
    forall f | f in a ensures f in c && a[f].complete <= c[f].complete {
      assert f in b;
    }
  }

  /** The row is what one of the files comes to as far as it has been read, and none comes to more. */
  ghost predicate IsLargestRead(s: State, row: Option<Event>, k: Key)
    requires Bounded(s)
  {
    && (forall f :: AtMost(FileRow(s, f, k), row))
    && (row.Some? ==> exists f :: FileRow(s, f, k) == row)
  }

  lemma UnsettledIsRecorded(s: State, f: FileId, k: Key)
    requires Bounded(s) && Replayable(s) && HasKey(Unsettled(s, f), k)
    ensures HasKey(Records(Content(s, f)), k)
  {
    EnqueuedAreRecords(s, f);
    var i :| 0 <= i < |Unsettled(s, f)| && Unsettled(s, f)[i].key == k;
    assert (Below(s, f) + Unsettled(s, f))[|Below(s, f)| + i] == Unsettled(s, f)[i];
    assert Unsettled(s, f)[i] in Records(Content(s, f));
  }

  lemma ShareWithoutUnsettled(s: State, f: FileId, k: Key)
    requires Bounded(s) && !HasKey(Unsettled(s, f), k)
    ensures Lookup(Share(s, f), k) == FileRow(s, f, k)
  {
    UpsertAllConcat(map[], Below(s, f), Unsettled(s, f));
    FoldIsJoin(UpsertAll(map[], Below(s, f)), Unsettled(s, f), k);
    SettledMeaning(Unsettled(s, f), k);
  }

  /** Everything delivered and nothing unsettled for the key. */
  lemma DrainedRow(s: State, k: Key)
    requires Inv(s) && s.queue == [] && forall f :: !HasKey(Unsettled(s, f), k)
    ensures IsLargestRead(s, Lookup(s.store, k), k)
  {
    var row := Lookup(s.store, k);
    assert Promised(s) == s.store;
    assert IsLargestShare(s, row, k);
    forall f ensures AtMost(FileRow(s, f, k), row) {
      ShareWithoutUnsettled(s, f, k);
      assert AtMost(Lookup(Share(s, f), k), row);
    }
    if row.Some? {
      var f :| Lookup(Share(s, f), k) == row;
      ShareWithoutUnsettled(s, f, k);
    }
  }

  /** Reading further never makes a row smaller. */
  lemma ReadFurther(c: seq<Option<Event>>, n: nat, later: seq<Option<Event>>, o: nat, k: Key)
    requires n <= |c| && c <= later && n <= o <= |later|
    ensures AtMost(Lookup(UpsertAll(map[], Records(c[..n])), k), Lookup(UpsertAll(map[], Records(later[..o])), k))
  {
    assert later[..n] == c[..n];
    PrefixFold(later, n, o, k);
  }

  /** A file read past the end it had is worth at least what it was; read to the end it has, exactly what it is. */
  lemma FileRowBounds(s: State, t: State, f: FileId, k: Key)
    requires Bounded(t) && f in s.files && f in t.files && s.files[f].complete <= t.files[f].complete
    requires HasKey(Records(s.files[f].complete), k) ==> |Content(s, f)| <= Offset(t, f)
    ensures AtMost(RowIn(s.files[f], k), FileRow(t, f, k))
    ensures s.files == t.files ==> RowIn(s.files[f], k) == FileRow(t, f, k)
  {
    var c, later, o := Content(s, f), Content(t, f), Offset(t, f);
    assert c[..|c|] == c;
    if HasKey(Records(c), k) {
      ReadFurther(c, |c|, later, o, k);
    } else {
      SettledMeaning(Records(c), k);
      if s.files == t.files {
        ReadFurther(c, o, c, |c|, k);
      }
    }
  }

  lemma LargestReadIsLargest(t: State, row: Option<Event>, k: Key)
    requires Bounded(t) && IsLargestRead(t, row, k)
    requires forall f :: f in t.files ==> RowIn(t.files[f], k) == FileRow(t, f, k)
    ensures IsLargestRow(t.files, row, k)
  {
    forall f | f in t.files ensures AtMost(RowIn(t.files[f], k), row) {
      assert AtMost(FileRow(t, f, k), row);
    }
    if row.Some? {
      var f :| FileRow(t, f, k) == row;
      if f !in t.files {
        AbsentFileRow(t, f, k);
      }
    }
  }

  lemma AbsentFileRow(t: State, f: FileId, k: Key)
    requires Bounded(t) && f !in t.files
    ensures FileRow(t, f, k) == None
  {
    assert Below(t, f) == [];
  }

  /** Every file that records the key is one of these. */
  ghost predicate RecordedOnlyAmong(files: map<FileId, File>, read: set<FileId>, k: Key) {
    forall f :: f in files && HasKey(Records(files[f].complete), k) ==> f in read
  }

  /**
   From `s` to `t` some files have been read at least to the end they had in `s`, and nothing is left to
   deliver. For a key that only such files record in `s`, the row is what one of the files comes to
   as far as it has been read, and none comes to more; it covers everything the files held in `s`; and if
   they did not grow, it is the largest of what they hold.
   */
  lemma CycleStore(s: State, t: State, read: set<FileId>, k: Key)
    requires Inv(s) && Inv(t) && t.queue == [] && Extends(s.files, t.files) && Progressed(s, t, read)
    requires RecordedOnlyAmong(s.files, read, k)
    ensures IsLargestRead(t, Lookup(t.store, k), k)
    ensures forall f :: f in s.files ==> AtMost(RowIn(s.files[f], k), Lookup(t.store, k))
    ensures s.files == t.files ==> IsLargestRow(t.files, Lookup(t.store, k), k)
  {
    forall f ensures !HasKey(Unsettled(t, f), k) {
      if f !in read && HasKey(Unsettled(s, f), k) {
        UnsettledIsRecorded(s, f, k);
      }
    }
    DrainedRow(t, k);
    forall f | f in s.files
      ensures AtMost(RowIn(s.files[f], k), Lookup(t.store, k))
      ensures s.files == t.files ==> RowIn(s.files[f], k) == FileRow(t, f, k)
    {
      FileRowBounds(s, t, f, k);
      assert AtMost(FileRow(t, f, k), Lookup(t.store, k));
    }
    if s.files == t.files {
      LargestReadIsLargest(t, Lookup(t.store, k), k);
    }
  }

  /** A key that one file records has that file's row. */
  lemma RowOfOnlyFile(files: map<FileId, File>, row: Option<Event>, f: FileId, k: Key)
    requires IsLargestRow(files, row, k) && f in files
    requires forall g :: g in files && g != f ==> !HasKey(Records(files[g].complete), k)
    ensures row == RowIn(files[f], k)
  {
    if row.Some? {
      var g :| g in files && RowIn(files[g], k) == row;
      SettledMeaning(Records(files[g].complete), k);
    } else {
      assert AtMost(RowIn(files[f], k), row);
    }
  }

  /** The two states have read the same records of every file. */
  ghost predicate ReadAlike(s: State, t: State) {
    forall f :: Content(s, f) == Content(t, f) && Offset(s, f) == Offset(t, f)
  }

  /**
   Faults do not show: two settled runs that have read the same records of every file store the
   same output for every key, and the same row for every key that one file records, whatever
   crashed or got lost in either of them.
   */
  lemma FaultsDoNotShow(a: seq<Step>, b: seq<Step>, k: Key)
    requires Runs(INITIAL, a) && Runs(INITIAL, b)
    requires Settled(Exec(INITIAL, a)) && Settled(Exec(INITIAL, b)) && ReadAlike(Exec(INITIAL, a), Exec(INITIAL, b))
    ensures var s, t := Exec(INITIAL, a), Exec(INITIAL, b);
      && AtMost(Lookup(s.store, k), Lookup(t.store, k)) && AtMost(Lookup(t.store, k), Lookup(s.store, k))
      && forall f :: RecordedOnlyIn(s, f, k) ==> Lookup(s.store, k) == Lookup(t.store, k)
  {
    var s, t := Exec(INITIAL, a), Exec(INITIAL, b);
    StoresNoMore(a, b, k);
    StoresNoMore(b, a, k);
    forall f | RecordedOnlyIn(s, f, k) ensures Lookup(s.store, k) == Lookup(t.store, k) {
      assert RecordedOnlyIn(t, f, k);
      ExactlyOnce(a, f, k);
      ExactlyOnce(b, f, k);
    }
  }

  lemma StoresNoMore(a: seq<Step>, b: seq<Step>, k: Key)
    requires Runs(INITIAL, a) && Runs(INITIAL, b)
    requires Settled(Exec(INITIAL, a)) && Settled(Exec(INITIAL, b)) && ReadAlike(Exec(INITIAL, a), Exec(INITIAL, b))
    ensures AtMost(Lookup(Exec(INITIAL, a).store, k), Lookup(Exec(INITIAL, b).store, k))
  {
    var s, t := Exec(INITIAL, a), Exec(INITIAL, b);
    SharedKeys(a, k);
    SharedKeys(b, k);
    if k in s.store {
      var f :| FileRow(s, f, k) == Some(s.store[k]) && s.store[k] in Below(s, f);
      assert Below(t, f) == Below(s, f);
      SettledMeaning(Below(s, f), k);
    }
  }

  // ----- sources that deduplicate within a pass never fall back -----

  predicate Deduping(steps: seq<Step>) {
    forall i :: 0 <= i < |steps| && steps[i].StartPass? ==> steps[i].dedupes
  }

  predicate DedupingPhase(s: State) {
    s.phase.Tailing? ==> s.phase.dedupes
  }

  /** For the key, the file's share is the fold of a prefix that reaches at least to its offset. */
  ghost predicate ReachesTo(s: State, f: FileId, k: Key, m: nat) {
    && Offset(s, f) <= m <= |Content(s, f)|
    && (s.phase.Tailing? && s.phase.file == f ==> m <= s.phase.newOffset)
    && Lookup(Share(s, f), k) == Lookup(UpsertAll(map[], Records(Content(s, f)[..m])), k)
  }

  /** A chunk of a deduplicated pass either lacks the key or has exactly the pass's result for it. */
  lemma ChunkOfDeduped(es: seq<Event>, before: seq<Event>, chunk: seq<Event>, after: seq<Event>, k: Key)
    requires before + (chunk + after) == Deduped(es)
    ensures Lookup(UpsertAll(map[], chunk), k) in {None, Lookup(UpsertAll(map[], es), k)}
  {
    var all := before + (chunk + after);
    SettledMeaning(chunk, k);
    if k in UpsertAll(map[], chunk) {
      var i :| IsSettled(chunk, i) && chunk[i].key == k && UpsertAll(map[], chunk)[k] == chunk[i];
      assert all[|before| + i] == chunk[i];
      DedupeMeaning(es);
      FoldDistinct(all);
      DedupeKeepsBest(es, k);
    }
  }

  /** Reading the bytes from `o` to `n` again brings the fold from any `m` between them to `n`. */
  lemma RereadBringsFoldTo(c: seq<Option<Event>>, o: nat, m: nat, n: nat, k: Key)
    requires o <= m <= n <= |c|
    ensures Join(Lookup(UpsertAll(map[], Records(c[..m])), k), Lookup(UpsertAll(map[], Records(c[o..n])), k))
         == Lookup(UpsertAll(map[], Records(c[..n])), k)
  {
    PrefixFold(c, o, m, k);
    PrefixFold(c, o, n, k);
    var read := c[o..n];
    assert read == c[o..m] + c[m..n];
    RecordsConcat(c[o..m], c[m..n]);
    UpsertAllConcat(map[], Records(c[o..m]), Records(c[m..n]));
    FoldIsJoin(UpsertAll(map[], Records(c[o..m])), Records(c[m..n]), k);
  }

  lemma PrefixFold(c: seq<Option<Event>>, o: nat, n: nat, k: Key)
    requires o <= n <= |c|
    ensures Lookup(UpsertAll(map[], Records(c[..n])), k)
         == Join(Lookup(UpsertAll(map[], Records(c[..o])), k), Lookup(UpsertAll(map[], Records(c[o..n])), k))
  {
    assert c[..n] == c[..o] + c[o..n];
    RecordsConcat(c[..o], c[o..n]);
    UpsertAllConcat(map[], Records(c[..o]), Records(c[o..n]));
    FoldIsJoin(UpsertAll(map[], Records(c[..o])), Records(c[o..n]), k);
  }

  lemma ChunkReachesTo(s: State, f: FileId, k: Key, m: nat) returns (m': nat)
    requires Inv(s) && DedupingPhase(s) && Enabled(s, EnqueueChunk) && s.phase.file == f && ReachesTo(s, f, k, m)
    ensures m <= m' && ReachesTo(Apply(s, EnqueueChunk), f, k, m')
  {
    var s', p := Apply(s, EnqueueChunk), s.phase;
    var c, o, chunk := Content(s, f), Offset(s, f), p.chunks[0];
    EnqueueChunkShare(s, f);
    FoldIsJoin(Share(s, f), chunk, k);
    ChunkOfDeduped(Records(c[o..p.newOffset]), p.sent, chunk, Flatten(p.chunks[1..]), k);
    if k in UpsertAll(map[], chunk) {
      RereadBringsFoldTo(c, o, m, p.newOffset, k);
      m' := p.newOffset;
    } else {
      m' := m;
    }
  }

  lemma CommitReachesTo(s: State, f: FileId, k: Key)
    requires Inv(s) && Enabled(s, CommitOffset) && s.phase.file == f
    ensures Offset(s, f) <= s.phase.newOffset && ReachesTo(Apply(s, CommitOffset), f, k, s.phase.newOffset)
  {
    CommitSettles(s);
    SettledShare(Apply(s, CommitOffset), f);
  }

  /** Steps that leave the file's share alone leave alone how far it reaches. */
  lemma StillReachesTo(s: State, step: Step, f: FileId, k: Key, m: nat)
    requires Bounded(s) && Enabled(s, step) && ReachesTo(s, f, k, m)
    requires step.EnqueueChunk? || step.CommitOffset? ==> s.phase.file != f
    ensures ReachesTo(Apply(s, step), f, k, m)
  {
    var s', c, o := Apply(s, step), Content(s, f), Offset(s, f);
    if step.Grow? && step.file == f {
      assert (c + step.more)[..m] == c[..m] && (c + step.more)[..o] == c[..o];
    } else {
      assert Content(s', f) == c;
    }
    assert Offset(s', f) == o && Unsettled(s', f) == Unsettled(s, f);
  }

  /** No step takes a file's share of a key back to a shorter prefix. */
  lemma StepNeverFallsBack(s: State, step: Step, f: FileId, k: Key, m: nat) returns (m': nat)
    requires Inv(s) && DedupingPhase(s) && ReachesTo(s, f, k, m)
    requires Enabled(s, step) && (step.StartPass? ==> step.dedupes)
    ensures DedupingPhase(Apply(s, step)) && m <= m' && ReachesTo(Apply(s, step), f, k, m')
  {
    if step.EnqueueChunk? && s.phase.file == f {
      m' := ChunkReachesTo(s, f, k, m);
    } else if step.CommitOffset? && s.phase.file == f {
      m' := s.phase.newOffset;
      CommitReachesTo(s, f, k);
    } else {
      m' := m;
      StillReachesTo(s, step, f, k, m);
    }
  }

  lemma {:induction false} RunNeverFallsBack(s: State, steps: seq<Step>, f: FileId, k: Key, m: nat) returns (m': nat)
    requires Inv(s) && DedupingPhase(s) && ReachesTo(s, f, k, m) && Runs(s, steps) && Deduping(steps)
    ensures DedupingPhase(Exec(s, steps)) && m <= m' && ReachesTo(Exec(s, steps), f, k, m')
    decreases |steps|
  {
    m' := m;
    if steps != [] {
      StepKeepsInv(s, steps[0]);
      m' := StepNeverFallsBack(s, steps[0], f, k, m);
      m' := RunNeverFallsBack(Apply(s, steps[0]), steps[1..], f, k, m');
    }
  }

  lemma ReachableReaches(steps: seq<Step>, f: FileId, k: Key) returns (m: nat)
    requires Runs(INITIAL, steps) && Deduping(steps)
    ensures Inv(Exec(INITIAL, steps)) && DedupingPhase(Exec(INITIAL, steps)) && ReachesTo(Exec(INITIAL, steps), f, k, m)
  {
    InitialInv();
    ReachableInv(steps);
    assert Below(INITIAL, f) + Unsettled(INITIAL, f) == [];
    m := RunNeverFallsBack(INITIAL, steps, f, k, 0);
  }

  /**
   When every pass deduplicates, a drained store never falls back: whatever was abandoned, the row of
   a key that one file records is the fold of some prefix of the file that reaches at least to the
   committed offset, and after any further run it is the fold of one at least as long.
   */
  lemma DedupingNeverFallsBack(steps: seq<Step>, more: seq<Step>, f: FileId, k: Key) returns (m: nat, m': nat)
    requires Runs(INITIAL, steps) && Runs(Exec(INITIAL, steps), more) && Deduping(steps) && Deduping(more)
    requires var t := Exec(Exec(INITIAL, steps), more);
      Exec(INITIAL, steps).queue == [] && t.queue == [] && RecordedOnlyIn(t, f, k)
    ensures var s, t := Exec(INITIAL, steps), Exec(Exec(INITIAL, steps), more);
      && Offset(s, f) <= m <= |Content(s, f)| && Offset(t, f) <= m' <= |Content(t, f)| && m <= m'
      && Lookup(s.store, k) == Lookup(UpsertAll(map[], Records(Content(s, f)[..m])), k)
      && Lookup(t.store, k) == Lookup(UpsertAll(map[], Records(Content(t, f)[..m'])), k)
  {
    var s, t := Exec(INITIAL, steps), Exec(Exec(INITIAL, steps), more);
    m := ReachableReaches(steps, f, k);
    m' := RunNeverFallsBack(s, more, f, k, m);
    RunKeepsInv(s, more);
    FilesOnlyGrow(s, more, f, k);
    PromiseOfOnlyFile(s, f, k);
    PromiseOfOnlyFile(t, f, k);
    assert Promised(s) == s.store && Promised(t) == t.store;
  }

  lemma {:induction false} FilesOnlyGrow(s: State, steps: seq<Step>, f: FileId, k: Key)
    requires Runs(s, steps) && RecordedOnlyIn(Exec(s, steps), f, k)
    ensures RecordedOnlyIn(s, f, k)
    decreases |steps|
  {
    if steps != [] {
      var s' := Apply(s, steps[0]);
      FilesOnlyGrow(s', steps[1..], f, k);
      forall g | g != f ensures !HasKey(Records(Content(s, g)), k) {
        assert !HasKey(Records(Content(s', g)), k);
        if steps[0].Grow? && steps[0].file == g {
          var more := steps[0].more;
          RecordsConcat(Content(s, g), more);
          var es := Records(Content(s, g));
          assert forall i :: 0 <= i < |es| ==> es[i] == (es + Records(more))[i];
        }
      }
    }
  }

  // ----- sources that do not can fall back -----

  lemma RunsTwo(s: State, first: Step, second: Step)
    requires Enabled(s, first) && Enabled(Apply(s, first), second)
    ensures Runs(s, [first, second])
    ensures Exec(s, [first, second]) == Apply(Apply(s, first), second)
  {
    RunsExtend(s, [], first);
    RunsExtend(s, [] + [first], second);
    assert [] + [first] + [second] == [first, second];
  }

  /** The head is delivered, acknowledged and removed. */
  const DELIVER_HEAD := [Deliver(true), Dequeue]

  lemma DeliverHeadEffect(s: State)
    requires s.phase.Idle? && s.queue != []
    ensures Runs(s, DELIVER_HEAD)
    ensures Exec(s, DELIVER_HEAD) ==
      s.(store := UpsertAll(s.store, BatchEvents(s.queue[0])), queue := s.queue[1..])
  {
    RunsTwo(s, Deliver(true), Dequeue);
    DedupePreservesMerge(s.store, BatchEvents(s.queue[0]));
  }

  function DeliverHeads(n: nat): seq<Step> {
    if n == 0 then [] else DELIVER_HEAD + DeliverHeads(n - 1)
  }

  /** Delivering the whole queue turns what was promised into what is stored. */
  lemma {:induction false} DeliverAllEffect(s: State)
    requires s.phase.Idle?
    ensures Leads(s, DeliverHeads(|s.queue|), s.(store := Promised(s), queue := []))
    decreases |s.queue|
  {
    if s.queue != [] {
      DeliverHeadEffect(s);
      var t := Exec(s, DELIVER_HEAD);
      UpsertAllConcat(s.store, BatchEvents(s.queue[0]), PendingEvents(s.queue[1..]));
      DeliverAllEffect(t);
      RunsCompose(s, DELIVER_HEAD, DeliverHeads(|t.queue|));
    }
  }

  /** A pass of a source that does not deduplicate, abandoned after its first `n` chunks. */
  function AbandonedPass(f: FileId, chunks: seq<seq<Event>>, n: nat): seq<Step> {
    [StartPass(f, false, chunks)] + EnqueueChunks(n) + [Crash]
  }

  function EnqueueChunks(n: nat): seq<Step> {
    if n == 0 then [] else EnqueueChunks(n - 1) + [EnqueueChunk]
  }

  /** Two states with the same files, offsets and store. */
  predicate SameDisk(s: State, t: State) {
    s.files == t.files && s.offsets == t.offsets && s.store == t.store
  }

  /** From `s`, chunks worth these events have been queued and nothing has been written to disk. */
  predicate Queued(s: State, t: State, chunks: nat, es: seq<Event>) {
    && SameDisk(s, t) && |t.queue| == |s.queue| + chunks
    && PendingEvents(t.queue) == PendingEvents(s.queue) + es
  }

  /** The first `n` of the chunks have been queued. */
  predicate QueuedTo(s: State, t: State, chunks: seq<seq<Event>>, n: nat) {
    n <= |chunks| && t.phase.Tailing? && t.phase.chunks == chunks[n..] && Queued(s, t, n, Flatten(chunks[..n]))
  }

  lemma EnqueueOneMore(s: State, t: State, chunks: seq<seq<Event>>, n: nat)
    requires n < |chunks| && QueuedTo(s, t, chunks, n)
    ensures Enabled(t, EnqueueChunk) && QueuedTo(s, Apply(t, EnqueueChunk), chunks, n + 1)
  {
    PendingSnoc(t.queue, Events(chunks[n]));
    FlattenSnoc(chunks[..n], chunks[n]);
    assert chunks[..n + 1] == chunks[..n] + [chunks[n]];
  }

  lemma {:induction false} EnqueueChunksEffect(s: State, n: nat)
    requires s.phase.Tailing? && n <= |s.phase.chunks|
    ensures Runs(s, EnqueueChunks(n)) && QueuedTo(s, Exec(s, EnqueueChunks(n)), s.phase.chunks, n)
    decreases n
  {
    if n == 0 {
      assert PendingEvents(s.queue) + [] == PendingEvents(s.queue);
    } else {
      EnqueueChunksEffect(s, n - 1);
      EnqueueOneMore(s, Exec(s, EnqueueChunks(n - 1)), s.phase.chunks, n - 1);
      RunsExtend(s, EnqueueChunks(n - 1), EnqueueChunk);
    }
  }

  lemma AbandonedPassEffect(s: State, f: FileId, chunks: seq<seq<Event>>, n: nat)
    requires Enabled(s, StartPass(f, false, chunks)) && n <= |chunks|
    ensures Runs(s, AbandonedPass(f, chunks, n))
    ensures var t := Exec(s, AbandonedPass(f, chunks, n));
      t.phase.Idle? && Queued(s, t, n, Flatten(chunks[..n]))
  {
    var start := StartPass(f, false, chunks);
    RunsExtend(s, [], start);
    assert [] + [start] == [start];
    var t := Exec(s, [start]);
    EnqueueChunksEffect(t, n);
    RunsCompose(s, [start], EnqueueChunks(n));
    RunsExtend(s, [start] + EnqueueChunks(n), Crash);
  }

  /** A file of two records, as the first step of a run leaves it. */
  function FileWritten(f: FileId, a: Event, b: Event): State {
    INITIAL.(files := map[f := File([Some(a), Some(b)], 0)])
  }

  /** The file holds two events; a pass is abandoned after both of them. */
  function AbandonedOnce(f: FileId, a: Event, b: Event): seq<Step> {
    [Grow(f, [Some(a), Some(b)], 0)] + AbandonedPass(f, [[a], [b]], 2)
  }

  /** And the next one after the first. */
  function AbandonedTwice(f: FileId, a: Event, b: Event): seq<Step> {
    AbandonedOnce(f, a, b) + AbandonedPass(f, [[a], [b]], 1)
  }

  function StaleRun(f: FileId, a: Event, b: Event): seq<Step> {
    AbandonedTwice(f, a, b) + DeliverHeads(3)
  }

  lemma TwoRecords(a: Event, b: Event)
    ensures Records([Some(a), Some(b)]) == [a, b]
    ensures Flatten([[a], [b]]) == [a, b] && Flatten([[a]]) == [a]
  {
    RecordsConcat([Some(a)], [Some(b)]);
    assert [Some(a)] + [Some(b)] == [Some(a), Some(b)];
    assert [Some(a)][1..] == [] && [Some(b)][1..] == [];
    FlattenSnoc([], [a]);
    FlattenSnoc([[a]], [b]);
    assert [] + [[a]] == [[a]] && [[a]] + [[b]] == [[a], [b]];
  }

  /** Of two events of one key with equal outputs the one merged last is kept. */
  lemma LastOfTiesStays(a: Event, b: Event)
    requires a.key == b.key && a.output == b.output
    ensures Lookup(UpsertAll(map[], [a, b]), a.key) == Some(b)
    ensures Lookup(UpsertAll(map[], [a, b] + [a]), a.key) == Some(a)
  {
    UpsertAllSnoc(map[], [a], b);
    UpsertAllSnoc(map[], [a, b], a);
    assert [a] + [b] == [a, b];
  }

  lemma OneAbandonedPass(f: FileId, a: Event, b: Event) returns (s: State)
    ensures Leads(INITIAL, AbandonedOnce(f, a, b), s)
    ensures s.phase.Idle? && Queued(FileWritten(f, a, b), s, 2, [a, b])
  {
    TwoRecords(a, b);
    var written, chunks, grow := FileWritten(f, a, b), [[a], [b]], [Grow(f, [Some(a), Some(b)], 0)];
    RunsExtend(INITIAL, [], grow[0]);
    assert [] + grow == grow && [] + [Some(a), Some(b)] == [Some(a), Some(b)];
    assert [Some(a), Some(b)][0..] == [Some(a), Some(b)];
    AbandonedPassEffect(written, f, chunks, 2);
    assert chunks[..2] == chunks;
    RunsCompose(INITIAL, grow, AbandonedPass(f, chunks, 2));
    s := Exec(written, AbandonedPass(f, chunks, 2));
  }

  /** After both passes have been abandoned all three chunks are queued. */
  lemma TwoAbandonedPasses(f: FileId, a: Event, b: Event) returns (s: State)
    ensures Leads(INITIAL, AbandonedTwice(f, a, b), s)
    ensures s.phase.Idle? && Queued(FileWritten(f, a, b), s, 3, [a, b] + [a])
  {
    TwoRecords(a, b);
    var chunks := [[a], [b]];
    var t := OneAbandonedPass(f, a, b);
    assert [Some(a), Some(b)][0..] == [Some(a), Some(b)];
    AbandonedPassEffect(t, f, chunks, 1);
    assert chunks[..1] == [[a]];
    RunsCompose(INITIAL, AbandonedOnce(f, a, b), AbandonedPass(f, chunks, 1));
    s := Exec(t, AbandonedPass(f, chunks, 1));
  }

  /**
   A source that does not deduplicate within a pass: although the queue is empty, the store can hold
   an event that the file itself has superseded. All passes use the same batch size.
   */
  lemma StaleStore(f: FileId, a: Event, b: Event)
    requires a.key == b.key && a.output == b.output && a != b
    ensures var steps := StaleRun(f, a, b);
      && Runs(INITIAL, steps)
      && var s := Exec(INITIAL, steps);
         && s.queue == [] && s.phase.Idle?
         && Lookup(s.store, a.key) == Some(a)
         && Lookup(UpsertAll(map[], Records(Content(s, f))), a.key) == Some(b)
  {
    TwoRecords(a, b);
    LastOfTiesStays(a, b);
    var s := TwoAbandonedPasses(f, a, b);
    assert [] + ([a, b] + [a]) == [a, b] + [a];
    assert Promised(s) == UpsertAll(map[], [a, b] + [a]);
    DeliverAllEffect(s);
    RunsCompose(INITIAL, AbandonedTwice(f, a, b), DeliverHeads(3));
  }
}
