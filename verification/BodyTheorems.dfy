/** The two body storages cannot be told apart, and the usage counters tell how much is held. */
module BodyTheorems {
  import opened BodyModel

  ghost predicate SameCursor(b: Buffer, f: File) {
    f.content == b.data && f.pos == b.pos
  }

  /** The storages hold the same body and stand at the same place; so do their readers. */
  ghost predicate Same(m: Memory, d: Disk) {
    && m.reader.data == m.data && d.size == |m.data| && m.closed == d.closed
    && SameCursor(m.reader, d.file) && (d.file.open <==> !d.closed)
    && |m.readers| == |d.readers|
    && forall k :: 0 <= k < |m.readers| ==> SameCursor(m.readers[k], d.readers[k]) && m.readers[k].data == m.data
  }

  /** A read that asks for something or has something left to read. */
  predicate Asks(f: File, n: nat) {
    n > 0 || f.pos < |f.content|
  }

  /** A read asks for something unless something is left, and a reader that was closed is neither read nor closed again. */
  ghost predicate Proper(d: Disk, op: Op) {
    match op
    case Read(n) => d.closed || Asks(d.file, n)
    case ReaderRead(k, n) => k < |d.readers| ==> d.readers[k].open && Asks(d.readers[k], n)
    case ReaderClose(k) => k < |d.readers| ==> d.readers[k].open
    case _ => true
  }

  lemma FileReadMatches(b: Buffer, f: File, n: nat)
    requires SameCursor(b, f) && f.open
    ensures BufferRead(b, n).1 == FileRead(f, n).1 <==> Asks(f, n)
    ensures SameCursor(BufferRead(b, n).0, FileRead(f, n).0) && FileRead(f, n).0.open
  {}

  lemma FileSeekMatches(b: Buffer, f: File, offset: int, whence: Whence)
    requires SameCursor(b, f) && f.open
    ensures BufferSeek(b, offset, whence).1 == FileSeek(f, offset, whence).1
    ensures SameCursor(BufferSeek(b, offset, whence).0, FileSeek(f, offset, whence).0) && FileSeek(f, offset, whence).0.open
  {}

  lemma ReadFullReads(f: File, n: nat)
    requires f.open && f.pos + n <= |f.content|
    ensures ReadFull(f, n) == (f.(pos := f.pos + n), Data(f.content[f.pos..f.pos + n]))
  {
    var got, f1 := f.content[f.pos..f.pos + n], f.(pos := f.pos + n);
    if n > 0 {
      assert FileRead(f, n) == (f1, Data(got));
      assert ReadFull(f1, n - |got|) == (f1, Data([]));
      assert got + [] == got;
    }
  }

  /** Reading everything through the one cursor gives the whole body and puts the cursor back, wherever it stood. */
  lemma BytesKeepsCursor(f: File)
    requires f.open
    ensures DiskBytes(f, |f.content|) == (f, Whole(f.content))
  {
    ReadFullReads(f.(pos := 0), |f.content|);
    assert f.content[0..|f.content|] == f.content;
  }

  /** In storages that stand at the same place an operation has the same outcome exactly when it is proper. */
  lemma SameStep(m: Memory, d: Disk, op: Op)
    requires Same(m, d)
    ensures MemoryStep(m, op).1 == DiskStep(d, op).1 <==> Proper(d, op)
    ensures Proper(d, op) ==> Same(MemoryStep(m, op).0, DiskStep(d, op).0)
  {
    match op
    case Read(n) =>
      if !m.closed {
        FileReadMatches(m.reader, d.file, n);
      }
    case Seek(offset, whence) =>
      if !m.closed {
        FileSeekMatches(m.reader, d.file, offset, whence);
      }
    case Bytes =>
      if !m.closed {
        BytesKeepsCursor(d.file);
      }
    case ReaderRead(k, n) =>
      if k < |m.readers| && d.readers[k].open {
        FileReadMatches(m.readers[k], d.readers[k], n);
      }
    case _ =>
  }

  /** Every operation of a run is proper in the state it meets. */
  ghost predicate ProperRun(d: Disk, ops: seq<Op>)
    decreases |ops|
  {
    ops != [] ==> ProperRun(d, ops[..|ops| - 1]) && Proper(DiskRun(d, ops[..|ops| - 1]).0, ops[|ops| - 1])
  }

  lemma {:induction false} SameRun(m: Memory, d: Disk, ops: seq<Op>)
    requires Same(m, d)
    ensures |MemoryRun(m, ops).1| == |DiskRun(d, ops).1| == |ops|
    ensures MemoryRun(m, ops).1 == DiskRun(d, ops).1 <==> ProperRun(d, ops)
    ensures ProperRun(d, ops) ==> Same(MemoryRun(m, ops).0, DiskRun(d, ops).0)
    decreases |ops|
  {
    if ops != [] {
      var before := ops[..|ops| - 1];
      SameRun(m, d, before);
      var outs, outs' := MemoryRun(m, ops).1, DiskRun(d, ops).1;
      assert MemoryRun(m, before).1 == outs[..|before|] && DiskRun(d, before).1 == outs'[..|before|];
      if ProperRun(d, before) {
        SameStep(MemoryRun(m, before).0, DiskRun(d, before).0, ops[|ops| - 1]);
        assert outs[|before|] == MemoryStep(MemoryRun(m, before).0, ops[|ops| - 1]).1;
        assert outs'[|before|] == DiskStep(DiskRun(d, before).0, ops[|ops| - 1]).1;
      }
    }
  }

  /** From creation on, the outcomes of a run tell where the body is kept exactly when some operation is not proper. */
  lemma ObservationallyEqual(data: Payload, ops: seq<Op>)
    ensures MemoryRun(NewMemory(data), ops).1 == DiskRun(NewDisk(data), ops).1 <==> ProperRun(NewDisk(data), ops)
  {
    SameRun(NewMemory(data), NewDisk(data), ops);
  }

  lemma MemoryRunStep(m: Memory, ops: seq<Op>, op: Op)
    ensures var (m1, outs) := MemoryRun(m, ops);
            MemoryRun(m, ops + [op]) == (MemoryStep(m1, op).0, outs + [MemoryStep(m1, op).1])
  {
    assert (ops + [op])[..|ops|] == ops;
  }

  lemma DiskRunStep(d: Disk, ops: seq<Op>, op: Op)
    ensures var (d1, outs) := DiskRun(d, ops);
            DiskRun(d, ops + [op]) == (DiskStep(d1, op).0, outs + [DiskStep(d1, op).1])
  {
    assert (ops + [op])[..|ops|] == ops;
  }

  /** A reader that has been made and closed: in memory nothing has happened to it. */
  lemma MadeInMemory(data: Payload)
    ensures MemoryRun(NewMemory(data), [NewReader, ReaderClose(0)]).0 == NewMemory(data).(readers := [Buffer(data, 0)])
    ensures MemoryRun(NewMemory(data), [NewReader, ReaderClose(0)]).1 == [Opened(0), Done]
  {
    var none: seq<Op> := [];
    var m := NewMemory(data);
    assert none + [NewReader] == [NewReader] && [NewReader] + [ReaderClose(0)] == [NewReader, ReaderClose(0)];
    MemoryRunStep(m, none, NewReader);
    assert MemoryRun(m, [NewReader]).1 == [Opened(0)];
    assert MemoryRun(m, [NewReader]).0.readers == [Buffer(data, 0)];
    MemoryRunStep(m, [NewReader], ReaderClose(0));
  }

  lemma MadeOnDisk(data: Payload)
    ensures DiskRun(NewDisk(data), [NewReader, ReaderClose(0)]).0 == NewDisk(data).(readers := [File(data, 0, false)])
    ensures DiskRun(NewDisk(data), [NewReader, ReaderClose(0)]).1 == [Opened(0), Done]
  {
    var none: seq<Op> := [];
    var d := NewDisk(data);
    assert none + [NewReader] == [NewReader] && [NewReader] + [ReaderClose(0)] == [NewReader, ReaderClose(0)];
    DiskRunStep(d, none, NewReader);
    assert DiskRun(d, [NewReader]).1 == [Opened(0)];
    assert DiskRun(d, [NewReader]).0.readers == [File(data, 0, true)];
    DiskRunStep(d, [NewReader], ReaderClose(0));
  }

  /** The two ways to use a closed reader that tell the storages apart: closing it again, and reading from it. */
  lemma ClosedReaderTells(data: Payload, n: nat)
    ensures var made := [NewReader, ReaderClose(0)];
            && MemoryRun(NewMemory(data), made + [ReaderClose(0)]).1 == [Opened(0), Done, Done]
            && DiskRun(NewDisk(data), made + [ReaderClose(0)]).1 == [Opened(0), Done, ReaderClosed]
            && MemoryRun(NewMemory(data), made + [ReaderRead(0, n)]).1 != DiskRun(NewDisk(data), made + [ReaderRead(0, n)]).1
            && DiskRun(NewDisk(data), made + [ReaderRead(0, n)]).1 == [Opened(0), Done, ReaderClosed]
  {
    var made := [NewReader, ReaderClose(0)];
    MadeInMemory(data);
    MadeOnDisk(data);
    MemoryRunStep(NewMemory(data), made, ReaderClose(0));
    DiskRunStep(NewDisk(data), made, ReaderClose(0));
    MemoryRunStep(NewMemory(data), made, ReaderRead(0, n));
    DiskRunStep(NewDisk(data), made, ReaderRead(0, n));
    assert MemoryRun(NewMemory(data), made + [ReaderRead(0, n)]).1[2] != ReaderClosed;
  }

  /** And the third way: asking for nothing when nothing is left. */
  lemma EmptyReadTells()
    ensures MemoryRun(NewMemory([]), [Read(0)]).1 == [EndOfFile] && DiskRun(NewDisk([]), [Read(0)]).1 == [Data([])]
  {
    var none: seq<Op> := [];
    assert none + [Read(0)] == [Read(0)];
    MemoryRunStep(NewMemory([]), none, Read(0));
    DiskRunStep(NewDisk([]), none, Read(0));
  }

  /**
   Where a seek leads, and what is read there: from the start, from the cursor or from the end, never before the body;
   the next read gives the body from that position on, or the end of file at or behind its end.
   */
  lemma SeekThenRead(m: Memory, offset: int, whence: Whence, n: nat)
    requires Intact(m) && !m.closed && n > 0
    ensures var at := match whence
                      case FromStart => offset
                      case FromCurrent => m.reader.pos + offset
                      case FromEnd => |m.data| + offset
                      case Unknown => -1;
            var (m1, out) := MemoryStep(m, Seek(offset, whence));
            var (m2, got) := MemoryStep(m1, Read(n));
            && (at < 0 ==> m1 == m && out == BadSeek)
            && (at >= 0 ==> out == Position(at)
                            && got == (if at >= |m.data| then EndOfFile
                                       else Data(m.data[at..if at + n < |m.data| then at + n else |m.data|])))
  {}

  // ---------------------------------------------------------------------------------------
  // Replaying a body through a reader
  // ---------------------------------------------------------------------------------------

  /** What reader `k` gave in a run, and whether it came to the end. */
  ghost function Received(ops: seq<Op>, outs: seq<Outcome>, k: nat): Payload
    requires |ops| == |outs|
    decreases |ops|
  {
    if ops == [] then []
    else
      var n := |ops| - 1;
      Received(ops[..n], outs[..n], k) + if ops[n].ReaderRead? && ops[n].k == k && outs[n].Data? then outs[n].bytes else []
  }

  /** Reader `k` came to the end of its file at some point. */
  ghost predicate EndSeen(ops: seq<Op>, outs: seq<Outcome>, k: nat)
    requires |ops| == |outs|
  {
    exists i :: 0 <= i < |ops| && ops[i].ReaderRead? && ops[i].k == k && outs[i] == EndOfFile
  }

  /** A cursor that stood at the end before, or was found there by the last read, stands there now. */
  lemma EndMeansWhole(ops: seq<Op>, outs: seq<Outcome>, k: nat, data: Payload, before: nat, after: nat)
    requires |ops| == |outs| && ops != [] && before <= after <= |data|
    requires var n := |ops| - 1; EndSeen(ops[..n], outs[..n], k) ==> data[..before] == data
    requires var n := |ops| - 1; ops[n].ReaderRead? && ops[n].k == k && outs[n] == EndOfFile ==> before == |data|
    ensures EndSeen(ops, outs, k) ==> data[..after] == data
  {
    var n := |ops| - 1;
    if i :| 0 <= i < |ops| && ops[i].ReaderRead? && ops[i].k == k && outs[i] == EndOfFile {
      if i < n {
        assert ops[..n][i] == ops[i] && outs[..n][i] == outs[i];
        assert |data[..before]| == before;
      }
      assert data[..|data|] == data;
    }
  }

  /** Cursors stay over the one payload, and a reader that exists stays. */
  ghost predicate Intact(m: Memory) {
    m.reader.data == m.data && forall k :: 0 <= k < |m.readers| ==> m.readers[k].data == m.data && m.readers[k].pos <= |m.data|
  }

  lemma IntactStep(m: Memory, op: Op)
    requires Intact(m)
    ensures var m' := MemoryStep(m, op).0; Intact(m') && m'.data == m.data && |m'.readers| >= |m.readers|
  {}

  /**
   Whatever else is done meanwhile, also by other readers and even after the storage is closed,
   what a reader has given is the body up to its cursor; at its end of file, the whole body.
   */
  lemma {:induction false} ReaderReplays(m: Memory, k: nat, ops: seq<Op>)
    requires Intact(m) && k < |m.readers| && m.readers[k].pos == 0
    ensures var (m', outs) := MemoryRun(m, ops);
            && |outs| == |ops| && Intact(m') && m'.data == m.data && k < |m'.readers|
            && Received(ops, outs, k) == m.data[..m'.readers[k].pos]
            && (EndSeen(ops, outs, k) ==> Received(ops, outs, k) == m.data)
    decreases |ops|
  {
    if ops != [] {
      var n := |ops| - 1;
      ReaderReplays(m, k, ops[..n]);
      var (m1, outs1) := MemoryRun(m, ops[..n]);
      var outs := MemoryRun(m, ops).1;
      assert outs[..n] == outs1;
      IntactStep(m1, ops[n]);
      ReplayStep(m1, k, ops[n]);
      assert Received(ops, outs, k) == m.data[..MemoryRun(m, ops).0.readers[k].pos];
      EndMeansWhole(ops, outs, k, m.data, m1.readers[k].pos, MemoryRun(m, ops).0.readers[k].pos);
    }
  }

  lemma ReplayStep(m: Memory, k: nat, op: Op)
    requires Intact(m) && k < |m.readers|
    ensures var (m', out) := MemoryStep(m, op);
            && k < |m'.readers| && m.readers[k].pos <= m'.readers[k].pos <= |m.data|
            && m.data[..m'.readers[k].pos] ==
               m.data[..m.readers[k].pos] + (if op.ReaderRead? && op.k == k && out.Data? then out.bytes else [])
            && (op.ReaderRead? && op.k == k && out == EndOfFile ==> m.readers[k].pos == |m.data|)
            && (m.readers[k].pos == |m.data| ==> !(op.ReaderRead? && op.k == k && out.Data?))
  {}

  /** Descriptors stay over the one payload. */
  ghost predicate IntactDisk(d: Disk, data: Payload) {
    d.file.content == data && forall k :: 0 <= k < |d.readers| ==> d.readers[k].content == data && d.readers[k].pos <= |data|
  }

  lemma {:induction false} ReadFullKeepsContent(f: File, n: nat)
    ensures ReadFull(f, n).0.content == f.content
    decreases n
  {
    if n > 0 {
      var (f1, out) := FileRead(f, n);
      if out.Data? && out.bytes != [] && |out.bytes| <= n {
        ReadFullKeepsContent(f1, n - |out.bytes|);
      }
    }
  }

  lemma DiskBytesKeepsContent(f: File, size: nat)
    ensures DiskBytes(f, size).0.content == f.content
  {
    ReadFullKeepsContent(f.(pos := 0), size);
  }

  lemma IntactDiskStep(d: Disk, data: Payload, op: Op)
    requires IntactDisk(d, data)
    ensures IntactDisk(DiskStep(d, op).0, data) && |DiskStep(d, op).0.readers| >= |d.readers|
  {
    DiskBytesKeepsContent(d.file, d.size);
  }

  lemma DiskReplayStep(d: Disk, data: Payload, k: nat, op: Op)
    requires IntactDisk(d, data) && k < |d.readers|
    ensures var (d', out) := DiskStep(d, op);
            && k < |d'.readers| && d.readers[k].pos <= d'.readers[k].pos <= |data|
            && data[..d'.readers[k].pos] ==
               data[..d.readers[k].pos] + (if op.ReaderRead? && op.k == k && out.Data? then out.bytes else [])
            && (op.ReaderRead? && op.k == k && out == EndOfFile ==> d.readers[k].pos == |data|)
  {}

  /** The same on disk, where a reader is a descriptor that may be closed. */
  lemma {:induction false} DiskReaderReplays(d: Disk, data: Payload, k: nat, ops: seq<Op>)
    requires IntactDisk(d, data) && k < |d.readers| && d.readers[k].pos == 0
    ensures var (d', outs) := DiskRun(d, ops);
            && |outs| == |ops| && IntactDisk(d', data) && k < |d'.readers|
            && Received(ops, outs, k) == data[..d'.readers[k].pos]
            && (EndSeen(ops, outs, k) ==> Received(ops, outs, k) == data)
    decreases |ops|
  {
    if ops != [] {
      var n := |ops| - 1;
      DiskReaderReplays(d, data, k, ops[..n]);
      var (d1, outs1) := DiskRun(d, ops[..n]);
      var outs := DiskRun(d, ops).1;
      assert outs[..n] == outs1;
      IntactDiskStep(d1, data, ops[n]);
      DiskReplayStep(d1, data, k, ops[n]);
      assert Received(ops, outs, k) == data[..DiskRun(d, ops).0.readers[k].pos];
      EndMeansWhole(ops, outs, k, data, d1.readers[k].pos, DiskRun(d, ops).0.readers[k].pos);
    }
  }

  // ---------------------------------------------------------------------------------------
  // Creation and accounting
  // ---------------------------------------------------------------------------------------

  /** A body is refused for its size exactly when it is over the limit, wherever it would go; otherwise it is kept whole. */
  lemma RefusedExactly(settings: Settings, s: Stats, input: Payload, contentLength: int, maxBytes: int, diskWorks: bool)
    ensures var (s', made) := CreateFromReader(settings, s, input, contentLength, maxBytes, diskWorks, true);
            && (made.TooLarge? ==> |input| > maxBytes)
            && (|input| > maxBytes && !made.Failed? ==> made.TooLarge?)
            && (made.Created? ==> made.data == input)
            && (made.Failed? ==> !diskWorks)
            && (!made.Created? ==> s' == s)
  {
    if |input| <= maxBytes {
      assert Limited(input, maxBytes + 1) == input;
    }
  }

  /**
   Where a body goes, by the settings, the counter and the lengths. One at hand goes to the disk if it is large enough and
   fits. A stream goes there by its declared length; if that does not decide so, by its own once it has been read. A disk
   that fails is an error only for a stream that was sent there, and exactly one hit is counted.
   */
  lemma PlacedExactly(settings: Settings, s: Stats, input: Payload, contentLength: int, maxBytes: int, diskWorks: bool, readWorks: bool)
    ensures var roomy := (n: int) => settings.enabled && settings.threshold <= n && s.diskBytes + n <= settings.maxBytes;
            var (s', made) := CreateFromReader(settings, s, input, contentLength, maxBytes, diskWorks, readWorks);
            var direct := contentLength > 0 && roomy(contentLength);
            && Create(settings, s, input, diskWorks).1 == Created(roomy(|input|) && diskWorks, input)
            && (made.Failed? <==> !readWorks || (direct && !diskWorks))
            && (made.Created? ==> (made.disk <==> diskWorks && (direct || roomy(|input|))))
            && (made.Created? ==> s'.diskHits == s.diskHits + (if made.disk then 1 else 0)
                                  && s'.memoryHits == s.memoryHits + (if made.disk then 0 else 1))
  {
    if |input| <= maxBytes {
      assert Limited(input, maxBytes + 1) == input;
    }
  }

  /** The steps of a streamed creation with nothing in between come to the call as a whole. */
  lemma StreamAlone(w: World, settings: Settings, input: Payload, contentLength: int, maxBytes: int, diskWorks: bool, readWorks: bool)
    ensures var w1, j := WorldStep(w, Stream(settings, input, contentLength, maxBytes)), |w.jobs|;
            var w2 := if w1.jobs[j].Streaming? then WorldStep(w1, Write(j, diskWorks && readWorks))
                      else WorldStep(WorldStep(w1, ReadAll(j, readWorks)), Write(j, diskWorks));
            && |w2.jobs| == j + 1
            && (w2.stats, w2.jobs[j]) ==
               (var (s, made) := CreateFromReader(settings, w.stats, input, contentLength, maxBytes, diskWorks, readWorks); (s, Ended(made)))
  {}

  ghost predicate Balanced(w: World) {
    && w.stats.diskFiles == Count(w.held, true) && w.stats.diskBytes == Size(w.held, true)
    && w.stats.buffers == Count(w.held, false) && w.stats.bufferBytes == Size(w.held, false)
  }

  lemma {:induction false} ReleaseTotals(held: seq<Held>, k: nat, disk: bool)
    requires k < |held| && !held[k].closed
    ensures var after := held[k := held[k].(closed := true)];
            && Count(after, disk) == Count(held, disk) - (if held[k].disk == disk then 1 else 0)
            && Size(after, disk) == Size(held, disk) - (if held[k].disk == disk then held[k].size else 0)
    decreases |held|
  {
    var n, after := |held| - 1, held[k := held[k].(closed := true)];
    if k < n {
      ReleaseTotals(held[..n], k, disk);
      assert after[..n] == held[..n][k := held[k].(closed := true)];
    } else {
      assert after[..n] == held[..n];
    }
  }

  lemma KeepTotals(held: seq<Held>, h: Held, disk: bool)
    requires !h.closed
    ensures Count(held + [h], disk) == Count(held, disk) + (if h.disk == disk then 1 else 0)
    ensures Size(held + [h], disk) == Size(held, disk) + (if h.disk == disk then h.size else 0)
  {
    assert (held + [h])[..|held|] == held;
  }

  lemma BalancedKept(w: World, j: nat, disk: bool, data: Payload, hit: bool)
    requires Balanced(w) && j < |w.jobs|
    ensures Balanced(Kept(w, j, disk, data, hit))
  {
    KeepTotals(w.held, Held(disk, |data|, false), true);
    KeepTotals(w.held, Held(disk, |data|, false), false);
  }

  lemma BalancedWrite(w: World, j: nat, works: bool)
    requires Balanced(w)
    ensures Balanced(WriteStep(w, j, works))
  {
    if j < |w.jobs| {
      if w.jobs[j].Writing? {
        BalancedKept(w, j, w.jobs[j].disk && works, w.jobs[j].data, w.jobs[j].streamed);
      } else if w.jobs[j].Streaming? {
        BalancedKept(w, j, true, Limited(w.jobs[j].input, w.jobs[j].maxBytes + 1), true);
      }
    }
  }

  lemma BalancedStep(w: World, e: Event)
    requires Balanced(w)
    ensures Balanced(WorldStep(w, e))
  {
    match e
    case Write(j, works) => BalancedWrite(w, j, works);
    case Release(k) =>
      if k < |w.held| && !w.held[k].closed {
        ReleaseTotals(w.held, k, true);
        ReleaseTotals(w.held, k, false);
      }
    case _ =>
  }

  /** Under every interleaving the counters are the number and the size of the storages that are not closed, each kind by itself. */
  lemma {:induction false} CountersAlwaysBalance(events: seq<Event>)
    ensures Balanced(WorldRun(events))
    decreases |events|
  {
    if events != [] {
      CountersAlwaysBalance(events[..|events| - 1]);
      BalancedStep(WorldRun(events[..|events| - 1]), events[|events| - 1]);
    }
  }

  // ---------------------------------------------------------------------------------------
  // The disk budget
  // ---------------------------------------------------------------------------------------

  lemma {:induction false} InFlightUpdate(jobs: seq<Job>, j: nat, job: Job)
    requires j < |jobs|
    ensures InFlight(jobs[j := job]) == InFlight(jobs) - Owed(jobs[j]) + Owed(job)
    ensures InFlight(jobs) >= Owed(jobs[j])
    decreases |jobs|
  {
    var n, after := |jobs| - 1, jobs[j := job];
    if j < n {
      InFlightUpdate(jobs[..n], j, job);
      assert after[..n] == jobs[..n][j := job];
    } else {
      assert after[..n] == jobs[..n];
    }
  }

  lemma InFlightAppend(jobs: seq<Job>, job: Job)
    ensures InFlight(jobs + [job]) == InFlight(jobs) + Owed(job)
  {
    assert (jobs + [job])[..|jobs|] == jobs;
  }

  /** No decision, made or still to be made, works with a greater budget. */
  ghost predicate Budgeted(w: World, budget: int) {
    forall j :: 0 <= j < |w.jobs| && w.jobs[j].Reading? ==> w.jobs[j].settings.maxBytes <= budget
  }

  predicate EventBudget(e: Event, budget: int) {
    (e.Keep? || e.Stream?) ==> e.settings.maxBytes <= budget
  }

  /** What is counted and what is still in flight, together. */
  function Load(w: World): int {
    w.stats.diskBytes + InFlight(w.jobs)
  }

  /** A new job owes at most what its decision may overrun by, beyond what the counter left of the budget. */
  lemma LoadBegins(w: World, e: Event, budget: int)
    requires (e.Keep? || e.Stream?) && e.settings.maxBytes <= budget
    ensures Load(WorldStep(w, e)) <= Load(w) || Load(WorldStep(w, e)) <= Clamp(budget) + Overrun(w, e)
  {
    InFlightAppend(w.jobs, WorldStep(w, e).jobs[|w.jobs|]);
  }

  lemma LoadReads(w: World, j: nat, works: bool, budget: int)
    requires Budgeted(w, budget)
    ensures var e := ReadAll(j, works);
            Load(WorldStep(w, e)) <= Load(w) || Load(WorldStep(w, e)) <= Clamp(budget) + Overrun(w, e)
  {
    if j < |w.jobs| && w.jobs[j].Reading? {
      InFlightUpdate(w.jobs, j, ReadAllStep(w, j, works).jobs[j]);
    }
  }

  /** Writing moves a size from what is in flight to what is counted, or drops it. */
  lemma LoadWrites(w: World, j: nat, works: bool)
    ensures Load(WriteStep(w, j, works)) <= Load(w)
  {
    if j < |w.jobs| {
      InFlightUpdate(w.jobs, j, WriteStep(w, j, works).jobs[j]);
    }
  }

  lemma LoadReleases(w: World, k: nat)
    requires Balanced(w)
    ensures Load(WorldStep(w, Release(k))) <= Load(w)
  {
    if k < |w.held| && !w.held[k].closed {
      ReleaseTotals(w.held, k, true);
    }
  }

  lemma BudgetedStep(w: World, e: Event, budget: int)
    requires Budgeted(w, budget) && EventBudget(e, budget)
    ensures Budgeted(WorldStep(w, e), budget)
  {}

  /** A decision is made with the counted part within the budget; no other step adds to the load. */
  lemma LoadStep(w: World, e: Event, budget: int)
    requires Balanced(w) && Budgeted(w, budget) && EventBudget(e, budget)
    ensures Load(WorldStep(w, e)) <= Load(w) || Load(WorldStep(w, e)) <= Clamp(budget) + Overrun(w, e)
  {
    match e
    case ReadAll(j, works) => LoadReads(w, j, works, budget);
    case Write(j, works) => LoadWrites(w, j, works);
    case Release(k) => LoadReleases(w, k);
    case _ => LoadBegins(w, e, budget);
  }

  ghost predicate AllBudgeted(events: seq<Event>, budget: int) {
    forall i :: 0 <= i < |events| ==> EventBudget(events[i], budget)
  }

  /**
   Under every interleaving, what the disk holds and is about to hold is at most the budget and the
   greatest overrun of a decision: what was in flight, unseen by the counter, when it was made, and
   what a stream was longer than declared.
   */
  lemma {:induction false} DiskUseIsBounded(events: seq<Event>, budget: int)
    requires AllBudgeted(events, budget)
    ensures Budgeted(WorldRun(events), budget)
    ensures WorldRun(events).stats.diskBytes + InFlight(WorldRun(events).jobs) <= Clamp(budget) + Peak(events)
    decreases |events|
  {
    if events != [] {
      var before, e := events[..|events| - 1], events[|events| - 1];
      assert AllBudgeted(before, budget);
      DiskUseIsBounded(before, budget);
      CountersAlwaysBalance(before);
      LoadStep(WorldRun(before), e, budget);
      BudgetedStep(WorldRun(before), e, budget);
    }
  }

  /** So the budget is kept where decisions are made with nothing in flight and lengths are declared truthfully. */
  lemma DiskStaysWithinBudget(events: seq<Event>, budget: nat)
    requires AllBudgeted(events, budget) && Peak(events) == 0
    ensures WorldRun(events).stats.diskBytes <= budget
  {
    DiskUseIsBounded(events, budget);
  }

  lemma WorldRunStep(events: seq<Event>, e: Event)
    ensures WorldRun(events + [e]) == WorldStep(WorldRun(events), e)
  {
    assert (events + [e])[..|events|] == events;
  }

  /** Two creations that both decide before either is counted. */
  function Race(settings: Settings, a: Payload, b: Payload): seq<Event> {
    [Keep(settings, a), Keep(settings, b), Write(0, true), Write(1, true)]
  }

  /** The race: two bodies that each fit the budget are both stored, whether or not they fit together. */
  lemma RaceIgnoresBudget(settings: Settings, a: Payload, b: Payload)
    requires settings.enabled && settings.threshold <= |a| <= settings.maxBytes && settings.threshold <= |b| <= settings.maxBytes
    ensures WorldRun(Race(settings, a, b)).stats.diskBytes == |a| + |b|
  {
    var none: seq<Event> := [];
    var e := Race(settings, a, b);
    WorldRunStep(none, e[0]);
    WorldRunStep([e[0]], e[1]);
    WorldRunStep([e[0], e[1]], e[2]);
    WorldRunStep([e[0], e[1], e[2]], e[3]);
    assert none + [e[0]] == [e[0]] && [e[0]] + [e[1]] == [e[0], e[1]];
    assert [e[0], e[1]] + [e[2]] == [e[0], e[1], e[2]] && [e[0], e[1], e[2]] + [e[3]] == e;
    assert WorldRun([e[0], e[1]]).jobs == [Writing(true, a, false), Writing(true, b, false)];
  }

  /**
   For one call that runs alone: the counter is over the budget afterwards exactly when it was before, or when a
   stream decided by its declared length is within the call's limit and does not fit.
   */
  lemma StreamOverrunsExactly(settings: Settings, s: Stats, input: Payload, contentLength: int, maxBytes: int, diskWorks: bool, readWorks: bool)
    ensures CreateFromReader(settings, s, input, contentLength, maxBytes, diskWorks, readWorks).0.diskBytes > settings.maxBytes <==>
              || s.diskBytes > settings.maxBytes
              || (&& diskWorks && readWorks && settings.enabled && contentLength > 0 && settings.threshold <= contentLength
                  && s.diskBytes + contentLength <= settings.maxBytes < s.diskBytes + |input| && |input| <= maxBytes)
  {
    if |input| <= maxBytes {
      assert Limited(input, maxBytes + 1) == input;
    }
  }

  /** In particular a stream of any declared length within the budget, when it is longer than the whole budget. */
  lemma UnderstatedLengthOverruns(settings: Settings, input: Payload, contentLength: int, maxBytes: int)
    requires settings.enabled && 0 < contentLength && settings.threshold <= contentLength <= settings.maxBytes < |input| <= maxBytes
    ensures WorldRun([Stream(settings, input, contentLength, maxBytes), Write(0, true)]).stats.diskBytes == |input| > settings.maxBytes
  {
    var none: seq<Event> := [];
    var first, second := Stream(settings, input, contentLength, maxBytes), Write(0, true);
    WorldRunStep(none, first);
    WorldRunStep([first], second);
    assert none + [first] == [first] && [first] + [second] == [first, second];
    assert WorldRun([first]).jobs == [Streaming(input, maxBytes)];
    assert Limited(input, maxBytes + 1) == input;
  }
}
