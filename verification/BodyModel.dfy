/**
 Request bodies kept in memory or in a file. The two storages are modelled separately, each with
 the cursor it really has: an index into a buffer, or the position of a descriptor.
 */
module BodyModel {

  newtype byte = x: int | 0 <= x < 256
  type Payload = seq<byte>

  datatype Whence = FromStart | FromCurrent | FromEnd | Unknown

  datatype Op =
    | Read(n: nat)
    | Seek(offset: int, whence: Whence)
    | Bytes
    | NewReader
    | Close
    | ReaderRead(k: nat, n: nat)
    | ReaderClose(k: nat)

  datatype Outcome =
    | Data(bytes: Payload)
    | EndOfFile
    | Position(at: int)
    | BadSeek
    | Whole(bytes: Payload)
    | Opened(k: nat)
    | Done
    | StorageClosed
    | ReaderClosed
    | NoSuchReader

  function Min(a: int, b: int): int {
    if a < b then a else b
  }

  // ---------------------------------------------------------------------------------------
  // A buffer with a cursor
  // ---------------------------------------------------------------------------------------

  /** A cursor may stand past the end. */
  datatype Buffer = Buffer(data: Payload, pos: nat)

  function BufferRead(b: Buffer, n: nat): (Buffer, Outcome) {
    if b.pos >= |b.data| then (b, EndOfFile)
    else
      var end := b.pos + Min(n, |b.data| - b.pos);
      (b.(pos := end), Data(b.data[b.pos..end]))
  }

  function BufferSeek(b: Buffer, offset: int, whence: Whence): (Buffer, Outcome) {
    if whence == Unknown then (b, BadSeek)
    else
      var at := match whence
        case FromStart => offset
        case FromCurrent => b.pos + offset
        case _ => |b.data| + offset;
      if at < 0 then (b, BadSeek) else (b.(pos := at), Position(at))
  }

  datatype Memory = Memory(data: Payload, reader: Buffer, readers: seq<Buffer>, closed: bool)

  function NewMemory(data: Payload): Memory {
    Memory(data, Buffer(data, 0), [], false)
  }

  /** A reader over the buffer has nothing to release, so closing it does nothing. */
  function MemoryStep(m: Memory, op: Op): (Memory, Outcome) {
    match op
    case ReaderRead(k, n) =>
      if k >= |m.readers| then (m, NoSuchReader)
      else
        var (b, out) := BufferRead(m.readers[k], n);
        (m.(readers := m.readers[k := b]), out)
    case ReaderClose(k) => (m, if k < |m.readers| then Done else NoSuchReader)
    case Close => (m.(closed := true), Done)
    case Read(n) =>
      if m.closed then (m, StorageClosed)
      else
        var (b, out) := BufferRead(m.reader, n);
        (m.(reader := b), out)
    case Seek(offset, whence) =>
      if m.closed then (m, StorageClosed)
      else
        var (b, out) := BufferSeek(m.reader, offset, whence);
        (m.(reader := b), out)
    case Bytes => (m, if m.closed then StorageClosed else Whole(m.data))
    case NewReader =>
      if m.closed then (m, StorageClosed)
      else (m.(readers := m.readers + [Buffer(m.data, 0)]), Opened(|m.readers|))
  }

  // ---------------------------------------------------------------------------------------
  // A file
  // ---------------------------------------------------------------------------------------

  /** A descriptor: it keeps the content reachable even when the file's name is gone. */
  datatype File = File(content: Payload, pos: nat, open: bool)

  /** A read of no bytes is never the end of the file. */
  function FileRead(f: File, n: nat): (File, Outcome) {
    if !f.open then (f, ReaderClosed)
    else
      var got := if f.pos >= |f.content| then [] else f.content[f.pos..f.pos + Min(n, |f.content| - f.pos)];
      (f.(pos := f.pos + |got|), if got == [] && n > 0 then EndOfFile else Data(got))
  }

  function FileSeek(f: File, offset: int, whence: Whence): (File, Outcome) {
    if !f.open then (f, ReaderClosed)
    else if whence == Unknown then (f, BadSeek)
    else
      var base := if whence == FromStart then 0 else if whence == FromCurrent then f.pos else |f.content|;
      if base + offset < 0 then (f, BadSeek) else (f.(pos := base + offset), Position(base + offset))
  }

  /** A descriptor can be closed once. */
  function FileClose(f: File): (File, Outcome) {
    if !f.open then (f, ReaderClosed) else (f.(open := false), Done)
  }

  /** Reading until `n` bytes have come, or the end. */
  function ReadFull(f: File, n: nat): (File, Outcome)
    decreases n
  {
    if n == 0 then (f, Data([]))
    else
      var (f1, out) := FileRead(f, n);
      if !out.Data? || out.bytes == [] || |out.bytes| > n then (f1, out)
      else
        var (f2, rest) := ReadFull(f1, n - |out.bytes|);
        (f2, if rest.Data? then Data(out.bytes + rest.bytes) else rest)
  }

  datatype Disk = Disk(file: File, size: nat, readers: seq<File>, closed: bool)

  function NewDisk(data: Payload): Disk {
    Disk(File(data, 0, true), |data|, [], false)
  }

  /** The whole content, by way of the one cursor the storage has. */
  function DiskBytes(f: File, size: nat): (File, Outcome) {
    var (f1, current) := FileSeek(f, 0, FromCurrent);
    if !current.Position? then (f1, current)
    else
      var (f2, start) := FileSeek(f1, 0, FromStart);
      if !start.Position? then (f2, start)
      else
        var (f3, data) := ReadFull(f2, size);
        if !data.Data? then (f3, data)
        else
          var (f4, back) := FileSeek(f3, current.at, FromStart);
          (f4, if back.Position? then Whole(data.bytes) else back)
  }

  function DiskStep(d: Disk, op: Op): (Disk, Outcome) {
    match op
    case ReaderRead(k, n) =>
      if k >= |d.readers| then (d, NoSuchReader)
      else
        var (f, out) := FileRead(d.readers[k], n);
        (d.(readers := d.readers[k := f]), out)
    case ReaderClose(k) =>
      if k >= |d.readers| then (d, NoSuchReader)
      else
        var (f, out) := FileClose(d.readers[k]);
        (d.(readers := d.readers[k := f]), out)
    case Close => (d.(closed := true, file := d.file.(open := false)), Done)
    case Read(n) =>
      if d.closed then (d, StorageClosed)
      else
        var (f, out) := FileRead(d.file, n);
        (d.(file := f), out)
    case Seek(offset, whence) =>
      if d.closed then (d, StorageClosed)
      else
        var (f, out) := FileSeek(d.file, offset, whence);
        (d.(file := f), out)
    case Bytes =>
      if d.closed then (d, StorageClosed)
      else
        var (f, out) := DiskBytes(d.file, d.size);
        (d.(file := f), out)
    case NewReader =>
      if d.closed then (d, StorageClosed)
      else (d.(readers := d.readers + [File(d.file.content, 0, true)]), Opened(|d.readers|))
  }

  // ---------------------------------------------------------------------------------------
  // Runs
  // ---------------------------------------------------------------------------------------

  function MemoryRun(m: Memory, ops: seq<Op>): (Memory, seq<Outcome>)
    decreases |ops|
  {
    if ops == [] then (m, [])
    else
      var (m1, outs) := MemoryRun(m, ops[..|ops| - 1]);
      var (m2, out) := MemoryStep(m1, ops[|ops| - 1]);
      (m2, outs + [out])
  }

  function DiskRun(d: Disk, ops: seq<Op>): (Disk, seq<Outcome>)
    decreases |ops|
  {
    if ops == [] then (d, [])
    else
      var (d1, outs) := DiskRun(d, ops[..|ops| - 1]);
      var (d2, out) := DiskStep(d1, ops[|ops| - 1]);
      (d2, outs + [out])
  }

  // ---------------------------------------------------------------------------------------
  // Creation and usage counters
  // ---------------------------------------------------------------------------------------

  datatype Stats = Stats(diskFiles: int, diskBytes: int, buffers: int, bufferBytes: int, diskHits: int, memoryHits: int)

  function Clamp(x: int): nat {
    if x < 0 then 0 else x
  }

  function AddStorage(s: Stats, disk: bool, size: nat): Stats {
    if disk then s.(diskFiles := s.diskFiles + 1, diskBytes := s.diskBytes + size)
    else s.(buffers := s.buffers + 1, bufferBytes := s.bufferBytes + size)
  }

  /** The disk counters are kept from going below zero. */
  function DropStorage(s: Stats, disk: bool, size: nat): Stats {
    if disk then s.(diskFiles := Clamp(s.diskFiles - 1), diskBytes := Clamp(s.diskBytes - size))
    else s.(buffers := s.buffers - 1, bufferBytes := s.bufferBytes - size)
  }

  datatype Settings = Settings(enabled: bool, threshold: int, maxBytes: int)

  predicate Available(settings: Settings, s: Stats, size: int) {
    settings.enabled && s.diskBytes + size <= settings.maxBytes
  }

  /** Whether a body of this size goes to the disk, by the counter as it stands. */
  predicate Wants(settings: Settings, s: Stats, size: int) {
    size >= settings.threshold && Available(settings, s, size)
  }

  datatype Creation = Created(disk: bool, data: Payload) | TooLarge | Failed

  function Hit(s: Stats, disk: bool): Stats {
    if disk then s.(diskHits := s.diskHits + 1) else s.(memoryHits := s.memoryHits + 1)
  }

  /** A body that is at hand, in a call that runs alone: a failing disk leaves it in memory. */
  function Create(settings: Settings, s: Stats, data: Payload, diskWorks: bool): (Stats, Creation) {
    var disk := Wants(settings, s, |data|) && diskWorks;
    (AddStorage(s, disk, |data|), Created(disk, data))
  }

  /** What a reader limited to `limit` bytes gives of its input. */
  function Limited(input: Payload, limit: int): Payload {
    if limit <= 0 then [] else input[..Min(limit, |input|)]
  }

  /** A body that is still to be read, in a call that runs alone. `readWorks` is whether the input can be read to its end. */
  function CreateFromReader(settings: Settings, s: Stats, input: Payload, contentLength: int, maxBytes: int,
                            diskWorks: bool, readWorks: bool): (Stats, Creation) {
    var data := Limited(input, maxBytes + 1);
    if contentLength > 0 && Wants(settings, s, contentLength) then
      if !diskWorks || !readWorks then (s, Failed)
      else if |data| > maxBytes then (s, TooLarge)
      else (Hit(AddStorage(s, true, |data|), true), Created(true, data))
    else if !readWorks then (s, Failed)
    else if |data| > maxBytes then (s, TooLarge)
    else
      var (s', made) := Create(settings, s, data, diskWorks);
      (Hit(s', made.disk), made)
  }

  // ---------------------------------------------------------------------------------------
  // Many storages, created and closed concurrently
  // ---------------------------------------------------------------------------------------

  datatype Held = Held(disk: bool, size: nat, closed: bool)

  /**
   A creation under way. The decision for the disk reads the counter; the counter goes up only
   when the file has been written, and any other steps may come in between.
   */
  datatype Job =
    | Reading(settings: Settings, input: Payload, maxBytes: int)  // into memory; the decision is still to come
    | Streaming(input: Payload, maxBytes: int)                    // to the disk, decided by the declared length
    | Writing(disk: bool, data: Payload, streamed: bool)          // decided by the length at hand
    | Ended(result: Creation)

  datatype World = World(stats: Stats, held: seq<Held>, jobs: seq<Job>)

  datatype Event =
    | Keep(settings: Settings, data: Payload)
    | Stream(settings: Settings, input: Payload, contentLength: int, maxBytes: int)
    | ReadAll(j: nat, works: bool)
    | Write(j: nat, works: bool)
    | Release(k: nat)

  function Kept(w: World, j: nat, disk: bool, data: Payload, hit: bool): World
    requires j < |w.jobs|
  {
    var stats := AddStorage(w.stats, disk, |data|);
    World(if hit then Hit(stats, disk) else stats,
          w.held + [Held(disk, |data|, false)],
          w.jobs[j := Ended(Created(disk, data))])
  }

  function ReadAllStep(w: World, j: nat, works: bool): World {
    if j >= |w.jobs| || !w.jobs[j].Reading? then w
    else
      var Reading(settings, input, maxBytes) := w.jobs[j];
      var data := Limited(input, maxBytes + 1);
      w.(jobs := w.jobs[j :=
        if !works then Ended(Failed)
        else if |data| > maxBytes then Ended(TooLarge)
        else Writing(Wants(settings, w.stats, |data|), data, true)])
  }

  function WriteStep(w: World, j: nat, works: bool): World {
    if j >= |w.jobs| then w
    else if w.jobs[j].Writing? then Kept(w, j, w.jobs[j].disk && works, w.jobs[j].data, w.jobs[j].streamed)
    else if w.jobs[j].Streaming? then
      var data := Limited(w.jobs[j].input, w.jobs[j].maxBytes + 1);
      if !works then w.(jobs := w.jobs[j := Ended(Failed)])
      else if |data| > w.jobs[j].maxBytes then w.(jobs := w.jobs[j := Ended(TooLarge)])
      else Kept(w, j, true, data, true)
    else w
  }

  /** A step that does not apply changes nothing. Only the first close of a storage counts. */
  function WorldStep(w: World, e: Event): World {
    match e
    case Keep(settings, data) => w.(jobs := w.jobs + [Writing(Wants(settings, w.stats, |data|), data, false)])
    case Stream(settings, input, contentLength, maxBytes) =>
      w.(jobs := w.jobs + [if contentLength > 0 && Wants(settings, w.stats, contentLength) then Streaming(input, maxBytes)
                           else Reading(settings, input, maxBytes)])
    case ReadAll(j, works) => ReadAllStep(w, j, works)
    case Write(j, works) => WriteStep(w, j, works)
    case Release(k) =>
      if k >= |w.held| || w.held[k].closed then w
      else w.(stats := DropStorage(w.stats, w.held[k].disk, w.held[k].size), held := w.held[k := w.held[k].(closed := true)])
  }

  const IDLE := World(Stats(0, 0, 0, 0, 0, 0), [], [])

  function WorldRun(events: seq<Event>): World
    decreases |events|
  {
    if events == [] then IDLE else WorldStep(WorldRun(events[..|events| - 1]), events[|events| - 1])
  }

  /** The storages of a kind that are not closed, and what they hold together. */
  function Count(held: seq<Held>, disk: bool): nat
    decreases |held|
  {
    if held == [] then 0
    else
      var h := held[|held| - 1];
      Count(held[..|held| - 1], disk) + if h.disk == disk && !h.closed then 1 else 0
  }

  function Size(held: seq<Held>, disk: bool): nat
    decreases |held|
  {
    if held == [] then 0
    else
      var h := held[|held| - 1];
      Size(held[..|held| - 1], disk) + if h.disk == disk && !h.closed then h.size else 0
  }

  /** What a creation decided for the disk may still add to the counter. */
  function Owed(job: Job): nat {
    match job
    case Streaming(input, maxBytes) => |Limited(input, maxBytes + 1)|
    case Writing(disk, data, _) => if disk then |data| else 0
    case _ => 0
  }

  function InFlight(jobs: seq<Job>): nat
    decreases |jobs|
  {
    if jobs == [] then 0 else InFlight(jobs[..|jobs| - 1]) + Owed(jobs[|jobs| - 1])
  }

  /** By how much an event's decision may overrun: what is in flight unseen, and what a stream is longer than declared. */
  function Overrun(w: World, e: Event): nat {
    match e
    case Keep(settings, data) => if Wants(settings, w.stats, |data|) then InFlight(w.jobs) else 0
    case Stream(settings, input, contentLength, maxBytes) =>
      if contentLength > 0 && Wants(settings, w.stats, contentLength)
      then InFlight(w.jobs) + Clamp(|Limited(input, maxBytes + 1)| - contentLength) else 0
    case ReadAll(j, _) => if j < |w.jobs| && w.jobs[j].Reading? && Owed(ReadAllStep(w, j, true).jobs[j]) > 0 then InFlight(w.jobs) else 0
    case _ => 0
  }

  /** The greatest overrun of a run's decisions. */
  function Peak(events: seq<Event>): nat
    decreases |events|
  {
    if events == [] then 0
    else
      var before, last := Peak(events[..|events| - 1]), Overrun(WorldRun(events[..|events| - 1]), events[|events| - 1]);
      if last > before then last else before
  }
}
