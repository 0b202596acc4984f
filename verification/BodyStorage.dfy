/** The storages as objects: a cursor and a closed flag that every call may move. */
module BodyStorage {
  import opened BodyModel
  import opened BodyTheorems

  /** The process-wide usage counters. */
  class UsageCounters {
    var stats: Stats

    constructor ()
      ensures stats == Stats(0, 0, 0, 0, 0, 0)
    {
      stats := Stats(0, 0, 0, 0, 0, 0);
    }

    method IncrementDiskFiles(size: nat)
      modifies this
      ensures stats == AddStorage(old(stats), true, size)
    {
      stats := stats.(diskFiles := stats.diskFiles + 1);
      stats := stats.(diskBytes := stats.diskBytes + size);
    }

    method DecrementDiskFiles(size: nat)
      modifies this
      ensures stats == DropStorage(old(stats), true, size)
    {
      stats := stats.(diskFiles := stats.diskFiles - 1);
      if stats.diskFiles < 0 {
        stats := stats.(diskFiles := 0);
      }
      stats := stats.(diskBytes := stats.diskBytes - size);
      if stats.diskBytes < 0 {
        stats := stats.(diskBytes := 0);
      }
    }

    method IncrementMemoryBuffers(size: nat)
      modifies this
      ensures stats == AddStorage(old(stats), false, size)
    {
      stats := stats.(buffers := stats.buffers + 1, bufferBytes := stats.bufferBytes + size);
    }

    method DecrementMemoryBuffers(size: nat)
      modifies this
      ensures stats == DropStorage(old(stats), false, size)
    {
      stats := stats.(buffers := stats.buffers - 1, bufferBytes := stats.bufferBytes - size);
    }
  }

  /** A reader over a buffer, with its own cursor. */
  class BytesReader {
    const data: Payload
    var i: nat

    constructor (data: Payload)
      ensures View() == Buffer(data, 0)
    {
      this.data, i := data, 0;
    }

    function View(): Buffer
      reads this
    {
      Buffer(data, i)
    }

    method Read(n: nat) returns (out: Outcome)
      modifies this
      ensures (View(), out) == BufferRead(old(View()), n)
    {
      if i >= |data| {
        return EndOfFile;
      }
      var end := i + Min(n, |data| - i);
      out := Data(data[i..end]);
      i := end;
    }

    method Seek(offset: int, whence: Whence) returns (out: Outcome)
      modifies this
      ensures (View(), out) == BufferSeek(old(View()), offset, whence)
    {
      var at := 0;
      match whence {
        case FromStart => at := offset;
        case FromCurrent => at := i + offset;
        case FromEnd => at := |data| + offset;
        case Unknown => return BadSeek;
      }
      if at < 0 {
        return BadSeek;
      }
      i := at;
      return Position(at);
    }
  }

  /** Readers are objects of their own: no call of the storage touches the cursor of one. */
  class MemoryStorage {
    const data: Payload
    const reader: BytesReader
    var closed: bool

    constructor (data: Payload, usage: UsageCounters)
      modifies usage
      ensures fresh(reader) && View() == NewMemory(data)
      ensures usage.stats == AddStorage(old(usage.stats), false, |data|)
    {
      this.data, closed := data, false;
      reader := new BytesReader(data);
      new;
      usage.IncrementMemoryBuffers(|data|);
    }

    function View(): Memory
      reads this, reader
    {
      Memory(data, reader.View(), [], closed)
    }

    method Read(n: nat) returns (out: Outcome)
      modifies reader
      ensures (View(), out) == MemoryStep(old(View()), Op.Read(n))
    {
      if closed {
        return StorageClosed;
      }
      out := reader.Read(n);
    }

    method Seek(offset: int, whence: Whence) returns (out: Outcome)
      modifies reader
      ensures (View(), out) == MemoryStep(old(View()), Op.Seek(offset, whence))
    {
      if closed {
        return StorageClosed;
      }
      out := reader.Seek(offset, whence);
    }

    method Bytes() returns (out: Outcome)
      ensures (View(), out) == MemoryStep(View(), Op.Bytes)
    {
      return if closed then StorageClosed else Whole(data);
    }

    method NewReader() returns (r: BytesReader?)
      ensures closed <==> r == null
      ensures r != null ==> fresh(r) && MemoryStep(View(), Op.NewReader).0.readers == [r.View()]
    {
      if closed {
        return null;
      }
      r := new BytesReader(data);
    }

    method Close(usage: UsageCounters) returns (out: Outcome)
      modifies this`closed, usage
      ensures (View(), out) == MemoryStep(old(View()), Op.Close)
      ensures usage.stats == if old(closed) then old(usage.stats) else DropStorage(old(usage.stats), false, |data|)
    {
      if !closed {
        closed := true;
        usage.DecrementMemoryBuffers(|data|);
      }
      return Done;
    }
  }

  /** A file descriptor. */
  class Descriptor {
    const content: Payload
    var pos: nat
    var open: bool

    constructor (content: Payload)
      ensures View() == File(content, 0, true)
    {
      this.content, pos, open := content, 0, true;
    }

    function View(): File
      reads this
    {
      File(content, pos, open)
    }

    method Read(n: nat) returns (out: Outcome)
      modifies this`pos
      ensures (View(), out) == FileRead(old(View()), n)
    {
      if !open {
        return ReaderClosed;
      }
      var got := if pos >= |content| then [] else content[pos..pos + Min(n, |content| - pos)];
      pos := pos + |got|;
      return if |got| == 0 && n > 0 then EndOfFile else Data(got);
    }

    method Seek(offset: int, whence: Whence) returns (out: Outcome)
      modifies this`pos
      ensures (View(), out) == FileSeek(old(View()), offset, whence)
    {
      if !open {
        return ReaderClosed;
      }
      if whence == Unknown {
        return BadSeek;
      }
      var base := if whence == FromStart then 0 else if whence == FromCurrent then pos else |content|;
      if base + offset < 0 {
        return BadSeek;
      }
      pos := base + offset;
      return Position(pos);
    }

    /** Reading until `n` bytes have come. */
    method ReadFull(n: nat) returns (out: Outcome)
      requires open && pos + n <= |content|
      modifies this`pos
      ensures (View(), out) == BodyModel.ReadFull(old(View()), n)
    {
      ghost var start := View();
      var data: Payload := [];
      while |data| < n
        invariant |data| <= n && data == content[start.pos..start.pos + |data|]
        invariant View() == start.(pos := start.pos + |data|)
        decreases n - |data|
      {
        ghost var from := pos;
        out := Read(n - |data|);
        assert out == Data(content[from..pos]);
        Consecutive(content, start.pos, from, pos);
        data := data + out.bytes;
      }
      ReadFullReads(start, n);
      return Data(data);
    }

    /** Closing a second time is an error. */
    method Close() returns (out: Outcome)
      modifies this`open
      ensures (View(), out) == FileClose(old(View()))
    {
      if !open {
        return ReaderClosed;
      }
      open := false;
      return Done;
    }
  }

  lemma Consecutive(data: Payload, a: nat, b: nat, c: nat)
    requires a <= b <= c <= |data|
    ensures data[a..b] + data[b..c] == data[a..c]
  {}

  class DiskStorage {
    const file: Descriptor
    const size: nat
    var closed: bool

    constructor (data: Payload, usage: UsageCounters)
      modifies usage
      ensures Valid() && fresh(file) && View() == NewDisk(data)
      ensures usage.stats == AddStorage(old(usage.stats), true, |data|)
    {
      size, closed := |data|, false;
      file := new Descriptor(data);
      new;
      usage.IncrementDiskFiles(|data|);
    }

    ghost predicate Valid()
      reads this, file
    {
      size == |file.content| && (file.open <==> !closed)
    }

    function View(): Disk
      reads this, file
    {
      Disk(file.View(), size, [], closed)
    }

    method Read(n: nat) returns (out: Outcome)
      requires Valid()
      modifies file`pos
      ensures Valid() && (View(), out) == DiskStep(old(View()), Op.Read(n))
    {
      if closed {
        return StorageClosed;
      }
      out := file.Read(n);
    }

    method Seek(offset: int, whence: Whence) returns (out: Outcome)
      requires Valid()
      modifies file`pos
      ensures Valid() && (View(), out) == DiskStep(old(View()), Op.Seek(offset, whence))
    {
      if closed {
        return StorageClosed;
      }
      out := file.Seek(offset, whence);
    }

    /** The cursor is where it was afterwards, although it was used to read everything. */
    method Bytes() returns (out: Outcome)
      requires Valid()
      modifies file`pos
      ensures Valid() && (View(), out) == DiskStep(old(View()), Op.Bytes)
      ensures file.pos == old(file.pos) && (!closed ==> out == Whole(file.content))
    {
      if closed {
        return StorageClosed;
      }
      BytesKeepsCursor(file.View());
      var current := file.Seek(0, FromCurrent);
      var start := file.Seek(0, FromStart);
      var data := file.ReadFull(size);
      ReadFullReads(File(file.content, 0, true), size);
      var back := file.Seek(current.at, FromStart);
      return Whole(data.bytes);
    }

    method NewReader() returns (r: Descriptor?)
      requires Valid()
      ensures closed <==> r == null
      ensures r != null ==> fresh(r) && DiskStep(View(), Op.NewReader).0.readers == [r.View()]
    {
      if closed {
        return null;
      }
      r := new Descriptor(file.content);
    }

    method Close(usage: UsageCounters) returns (out: Outcome)
      requires Valid()
      modifies this`closed, file`open, usage
      ensures Valid() && (View(), out) == DiskStep(old(View()), Op.Close)
      ensures usage.stats == if old(closed) then old(usage.stats) else DropStorage(old(usage.stats), true, size)
    {
      if !closed {
        closed := true;
        var _ := file.Close();
        usage.DecrementDiskFiles(size);
      }
      return Done;
    }
  }
}
