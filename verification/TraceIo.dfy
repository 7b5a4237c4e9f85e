/** Traces are received into memory: a growable buffer written at a cursor, and the provider
    that names the buffers and hands each one over once. */
module TraceIo {
  import opened CaptureApi
  import opened CStrings
  import opened Wrappers

  const INITIAL_BUFFER_SIZE: nat := 1024

  // ---------------------------------------------------------------- a byte sequence with a cursor

  /** `src` laid over `bytes` from position `at` on, extending them if needed. */
  function Overwrite(bytes: Bytes, at: nat, src: Bytes): (r: Bytes)
    requires at <= |bytes|
    ensures |r| == if at + |src| > |bytes| then at + |src| else |bytes|
    ensures forall i :: 0 <= i < |r| ==> r[i] == if at <= i < at + |src| then src[i - at] else bytes[i]
  {
    bytes[..at] + src + if at + |src| < |bytes| then bytes[at + |src|..] else []
  }

  /** What was written is what is read back from the same place. */
  lemma ReadBack(bytes: Bytes, at: nat, src: Bytes)
    requires at <= |bytes|
    ensures Overwrite(bytes, at, src)[at..at + |src|] == src
  {
  }

  /** Consecutive writes are one write of the joined bytes. */
  lemma ConsecutiveWrites(bytes: Bytes, at: nat, a: Bytes, b: Bytes)
    requires at <= |bytes|
    ensures Overwrite(Overwrite(bytes, at, a), at + |a|, b) == Overwrite(bytes, at, a + b)
  {
  }

  lemma SliceOfPrefix(s: Bytes, n: nat, a: nat, b: nat)
    requires a <= b <= n <= |s|
    ensures s[..n][a..b] == s[a..b]
  {
  }

  const INT64_LIMIT: int := 0x8000_0000_0000_0000

  /** The conversion of a 64-bit signed value to an unsigned one. */
  function ToSizeT(n: int): nat
    requires -INT64_LIMIT <= n < INT64_LIMIT
  {
    if n >= 0 then n else n + 2 * INT64_LIMIT
  }

  // ---------------------------------------------------------------- capacity

  function Pow2(k: nat): (p: nat)
    ensures p > 0
  {
    if k == 0 then 1 else 2 * Pow2(k - 1)
  }

  ghost predicate IsCapacity(c: nat) {
    exists k: nat :: c == INITIAL_BUFFER_SIZE * Pow2(k)
  }

  lemma DoubledCapacity(c: nat)
    requires IsCapacity(c)
    ensures IsCapacity(2 * c)
  {
    var k: nat :| c == INITIAL_BUFFER_SIZE * Pow2(k);
    assert 2 * c == INITIAL_BUFFER_SIZE * Pow2(k + 1);
  }

  /** The capacity after room was made for `next` bytes and one more. */
  function Grown(c: nat, next: nat): (r: nat)
    requires c > 0
    ensures next < r && c <= r
    ensures r == c || (r <= 2 * next && 2 * c <= r)
    decreases if next < c then 0 else next - c + 1
  {
    if next < c then c else Grown(2 * c, next)
  }

  lemma {:induction false} GrownIsCapacity(c: nat, next: nat)
    requires IsCapacity(c) && c > 0
    ensures IsCapacity(Grown(c, next))
    decreases if next < c then 0 else next - c + 1
  {
    if next >= c {
      DoubledCapacity(c);
      GrownIsCapacity(2 * c, next);
    }
  }

  // ---------------------------------------------------------------- streams

  class StreamData {
    var buffer: array<Byte>
    var capacity: nat
    var size: nat
    var open: bool
    ghost var copied: nat  // bytes moved by reallocation so far

    /** The capacity is 1024 doubled some number of times, exceeds the size, and is at most
        twice the size or the initial 1024; all reallocations together moved fewer bytes
        than the buffer now has room for. */
    ghost predicate Valid()
      reads this
    {
      && buffer.Length == capacity
      && IsCapacity(capacity)
      && size < capacity
      && (capacity == INITIAL_BUFFER_SIZE || capacity <= 2 * size)
      && copied + INITIAL_BUFFER_SIZE <= capacity
    }

    ghost function Contents(): Bytes
      requires Valid()
      reads this, buffer
    {
      buffer[..size]
    }

    ghost function Abs(): Entry
      requires Valid()
      reads this, buffer
    {
      Entry(Contents(), open)
    }

    constructor ()
      ensures Valid() && fresh(buffer) && Contents() == [] && !open
      ensures capacity == 1024 && copied == 0
    {
      capacity := INITIAL_BUFFER_SIZE;
      buffer := new Byte[INITIAL_BUFFER_SIZE];
      size, open, copied := 0, false, 0;
      new;
      assert INITIAL_BUFFER_SIZE == INITIAL_BUFFER_SIZE * Pow2(0);
    }
  }

  /** `realloc`: a larger block with the old block's bytes in front. */
  method Reallocate(old_: array<Byte>, capacity: nat) returns (block: array<Byte>)
    requires old_.Length <= capacity
    ensures fresh(block) && block.Length == capacity && block[..old_.Length] == old_[..]
  {
    block := new Byte[capacity];
    var i := 0;
    while i < old_.Length
      invariant i <= old_.Length && block[..i] == old_[..i]
    {
      block[i] := old_[i];
      i := i + 1;
    }
  }

  class MemoryReadWriteStream {
    const data: StreamData
    var currentIndex: nat

    ghost predicate Valid()
      reads this, data
    {
      data.Valid() && currentIndex <= data.size
    }

    constructor (data: StreamData)
      requires data.Valid() && !data.open
      modifies data`open
      ensures this.data == data && currentIndex == 0 && Valid() && data.open
      ensures data.Contents() == old(data.Contents())
    {
      this.data := data;
      currentIndex := 0;
      new;
      data.open := true;
    }

    method Close()
      modifies data`open
      ensures !data.open
    {
      data.open := false;
    }

    /** The doubling loop. */
    method MakeRoom(next: nat) returns (needsRealloc: bool)
      requires data.capacity > 0
      modifies data`capacity
      ensures data.capacity == Grown(old(data.capacity), next)
      ensures needsRealloc <==> data.capacity != old(data.capacity)
    {
      needsRealloc := false;
      while next >= data.capacity
        invariant 0 < old(data.capacity) <= data.capacity
        invariant Grown(data.capacity, next) == Grown(old(data.capacity), next)
        invariant needsRealloc <==> data.capacity != old(data.capacity)
        decreases next - data.capacity
      {
        data.capacity := data.capacity * 2;
        needsRealloc := true;
      }
    }

    /** Room for `next` bytes and one more; growth keeps what was there. */
    method Reserve(next: nat)
      requires data.Valid()
      modifies data`buffer, data`capacity, data`copied
      ensures data.buffer == old(data.buffer) || fresh(data.buffer)
      ensures data.buffer.Length == data.capacity == Grown(old(data.capacity), next)
      ensures IsCapacity(data.capacity) && data.copied + INITIAL_BUFFER_SIZE <= data.capacity
      ensures data.buffer[..data.size] == old(data.buffer[..data.size])
    {
      ghost var oldCapacity := data.capacity;
      GrownIsCapacity(data.capacity, next);
      var needsRealloc := MakeRoom(next);
      if needsRealloc {
        var block := Reallocate(data.buffer, data.capacity);
        SliceOfPrefix(block[..], oldCapacity, 0, data.size);
        data.buffer := block;
        data.copied := data.copied + oldCapacity;
      }
    }

    method Write(src: Bytes) returns (ok: bool, bytesWritten: nat)
      requires Valid()
      modifies this`currentIndex, data`buffer, data`capacity, data`size, data`copied, data.buffer
      ensures Valid() && ok && bytesWritten == |src|
      ensures currentIndex == old(currentIndex) + |src|
      ensures data.Contents() == Overwrite(old(data.Contents()), old(currentIndex), src)
      ensures data.capacity == Grown(old(data.capacity), currentIndex)
      ensures data.buffer == old(data.buffer) || fresh(data.buffer)
    {
      var next := currentIndex + |src|;
      Reserve(next);
      CopyIn(src);
      if next > data.size {
        data.size := next;
      }
      currentIndex := next;
      return true, |src|;
    }

    /** `memcpy` to the cursor. */
    method CopyIn(src: Bytes)
      requires currentIndex + |src| <= data.buffer.Length
      modifies data.buffer
      ensures forall i :: 0 <= i < data.buffer.Length ==>
                data.buffer[i] == if currentIndex <= i < currentIndex + |src|
                    then src[i - currentIndex] else old(data.buffer[i])
    {
      var k := 0;
      while k < |src|
        invariant k <= |src|
        invariant forall i :: 0 <= i < data.buffer.Length ==>
                    data.buffer[i] == if currentIndex <= i < currentIndex + k
                        then src[i - currentIndex] else old(data.buffer[i])
      {
        data.buffer[currentIndex + k] := src[k];
        k := k + 1;
      }
    }

    /** A read delivers exactly the bytes at the cursor, or fails and moves nothing. */
    method Read(count: nat) returns (ok: bool, bytes: Bytes)
      requires Valid()
      modifies this`currentIndex
      ensures Valid()
      ensures ok <==> old(currentIndex) + count <= data.size
      ensures ok ==> bytes == data.Contents()[old(currentIndex)..old(currentIndex) + count]
      ensures currentIndex == if ok then old(currentIndex) + count else old(currentIndex)
    {
      var end := currentIndex + count;
      if end > data.size {
        return false, [];
      }
      bytes := data.buffer[currentIndex..end];
      SliceOfPrefix(data.buffer[..], data.size, currentIndex, end);
      assert data.buffer[..data.size] == data.buffer[..][..data.size];
      assert data.buffer[currentIndex..end] == data.buffer[..][currentIndex..end];
      currentIndex := end;
      return true, bytes;
    }

    method Tell() returns (ok: bool, position: nat)
      ensures ok && position == currentIndex
    {
      return true, currentIndex;
    }

    /** The cursor can be put anywhere up to the end; beyond, the call fails. A negative
        position is accepted too, and converted to an index behind any content: the stream
        is left usable exactly by the other positions. */
    method Seek(position: int) returns (ok: bool)
      requires Valid() && -INT64_LIMIT <= position < INT64_LIMIT && data.size < INT64_LIMIT
      modifies this`currentIndex
      ensures ok <==> position <= data.size
      ensures currentIndex == if ok then ToSizeT(position) else old(currentIndex)
      ensures Valid() <==> !ok || position >= 0
    {
      if position > data.size {
        return false;
      }
      currentIndex := ToSizeT(position);
      return true;
    }

    method GetSize() returns (ok: bool, size: nat)
      requires Valid()
      ensures ok && size == |data.Contents()|
    {
      return true, data.size;
    }
  }

  // ---------------------------------------------------------------- the provider, as a value

  datatype Entry = Entry(bytes: Bytes, open: bool)

  /** The named streams, the index of the next one, and a history: the paths handed out,
      and what was consumed under which path. */
  datatype Streams = Streams(entries: map<string, Entry>, nextIndex: nat, created: seq<string>,
                             consumed: seq<(string, Bytes)>)

  datatype Op =
    | Create
    | Open(path: string)
    | Close(path: string)
    | Write(path: string, at: nat, src: Bytes)
    | Consume(path: string)

  /** One operation; an unknown path, and a write that is not on an open stream, have no
      effect. */
  function Apply(s: Streams, op: Op): Streams {
    match op
    case Create =>
      var path := Decimal(s.nextIndex);
      s.(entries := s.entries[path := Entry([], true)], nextIndex := s.nextIndex + 1, created := s.created + [path])
    case Open(path) =>
      if path in s.entries then s.(entries := s.entries[path := s.entries[path].(open := true)]) else s
    case Close(path) =>
      if path in s.entries then s.(entries := s.entries[path := s.entries[path].(open := false)]) else s
    case Write(path, at, src) =>
      if path in s.entries && s.entries[path].open && at <= |s.entries[path].bytes| then
        s.(entries := s.entries[path := s.entries[path].(bytes := Overwrite(s.entries[path].bytes, at, src))])
      else s
    case Consume(path) =>
      if path in s.entries && !s.entries[path].open then
        s.(entries := s.entries - {path}, consumed := s.consumed + [(path, s.entries[path].bytes)])
      else s
  }

  /** What the machine does is what the provider's methods do: to the stream named, if there
      is one in the right state, and to no other. */
  lemma MachineSteps(s: Streams, path: string, at: nat, src: Bytes)
    ensures Apply(s, Create).entries == s.entries[Decimal(s.nextIndex) := Entry([], true)]
            && Apply(s, Create).nextIndex == s.nextIndex + 1
    ensures path !in s.entries ==> Apply(s, Open(path)) == Apply(s, Close(path)) == Apply(s, Write(path, at, src))
                                   == Apply(s, Consume(path)) == s
    ensures path in s.entries ==>
              var e := s.entries[path];
              && Apply(s, Open(path)).entries == s.entries[path := Entry(e.bytes, true)]
              && Apply(s, Close(path)).entries == s.entries[path := Entry(e.bytes, false)]
              && Apply(s, Write(path, at, src)).entries ==
                 (if e.open && at <= |e.bytes| then s.entries[path := Entry(Overwrite(e.bytes, at, src), true)]
                  else s.entries)
              && Apply(s, Consume(path)).entries == (if e.open then s.entries else s.entries - {path})
  {
    if path in s.entries {
      assert s.entries[path := s.entries[path]] == s.entries;
    }
  }

  lemma WriteToOpen(entries: map<string, Entry>, n: nat, path: string, at: nat, src: Bytes)
    requires path in entries && entries[path].open && at <= |entries[path].bytes|
    ensures Apply(Streams(entries, n, [], []), Write(path, at, src)).entries ==
            entries[path := Entry(Overwrite(entries[path].bytes, at, src), true)]
  {
  }

  function Run(ops: seq<Op>): Streams {
    if ops == [] then Streams(map[], 0, [], []) else Apply(Run(ops[..|ops| - 1]), ops[|ops| - 1])
  }

  /** No path is handed out twice, and a path is consumed at most once and then gone. */
  ghost predicate PathsInv(s: Streams) {
    && |s.created| == s.nextIndex
    && (forall i :: 0 <= i < |s.created| ==> s.created[i] == Decimal(i))
    && (forall p :: p in s.entries ==> Issued(p, s.nextIndex))
    && (forall i :: 0 <= i < |s.consumed| ==> Issued(s.consumed[i].0, s.nextIndex) && s.consumed[i].0 !in s.entries)
    && (forall i, j :: 0 <= i < j < |s.consumed| ==> s.consumed[i].0 != s.consumed[j].0)
  }

  lemma PathsStep(s: Streams, op: Op)
    requires PathsInv(s)
    ensures PathsInv(Apply(s, op))
  {
    NextPathIsNew(s.nextIndex);
  }

  lemma {:induction false} PathsAreUnique(ops: seq<Op>)
    ensures PathsInv(Run(ops))
    ensures var s := Run(ops); forall i, j :: 0 <= i < j < |s.created| ==> s.created[i] != s.created[j]
  {
    if ops != [] {
      PathsAreUnique(ops[..|ops| - 1]);
      PathsStep(Run(ops[..|ops| - 1]), ops[|ops| - 1]);
    }
    var s := Run(ops);
    forall i, j | 0 <= i < j < |s.created| && s.created[i] == s.created[j] ensures false {
      DecimalInjective(i, j);
    }
  }

  /** What one path's operations alone make of its stream, `n` being the number of streams
      created before. */
  function ViewStep(path: string, n: nat, e: Option<Entry>, op: Op): Option<Entry> {
    match op
    case Create => if path == Decimal(n) then Some(Entry([], true)) else e
    case Open(p) => if p == path && e.Some? then Some(e.value.(open := true)) else e
    case Close(p) => if p == path && e.Some? then Some(e.value.(open := false)) else e
    case Write(p, at, src) =>
      if p == path && e.Some? && e.value.open && at <= |e.value.bytes| then
        Some(e.value.(bytes := Overwrite(e.value.bytes, at, src)))
      else e
    case Consume(p) => if p == path && e.Some? && !e.value.open then None else e
  }

  function View(path: string, ops: seq<Op>): Option<Entry> {
    if ops == [] then None else
      var front := ops[..|ops| - 1];
      ViewStep(path, Run(front).nextIndex, View(path, front), ops[|ops| - 1])
  }

  /** Streams do not disturb each other: each holds what its own operations made of it. */
  lemma {:induction false} StreamsAreIsolated(path: string, ops: seq<Op>)
    ensures var s := Run(ops); View(path, ops) == if path in s.entries then Some(s.entries[path]) else None
  {
    if ops != [] {
      StreamsAreIsolated(path, ops[..|ops| - 1]);
    }
  }

  /** One step consumes at most one stream, a closed one, as it is. */
  lemma ConsumedByStep(s: Streams, op: Op, k: nat)
    requires k < |Apply(s, op).consumed|
    ensures k < |s.consumed| ==> Apply(s, op).consumed[k] == s.consumed[k]
    ensures k >= |s.consumed| ==>
      var (path, bytes) := Apply(s, op).consumed[k];
      op == Consume(path) && path in s.entries && s.entries[path] == Entry(bytes, false)
  {
  }

  /** A consumption delivers exactly what the path's own operations had written by then. */
  lemma {:induction false} ConsumptionDelivers(ops: seq<Op>, k: nat) returns (m: nat)
    requires k < |Run(ops).consumed|
    ensures m < |ops| && ops[m] == Consume(Run(ops).consumed[k].0)
    ensures View(Run(ops).consumed[k].0, ops[..m]) == Some(Entry(Run(ops).consumed[k].1, false))
  {
    var front := ops[..|ops| - 1];
    ConsumedByStep(Run(front), ops[|ops| - 1], k);
    if k < |Run(front).consumed| {
      m := ConsumptionDelivers(front, k);
      assert front[..m] == ops[..m];
    } else {
      m := |front|;
      StreamsAreIsolated(Run(ops).consumed[k].0, front);
    }
  }

  /** The path was issued for an index below `n`. */
  predicate Issued(path: string, n: nat) {
    n > 0 && (path == Decimal(n - 1) || Issued(path, n - 1))
  }

  lemma {:induction false} IssuedIffEarlierIndex(path: string, n: nat)
    ensures Issued(path, n) <==> exists i: nat :: i < n && path == Decimal(i)
  {
    if n > 0 {
      IssuedIffEarlierIndex(path, n - 1);
      if path == Decimal(n - 1) {
        assert n - 1 < n && path == Decimal(n - 1);
      }
    }
  }

  lemma NextPathIsNew(n: nat)
    ensures !Issued(Decimal(n), n)
  {
    IssuedIffEarlierIndex(Decimal(n), n);
    forall i: nat | i < n && Decimal(n) == Decimal(i) ensures false {
      DecimalInjective(n, i);
    }
  }

  // ---------------------------------------------------------------- the provider

  class MemoryReadWriteStreamProvider {
    var data: map<string, StreamData>
    var streamIndex: nat

    /** Every stream has an issued path, a buffer of its own, and is valid. */
    ghost predicate Valid()
      reads this, data.Values
    {
      && (forall p :: p in data ==> Issued(p, streamIndex))
      && (forall d :: d in data.Values ==> d.Valid())
      && (forall p, q :: p in data && q in data && p != q ==> data[p] != data[q] && data[p].buffer != data[q].buffer)
    }

    ghost function Abs(): map<string, Entry>
      requires Valid()
      reads this, data.Values, set d | d in data.Values :: d.buffer
    {
      map p | p in data :: data[p].Abs()
    }

    /** What writing through a handle, or closing it, leaves alone. */
    twostate predicate OnlyTouched(path: string)
      requires old(Valid()) && path in data && data == old(data)
      reads this, data.Values, set d | d in data.Values :: d.buffer
    {
      && streamIndex == old(streamIndex) && data[path].Valid()
      && (data[path].buffer == old(data[path].buffer) || fresh(data[path].buffer))
      && forall q :: q in data && q != path ==> unchanged(data[q]) && unchanged(data[q].buffer)
    }

    twostate lemma OtherStreamsKept(path: string)
      requires old(Valid()) && path in data && data == old(data) && OnlyTouched(path)
      ensures Valid()
    {
    }

    /** It changes that stream and no other. */
    twostate lemma OneStreamChanged(path: string)
      requires old(Valid()) && path in data && data == old(data) && OnlyTouched(path) && Valid()
      ensures Abs() == old(Abs())[path := data[path].Abs()]
    {
    }

    /** A stream that joins leaves the others as they are. */
    twostate lemma StreamJoined(path: string)
      requires old(Valid()) && Valid() && path in data && path !in old(data)
      requires data == old(data)[path := data[path]]
      requires forall d :: d in old(data).Values ==> unchanged(d) && unchanged(d.buffer)
      ensures Abs() == old(Abs())[path := data[path].Abs()]
    {
    }

    constructor ()
      ensures Valid() && Abs() == map[]
    {
      data := map[];
      streamIndex := 0;
    }

    /** A new, empty, open stream under a path no stream had before. */
    method CreateStream() returns (path: string, stream: MemoryReadWriteStream)
      requires Valid()
      modifies this
      ensures Valid() && stream.Valid() && fresh(stream) && fresh(stream.data) && fresh(stream.data.buffer)
      ensures path == Decimal(old(streamIndex)) && !Issued(path, old(streamIndex))
        && streamIndex == old(streamIndex) + 1
      ensures data == old(data)[path := stream.data]
      ensures Abs() == old(Abs())[path := Entry([], true)]
    {
      NextPathIsNew(streamIndex);
      path := Decimal(streamIndex);
      var d := new StreamData();
      stream := new MemoryReadWriteStream(d);
      Register(path, d);
      StreamJoined(path);
    }

    /** The new stream joins the others. */
    method Register(path: string, d: StreamData)
      requires Valid() && path == Decimal(streamIndex) && path !in data
      requires d.Valid() && d !in data.Values && forall e :: e in data.Values ==> e.buffer != d.buffer
      modifies this
      ensures Valid() && data == old(data)[path := d] && streamIndex == old(streamIndex) + 1
    {
      data := data[path := d];
      streamIndex := streamIndex + 1;
    }

    /** Another handle on a stream that is not open, or nothing for an unknown path. */
    method OpenReadWriteStream(path: string) returns (stream: MemoryReadWriteStream?)
      requires Valid() && (path in data ==> !data[path].open)
      modifies if path in data then {data[path]} else {}
      ensures Valid() && data == old(data) && streamIndex == old(streamIndex)
      ensures stream != null <==> path in data
      ensures stream != null ==> fresh(stream) && stream.data == data[path]
      ensures stream != null ==> stream.currentIndex == 0 && stream.Valid()
      ensures Abs() == if stream == null then old(Abs()) else old(Abs())[path := old(Abs())[path].(open := true)]
    {
      if path !in data {
        return null;
      }
      stream := new MemoryReadWriteStream(data[path]);
      OtherStreamsKept(path);
      OneStreamChanged(path);
    }

    /** A write through the open handle of a stream, as a trace source makes it, is the
        machine's write at the handle's cursor. */
    method WriteThrough(path: string, stream: MemoryReadWriteStream, src: Bytes)
      requires Valid() && path in data && stream.data == data[path] && stream.Valid() && data[path].open
      modifies stream`currentIndex, stream.data, stream.data.buffer
      ensures Valid() && stream.Valid() && data == old(data) && streamIndex == old(streamIndex)
      ensures stream.currentIndex == old(stream.currentIndex) + |src|
      ensures Abs() == Apply(Streams(old(Abs()), streamIndex, [], []),
                             Write(path, old(stream.currentIndex), src)).entries
      ensures Abs() == old(Abs())[path := Entry(
          Overwrite(old(data[path].Abs()).bytes, old(stream.currentIndex), src), true)]
    {
      assert data[path] in data.Values;
      ghost var at, entry := stream.currentIndex, data[path].Abs();
      var _, _ := stream.Write(src);
      OtherStreamsKept(path);
      OneStreamChanged(path);
      WriteToOpen(old(Abs()), streamIndex, path, at, src);
      assert data[path].Abs() == Entry(Overwrite(entry.bytes, at, src), true);
    }

    /** Closing through the handle is the machine's closing. */
    method CloseThrough(path: string, stream: MemoryReadWriteStream)
      requires Valid() && path in data && stream.data == data[path]
      modifies stream.data`open
      ensures Valid() && data == old(data) && streamIndex == old(streamIndex)
      ensures Abs() == Apply(Streams(old(Abs()), streamIndex, [], []), Close(path)).entries
      ensures Abs() == old(Abs())[path := Entry(old(data[path].Abs()).bytes, false)]
    {
      assert data[path] in data.Values;
      stream.Close();
      OtherStreamsKept(path);
      OneStreamChanged(path);
    }

    /** Hands the buffer of a closed stream over, and forgets the stream. */
    method ConsumeStream(path: string) returns (ok: bool, size: nat, block: array?<Byte>)
      requires Valid()
      modifies this
      ensures Valid() && streamIndex == old(streamIndex)
      ensures ok <==> path in old(data) && !old(data[path].open)
      ensures ok ==> block != null && size <= block.Length && block[..size] == old(data[path].Abs()).bytes
      ensures ok ==>
                && block == old(data[path].buffer) && size == old(data[path].size) <= old(data[path].buffer).Length
                && data == old(data) - {path}
                && (forall e :: e in data.Values ==> e.buffer != block)
      ensures !ok ==> data == old(data) && block == null
      ensures Abs() == if ok then old(Abs()) - {path} else old(Abs())
    {
      if path !in data || data[path].open {
        return false, 0, null;
      }
      var d := data[path];
      assert d in data.Values && d.Valid();
      data := data - {path};
      return true, d.size, d.buffer;
    }
  }
}
