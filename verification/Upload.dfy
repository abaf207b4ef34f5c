/**
 Resumable uploads (pkg/upload/upload.go): chunks written at their offsets in any order and any
 number of times, and streams resumed after being cut off, assembled in one pre-allocated file.
 */
module Upload {
  import opened Common

  type Byte = bv8
  type Bytes = seq<Byte>

  datatype Error = FileTooLarge | DivisionByZero | CannotAllocate | SessionCompleted | InvalidChunk | NotOpen | WriteFailed | ReadFailed

  // ---------- the file ----------

  function Zeros(n: nat): (z: Bytes)
    ensures |z| == n && forall k :: 0 <= k < n ==> z[k] == 0
  {
    seq(n, k => 0)
  }

  /** WriteAt: bytes beyond the end extend the file, a gap is filled with zeros. */
  function WriteAt(file: Bytes, data: Bytes, offset: nat): (r: Bytes)
    ensures |r| == if data == [] || offset + |data| < |file| then |file| else offset + |data|
    ensures forall k :: 0 <= k < |data| ==> r[offset + k] == data[k]
    ensures forall k :: 0 <= k < |file| && !(offset <= k < offset + |data|) ==> r[k] == file[k]
  {
    if data == [] then file
    else
      var n := if offset + |data| < |file| then |file| else offset + |data|;
      seq(n, k requires 0 <= k < n =>
        if offset <= k < offset + |data| then data[k - offset] else if k < |file| then file[k] else 0)
  }

  // ---------- chunks ----------

  /** int32(n) */
  function ToInt32(n: int): int {
    (n + 0x8000_0000) % 0x1_0000_0000 - 0x8000_0000
  }

  function CeilDiv(total: nat, chunk: nat): nat
    requires chunk > 0
  {
    (total + chunk - 1) / chunk
  }

  /** The number of chunks a session announces: rounded up, truncated to int32, at least one. */
  function ChunkCount(total: nat, chunk: nat): int
    requires chunk > 0
  {
    var n := ToInt32(CeilDiv(total, chunk));
    if n == 0 then 1 else n
  }

  /** Integer division rounds toward zero. */
  function GoDiv(a: int, b: int): int
    requires b != 0
  {
    var q := Abs(a) / Abs(b);
    if (a >= 0) == (b > 0) then q else -q
  }

  function Abs(a: int): nat {
    if a >= 0 then a else -a
  }

  /** What InitSession announces for any chunk size it can divide by. */
  function Announced(total: nat, chunk: int): int
    requires chunk != 0
  {
    var n := ToInt32(GoDiv(total + chunk - 1, chunk));
    if n == 0 then 1 else n
  }

  /** The part of the source that chunk `i` carries; the last chunk may be shorter. */
  function ChunkOf(source: Bytes, chunk: nat, i: nat): Bytes {
    if i * chunk > |source| then [] else source[i * chunk..Min((i + 1) * chunk, |source|)]
  }

  // ---------- streams ----------

  datatype End = More | Eof | Broken

  /** One Read call: some data and how it ended. A reader that is used up reports the end of the stream. */
  datatype Read = Read(data: Bytes, end: End)

  /** Everything a reader delivers before it ends or breaks. */
  function Delivered(parts: seq<Read>): Bytes {
    if parts == [] then []
    else if parts[0].end != More then parts[0].data
    else parts[0].data + Delivered(parts[1..])
  }

  predicate Breaks(parts: seq<Read>) {
    parts != [] && (parts[0].end == Broken || (parts[0].end == More && Breaks(parts[1..])))
  }

  lemma {:induction false} ReadRule(parts: seq<Read>, i: nat)
    requires i < |parts|
    ensures Delivered(parts[i..]) == parts[i].data + if parts[i].end == More then Delivered(parts[i + 1..]) else []
    ensures Breaks(parts[i..]) <==> parts[i].end == Broken || (parts[i].end == More && Breaks(parts[i + 1..]))
  {
  }

  lemma {:induction false} NothingLeft(parts: seq<Read>)
    ensures Delivered(parts[|parts|..]) == [] && !Breaks(parts[|parts|..])
    ensures parts[0..] == parts
  {
  }

  lemma {:induction false} DeliverMore(data: Bytes, n: Bytes, parts: seq<Read>, i: nat)
    requires i < |parts|
    ensures data + (n + Delivered(parts[i + 1..])) == data + n + Delivered(parts[i + 1..])
    ensures n == [] ==> data + n == data
    ensures data + (n + []) == data + n
    ensures n == [] && data == [] <==> data + n == []
  {
  }

  lemma {:induction false} NothingWritten(file: Bytes, offset: int)
    ensures offset >= 0 ==> WriteAt(file, [], offset) == file
  {
  }

  lemma {:induction false} WriteInPieces(file: Bytes, a: Bytes, b: Bytes, offset: nat)
    ensures WriteAt(WriteAt(file, a, offset), b, offset + |a|) == WriteAt(file, a + b, offset)
  {
    hide WriteAt;
    var one, two := WriteAt(file, a + b, offset), WriteAt(WriteAt(file, a, offset), b, offset + |a|);
    if b == [] {
      assert a + b == a;
      NothingWritten(one, offset + |a|);
    } else {
      assert |one| == |two|;
      forall k | 0 <= k < |one| ensures one[k] == two[k] {
        ByteInPieces(file, a, b, offset, k);
      }
    }
  }

  /** Byte `k` of a file after a write. */
  function ByteAfter(file: Bytes, data: Bytes, offset: nat, k: nat): Byte {
    if offset <= k < offset + |data| then data[k - offset] else if k < |file| then file[k] else 0
  }

  lemma {:induction false} ByteWritten(file: Bytes, data: Bytes, offset: nat, k: nat)
    ensures k < |WriteAt(file, data, offset)| ==> WriteAt(file, data, offset)[k] == ByteAfter(file, data, offset, k)
  {
  }

  lemma {:induction false} ByteOfBoth(file: Bytes, mid: Bytes, a: Bytes, b: Bytes, offset: nat, k: nat)
    requires k < |mid| ==> mid[k] == ByteAfter(file, a, offset, k)
    requires |mid| >= |file| && (a != [] ==> |mid| >= offset + |a|)
    ensures ByteAfter(mid, b, offset + |a|, k) == ByteAfter(file, a + b, offset, k)
  {
    assert offset <= k < offset + |a| ==> (a + b)[k - offset] == a[k - offset];
    assert offset + |a| <= k < offset + |a + b| ==> (a + b)[k - offset] == b[k - offset - |a|];
  }

  lemma {:induction false} ByteInPieces(file: Bytes, a: Bytes, b: Bytes, offset: nat, k: nat)
    ensures var one, two := WriteAt(file, a + b, offset), WriteAt(WriteAt(file, a, offset), b, offset + |a|);
            k < |one| && k < |two| ==> one[k] == two[k]
  {
    var mid := WriteAt(file, a, offset);
    assert |mid| >= |file| && (a != [] ==> |mid| >= offset + |a|);
    ByteWritten(file, a + b, offset, k);
    ByteWritten(mid, b, offset + |a|, k);
    ByteWritten(file, a, offset, k);
    hide WriteAt, ByteAfter;
    ByteOfBoth(file, mid, a, b, offset, k);
  }

  class Session {
    const totalSize: nat
    const chunkSize: int
    const totalChunks: int
    var received: set<int>
    var bytesReceived: int
    var completed: bool
    var file: Option<Bytes>
    // what the temp file holds once it is closed
    var tempFile: Bytes

    /** InitSession, after the size check. */
    constructor (totalSize: nat, chunkSize: int)
      requires chunkSize != 0
      ensures this.totalSize == totalSize && this.chunkSize == chunkSize && totalChunks == Announced(totalSize, chunkSize)
      ensures chunkSize > 0 ==> totalChunks == ChunkCount(totalSize, chunkSize)
      ensures received == {} && bytesReceived == 0 && !completed && file == Some(Zeros(totalSize))
    {
      this.totalSize := totalSize;
      this.chunkSize := chunkSize;
      var n := ToInt32(GoDiv(totalSize + chunkSize - 1, chunkSize));
      if n == 0 {
        n := 1;
      }
      this.totalChunks := n;
      received := {};
      bytesReceived := 0;
      completed := false;
      file := Some(Zeros(totalSize));
      tempFile := [];
    }

    /** The file's contents, open or closed. */
    function Contents(): Bytes
      reads this
    {
      if file.Some? then file.value else tempFile
    }

    /** A completed session has closed its file; a cancelled one may have, too. */
    ghost predicate Valid()
      reads this
    {
      && (completed ==> file.None?)
      && (forall i :: i in received ==> 0 <= i < totalChunks)
    }

    method Close()
      requires file.Some?
      modifies this`file, this`tempFile, this`completed
      ensures file.None? && completed && tempFile == old(file).value
    {
      completed := true;
      tempFile := file.value;
      file := None;
    }

    method WriteChunk(chunkIndex: int, data: Bytes) returns (done: bool, error: Option<Error>)
      requires Valid()
      modifies this
      ensures Valid() && (old(file).Some? && file.None? ==> completed)
      ensures old(completed) ==> done && error == Some(SessionCompleted)
      ensures !old(completed) && !(0 <= chunkIndex < totalChunks) ==> !done && error == Some(InvalidChunk)
      ensures !old(completed) && 0 <= chunkIndex < totalChunks ==>
                error == if chunkIndex in old(received) || (old(file).Some? && chunkIndex * chunkSize >= 0) then None
                         else Some(WriteFailed)
      ensures error.Some? || chunkIndex in old(received) ==>
                received == old(received) && bytesReceived == old(bytesReceived)
                && completed == old(completed) && Contents() == old(Contents())
      ensures error.None? ==> done == completed && 0 <= chunkIndex < totalChunks
      ensures error == Some(WriteFailed) ==> !done
      ensures error.None? && chunkIndex !in old(received) ==>
                received == old(received) + {chunkIndex} && bytesReceived == old(bytesReceived) + |data|
                && chunkIndex * chunkSize >= 0 && Contents() == WriteAt(old(Contents()), data, chunkIndex * chunkSize)
                && (completed <==> |received| >= totalChunks)
    {
      if completed {
        return true, Some(SessionCompleted);
      }
      if chunkIndex < 0 || chunkIndex >= totalChunks {
        return false, Some(InvalidChunk);
      }
      if chunkIndex in received {
        return completed, None;
      }
      var offset := chunkIndex * chunkSize;
      if file.None? || offset < 0 {
        return false, Some(WriteFailed);
      }
      file := Some(WriteAt(file.value, data, offset));
      received := received + {chunkIndex};
      bytesReceived := bytesReceived + |data|;
      if |received| >= totalChunks {
        Close();
      }
      return completed, None;
    }

    /** The chunks that have not arrived, in ascending order. */
    method GetMissingChunks() returns (missing: seq<int>)
      requires Valid()
      ensures forall i :: i in missing <==> 0 <= i < totalChunks && i !in received
      ensures forall j, k :: 0 <= j < k < |missing| ==> missing[j] < missing[k]
    {
      missing := [];
      var i := 0;
      while i < totalChunks
        invariant 0 <= i && (i <= totalChunks || i == 0)
        invariant forall x :: x in missing <==> 0 <= x < i && x !in received
        invariant forall k :: 0 <= k < |missing| ==> missing[k] < i
        invariant forall j, k :: 0 <= j < k < |missing| ==> missing[j] < missing[k]
      {
        if i !in received {
          missing := missing + [i];
        }
        i := i + 1;
      }
    }

    /** The copy loop: every piece is written where the last one ended; progress follows the position. */
    method CopyStream(parts: seq<Read>, offset: int) returns (pos: int, error: Option<Error>)
      requires file.Some? && !completed
      modifies this`file, this`bytesReceived
      ensures file.Some?
      ensures offset >= 0 ==>
                pos == offset + |Delivered(parts)|
                && file.value == WriteAt(old(file).value, Delivered(parts), offset)
                && error == (if Breaks(parts) then Some(ReadFailed) else None)
      ensures offset < 0 ==> pos == offset && file == old(file)
      ensures bytesReceived == if pos == offset then old(bytesReceived) else pos
      ensures error == Some(WriteFailed) ==> offset < 0
    {
      hide Delivered, Breaks, WriteAt;
      pos := offset;
      ghost var start, data: Bytes := file.value, [];
      NothingWritten(start, offset);
      NothingLeft(parts);
      for i := 0 to |parts|
        invariant file.Some? && pos == offset + |data|
        invariant if offset >= 0 then file.value == WriteAt(start, data, offset) else file.value == start && data == []
        invariant bytesReceived == if data == [] then old(bytesReceived) else pos
        invariant Delivered(parts) == data + Delivered(parts[i..])
        invariant Breaks(parts) == Breaks(parts[i..])
      {
        var n := parts[i].data;
        ReadRule(parts, i);
        DeliverMore(data, n, parts, i);
        if |n| > 0 {
          if pos < 0 {
            return pos, Some(WriteFailed);
          }
          WriteInPieces(start, data, n, offset);
          file := Some(WriteAt(file.value, n, pos));
          pos := pos + |n|;
          bytesReceived := pos;
        }
        data := data + n;
        if parts[i].end == Eof {
          break;
        }
        if parts[i].end == Broken {
          return pos, Some(ReadFailed);
        }
      }
      assert data + [] == data;
      return pos, None;
    }

    method WriteStream(parts: seq<Read>, offset: int) returns (written: int, done: bool, error: Option<Error>)
      requires Valid()
      modifies this
      ensures Valid() && received == old(received) && (old(file).Some? && file.None? ==> completed)
      ensures old(completed) ==> done && error == Some(SessionCompleted)
      ensures !old(completed) && old(file).None? ==> !done && error == Some(NotOpen)
      ensures old(completed) || old(file).None? ==>
                written == 0 && bytesReceived == old(bytesReceived) && completed == old(completed) && Contents() == old(Contents())
      ensures !old(completed) && old(file).Some? && offset >= 0 ==>
                var data := Delivered(parts);
                written == |data|
                && Contents() == WriteAt(old(Contents()), data, offset)
                && bytesReceived == (if data == [] then old(bytesReceived) else offset + |data|)
                && error == (if Breaks(parts) then Some(ReadFailed) else None)
                && done == completed
                && (completed <==> error.None? && bytesReceived >= totalSize)
      ensures error == Some(WriteFailed) ==> offset < 0
    {
      hide Delivered, Breaks, WriteAt;
      if completed {
        return 0, true, Some(SessionCompleted);
      }
      if file.None? {
        return 0, false, Some(NotOpen);
      }
      var pos;
      pos, error := CopyStream(parts, offset);
      if error.Some? {
        return pos - offset, false, error;
      }
      if bytesReceived >= totalSize && !completed {
        Close();
      }
      return pos - offset, completed, None;
    }
  }

  // ---------- the announced number of chunks ----------

  /** The announced number is the rounded-up quotient (at least one) exactly when that fits an int32. */
  lemma {:induction false} ChunkCountExact(total: nat, chunk: nat)
    requires chunk > 0
    ensures var n := CeilDiv(total, chunk);
            ChunkCount(total, chunk) == (if n == 0 then 1 else n) <==> n < 0x8000_0000
    ensures CeilDiv(total, chunk) == 0 <==> total == 0
  {
  }

  lemma {:induction false} CeilBounds(total: nat, chunk: nat)
    requires chunk > 0
    ensures var n := CeilDiv(total, chunk); total <= n * chunk && (total > 0 ==> (n - 1) * chunk < total && n > 0)
    ensures total == 0 ==> CeilDiv(total, chunk) == 0
  {
  }

  /**
   With a negative chunk size only the first chunk can be written.  Two chunks at most are announced,
   unless the quotient is below the least int32 and wraps around.
   */
  lemma {:induction false} NegativeChunkSize(total: nat, chunk: int)
    requires chunk < 0
    ensures GoDiv(total + chunk - 1, chunk) <= 2
    ensures GoDiv(total + chunk - 1, chunk) >= -0x8000_0000 <==> total + chunk - 1 < 0x8000_0001 * -chunk
    ensures total + chunk - 1 < 0x8000_0001 * -chunk ==> Announced(total, chunk) <= 2
    ensures forall i :: i > 0 ==> i * chunk < 0
  {
    var a := total + chunk - 1;
    Quotient(Abs(a), -chunk);
  }

  lemma {:induction false} Quotient(n: nat, c: nat)
    requires c > 0
    ensures n <= c + 1 ==> n / c <= 2
    ensures n / c <= 0x8000_0000 <==> n < 0x8000_0001 * c
  {
    assert n == n / c * c + n % c;
    QuotientOf(n, c, n / c, n % c);
  }

  lemma {:induction false} QuotientOf(n: nat, c: nat, q: nat, r: nat)
    requires 0 <= r < c && n == q * c + r
    ensures n <= c + 1 ==> q <= 2
    ensures q <= 0x8000_0000 <==> n < 0x8000_0001 * c
  {
    ProductGrows(3, q, c);
    ProductGrows(q, 0x8000_0000, c);
    ProductGrows(0x8000_0001, q, c);
  }

  /** Such a quotient: more than two thousand million chunks are announced. */
  lemma {:induction false} NegativeChunkSizeWraps()
    ensures Announced(0x8000_0003, -1) == 0x7FFF_FFFF
  {
  }

  // ---------- assembling from chunks ----------

  /** What a session has, as values. */
  datatype Progress = Progress(received: set<int>, bytesReceived: int, completed: bool, contents: Bytes)

  /** Byte `k` belongs to chunk k / chunk. */
  function Owner(k: nat, chunk: nat): nat
    requires chunk > 0
  {
    k / chunk
  }

  lemma {:induction false} OwnerLaw(k: nat, chunk: nat, i: nat)
    requires chunk > 0
    ensures Owner(k, chunk) == i <==> i * chunk <= k < (i + 1) * chunk
  {
    var q := k / chunk;
    assert k == q * chunk + k % chunk;
    assert (q + 1) * chunk == q * chunk + chunk;
    ProductGrows(q + 1, i, chunk);
    ProductGrows(i + 1, q, chunk);
  }

  lemma {:induction false} ProductGrows(a: nat, b: nat, c: nat)
    ensures a <= b ==> a * c <= b * c
  {
  }

  /** The bytes of the received chunks. */
  function Covered(received: set<int>, total: nat, chunk: nat): set<int>
    requires chunk > 0
  {
    set k | 0 <= k < total && Owner(k, chunk) in received
  }

  /**
   Received regions hold the source, all others are still zero; the bytes received are those of
   the distinct chunks received; completion is counted.
   */
  ghost predicate Assembled(p: Progress, source: Bytes, chunk: nat)
    requires chunk > 0
  {
    && |p.contents| == |source|
    && (forall i :: i in p.received ==> 0 <= i < ChunkCount(|source|, chunk))
    && (forall k :: 0 <= k < |source| ==> p.contents[k] == if Owner(k, chunk) in p.received then source[k] else 0)
    && p.bytesReceived == |Covered(p.received, |source|, chunk)|
    && (p.completed <==> |p.received| >= ChunkCount(|source|, chunk))
  }

  /** The transition `WriteChunk` promises when chunk `i` is new. */
  function AfterChunk(p: Progress, data: Bytes, i: nat, total: nat, chunk: nat): Progress
    requires chunk > 0
  {
    var received := p.received + {i as int};
    Progress(received, p.bytesReceived + |data|, |received| >= ChunkCount(total, chunk), WriteAt(p.contents, data, i * chunk))
  }

  /** The integers from `lo` up to, not including, `hi`. */
  function Interval(lo: int, hi: int): (s: set<int>)
    ensures forall k :: k in s <==> lo <= k < hi
    ensures |s| == if lo <= hi then hi - lo else 0
    decreases hi - lo
  {
    if lo >= hi then {} else Interval(lo, hi - 1) + {hi - 1}
  }

  /** The bytes of chunk `i` are those from i * chunk up to the next multiple or the end. */
  lemma {:induction false} ChunkBytes(i: nat, total: nat, chunk: nat)
    requires chunk > 0 && i * chunk <= total
    ensures i * chunk <= Min((i + 1) * chunk, total)
    ensures forall k :: 0 <= k < total ==> (Owner(k, chunk) == i <==> k in Interval(i * chunk, Min((i + 1) * chunk, total)))
  {
    assert (i + 1) * chunk == i * chunk + chunk;
    forall k | 0 <= k < total
      ensures Owner(k, chunk) == i <==> k in Interval(i * chunk, Min((i + 1) * chunk, total))
    {
      OwnerLaw(k, chunk, i);
    }
  }

  lemma {:induction false} CoveredGrowsBy(received: set<int>, i: int, total: nat, chunk: nat, part: set<int>)
    requires chunk > 0 && i !in received
    requires forall k :: k in part <==> 0 <= k < total && Owner(k, chunk) == i
    ensures |Covered(received + {i}, total, chunk)| == |Covered(received, total, chunk)| + |part|
  {
    hide Owner;
    assert Covered(received + {i}, total, chunk) == Covered(received, total, chunk) + part;
    assert Covered(received, total, chunk) !! part;
  }

  lemma {:induction false} CoveredGrowsByInterval(received: set<int>, i: int, total: nat, chunk: nat, lo: nat, hi: int)
    requires chunk > 0 && i !in received && lo <= hi <= total
    requires forall k :: 0 <= k < total ==> (Owner(k, chunk) == i <==> k in Interval(lo, hi))
    ensures |Covered(received + {i}, total, chunk)| == |Covered(received, total, chunk)| + hi - lo
  {
    hide Owner, Covered, Interval;
    CoveredGrowsBy(received, i, total, chunk, Interval(lo, hi));
  }

  lemma {:induction false} CoveredGrows(received: set<int>, i: nat, total: nat, chunk: nat)
    requires chunk > 0 && i !in received && i * chunk <= total
    ensures |Covered(received + {i}, total, chunk)| == |Covered(received, total, chunk)| + Min((i + 1) * chunk, total) - i * chunk
  {
    ChunkBytes(i, total, chunk);
    hide Owner, Covered, Interval;
    CoveredGrowsByInterval(received, i, total, chunk, i * chunk, Min((i + 1) * chunk, total));
  }

  lemma {:induction false} ChunkInside(total: nat, chunk: nat, i: nat)
    requires chunk > 0 && CeilDiv(total, chunk) < 0x8000_0000 && i < ChunkCount(total, chunk)
    ensures i * chunk <= total
  {
    ChunkCountExact(total, chunk);
    CeilBounds(total, chunk);
    if total == 0 {
      assert i == 0;
    } else {
      ProductGrows(i, CeilDiv(total, chunk) - 1, chunk);
    }
  }

  /** What a chunk written at its offset leaves in the file. */
  lemma {:induction false} ChunkLands(contents: Bytes, source: Bytes, chunk: nat, i: nat, k: nat)
    requires chunk > 0 && |contents| == |source| && i * chunk <= |source|
    ensures var file := WriteAt(contents, ChunkOf(source, chunk, i), i * chunk);
            |file| == |source|
            && (k < |source| ==> file[k] == if Owner(k, chunk) == i then source[k] else contents[k])
  {
    hide Interval, Owner;
    ChunkBytes(i, |source|, chunk);
    var data := ChunkOf(source, chunk, i);
    var file := WriteAt(contents, data, i * chunk);
    if i * chunk <= k < i * chunk + |data| {
      assert file[i * chunk + (k - i * chunk)] == data[k - i * chunk];
    }
  }

  lemma {:induction false} ChunkLength(source: Bytes, chunk: nat, i: nat)
    requires chunk > 0 && i * chunk <= |source|
    ensures |ChunkOf(source, chunk, i)| == Min((i + 1) * chunk, |source|) - i * chunk
  {
  }

  /** A correctly cut chunk, arriving at any time, keeps the assembly right. */
  lemma {:induction false} ChunkKeepsAssembled(p: Progress, source: Bytes, chunk: nat, i: nat)
    requires chunk > 0 && CeilDiv(|source|, chunk) < 0x8000_0000
    requires Assembled(p, source, chunk) && i < ChunkCount(|source|, chunk) && i !in p.received
    ensures Assembled(AfterChunk(p, ChunkOf(source, chunk, i), i, |source|, chunk), source, chunk)
  {
    hide CeilDiv, ChunkCount, ChunkOf, WriteAt, Covered, Owner, Min;
    ChunkInside(|source|, chunk, i);
    ChunkLength(source, chunk, i);
    CoveredGrows(p.received, i, |source|, chunk);
    ChunkLands(p.contents, source, chunk, i, 0);
    var q := AfterChunk(p, ChunkOf(source, chunk, i), i, |source|, chunk);
    forall k | 0 <= k < |source|
      ensures q.contents[k] == if Owner(k, chunk) in q.received then source[k] else 0
    {
      ChunkLands(p.contents, source, chunk, i, k);
    }
  }

  lemma {:induction false} FreshIsAssembled(source: Bytes, chunk: nat)
    requires chunk > 0 && CeilDiv(|source|, chunk) < 0x8000_0000
    ensures Assembled(Progress({}, 0, false, Zeros(|source|)), source, chunk)
  {
  }

  /** As many distinct indices as there are chunks are all the chunks. */
  lemma {:induction false} CountMeansAll(received: set<int>, n: int)
    requires n >= 0 && forall i :: i in received ==> 0 <= i < n
    ensures |received| >= n <==> received == Interval(0, n)
  {
    SubsetSize(received, Interval(0, n));
  }

  /** Completion means that every chunk arrived, and then the file is the source, byte for byte. */
  lemma {:induction false} CompletedIsSource(p: Progress, source: Bytes, chunk: nat)
    requires chunk > 0 && CeilDiv(|source|, chunk) < 0x8000_0000 && Assembled(p, source, chunk)
    ensures p.completed <==> p.received == Interval(0, ChunkCount(|source|, chunk))
    ensures p.completed ==> p.contents == source && p.bytesReceived == |source|
  {
    ChunkCountExact(|source|, chunk);
    var n := ChunkCount(|source|, chunk);
    hide CeilDiv, ChunkCount, Owner, Interval;
    CountMeansAll(p.received, n);
    if p.completed {
      forall k | 0 <= k < |source| ensures Owner(k, chunk) in p.received {
        OwnerInside(k, |source|, chunk);
      }
      assert Covered(p.received, |source|, chunk) == Interval(0, |source|);
    }
  }

  lemma {:induction false} OwnerInside(k: nat, total: nat, chunk: nat)
    requires chunk > 0 && k < total && CeilDiv(total, chunk) < 0x8000_0000
    ensures 0 <= Owner(k, chunk) < ChunkCount(total, chunk)
  {
    ChunkCountExact(total, chunk);
    CeilBounds(total, chunk);
    OwnerLaw(k, chunk, Owner(k, chunk));
    ProductGrows(CeilDiv(total, chunk), Owner(k, chunk), chunk);
  }

  /** Before completion the file already is the source exactly when everything missing is zero. */
  lemma {:induction false} SourceUnlessNonZeroMissing(p: Progress, source: Bytes, chunk: nat)
    requires chunk > 0 && Assembled(p, source, chunk)
    ensures p.contents == source <==> forall k :: 0 <= k < |source| && Owner(k, chunk) !in p.received ==> source[k] == 0
  {
  }

  function ProgressOf(s: Session): Progress
    reads s
  {
    Progress(s.received, s.bytesReceived, s.completed, s.Contents())
  }

  /** A session that uploads `source` and has only received correctly cut chunks of it. */
  ghost predicate Uploading(s: Session, source: Bytes)
    reads s
  {
    && s.Valid() && s.chunkSize > 0 && s.totalSize == |source| && s.totalChunks == ChunkCount(|source|, s.chunkSize)
    && CeilDiv(|source|, s.chunkSize) < 0x8000_0000
    && (s.file.None? ==> s.completed)
    && Assembled(ProgressOf(s), source, s.chunkSize)
  }

  /** The chunks among the indices a client sends. */
  function ChunksIn(order: seq<int>, n: int): set<int> {
    set i | i in order && 0 <= i < n
  }

  /**
   A session for `totalSize` bytes, with no chunk received yet.  A chunk size of zero ends the program;
   the file cannot get a negative size.
   */
  method InitSession(maxUploadSize: int, totalSize: int, chunkSize: int) returns (session: Session?, error: Option<Error>)
    ensures error == if maxUploadSize > 0 && totalSize > maxUploadSize then Some(FileTooLarge)
                     else if chunkSize == 0 then Some(DivisionByZero)
                     else if totalSize < 0 then Some(CannotAllocate) else None
    ensures error.None? <==> session != null
    ensures session != null ==>
              && fresh(session) && session.totalSize == totalSize && session.chunkSize == chunkSize
              && session.totalChunks == Announced(totalSize, chunkSize)
              && session.received == {} && !session.completed && session.file == Some(Zeros(totalSize))
    ensures session != null && chunkSize > 0 ==>
              forall source: Bytes :: |source| == totalSize && CeilDiv(totalSize, chunkSize) < 0x8000_0000 ==>
                                        Uploading(session, source)
  {
    if maxUploadSize > 0 && totalSize > maxUploadSize {
      return null, Some(FileTooLarge);
    }
    if chunkSize == 0 {
      return null, Some(DivisionByZero);
    }
    if totalSize < 0 {
      return null, Some(CannotAllocate);
    }
    var created := new Session(totalSize, chunkSize);
    forall source: Bytes | chunkSize > 0 && |source| == totalSize && CeilDiv(totalSize, chunkSize) < 0x8000_0000
      ensures Uploading(created, source)
    {
      FreshIsAssembled(source, chunkSize);
    }
    return created, None;
  }

  /** One correctly cut chunk, or a stray index, through the session. */
  method UploadChunk(s: Session, source: Bytes, i: int)
    requires Uploading(s, source)
    modifies s
    ensures Uploading(s, source)
    ensures s.received == old(s.received) + ChunksIn([i], s.totalChunks)
  {
    hide ChunkCount, CeilDiv, ChunkOf, Assembled, WriteAt;
    ghost var before := ProgressOf(s);
    var data := if i < 0 then [] else ChunkOf(source, s.chunkSize, i);
    ghost var isNew := !s.completed && 0 <= i < s.totalChunks && i !in s.received;
    if isNew {
      ChunkKeepsAssembled(before, source, s.chunkSize, i);
    }
    if s.completed {
      CompletedIsSource(before, source, s.chunkSize);
    }
    var done, error := s.WriteChunk(i, data);
    assert ProgressOf(s) == if isNew then AfterChunk(before, data, i, |source|, s.chunkSize) else before;
  }

  /** Correctly cut chunks in any order, with any repetitions and stray indices. */
  method UploadChunks(s: Session, source: Bytes, order: seq<int>)
    requires Uploading(s, source)
    modifies s
    ensures Uploading(s, source)
    ensures s.received == old(s.received) + ChunksIn(order, s.totalChunks)
    ensures s.completed <==> s.received == Interval(0, s.totalChunks)
    ensures s.completed ==> s.Contents() == source
  {
    hide ChunkCount, CeilDiv, ChunkOf, Assembled;
    for n := 0 to |order|
      invariant Uploading(s, source)
      invariant s.received == old(s.received) + ChunksIn(order[..n], s.totalChunks)
    {
      UploadChunk(s, source, order[n]);
      assert order[..n + 1] == order[..n] + [order[n]];
    }
    assert order[..|order|] == order;
    CompletedIsSource(ProgressOf(s), source, s.chunkSize);
  }

  // ---------- resuming a stream ----------

  /** The first `bytesReceived` bytes of the file are those of the source; completion is the whole. */
  ghost predicate Resumable(p: Progress, source: Bytes) {
    && |p.contents| == |source|
    && 0 <= p.bytesReceived <= |source|
    && p.contents[..p.bytesReceived] == source[..p.bytesReceived]
    && (p.completed ==> p.bytesReceived == |source|)
  }

  /** The transition `WriteStream` promises for a call that delivers `data` from `offset` on. */
  ghost predicate StreamStep(p: Progress, q: Progress, data: Bytes, offset: nat, broken: bool, total: nat) {
    if p.completed then q == p
    else
      && q.contents == WriteAt(p.contents, data, offset)
      && q.bytesReceived == (if data == [] then p.bytesReceived else offset + |data|)
      && (q.completed <==> !broken && q.bytesReceived >= total)
  }

  /** A call from at most the received offset, delivering the source from there, stays resumable. */
  lemma {:induction false} StreamKeepsResumable(p: Progress, q: Progress, source: Bytes, offset: nat, n: nat, broken: bool)
    requires Resumable(p, source) && offset <= p.bytesReceived && offset + n <= |source|
    requires StreamStep(p, q, source[offset..offset + n], offset, broken, |source|)
    ensures Resumable(q, source)
    ensures q.completed ==> q.contents == source
    ensures !p.completed && !broken && offset + n == |source| && n > 0 ==> q.completed
  {
  }

  /** One attempt of a client: where it resumes, how much arrives, whether the connection breaks. */
  datatype Attempt = Attempt(offset: nat, n: nat, broken: bool)

  /** Any number of attempts on a fresh session, each from at most the offset the session reports. */
  ghost predicate Attempts(states: seq<Progress>, attempts: seq<Attempt>, source: Bytes) {
    && |states| == |attempts| + 1
    && states[0] == Progress({}, 0, false, Zeros(|source|))
    && forall k :: 0 <= k < |attempts| ==> AttemptFits(states[k], states[k + 1], attempts[k], source)
  }

  ghost predicate AttemptFits(p: Progress, q: Progress, a: Attempt, source: Bytes) {
    && a.offset + a.n <= |source| && (p.completed || a.offset <= p.bytesReceived)
    && StreamStep(p, q, source[a.offset..a.offset + a.n], a.offset, a.broken, |source|)
  }

  /** After any run of cut-off attempts the file starts with the source, and a completed one is the source. */
  lemma {:induction false} ResumedStreamIsPrefix(states: seq<Progress>, attempts: seq<Attempt>, source: Bytes, n: nat)
    requires Attempts(states, attempts, source) && n < |states|
    ensures Resumable(states[n], source)
    ensures states[n].completed ==> states[n].contents == source
  {
    hide StreamStep;
    if n == 0 {
      assert Zeros(|source|)[..0] == source[..0];
    } else {
      ResumedStreamIsPrefix(states, attempts, source, n - 1);
      assert AttemptFits(states[n - 1], states[n], attempts[n - 1], source);
      NextAttempt(states[n - 1], states[n], attempts[n - 1], source);
    }
  }

  lemma {:induction false} NextAttempt(p: Progress, q: Progress, a: Attempt, source: Bytes)
    requires Resumable(p, source) && AttemptFits(p, q, a, source)
    requires p.completed ==> p.contents == source
    ensures Resumable(q, source) && (q.completed ==> q.contents == source)
  {
  }

  /** One attempt through the session itself. */
  method ResumeStream(s: Session, source: Bytes, parts: seq<Read>, offset: nat, n: nat) returns (done: bool)
    requires s.Valid() && s.totalSize == |source| && (s.file.None? ==> s.completed)
    requires Resumable(ProgressOf(s), source) && (s.completed ==> s.Contents() == source)
    requires offset <= s.bytesReceived && offset + n <= |source| && Delivered(parts) == source[offset..offset + n]
    modifies s
    ensures s.Valid() && (s.file.None? ==> s.completed) && done == s.completed
    ensures StreamStep(old(ProgressOf(s)), ProgressOf(s), source[offset..offset + n], offset, Breaks(parts), |source|)
    ensures Resumable(ProgressOf(s), source) && (s.completed ==> s.Contents() == source)
  {
    hide Delivered, Breaks, WriteAt;
    ghost var before := ProgressOf(s);
    var written, error;
    written, done, error := s.WriteStream(parts, offset);
    if !before.completed {
      StreamKeepsResumable(before, ProgressOf(s), source, offset, n, Breaks(parts));
    }
  }

  /**
   An attempt that starts beyond what was received leaves a gap: what it reports as received is a
   prefix of the source exactly when the gap happened to hold the source already.
   */
  lemma {:induction false} GapIsNotFilled(p: Progress, q: Progress, source: Bytes, offset: nat, n: nat, broken: bool)
    requires Resumable(p, source) && !p.completed && p.bytesReceived < offset && 0 < n && offset + n <= |source|
    requires StreamStep(p, q, source[offset..offset + n], offset, broken, |source|)
    ensures Resumable(q, source) <==> p.contents[p.bytesReceived..offset] == source[p.bytesReceived..offset]
  {
  }
}
