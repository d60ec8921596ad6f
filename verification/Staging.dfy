/** The receiver's staging block and its block writes to the ramdisk server. */
module Staging {
  import opened Bytes
  import opened Ramdisk
  import Receiver

  /** The bytes of the complete blocks among `n` bytes. */
  function Full(n: nat): nat {
    n / BLOCK_SIZE * BLOCK_SIZE
  }

  /** The data of a transfer padded with zeros to whole blocks. */
  function Padded(data: seq<Byte>): (p: seq<Byte>)
    ensures |p| % BLOCK_SIZE == 0 && |data| <= |p| < |data| + BLOCK_SIZE && data <= p
    ensures forall i :: |data| <= i < |p| ==> p[i] == 0
  {
    var off := |data| % BLOCK_SIZE;
    if off == 0 then data else data + seq(BLOCK_SIZE - off, _ => 0)
  }

  /** The disk after a finished transfer of `data` to block `start`. */
  function DiskAfter(disk: seq<Byte>, start: nat, data: seq<Byte>): seq<Byte>
    requires start * BLOCK_SIZE + |Padded(data)| <= |disk|
  {
    Overlay(disk, start * BLOCK_SIZE, Padded(data))
  }

  /** Writing the next chunk of a block extends the written part of the block by that chunk. */
  lemma ChunkExtends(before: seq<Byte>, block: nat, image: seq<Byte>, chunk: nat)
    requires |before| == DISK_BYTES && block < BLOCKS && |image| == BLOCK_SIZE && chunk < CHUNKS_PER_BLOCK
    ensures Overlay(Overlay(before, block * BLOCK_SIZE, image[..chunk * CHUNK]), FlatPos(block, chunk),
            image[chunk * CHUNK..(chunk + 1) * CHUNK])
              == Overlay(before, block * BLOCK_SIZE, image[..(chunk + 1) * CHUNK])
  {
    var done, data := image[..chunk * CHUNK], image[chunk * CHUNK..(chunk + 1) * CHUNK];
    OverlayExtend(before, block * BLOCK_SIZE, done, data);
    assert image[..(chunk + 1) * CHUNK] == done + data;
  }

  ghost predicate Served(granted: bool, bases: seq<int>, ipcUp: (nat, nat) -> bool, block: nat, chunk: nat)
    requires |bases| == SEGMENTS
  {
    ipcUp(block, chunk) && AnswerFor(granted, bases, block, chunk) == OK
  }

  /** A block write succeeds when every chunk message arrives and is served. */
  ghost predicate WritableFor(granted: bool, bases: seq<int>, ipcUp: (nat, nat) -> bool, block: nat)
    requires |bases| == SEGMENTS
  {
    block < BLOCKS && forall c: nat :: c < CHUNKS_PER_BLOCK ==> Served(granted, bases, ipcUp, block, c)
  }

  /** The abstract store of the receiver model describes a client in this situation. */
  ghost predicate DescribesFor(store: Receiver.Store, granted: bool, bases: seq<int>, ipcUp: (nat, nat) -> bool)
    requires |bases| == SEGMENTS
  {
    store.start < BLOCKS && forall b: nat :: b < BLOCKS ==>
        (store.writable(b) <==> WritableFor(granted, bases, ipcUp, b))
  }

  class Client {
    const disk: Server
    /** Whether the message for a chunk of a block reaches the server. */
    const ipcUp: (nat, nat) -> bool
    var staging: array<Byte>

    ghost predicate Valid()
      reads this, disk, disk.handle, disk.va
    {
      && disk.Valid() && disk.Disjoint()
      && staging.Length == BLOCK_SIZE && staging != disk.mem
      && staging as object != disk.va && staging as object != disk.handle
    }

    ghost predicate Writable(block: nat)
      reads this, disk, disk.handle, disk.va
      requires disk.Valid()
    {
      WritableFor(disk.hasGrant, disk.Bases(), ipcUp, block)
    }

    constructor (disk: Server, ipcUp: (nat, nat) -> bool)
      requires disk.Valid() && disk.Disjoint()
      ensures Valid() && this.disk == disk && this.ipcUp == ipcUp && fresh(staging)
    {
      this.disk := disk;
      this.ipcUp := ipcUp;
      staging := new Byte[BLOCK_SIZE](_ => 0);
    }

    /** One chunk message: -9 when it does not reach the server, else the server's answer. */
    method WriteChunk(block: nat, chunk: nat, data: seq<Byte>) returns (rc: int)
      requires Valid() && |data| == CHUNK
      modifies disk.va, disk.mem
      ensures Valid() && disk.Bases() == old(disk.Bases())
      ensures rc == OK <==> Served(disk.hasGrant, disk.Bases(), ipcUp, block, chunk)
      ensures rc != OK ==> disk.Flat() == old(disk.Flat())
      ensures rc == OK ==> block < BLOCKS && chunk < CHUNKS_PER_BLOCK && FlatPos(block, chunk) + CHUNK <= DISK_BYTES
                           && disk.Flat() == Overlay(old(disk.Flat()), FlatPos(block, chunk), data)
    {
      if !ipcUp(block, chunk) { return -9; }
      rc := disk.HandleWrite(block, chunk, data);
    }

    /**
     * One block in sixteen chunk messages. Success writes the whole block; the first failure stops
     * after the chunks before it.
     */
    method WriteBlock(block: nat) returns (rc: int)
      requires Valid()
      modifies disk.va, disk.mem
      ensures Valid() && disk.Bases() == old(disk.Bases()) && staging[..] == old(staging[..])
      ensures rc == OK <==> Writable(block)
      ensures block >= BLOCKS ==> disk.Flat() == old(disk.Flat())
      ensures rc == OK ==> disk.Flat() == Overlay(old(disk.Flat()), block * BLOCK_SIZE, staging[..])
      ensures block < BLOCKS && rc != OK ==>
                exists c :: 0 <= c < CHUNKS_PER_BLOCK
                            && disk.Flat() == Overlay(old(disk.Flat()), block * BLOCK_SIZE, staging[..c * CHUNK])
    {
      if block >= BLOCKS { return ERR_RANGE; }
      ghost var before := disk.Flat();
      ghost var image := staging[..];
      assert Overlay(before, block * BLOCK_SIZE, image[..0]) == before;
      var chunk := 0;
      while chunk < CHUNKS_PER_BLOCK
        invariant 0 <= chunk <= CHUNKS_PER_BLOCK && Valid() && staging[..] == image
        invariant disk.Bases() == old(disk.Bases())
        invariant forall c: nat :: c < chunk ==> Served(disk.hasGrant, disk.Bases(), ipcUp, block, c)
        invariant disk.Flat() == Overlay(before, block * BLOCK_SIZE, image[..chunk * CHUNK])
      {
        var data := staging[chunk * CHUNK..(chunk + 1) * CHUNK];
        ChunkExtends(before, block, image, chunk);
        rc := WriteChunk(block, chunk, data);
        if rc != OK { return; }
        chunk := chunk + 1;
      }
      assert image[..CHUNKS_PER_BLOCK * CHUNK] == image;
      rc := OK;
    }

    /** The abstract store of the receiver model describes this client. */
    ghost predicate Describes(store: Receiver.Store)
      reads this, disk, disk.handle, disk.va
      requires disk.Valid()
    {
      DescribesFor(store, disk.hasGrant, disk.Bases(), ipcUp)
    }

    /**
     * The staging invariant: the disk is the old image with exactly the full blocks received so far
     * written from block `start` on, and the staging buffer holds the rest.
     */
    ghost predicate Tracks(start: nat, disk0: seq<Byte>, staged: seq<Byte>)
      reads this, disk, disk.handle, disk.va, disk.mem, staging
      requires Valid()
    {
      var full := Full(|staged|);
      && |disk0| == DISK_BYTES && start * BLOCK_SIZE + |staged| <= DISK_BYTES
      && disk.Flat() == Overlay(disk0, start * BLOCK_SIZE, staged[..full])
      && staging[..|staged| - full] == staged[full..]
    }

    /** A byte into the staging buffer, which is cleared at the start of a block. */
    method Put(off: nat, b: Byte)
      requires Valid() && off < BLOCK_SIZE
      modifies staging
      ensures Valid() && staging[..off + 1] == old(staging[..off]) + [b]
    {
      if off == 0 {
        for k := 0 to BLOCK_SIZE
        {
          staging[k] := 0;
        }
      }
      staging[off] := b;
    }

    /** One received byte, as the receiver model stages it. */
    method StageByte(start: nat, total: nat, b: Byte,
                     ghost store: Receiver.Store, ghost disk0: seq<Byte>, ghost staged: seq<Byte>)
      returns (rc: int, total': nat)
      requires Valid() && Describes(store) && store.start == start
      requires Tracks(start, disk0, staged) && total == |staged|
      modifies staging, disk.va, disk.mem
      ensures Valid() && Describes(store)
      ensures var (staged', ok) := Receiver.StageByte(store, staged, b);
              (rc == OK <==> ok) && total' == |staged'| && (ok ==> Tracks(start, disk0, staged'))
    {
      total' := total;
      var blk := total / BLOCK_SIZE;
      var off := total % BLOCK_SIZE;
      if start + blk >= BLOCKS { return ERR_RANGE, total'; }
      Put(off, b);
      total' := total + 1;
      if total' % BLOCK_SIZE == 0 {
        assert staging[..off + 1] == staging[..];
        BlockCompletes(disk0, start, staged, b, staging[..]);
        rc := WriteBlock(start + blk);
      } else {
        rc := OK;
        BlockGrows(staged, b);
      }
    }

    /** The last partial block, padded with zeros. */
    method StageFlush(start: nat, total: nat,
                      ghost store: Receiver.Store, ghost disk0: seq<Byte>, ghost staged: seq<Byte>)
      returns (rc: int)
      requires Valid() && Describes(store) && store.start == start
      requires Tracks(start, disk0, staged) && total == |staged|
      modifies staging, disk.va, disk.mem
      ensures Valid() && Describes(store)
      ensures rc == OK <==> total % BLOCK_SIZE == 0 || store.writable(start + total / BLOCK_SIZE)
      ensures rc == OK ==> start * BLOCK_SIZE + |Padded(staged)| <= DISK_BYTES
                           && disk.Flat() == DiskAfter(disk0, start, staged)
    {
      var off := total % BLOCK_SIZE;
      ghost var full := Full(total);
      if off == 0 {
        assert staged[..full] == staged == Padded(staged);
        return OK;
      }
      var blk := total / BLOCK_SIZE;
      ClearFrom(off);
      FlushCompletes(disk0, start, staged, staging[..]);
      rc := WriteBlock(start + blk);
    }

    method ClearFrom(off: nat)
      requires Valid() && off <= BLOCK_SIZE
      modifies staging
      ensures Valid() && staging[..] == old(staging[..off]) + seq(BLOCK_SIZE - off, _ => 0)
    {
      for k := off to BLOCK_SIZE
        invariant staging[..off] == old(staging[..off])
        invariant forall i :: off <= i < k ==> staging[i] == 0
      {
        staging[k] := 0;
      }
    }

    /** One chunk read into its place in the block buffer. */
    method ReadChunk(block: nat, chunk: nat, buf: array<Byte>, ghost flat: seq<Byte>) returns (rc: int)
      requires Valid() && chunk < CHUNKS_PER_BLOCK && buf.Length == BLOCK_SIZE && buf != disk.mem
      requires buf as object != disk.va && buf as object != disk.handle
      requires disk.Flat() == flat
      modifies disk.va, buf
      ensures Valid() && disk.Bases() == old(disk.Bases()) && disk.Flat() == flat
      ensures rc == OK <==> Served(disk.hasGrant, disk.Bases(), ipcUp, block, chunk)
      ensures rc == OK ==> block < BLOCKS && FlatPos(block, chunk) + CHUNK <= DISK_BYTES
      ensures rc == OK ==> buf[..chunk * CHUNK + CHUNK]
                           == old(buf[..chunk * CHUNK]) + flat[FlatPos(block, chunk)..FlatPos(block, chunk) + CHUNK]
    {
      if !ipcUp(block, chunk) { return -9; }
      var data;
      rc, data := disk.HandleRead(block, chunk);
      if rc != OK { return; }
      var at := chunk * CHUNK;
      Store(buf, at, data);
      assert buf[..at + CHUNK] == buf[..at] + buf[at..at + CHUNK];
    }

    /** One block in sixteen chunk reads. */
    method ReadBlock(block: nat, buf: array<Byte>, ghost flat: seq<Byte>) returns (rc: int)
      requires Valid() && buf.Length == BLOCK_SIZE && buf != disk.mem
      requires buf as object != disk.va && buf as object != disk.handle
      requires disk.Flat() == flat
      modifies disk.va, buf
      ensures Valid() && disk.Bases() == old(disk.Bases()) && disk.Flat() == flat
      ensures rc == OK <==> old(Writable(block))
      ensures rc == OK ==> buf[..] == BlockOf(flat, block)
    {
      if block >= BLOCKS { return ERR_RANGE; }
      ghost var pos := block * BLOCK_SIZE;
      var chunk := 0;
      while chunk < CHUNKS_PER_BLOCK
        invariant 0 <= chunk <= CHUNKS_PER_BLOCK && Valid()
        invariant disk.Bases() == old(disk.Bases()) && disk.Flat() == flat
        invariant forall c: nat :: c < chunk ==> Served(disk.hasGrant, disk.Bases(), ipcUp, block, c)
        invariant buf[..chunk * CHUNK] == flat[pos..pos + chunk * CHUNK]
      {
        ghost var at := chunk * CHUNK;
        rc := ReadChunk(block, chunk, buf, flat);
        if rc != OK { return; }
        SliceJoin(flat, pos, pos + at, pos + at + CHUNK);
        chunk := chunk + 1;
      }
      assert buf[..CHUNKS_PER_BLOCK * CHUNK] == buf[..];
      rc := OK;
    }

    method Store(buf: array<Byte>, at: nat, data: seq<Byte>)
      requires at + |data| <= buf.Length
      modifies buf
      ensures buf[..at] == old(buf[..at]) && buf[at..at + |data|] == data
    {
      for k := 0 to |data|
        invariant buf[..at] == old(buf[..at]) && buf[at..at + k] == data[..k]
      {
        buf[at + k] := data[k];
      }
    }

    /** Reads one block and prints its first `take` bytes. */
    method DumpBlock(block: nat, take: nat, show: Byte -> seq<Byte>, blkbuf: array<Byte>, ghost flat: seq<Byte>)
      returns (ok: bool, out: seq<Byte>)
      requires Valid() && take <= BLOCK_SIZE && blkbuf.Length == BLOCK_SIZE && blkbuf != disk.mem
      requires blkbuf as object != disk.va && blkbuf as object != disk.handle
      requires flat == disk.Flat()
      modifies disk.va, blkbuf
      ensures Valid() && disk.Bases() == old(disk.Bases()) && disk.Flat() == flat
      ensures ok <==> old(Writable(block))
      ensures ok ==> block < BLOCKS && out == Printed(show, BlockOf(flat, block)[..take])
    {
      var rc := ReadBlock(block, blkbuf, flat);
      if rc != OK { return false, []; }
      out := Print(blkbuf, take, show);
      ok := true;
    }

    /** Continues the output of the range before block `blk` of it by the front of that block. */
    method DumpNext(start: nat, blk: nat, done: nat, take: nat, show: Byte -> seq<Byte>, blkbuf: array<Byte>,
        out: seq<Byte>, ghost flat: seq<Byte>)
      returns (ok: bool, out': seq<Byte>)
      requires Valid() && take <= BLOCK_SIZE && blkbuf.Length == BLOCK_SIZE && blkbuf != disk.mem
      requires blkbuf as object != disk.va && blkbuf as object != disk.handle
      requires flat == disk.Flat() && done == blk * BLOCK_SIZE
      requires InDisk(start, done) && out == Printed(show, Range(flat, start, done))
      modifies disk.va, blkbuf
      ensures Valid() && disk.Bases() == old(disk.Bases()) && disk.Flat() == flat
      ensures ok <==> old(Writable(start + blk))
      ensures ok ==> InDisk(start, done + take) && out' == Printed(show, Range(flat, start, done + take))
    {
      var more;
      ok, more := DumpBlock(start + blk, take, show, blkbuf, flat);
      if !ok { return false, out; }
      PrintsMore(show, flat, start, blk, done, take);
      out' := out + more;
    }

    /** Prints a range of the disk, byte by byte, stopping at the first block that cannot be read. */
    method Dump(start: nat, nbytes: nat, show: Byte -> seq<Byte>) returns (ok: bool, out: seq<Byte>)
      requires Valid()
      modifies disk.va
      ensures Valid() && disk.Bases() == old(disk.Bases()) && disk.Flat() == old(disk.Flat())
      ensures ok <==> Readable(old(disk.hasGrant), old(disk.Bases()), ipcUp, start, nbytes)
      ensures ok ==> InDisk(start, nbytes) && out == Printed(show, Range(old(disk.Flat()), start, nbytes))
    {
      var blkbuf := new Byte[BLOCK_SIZE](_ => 0);
      ok, out := DumpInto(start, nbytes, show, blkbuf);
    }

    method DumpInto(start: nat, nbytes: nat, show: Byte -> seq<Byte>, blkbuf: array<Byte>)
        returns (ok: bool, out: seq<Byte>)
      requires Valid() && blkbuf.Length == BLOCK_SIZE && blkbuf != disk.mem
      requires blkbuf as object != disk.va && blkbuf as object != disk.handle
      modifies disk.va, blkbuf
      ensures Valid() && disk.Bases() == old(disk.Bases()) && disk.Flat() == old(disk.Flat())
      ensures ok <==> Readable(old(disk.hasGrant), old(disk.Bases()), ipcUp, start, nbytes)
      ensures ok ==> InDisk(start, nbytes) && out == Printed(show, Range(old(disk.Flat()), start, nbytes))
    {
      var done, blk := 0, 0;
      ghost var granted, bases, flat := disk.hasGrant, disk.Bases(), disk.Flat();
      out := [];
      while done < nbytes
        invariant 0 <= done <= nbytes && (done == blk * BLOCK_SIZE || done == nbytes)
        invariant Valid() && disk.hasGrant == granted && disk.Bases() == bases && disk.Flat() == flat
        invariant Readable(granted, bases, ipcUp, start, done)
        invariant InDisk(start, done) && out == Printed(show, Range(flat, start, done))
      {
        var take := if nbytes - done > BLOCK_SIZE then BLOCK_SIZE else nbytes - done;
        ReadableExtend(granted, bases, ipcUp, start, blk, done, nbytes);
        ReadableExtend(granted, bases, ipcUp, start, blk, done, done + take);
        ok, out := DumpNext(start, blk, done, take, show, blkbuf, out, flat);
        if !ok { return; }
        done := done + take;
        blk := blk + 1;
      }
      ok := true;
    }

    method Print(buf: array<Byte>, take: nat, show: Byte -> seq<Byte>) returns (out: seq<Byte>)
      requires take <= buf.Length
      ensures out == Printed(show, buf[..][..take])
    {
      out := [];
      for t := 0 to take
        invariant out == Printed(show, buf[..][..t])
      {
        PrintedAppend(show, buf[..][..t], [buf[t]]);
        assert buf[..][..t] + [buf[t]] == buf[..][..t + 1];
        assert [buf[t]][1..] == [];
        out := out + show(buf[t]);
      }
    }
  }

  lemma SliceJoin(s: seq<Byte>, lo: nat, mid: nat, hi: nat)
    requires lo <= mid <= hi <= |s|
    ensures s[lo..mid] + s[mid..hi] == s[lo..hi]
  {
  }

  // ---- what dump prints ----

  ghost predicate Readable(granted: bool, bases: seq<int>, ipcUp: (nat, nat) -> bool, start: nat, n: nat)
    requires |bases| == SEGMENTS
  {
    forall b: nat :: start <= b && (b - start) * BLOCK_SIZE < n ==> WritableFor(granted, bases, ipcUp, b)
  }

  lemma ReadableExtend(granted: bool, bases: seq<int>, ipcUp: (nat, nat) -> bool, start: nat, blk: nat, done: nat,
      upto: nat)
    requires |bases| == SEGMENTS && done == blk * BLOCK_SIZE && done < upto
    requires Readable(granted, bases, ipcUp, start, done)
    ensures Readable(granted, bases, ipcUp, start, upto) ==> WritableFor(granted, bases, ipcUp, start + blk)
    ensures upto <= done + BLOCK_SIZE && WritableFor(granted, bases, ipcUp, start + blk) ==>
              Readable(granted, bases, ipcUp, start, upto)
  {
    assert blk * BLOCK_SIZE < upto;
  }

  predicate InDisk(start: nat, n: nat) {
    n == 0 || start * BLOCK_SIZE + n <= DISK_BYTES
  }

  function Range(d: seq<Byte>, start: nat, n: nat): seq<Byte>
    requires |d| == DISK_BYTES && InDisk(start, n)
  {
    if n == 0 then [] else d[start * BLOCK_SIZE..start * BLOCK_SIZE + n]
  }

  function BlockOf(d: seq<Byte>, block: nat): seq<Byte>
    requires |d| == DISK_BYTES && block < BLOCKS
  {
    d[block * BLOCK_SIZE..(block + 1) * BLOCK_SIZE]
  }

  lemma RangeExtend(d: seq<Byte>, start: nat, blk: nat, done: nat, take: nat)
    requires |d| == DISK_BYTES && start + blk < BLOCKS && done == blk * BLOCK_SIZE && take <= BLOCK_SIZE
    ensures InDisk(start, done) && InDisk(start, done + take)
    ensures Range(d, start, done + take) == Range(d, start, done) + BlockOf(d, start + blk)[..take]
  {
    var pos := start * BLOCK_SIZE + done;
    assert BlockOf(d, start + blk)[..take] == d[pos..pos + take];
  }

  function UpperHex(v: Byte): Byte {
    if v < 10 then 0x30 + v else 0x41 + (v - 10)
  }

  /** Two hex digits and a newline per byte. */
  function HexLine(c: Byte): seq<Byte> {
    [UpperHex(c >> 4), UpperHex(c & 15), 0x0A]
  }

  /** The hex dump of a byte: two digits, capital letters from ten on, most significant first, and a newline. */
  lemma HexLineLaw(hi: Byte, lo: Byte)
    requires hi < 16 && lo < 16
    ensures HexLine((hi << 4) | lo)
              == [if hi < 10 then 0x30 + hi else 0x41 + (hi - 10),
                  if lo < 10 then 0x30 + lo else 0x41 + (lo - 10), 0x0A]
  {
    assert ((hi << 4) | lo) >> 4 == hi && ((hi << 4) | lo) & 15 == lo;
  }

  function Plain(c: Byte): seq<Byte> {
    [c]
  }

  /** Everything printed for `data`, byte by byte. */
  function Printed(show: Byte -> seq<Byte>, data: seq<Byte>): seq<Byte> {
    if data == [] then [] else show(data[0]) + Printed(show, data[1..])
  }

  lemma {:induction false} PrintedAppend(show: Byte -> seq<Byte>, a: seq<Byte>, b: seq<Byte>)
    ensures Printed(show, a + b) == Printed(show, a) + Printed(show, b)
    decreases |a|
  {
    if a == [] {
      assert a + b == b;
    } else {
      assert (a + b)[1..] == a[1..] + b;
      PrintedAppend(show, a[1..], b);
    }
  }

  /** Printing the front of the next block continues the output of the range before it. */
  lemma PrintsMore(show: Byte -> seq<Byte>, d: seq<Byte>, start: nat, blk: nat, done: nat, take: nat)
    requires |d| == DISK_BYTES && start + blk < BLOCKS && done == blk * BLOCK_SIZE && take <= BLOCK_SIZE
    ensures InDisk(start, done) && InDisk(start, done + take)
    ensures Printed(show, Range(d, start, done + take))
              == Printed(show, Range(d, start, done)) + Printed(show, BlockOf(d, start + blk)[..take])
  {
    RangeExtend(d, start, blk, done, take);
    PrintedAppend(show, Range(d, start, done), BlockOf(d, start + blk)[..take]);
  }

  lemma HexLineInjective(c: Byte, d: Byte)
    requires HexLine(c) == HexLine(d)
    ensures c == d
  {
    var x, y := HexLine(c), HexLine(d);
    UpperHexInjective(c >> 4, d >> 4);
    UpperHexInjective(c & 15, d & 15);
    Halves(c, d);
  }

  lemma UpperHexInjective(v: Byte, w: Byte)
    requires v < 16 && w < 16
    ensures UpperHex(v) == UpperHex(w) ==> v == w
  {
  }

  lemma Halves(c: Byte, d: Byte)
    ensures c >> 4 < 16 && c & 15 < 16
    ensures c >> 4 == d >> 4 && c & 15 == d & 15 ==> c == d
  {
  }

  /** A dump in hex determines the bytes it was made of. */
  lemma {:induction false} HexDumpDeterminesData(a: seq<Byte>, b: seq<Byte>)
    requires Printed(HexLine, a) == Printed(HexLine, b)
    ensures a == b
  {
    var p, q := Printed(HexLine, a), Printed(HexLine, b);
    if a != [] && b != [] {
      assert p[..3] == HexLine(a[0]) && p[3..] == Printed(HexLine, a[1..]);
      assert q[..3] == HexLine(b[0]) && q[3..] == Printed(HexLine, b[1..]);
      HexLineInjective(a[0], b[0]);
      HexDumpDeterminesData(a[1..], b[1..]);
      assert a == [a[0]] + a[1..] && b == [b[0]] + b[1..];
    }
  }

  lemma {:induction false} PlainPrintIsData(data: seq<Byte>)
    ensures Printed(Plain, data) == data
  {
    if data == [] {
    } else {
      PlainPrintIsData(data[1..]);
    }
  }

  /** The disk after a transfer holds the data and zeros behind it, and is otherwise what it was. */
  lemma DiskHolds(disk0: seq<Byte>, pos: nat, padded: seq<Byte>, data: seq<Byte>)
    requires pos + |padded| <= |disk0| && data <= padded && forall i :: |data| <= i < |padded| ==> padded[i] == 0
    ensures var d := Overlay(disk0, pos, padded);
            && d[pos..pos + |data|] == data
            && (forall i :: pos + |data| <= i < pos + |padded| ==> d[i] == 0)
            && (forall i :: 0 <= i < |d| && !(pos <= i < pos + |padded|) ==> d[i] == disk0[i])
  {
    OverlayIs(disk0, pos, padded);
    var d := Overlay(disk0, pos, padded);
    var whole := d[pos..pos + |padded|];
    assert d[pos..pos + |data|] == whole[..|data|];
    forall i | pos + |data| <= i < pos + |padded| ensures d[i] == 0 {
      assert d[i] == whole[i - pos];
    }
  }

  lemma FlushCompletes(disk0: seq<Byte>, start: nat, staged: seq<Byte>, block: seq<Byte>)
    requires |disk0| == DISK_BYTES && start * BLOCK_SIZE + |staged| <= DISK_BYTES && |staged| % BLOCK_SIZE != 0
    requires block == staged[Full(|staged|)..] + seq(BLOCK_SIZE - |staged| % BLOCK_SIZE, _ => 0)
    ensures start * BLOCK_SIZE + |Padded(staged)| <= DISK_BYTES
    ensures Overlay(Overlay(disk0, start * BLOCK_SIZE, staged[..Full(|staged|)]),
            (start + |staged| / BLOCK_SIZE) * BLOCK_SIZE, block)
              == DiskAfter(disk0, start, staged)
  {
    var full := Full(|staged|);
    OverlayExtend(disk0, start * BLOCK_SIZE, staged[..full], block);
    assert staged[..full] + block == Padded(staged);
  }

  lemma BlockGrows(staged: seq<Byte>, b: Byte)
    requires (|staged| + 1) % BLOCK_SIZE != 0
    ensures Full(|staged| + 1) == Full(|staged|)
    ensures (staged + [b])[..Full(|staged|)] == staged[..Full(|staged|)]
    ensures (staged + [b])[Full(|staged|)..] == staged[Full(|staged|)..] + [b]
  {
  }

  /** Writing the completed block extends the written image by that block. */
  lemma BlockCompletes(disk0: seq<Byte>, start: nat, staged: seq<Byte>, b: Byte, block: seq<Byte>)
    requires |disk0| == DISK_BYTES && (start + |staged| / BLOCK_SIZE + 1) * BLOCK_SIZE <= DISK_BYTES
    requires (|staged| + 1) % BLOCK_SIZE == 0 && |block| == BLOCK_SIZE && block == staged[Full(|staged|)..] + [b]
    ensures Full(|staged| + 1) == |staged| + 1
    ensures Overlay(Overlay(disk0, start * BLOCK_SIZE, staged[..Full(|staged|)]),
            (start + |staged| / BLOCK_SIZE) * BLOCK_SIZE, block)
              == Overlay(disk0, start * BLOCK_SIZE, (staged + [b])[..Full(|staged| + 1)])
  {
    var full := Full(|staged|);
    OverlayExtend(disk0, start * BLOCK_SIZE, staged[..full], block);
    assert staged[..full] + block == staged + [b];
    assert (staged + [b])[..|staged| + 1] == staged + [b];
  }
}
