/**
 * The ramdisk server: eight segments of granted frames, mapped on first use, served in 32-byte
 * chunks, and the flat disk of 32768 blocks they implement.
 */
module Ramdisk {
  import opened Bytes

  const BLOCK_SIZE := 512
  const CHUNK := 32
  const CHUNKS_PER_BLOCK := 16
  const BLOCKS := 32768
  const SEGMENTS := 8
  const SEGMENT_BLOCKS := 4096
  const SEGMENT_BYTES := 2097152
  const DISK_BYTES := 16777216

  const OK := 0
  const ERR_RANGE := -1
  const ERR_NOGRANT := -2
  const ERR_NOMEM := -3
  const BAD_HANDLE := 0xFFFF_FFFF_FFFF_FFFF

  /** The segment of a block and the byte offset of a chunk in it. */
  function Locate(block: nat, chunk: nat): (nat, nat) {
    (block / SEGMENT_BLOCKS, block % SEGMENT_BLOCKS * BLOCK_SIZE + chunk * CHUNK)
  }

  /** The position of a chunk on the flat disk. */
  function FlatPos(block: nat, chunk: nat): nat {
    block * BLOCK_SIZE + chunk * CHUNK
  }

  /**
   * Chunks are placed like bytes of the flat disk: in range, with segment and offset the quotient
   * and remainder of the flat position, so different chunks never overlap.
   */
  lemma LocateIsFlat(block: nat, chunk: nat, k: nat)
    requires block < BLOCKS && chunk < CHUNKS_PER_BLOCK && k < CHUNK
    ensures var (seg, off) := Locate(block, chunk);
            && seg < SEGMENTS && off + CHUNK <= SEGMENT_BYTES
            && FlatPos(block, chunk) + k < DISK_BYTES
            && (FlatPos(block, chunk) + k) / SEGMENT_BYTES == seg
            && (FlatPos(block, chunk) + k) % SEGMENT_BYTES == off + k
  {
    var (seg, off) := Locate(block, chunk);
    assert block == seg * SEGMENT_BLOCKS + block % SEGMENT_BLOCKS;
    assert FlatPos(block, chunk) + k == seg * SEGMENT_BYTES + (off + k);
  }

  lemma ChunksDoNotOverlap(block: nat, chunk: nat, block': nat, chunk': nat)
    requires block < BLOCKS && chunk < CHUNKS_PER_BLOCK && block' < BLOCKS && chunk' < CHUNKS_PER_BLOCK
    requires (block, chunk) != (block', chunk')
    ensures var (seg, off) := Locate(block, chunk);
            var (seg', off') := Locate(block', chunk');
            seg != seg' || off + CHUNK <= off' || off' + CHUNK <= off
  {
    LocateIsFlat(block, chunk, 0);
    LocateIsFlat(block', chunk', 0);
    FlatApart(block, chunk, block', chunk');
    var p, q := FlatPos(block, chunk), FlatPos(block', chunk');
    assert p == p / SEGMENT_BYTES * SEGMENT_BYTES + p % SEGMENT_BYTES;
    assert q == q / SEGMENT_BYTES * SEGMENT_BYTES + q % SEGMENT_BYTES;
  }

  lemma FlatApart(block: nat, chunk: nat, block': nat, chunk': nat)
    requires chunk < CHUNKS_PER_BLOCK && chunk' < CHUNKS_PER_BLOCK && (block, chunk) != (block', chunk')
    ensures FlatPos(block, chunk) + CHUNK <= FlatPos(block', chunk')
            || FlatPos(block', chunk') + CHUNK <= FlatPos(block, chunk)
  {
  }

  /** Segment addresses within a memory; a segment that cannot be mapped has none. */
  ghost predicate Placed(bases: seq<int>, memory: nat) {
    |bases| == SEGMENTS && forall s :: 0 <= s < SEGMENTS && bases[s] > 0 ==> bases[s] <= memory - SEGMENT_BYTES
  }

  /** Distinct segments lie at disjoint addresses. */
  ghost predicate Apart(bases: seq<int>) {
    forall s, t :: 0 <= s < t < |bases| && bases[s] > 0 && bases[t] > 0 ==>
      bases[s] + SEGMENT_BYTES <= bases[t] || bases[t] + SEGMENT_BYTES <= bases[s]
  }

  ghost function ByteAt(bases: seq<int>, mem: seq<Byte>, i: nat): Byte
    requires Placed(bases, |mem|) && i < DISK_BYTES
  {
    var base := bases[i / SEGMENT_BYTES];
    if base > 0 then mem[base + i % SEGMENT_BYTES] else 0
  }

  /** The flat disk that segments at the given addresses implement. */
  ghost function FlatOf(bases: seq<int>, mem: seq<Byte>): (d: seq<Byte>)
    requires Placed(bases, |mem|)
    ensures |d| == DISK_BYTES
  {
    seq(DISK_BYTES, i requires 0 <= i < DISK_BYTES => ByteAt(bases, mem, i))
  }

  /** A byte of the flat disk outside a chunk lies outside the chunk's addresses. */
  lemma ElsewhereInMemory(bases: seq<int>, block: nat, chunk: nat, i: nat)
    requires |bases| == SEGMENTS && Apart(bases) && block < BLOCKS && chunk < CHUNKS_PER_BLOCK && i < DISK_BYTES
    requires bases[block / SEGMENT_BLOCKS] > 0 && bases[i / SEGMENT_BYTES] > 0
    requires !(FlatPos(block, chunk) <= i < FlatPos(block, chunk) + CHUNK)
    ensures var p := bases[block / SEGMENT_BLOCKS] + Locate(block, chunk).1;
            var q := bases[i / SEGMENT_BYTES] + i % SEGMENT_BYTES;
            !(p <= q < p + CHUNK)
  {
    LocateIsFlat(block, chunk, 0);
    LocateIsFlat(block, chunk, CHUNK - 1);
    var s, t := block / SEGMENT_BLOCKS, i / SEGMENT_BYTES;
    if s == t {
      assert i == t * SEGMENT_BYTES + i % SEGMENT_BYTES;
    }
  }

  lemma ByteInOverlay(data: seq<Byte>, pos: nat, patch: seq<Byte>, k: nat)
    requires pos + |patch| <= |data| && k < |patch|
    ensures Overlay(data, pos, patch)[pos + k] == patch[k]
  {
    assert Overlay(data, pos, patch)[pos..pos + |patch|][k] == patch[k];
  }

  /** Writing a chunk at its mapped address writes that chunk of the flat disk and nothing else. */
  lemma WroteChunk(bases: seq<int>, mem: seq<Byte>, block: nat, chunk: nat, data: seq<Byte>)
    requires Placed(bases, |mem|) && Apart(bases)
    requires block < BLOCKS && chunk < CHUNKS_PER_BLOCK && |data| == CHUNK && bases[block / SEGMENT_BLOCKS] > 0
    ensures var p := bases[block / SEGMENT_BLOCKS] + Locate(block, chunk).1;
            && p + CHUNK <= |mem| && FlatPos(block, chunk) + CHUNK <= DISK_BYTES
            && FlatOf(bases, Overlay(mem, p, data)) == Overlay(FlatOf(bases, mem), FlatPos(block, chunk), data)
  {
    LocateIsFlat(block, chunk, CHUNK - 1);
    var p := bases[block / SEGMENT_BLOCKS] + Locate(block, chunk).1;
    var after := FlatOf(bases, Overlay(mem, p, data));
    var want := Overlay(FlatOf(bases, mem), FlatPos(block, chunk), data);
    forall i | 0 <= i < DISK_BYTES ensures after[i] == want[i] {
      WroteByte(bases, mem, block, chunk, data, i);
    }
  }

  /** A byte of the disk after a chunk was written at its mapped address. */
  lemma WroteByte(bases: seq<int>, mem: seq<Byte>, block: nat, chunk: nat, data: seq<Byte>, i: nat)
    requires Placed(bases, |mem|) && Apart(bases) && i < DISK_BYTES
    requires block < BLOCKS && chunk < CHUNKS_PER_BLOCK && |data| == CHUNK && bases[block / SEGMENT_BLOCKS] > 0
    ensures var p, pos := bases[block / SEGMENT_BLOCKS] + Locate(block, chunk).1, FlatPos(block, chunk);
            && p + CHUNK <= |mem| && pos + CHUNK <= DISK_BYTES
            && FlatOf(bases, Overlay(mem, p, data))[i] == Overlay(FlatOf(bases, mem), pos, data)[i]
  {
    LocateIsFlat(block, chunk, CHUNK - 1);
    var p, pos := bases[block / SEGMENT_BLOCKS] + Locate(block, chunk).1, FlatPos(block, chunk);
    if pos <= i < pos + CHUNK {
      LocateIsFlat(block, chunk, i - pos);
      ByteInOverlay(FlatOf(bases, mem), pos, data, i - pos);
      ByteInOverlay(mem, p, data, i - pos);
    } else if bases[i / SEGMENT_BYTES] > 0 {
      ElsewhereInMemory(bases, block, chunk, i);
    }
  }

  /** The answer to a request for a chunk. */
  ghost function AnswerFor(granted: bool, bases: seq<int>, block: nat, chunk: nat): int
    requires |bases| == SEGMENTS
  {
    if !granted then ERR_NOGRANT
    else if block >= BLOCKS || chunk >= CHUNKS_PER_BLOCK then ERR_RANGE
    else if bases[block / SEGMENT_BLOCKS] < 0 then ERR_NOMEM
    else OK
  }

  /** The answers in their order: -2 without a grant, -1 out of range, -3 when the segment cannot be mapped, else 0. */
  lemma AnswerLaw(granted: bool, bases: seq<int>, block: nat, chunk: nat)
    requires |bases| == 8
    ensures AnswerFor(granted, bases, block, chunk)
              == if !granted then -2 else if block >= 32768 || chunk >= 16 then -1
                 else if bases[block / 4096] < 0 then -3 else 0
  {
  }

  /** The disk: 32768 blocks of 512 bytes in eight segments of 2 MiB, served in chunks of 32 bytes. */
  lemma Geometry(block: nat, chunk: nat)
    ensures FlatPos(block, chunk) == 512 * block + 32 * chunk
    ensures Locate(block, chunk) == (block / 4096, 512 * (block % 4096) + 32 * chunk)
    ensures DISK_BYTES == 32768 * 512 && SEGMENT_BYTES == 4096 * 512 && 8 * SEGMENT_BYTES == DISK_BYTES
  {
  }

  class Server {
    /** Granted frame handles; 0 means none. */
    var handle: array<nat>
    /** Segment addresses; 0 means not mapped yet. */
    var va: array<nat>
    var hasGrant: bool
    /** The memory the frames lie in. */
    var mem: array<Byte>
    /** The address at which the kernel maps a frame, negative when it cannot. */
    const frameMap: nat -> int

    ghost predicate Valid()
      reads this, handle, va
    {
      && handle.Length == SEGMENTS && va.Length == SEGMENTS && handle != va
      && mem as object != va && mem as object != handle
      && (forall h :: frameMap(h) < 0 || 0 < frameMap(h) <= mem.Length - SEGMENT_BYTES)
      && (forall s :: 0 <= s < SEGMENTS ==> va[s] == 0 || va[s] <= mem.Length - SEGMENT_BYTES)
    }

    /** Where a segment is mapped, or will be when it is first used; not positive when it cannot be. */
    ghost function Base(s: nat): int
      reads this, handle, va
      requires Valid() && s < SEGMENTS
    {
      if va[s] != 0 then va[s] else if handle[s] == 0 then -1 else frameMap(handle[s])
    }

    ghost function Bases(): (b: seq<int>)
      reads this, handle, va
      requires Valid()
      ensures Placed(b, mem.Length)
    {
      seq(SEGMENTS, s requires 0 <= s < SEGMENTS && Valid() reads this, handle, va => Base(s))
    }

    ghost predicate Disjoint()
      reads this, handle, va
      requires Valid()
    {
      Apart(Bases())
    }

    /** The flat disk. */
    ghost function Flat(): (d: seq<Byte>)
      reads this, handle, va, mem
      requires Valid()
      ensures |d| == DISK_BYTES
    {
      FlatOf(Bases(), mem[..])
    }

    /** The answer to a request, which no served request changes. */
    ghost function Answer(block: nat, chunk: nat): int
      reads this, handle, va
      requires Valid()
    {
      AnswerFor(hasGrant, Bases(), block, chunk)
    }

    constructor (mem: array<Byte>, frameMap: nat -> int)
      requires forall h :: frameMap(h) < 0 || 0 < frameMap(h) <= mem.Length - SEGMENT_BYTES
      ensures Valid() && Disjoint() && this.mem == mem && this.frameMap == frameMap && fresh(handle) && fresh(va)
      ensures forall block, chunk :: Answer(block, chunk) == ERR_NOGRANT
    {
      this.mem := mem;
      this.frameMap := frameMap;
      handle := new nat[SEGMENTS](_ => 0);
      va := new nat[SEGMENTS](_ => 0);
      hasGrant := false;
      new;
      assert forall s :: 0 <= s < SEGMENTS ==> va[s] == 0 && handle[s] == 0 && Base(s) == -1;
    }

    /** How many handles of a grant come before the first bad one. */
    static function Good(payload: seq<nat>): (k: nat)
      ensures k <= |payload| && (forall i :: 0 <= i < k ==> payload[i] != 0 && payload[i] != BAD_HANDLE)
      ensures k < |payload| ==> payload[k] == 0 || payload[k] == BAD_HANDLE
    {
      if payload == [] || payload[0] == 0 || payload[0] == BAD_HANDLE then 0
      else
        var k := Good(payload[1..]);
        assert forall i :: 0 < i < |payload| ==> payload[i] == payload[1..][i - 1];
        k + 1
    }

    /**
     * Stores the granted handles up to the first bad one, which withdraws the grant. Segments that are
     * mapped keep their address.
     */
    method HandleGrant(payload: seq<nat>)
      requires Valid() && |payload| == SEGMENTS
      modifies this`hasGrant, handle
      ensures Valid()
      ensures hasGrant <==> Good(payload) == SEGMENTS
      ensures handle[..] == payload[..Good(payload)] + old(handle[..])[Good(payload)..]
      ensures forall s :: 0 <= s < SEGMENTS && va[s] != 0 ==> Base(s) == old(Base(s))
    {
      var k := StoreHandles(payload);
      hasGrant := k == SEGMENTS;
    }

    method StoreHandles(payload: seq<nat>) returns (k: nat)
      requires handle.Length == SEGMENTS && |payload| == SEGMENTS
      modifies handle
      ensures k == Good(payload) && handle[..] == payload[..k] + old(handle[..])[k..]
    {
      k := 0;
      while k < SEGMENTS && payload[k] != 0 && payload[k] != BAD_HANDLE
        invariant 0 <= k <= SEGMENTS
        invariant forall i :: 0 <= i < k ==> handle[i] == payload[i] && payload[i] != 0 && payload[i] != BAD_HANDLE
        invariant forall i :: k <= i < SEGMENTS ==> handle[i] == old(handle[i])
      {
        handle[k] := payload[k];
        k := k + 1;
      }
    }

    /** Maps a segment on first use; the flat disk does not notice. */
    method MapSegment(seg: nat) returns (ok: bool)
      requires Valid() && seg < SEGMENTS
      modifies va
      ensures Valid() && Bases() == old(Bases())
      ensures ok <==> old(Base(seg)) > 0
      ensures ok ==> va[seg] == old(Base(seg))
    {
      if va[seg] != 0 { return true; }
      if handle[seg] == 0 { return false; }
      var a := frameMap(handle[seg]);
      if a < 0 { return false; }
      va[seg] := a;
      assert forall s :: 0 <= s < SEGMENTS ==> Base(s) == old(Base(s));
      ok := true;
    }

    method ServeRange(block: nat, chunk: nat) returns (rc: int)
      requires Valid()
      modifies va
      ensures Valid() && Bases() == old(Bases())
      ensures rc == old(Answer(block, chunk))
      ensures rc == OK ==>
                && block < BLOCKS && chunk < CHUNKS_PER_BLOCK
                && va[block / SEGMENT_BLOCKS] == Bases()[block / SEGMENT_BLOCKS] > 0
    {
      if !hasGrant { return ERR_NOGRANT; }
      if block >= BLOCKS || chunk >= CHUNKS_PER_BLOCK { return ERR_RANGE; }
      var ok := MapSegment(block / SEGMENT_BLOCKS);
      rc := if ok then OK else ERR_NOMEM;
    }

    function ChunkPtr(block: nat, chunk: nat): nat
      reads this, va
      requires va.Length == SEGMENTS && block < BLOCKS
    {
      va[block / SEGMENT_BLOCKS] + Locate(block, chunk).1
    }

    /** A served read returns the chunk of the flat disk; no read changes the disk or later answers. */
    method HandleRead(block: nat, chunk: nat) returns (rc: int, data: seq<Byte>)
      requires Valid() && Disjoint()
      modifies va
      ensures Valid() && Disjoint() && Flat() == old(Flat())
      ensures rc == old(Answer(block, chunk))
      ensures Bases() == old(Bases()) && forall b, c :: Answer(b, c) == old(Answer(b, c))
      ensures rc == OK ==> block < BLOCKS && chunk < CHUNKS_PER_BLOCK
                           && FlatPos(block, chunk) + CHUNK <= DISK_BYTES
                           && data == Flat()[FlatPos(block, chunk)..FlatPos(block, chunk) + CHUNK]
    {
      rc := ServeRange(block, chunk);
      if rc != OK { return rc, []; }
      LocateIsFlat(block, chunk, 0);
      LocateIsFlat(block, chunk, CHUNK - 1);
      var p := ChunkPtr(block, chunk);
      data := mem[p..p + CHUNK];
      forall k | 0 <= k < CHUNK ensures data[k] == Flat()[FlatPos(block, chunk) + k] {
        LocateIsFlat(block, chunk, k);
      }
    }

    /**
     * A served write replaces exactly one chunk of the flat disk; a refused one changes nothing,
     * and neither changes what later requests are answered.
     */
    method HandleWrite(block: nat, chunk: nat, data: seq<Byte>) returns (rc: int)
      requires Valid() && Disjoint() && |data| == CHUNK
      modifies va, mem
      ensures Valid() && Disjoint()
      ensures rc == old(Answer(block, chunk))
      ensures Bases() == old(Bases()) && forall b, c :: Answer(b, c) == old(Answer(b, c))
      ensures rc != OK ==> Flat() == old(Flat())
      ensures rc == OK ==> block < BLOCKS && chunk < CHUNKS_PER_BLOCK && FlatPos(block, chunk) + CHUNK <= DISK_BYTES
                           && Flat() == Overlay(old(Flat()), FlatPos(block, chunk), data)
    {
      rc := ServeRange(block, chunk);
      if rc != OK { return; }
      LocateIsFlat(block, chunk, 0);
      LocateIsFlat(block, chunk, CHUNK - 1);
      WriteChunk(block, chunk, data);
    }

    method WriteChunk(block: nat, chunk: nat, data: seq<Byte>)
      requires Valid() && Disjoint() && |data| == CHUNK && block < BLOCKS && chunk < CHUNKS_PER_BLOCK
      requires va[block / SEGMENT_BLOCKS] > 0
      modifies mem
      ensures FlatPos(block, chunk) + CHUNK <= DISK_BYTES
      ensures Flat() == Overlay(old(Flat()), FlatPos(block, chunk), data)
    {
      LocateIsFlat(block, chunk, 0);
      WroteChunk(Bases(), mem[..], block, chunk, data);
      Copy(ChunkPtr(block, chunk), data);
    }

    method Copy(p: nat, data: seq<Byte>)
      requires p + |data| <= mem.Length
      modifies mem
      ensures mem[..] == Overlay(old(mem[..]), p, data)
    {
      for k := 0 to |data|
        invariant mem[p..p + k] == data[..k]
        invariant forall i :: 0 <= i < mem.Length && !(p <= i < p + k) ==> mem[i] == old(mem[i])
      {
        mem[p + k] := data[k];
      }
      assert mem[..] == Overlay(old(mem[..]), p, data);
    }
  }
}
