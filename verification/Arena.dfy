/** The bump allocator that holds row bytes. */
module Arena {

  // A pointer into the arena: a chunk and an offset within it.
  datatype Ptr = Ptr(chunk: nat, offset: nat)

  datatype Block = Block(at: Ptr, size: nat, alignment: nat)

  // The first multiple of the alignment at or above an offset.
  function AlignUp(offset: nat, alignment: nat): (r: nat)
    requires alignment > 0
    ensures r % alignment == 0 && offset <= r < offset + alignment
  {
    var up := offset + alignment - 1;
    AlignFact(up, alignment);
    up - up % alignment
  }

  lemma AlignFact(n: nat, a: nat)
    requires a > 0
    ensures 0 <= n % a < a && n % a <= n && (n - n % a) % a == 0
  {
    var q, m := n / a, n - n % a;
    assert m == a * q;
    DivisionUnique(a, q, m / a, m % a);
  }

  lemma TimesFar(a: int, k: int)
    requires a > 0
    ensures (k >= 1 ==> a * k >= a) && (k <= -1 ==> a * k <= -a)
  {
  }

  lemma DivisionUnique(a: nat, p: int, q: int, r: int)
    requires 0 <= r < a && a * p == a * q + r
    ensures r == 0
  {
    assert a * (p - q) == r;
    TimesFar(a, p - q);
  }

  predicate Before(a: Block, b: Block) {
    a.at.chunk < b.at.chunk || (a.at.chunk == b.at.chunk && a.at.offset + a.size <= b.at.offset)
  }

  class Arena {
    const chunkSize: nat
    var chunks: seq<array<bv8>>
    var currentOffset: nat
    var totalAllocated: nat
    ghost var blocks: seq<Block>   // every block handed out since the last reset, oldest first

    // Blocks are aligned, inside their chunk, and follow one another; the free space is behind the last of them.
    ghost predicate Valid()
      reads this
    {
      && |chunks| > 0
      && (forall i, j :: 0 <= i < j < |chunks| ==> chunks[i] != chunks[j])
      && currentOffset <= chunks[|chunks| - 1].Length
      && (forall i :: 0 <= i < |blocks| ==> BlockOk(blocks[i]))
      && (forall i, j :: 0 <= i < j < |blocks| ==> Before(blocks[i], blocks[j]))
    }

    ghost predicate BlockOk(b: Block)
      reads this
    {
      && b.at.chunk < |chunks|
      && b.alignment > 0
      && b.at.offset % b.alignment == 0
      && b.at.offset + b.size <= chunks[b.at.chunk].Length
      && (b.at.chunk == |chunks| - 1 ==> b.at.offset + b.size <= currentOffset)
    }

    constructor (chunkSize: nat)
      ensures Valid() && blocks == [] && totalAllocated == 0 && this.chunkSize == chunkSize
      ensures fresh(chunks[0]) && |chunks| == 1
    {
      this.chunkSize := chunkSize;
      var data := new bv8[chunkSize](_ => 0);
      chunks, currentOffset, totalAllocated, blocks := [data], 0, 0, [];
    }

    // arena.cpp allocate_new_chunk
    method AllocateNewChunk(minSize: nat)
      requires Valid()
      modifies this`chunks, this`currentOffset
      ensures Valid() && currentOffset == 0 && |chunks| == |old(chunks)| + 1 && chunks[..|old(chunks)|] == old(chunks)
      ensures fresh(chunks[|chunks| - 1]) && chunks[|chunks| - 1].Length >= minSize
    {
      var data := new bv8[if minSize > chunkSize then minSize else chunkSize](_ => 0);
      chunks := chunks + [data];
      currentOffset := 0;
    }

    // arena.cpp allocate; !ok stands for a null pointer.
    method Allocate(size: nat, alignment: nat) returns (p: Ptr, ok: bool)
      requires Valid() && alignment > 0
      modifies this`chunks, this`currentOffset, this`totalAllocated, this`blocks
      ensures Valid() && ok == (size > 0)
      ensures !ok ==> blocks == old(blocks) && chunks == old(chunks)
      ensures ok ==> blocks == old(blocks) + [Block(p, size, alignment)] && totalAllocated == old(totalAllocated) + size
      ensures old(chunks) == chunks
              || (|chunks| == |old(chunks)| + 1 && chunks[..|old(chunks)|] == old(chunks)
                  && fresh(chunks[|chunks| - 1]))
    {
      p := Ptr(0, 0);
      if size == 0 { return p, false; }
      var aligned := AlignUp(currentOffset, alignment);
      if aligned + size > chunks[|chunks| - 1].Length {
        AllocateNewChunk(size + alignment);
        aligned := 0;
      }
      p, ok := Ptr(|chunks| - 1, aligned), true;
      currentOffset := aligned + size;
      totalAllocated := totalAllocated + size;
      blocks := blocks + [Block(p, size, alignment)];
    }

    // arena.cpp reset
    method Reset()
      requires Valid()
      modifies this`chunks, this`currentOffset, this`totalAllocated, this`blocks
      ensures Valid() && blocks == [] && totalAllocated == 0 && chunks == old(chunks)[..1]
    {
      chunks := chunks[..1];
      currentOffset, totalAllocated, blocks := 0, 0, [];
    }
  }
}
