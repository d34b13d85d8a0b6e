/**
  The fixed-size block allocator. Memory is a map from addresses to the pointer-sized words stored
  there: a word that something else has overwritten, even in part, is gone from the map, so that every
  pointer the pool follows is proved to be intact.
 */
module MemPool {
  const WORD: nat := 8                        // sizeof(MemBlockNode)
  const MALLOC_OBJ_COUNT: nat := 40
  const NULL: nat := 0

  type Memory = map<nat, nat>

  /** A word at `a` takes the place of whatever it overlaps. */
  function Write(m: Memory, a: nat, w: nat): Memory {
    Scribble(m, a, WORD)[a := w]
  }

  /** Unknown bytes from `a` on, `n` of them. */
  function Scribble(m: Memory, a: nat, n: nat): Memory {
    map x | x in m && !(x < a + n && a < x + WORD) :: m[x]
  }

  predicate Apart(a: nat, n: nat, b: nat, m: nat) {
    a + n <= b || b + m <= a
  }

  function Next(nodes: seq<nat>, i: nat): nat {
    if i + 1 < |nodes| then nodes[i + 1] else NULL
  }

  /** The nodes of a list, from the head to the null pointer. */
  ghost predicate Linked(m: Memory, head: nat, nodes: seq<nat>) {
    && head == (if nodes == [] then NULL else nodes[0])
    && forall i :: 0 <= i < |nodes| ==>
         nodes[i] != NULL && nodes[i] in m && m[nodes[i]] == Next(nodes, i)
  }

  lemma ScribbleKeepsLinked(m: Memory, head: nat, nodes: seq<nat>, a: nat, n: nat)
    requires Linked(m, head, nodes) && forall i :: 0 <= i < |nodes| ==> Apart(nodes[i], WORD, a, n)
    ensures Linked(Scribble(m, a, n), head, nodes)
  {
  }

  lemma WriteKeepsLinked(m: Memory, head: nat, nodes: seq<nat>, a: nat, w: nat)
    requires Linked(m, head, nodes) && forall i :: 0 <= i < |nodes| ==> Apart(nodes[i], WORD, a, WORD)
    ensures Linked(Write(m, a, w), head, nodes)
  {
  }

  lemma PushLinks(m: Memory, head: nat, nodes: seq<nat>, a: nat)
    requires Linked(m, head, nodes) && a != NULL && forall i :: 0 <= i < |nodes| ==> Apart(nodes[i], WORD, a, WORD)
    ensures Linked(Write(m, a, head), a, [a] + nodes)
  {
  }

  lemma PopLinks(m: Memory, head: nat, nodes: seq<nat>)
    requires Linked(m, head, nodes) && head != NULL
    ensures nodes != [] && head == nodes[0] && head in m && Linked(m, m[head], nodes[1..])
  {
    var rest := nodes[1..];
    forall i | 0 <= i < |rest| ensures rest[i] != NULL && rest[i] in m && m[rest[i]] == Next(rest, i) {
      assert rest[i] == nodes[i + 1];
    }
  }

  lemma LinkedEmpty(m: Memory, head: nat, nodes: seq<nat>)
    requires Linked(m, head, nodes)
    ensures head == NULL <==> nodes == []
  {
  }

  // ----- Chunks and blocks -----

  /** One call of malloc: a header, then `count` blocks. */
  datatype Chunk = Chunk(addr: nat, count: nat)

  function BlockAt(c: Chunk, i: nat, size: nat): nat {
    c.addr + WORD + i * size
  }

  function Length(c: Chunk, size: nat): nat {
    WORD + c.count * size
  }

  ghost predicate IsBlock(b: nat, chunks: seq<Chunk>, size: nat) {
    exists k, i :: 0 <= k < |chunks| && 0 <= i < chunks[k].count && b == BlockAt(chunks[k], i, size)
  }

  ghost predicate ChunksApart(chunks: seq<Chunk>, size: nat) {
    && (forall k :: 0 <= k < |chunks| ==> chunks[k].addr != NULL)
    && forall k, l :: 0 <= k < l < |chunks| ==>
         Apart(chunks[k].addr, Length(chunks[k], size), chunks[l].addr, Length(chunks[l], size))
  }

  lemma IndexApart(i: nat, j: nat, size: nat)
    requires i < j
    ensures i * size + size <= j * size
  {
    assert (i + 1) * size <= j * size by {
      assert j * size == (i + 1) * size + (j - i - 1) * size;
    }
  }

  lemma BlockInside(c: Chunk, i: nat, size: nat)
    requires i < c.count
    ensures c.addr + WORD <= BlockAt(c, i, size)
    ensures BlockAt(c, i, size) + size <= c.addr + Length(c, size)
  {
    IndexApart(i, c.count, size);
  }

  /** Two blocks of any chunks are the same or do not overlap. */
  lemma BlocksApart(b: nat, b': nat, chunks: seq<Chunk>, size: nat)
    requires IsBlock(b, chunks, size) && IsBlock(b', chunks, size) && ChunksApart(chunks, size) && b != b'
    ensures Apart(b, size, b', size)
  {
    var k, i :| 0 <= k < |chunks| && 0 <= i < chunks[k].count && b == BlockAt(chunks[k], i, size);
    var k', i' :| 0 <= k' < |chunks| && 0 <= i' < chunks[k'].count && b' == BlockAt(chunks[k'], i', size);
    BlockInside(chunks[k], i, size);
    BlockInside(chunks[k'], i', size);
    if k == k' {
      if i < i' {
        IndexApart(i, i', size);
      } else {
        IndexApart(i', i, size);
      }
    }
  }

  lemma LengthAtLeastHeader(c: Chunk, size: nat)
    ensures Length(c, size) >= WORD
  {
    assert c.count * size >= 0;
  }

  /** No block reaches into the header of a chunk. */
  lemma BlockClearOfHeaders(b: nat, chunks: seq<Chunk>, k: nat, size: nat)
    requires IsBlock(b, chunks, size) && ChunksApart(chunks, size) && k < |chunks|
    ensures Apart(chunks[k].addr, WORD, b, size) && b != NULL
  {
    var l, i :| 0 <= l < |chunks| && 0 <= i < chunks[l].count && b == BlockAt(chunks[l], i, size);
    hide BlockAt, Length;
    BlockInside(chunks[l], i, size);
    LengthAtLeastHeader(chunks[k], size);
    if l < k {
      assert Apart(chunks[l].addr, Length(chunks[l], size), chunks[k].addr, Length(chunks[k], size));
    } else if k < l {
      assert Apart(chunks[k].addr, Length(chunks[k], size), chunks[l].addr, Length(chunks[l], size));
    }
  }

  ghost predicate Distinct(s: seq<nat>) {
    forall i, j :: 0 <= i < j < |s| ==> s[i] != s[j]
  }

  function Headers(chunks: seq<Chunk>): (s: seq<nat>)
    ensures |s| == |chunks| && forall k :: 0 <= k < |s| ==> s[k] == chunks[k].addr
  {
    seq(|chunks|, k requires 0 <= k < |chunks| => chunks[k].addr)
  }

  /** The first `n` blocks of a chunk as the free list gets them, the last one first. */
  function Stacked(c: Chunk, n: nat, size: nat): (s: seq<nat>)
    ensures |s| == n
  {
    if n == 0 then [] else [BlockAt(c, n - 1, size)] + Stacked(c, n - 1, size)
  }

  lemma {:induction false} StackedAt(c: Chunk, n: nat, size: nat, j: nat)
    requires j < n
    ensures Stacked(c, n, size)[j] == BlockAt(c, n - 1 - j, size)
  {
    if j > 0 {
      StackedAt(c, n - 1, size, j - 1);
    }
  }

  lemma StackedApart(c: Chunk, n: nat, size: nat)
    requires n < c.count && size >= WORD
    ensures forall j :: 0 <= j < n ==> Apart(Stacked(c, n, size)[j], WORD, BlockAt(c, n, size), WORD)
  {
    forall j | 0 <= j < n ensures Apart(Stacked(c, n, size)[j], WORD, BlockAt(c, n, size), WORD) {
      StackedAt(c, n, size, j);
      IndexApart(n - 1 - j, n, size);
    }
  }

  lemma StackedMembers(c: Chunk, size: nat)
    requires size >= WORD
    ensures Distinct(Stacked(c, c.count, size))
    ensures forall b :: b in Stacked(c, c.count, size) <==> IsBlock(b, [c], size)
  {
    var s := Stacked(c, c.count, size);
    forall i, j | 0 <= i < j < |s| ensures s[i] != s[j] {
      StackedAt(c, c.count, size, i);
      StackedAt(c, c.count, size, j);
      IndexApart(c.count - 1 - j, c.count - 1 - i, size);
    }
    forall b ensures b in s <==> IsBlock(b, [c], size) {
      if b in s {
        var j: nat :| j < |s| && s[j] == b;
        StackedAt(c, c.count, size, j);
        assert b == BlockAt([c][0], c.count - 1 - j, size);
      }
      if IsBlock(b, [c], size) {
        var k, i :| 0 <= k < |[c]| && 0 <= i < [c][k].count && b == BlockAt([c][k], i, size);
        StackedAt(c, c.count, size, c.count - 1 - i);
      }
    }
  }

  lemma BlocksOfMoreChunks(b: nat, c: Chunk, chunks: seq<Chunk>, size: nat)
    ensures IsBlock(b, [c] + chunks, size) <==> IsBlock(b, [c], size) || IsBlock(b, chunks, size)
  {
    var all := [c] + chunks;
    if IsBlock(b, all, size) {
      var k, i :| 0 <= k < |all| && 0 <= i < all[k].count && b == BlockAt(all[k], i, size);
      if k == 0 {
        assert b == BlockAt([c][0], i, size);
      } else {
        assert b == BlockAt(chunks[k - 1], i, size);
      }
    }
    if IsBlock(b, [c], size) {
      var k, i :| 0 <= k < |[c]| && 0 <= i < [c][k].count && b == BlockAt([c][k], i, size);
      assert b == BlockAt(all[0], i, size);
    }
    if IsBlock(b, chunks, size) {
      var k, i :| 0 <= k < |chunks| && 0 <= i < chunks[k].count && b == BlockAt(chunks[k], i, size);
      assert b == BlockAt(all[k + 1], i, size);
    }
  }

  lemma NextBlock(c: Chunk, i: nat, size: nat)
    ensures BlockAt(c, i + 1, size) == BlockAt(c, i, size) + size
  {
  }

  lemma HeadersDistinct(chunks: seq<Chunk>, size: nat)
    requires ChunksApart(chunks, size)
    ensures Distinct(Headers(chunks))
  {
    forall i, j | 0 <= i < j < |chunks| ensures chunks[i].addr != chunks[j].addr {
      LengthAtLeastHeader(chunks[i], size);
      LengthAtLeastHeader(chunks[j], size);
    }
  }

  lemma LaterHeadersApart(chunks: seq<Chunk>, k: nat, size: nat)
    requires ChunksApart(chunks, size) && k < |chunks|
    ensures var later := Headers(chunks)[k + 1..];
            forall i :: 0 <= i < |later| ==> Apart(later[i], WORD, chunks[k].addr, Length(chunks[k], size))
  {
    var later := Headers(chunks)[k + 1..];
    forall i | 0 <= i < |later| ensures Apart(later[i], WORD, chunks[k].addr, Length(chunks[k], size)) {
      LengthAtLeastHeader(chunks[k + 1 + i], size);
    }
  }

  /** The chunk at the head goes back to malloc: what comes after it is still linked. */
  lemma FreeHead(m: Memory, head: nat, chunks: seq<Chunk>, k: nat, size: nat)
    requires ChunksApart(chunks, size) && k <= |chunks|
    requires Linked(m, head, Headers(chunks)[k..]) && head != NULL
    ensures k < |chunks| && head == Headers(chunks)[k] && head in m
    ensures Linked(Scribble(m, head, Length(chunks[k], size)), m[head], Headers(chunks)[k + 1..])
    ensures Headers(chunks)[..k + 1] == Headers(chunks)[..k] + [head]
  {
    var rest := Headers(chunks)[k..];
    PopLinks(m, head, rest);
    LaterHeadersApart(chunks, k, size);
    assert rest[1..] == Headers(chunks)[k + 1..];
    hide Linked, Apart, Length, Scribble;
    ScribbleKeepsLinked(m, m[head], rest[1..], head, Length(chunks[k], size));
  }

  /** How many blocks `k` chunks hold. */
  function Capacity(k: nat): nat {
    if k == 0 then 0 else Capacity(k - 1) + MALLOC_OBJ_COUNT + (k - 1)
  }

  lemma {:induction false} CapacityClosedForm(k: nat)
    ensures Capacity(k) == 40 * k + k * (k - 1) / 2
  {
    if k > 0 {
      CapacityClosedForm(k - 1);
      assert k * (k - 1) == (k - 1) * (k - 2) + 2 * (k - 1);
    }
  }

  lemma OldBlocksAreNotNew(b: nat, c: Chunk, chunks: seq<Chunk>, size: nat)
    requires size >= WORD && IsBlock(b, chunks, size)
    requires forall k :: 0 <= k < |chunks| ==> Apart(c.addr, Length(c, size), chunks[k].addr, Length(chunks[k], size))
    ensures !IsBlock(b, [c], size)
  {
    var k, i :| 0 <= k < |chunks| && 0 <= i < chunks[k].count && b == BlockAt(chunks[k], i, size);
    BlockInside(chunks[k], i, size);
    if IsBlock(b, [c], size) {
      var l, j :| 0 <= l < |[c]| && 0 <= j < [c][l].count && b == BlockAt([c][l], j, size);
      BlockInside(c, j, size);
    }
  }

  /** Every block is either free or live, and free only once. */
  ghost predicate Partition(free: seq<nat>, live: set<nat>, chunks: seq<Chunk>, size: nat) {
    && Distinct(free)
    && (forall b :: b in live ==> b !in free)
    && (forall b :: b in live || b in free <==> IsBlock(b, chunks, size))
  }

  lemma PopKeepsPartition(free: seq<nat>, live: set<nat>, chunks: seq<Chunk>, size: nat)
    requires Partition(free, live, chunks, size) && free != []
    ensures Partition(free[1..], live + {free[0]}, chunks, size) && free[0] !in live
  {
    hide IsBlock;
    assert free[0] in free && free == [free[0]] + free[1..];
  }

  lemma PushKeepsPartition(free: seq<nat>, live: set<nat>, chunks: seq<Chunk>, size: nat, b: nat)
    requires Partition(free, live, chunks, size) && b in live
    ensures Partition([b] + free, live - {b}, chunks, size)
  {
    hide IsBlock;
  }

  lemma NewChunkPartition(live: set<nat>, c: Chunk, chunks: seq<Chunk>, size: nat)
    requires Partition([], live, chunks, size) && size >= WORD
    requires forall k :: 0 <= k < |chunks| ==> Apart(c.addr, Length(c, size), chunks[k].addr, Length(chunks[k], size))
    ensures Partition(Stacked(c, c.count, size), live, [c] + chunks, size)
  {
    hide IsBlock, Apart;
    StackedMembers(c, size);
    forall b ensures IsBlock(b, [c] + chunks, size) <==> IsBlock(b, [c], size) || IsBlock(b, chunks, size) {
      BlocksOfMoreChunks(b, c, chunks, size);
    }
    forall b | b in live ensures !IsBlock(b, [c], size) {
      OldBlocksAreNotNew(b, c, chunks, size);
    }
  }

  /** A live block overlaps nothing else that anyone uses. */
  ghost predicate Alone(b: nat, free: seq<nat>, live: set<nat>, chunks: seq<Chunk>, size: nat) {
    && b != NULL
    && (forall i :: 0 <= i < |free| ==> Apart(free[i], size, b, size))
    && (forall b' :: b' in live && b' != b ==> Apart(b', size, b, size))
    && (forall k :: 0 <= k < |chunks| ==> Apart(chunks[k].addr, WORD, b, size))
  }

  lemma LiveIsAlone(b: nat, free: seq<nat>, live: set<nat>, chunks: seq<Chunk>, size: nat)
    requires Partition(free, live, chunks, size) && ChunksApart(chunks, size) && b in live
    ensures Alone(b, free, live, chunks, size)
  {
    hide IsBlock, Apart, ChunksApart;
    forall i | 0 <= i < |free| ensures Apart(free[i], size, b, size) {
      assert free[i] in free;
      BlocksApart(free[i], b, chunks, size);
    }
    forall k | 0 <= k < |chunks| ensures Apart(chunks[k].addr, WORD, b, size) {
      BlockClearOfHeaders(b, chunks, k, size);
    }
    forall b' | b' in live && b' != b ensures Apart(b', size, b, size) {
      BlocksApart(b', b, chunks, size);
    }
    BlockNotNull(b, chunks, size);
  }

  lemma BlockNotNull(b: nat, chunks: seq<Chunk>, size: nat)
    requires IsBlock(b, chunks, size)
    ensures b != NULL
  {
  }

  lemma ThreadApart(c: Chunk, i: nat, chunks: seq<Chunk>, size: nat)
    requires i < c.count && size >= WORD
    requires forall k :: 0 <= k < |chunks| ==> Apart(c.addr, Length(c, size), chunks[k].addr, Length(chunks[k], size))
    ensures var headers := [c.addr] + Headers(chunks);
            forall k :: 0 <= k < |headers| ==> Apart(headers[k], WORD, BlockAt(c, i, size), WORD)
  {
    BlockInside(c, i, size);
    var headers := [c.addr] + Headers(chunks);
    forall k | 0 <= k < |headers| ensures Apart(headers[k], WORD, BlockAt(c, i, size), WORD) {
      if k > 0 {
        LengthAtLeastHeader(chunks[k - 1], size);
      }
    }
  }

  lemma HeadersApart(c: Chunk, chunks: seq<Chunk>, size: nat)
    requires forall k :: 0 <= k < |chunks| ==> Apart(c.addr, Length(c, size), chunks[k].addr, Length(chunks[k], size))
    ensures forall k :: 0 <= k < |chunks| ==> Apart(Headers(chunks)[k], WORD, c.addr, Length(c, size))
    ensures forall k :: 0 <= k < |chunks| ==> Apart(Headers(chunks)[k], WORD, c.addr, WORD)
  {
    LengthAtLeastHeader(c, size);
    forall k | 0 <= k < |chunks|
      ensures Apart(Headers(chunks)[k], WORD, c.addr, Length(c, size)) && Apart(Headers(chunks)[k], WORD, c.addr, WORD)
    {
      LengthAtLeastHeader(chunks[k], size);
    }
  }

  class Pool {
    var memory: Memory
    var freeHead: nat
    var mallocHead: nat
    var mallocTimes: nat
    const objSize: nat
    var chunks: seq<Chunk>            // the books of malloc, newest first
    ghost var free: seq<nat>          // from the head on
    ghost var live: set<nat>          // handed out and not given back

    ghost predicate ListsIntact()
      reads this
    {
      Linked(memory, mallocHead, Headers(chunks)) && Linked(memory, freeHead, free)
    }

    ghost predicate Valid()
      reads this
    {
      && objSize >= WORD
      && |chunks| == mallocTimes
      && (forall k :: 0 <= k < |chunks| ==> chunks[k].count == MALLOC_OBJ_COUNT + (|chunks| - 1 - k))
      && ChunksApart(chunks, objSize)
      && ListsIntact()
      && Partition(free, live, chunks, objSize)
      && |free| + |live| == Capacity(|chunks|)
    }

    constructor (size: nat)
      ensures Valid() && objSize == (if size < WORD then WORD else size)
      ensures chunks == [] && free == [] && live == {}
    {
      objSize := if size < WORD then WORD else size;
      memory := map[];
      freeHead, mallocHead, mallocTimes := NULL, NULL, 0;
      chunks, free, live := [], [], {};
    }

    /** After `k` chunks there are 40k + k(k - 1)/2 blocks, and none is lost or found twice. */
    lemma BlocksAreConserved()
      requires Valid()
      ensures var k := |chunks|; |free| + |live| == 40 * k + k * (k - 1) / 2
    {
      CapacityClosedForm(|chunks|);
    }

    /** Whoever holds a live block may write all of it. */
    method ClientWrite(block: nat)
      requires Valid() && block in live
      modifies this`memory
      ensures Valid()
    {
      LiveIsAlone(block, free, live, chunks, objSize);
      ScribbleKeepsLinked(memory, mallocHead, Headers(chunks), block, objSize);
      ScribbleKeepsLinked(memory, freeHead, free, block, objSize);
      memory := Scribble(memory, block, objSize);
    }

    method FreeAMemBlock(block: nat)
      requires Valid() && (block != NULL ==> block in live)
      modifies this`memory, this`freeHead, this`free, this`live
      ensures Valid()
      ensures block == NULL ==> free == old(free) && live == old(live)
      ensures block != NULL ==> free == [block] + old(free) && live == old(live) - {block}
    {
      hide Linked, Partition, ChunksApart, Write;
      if block == NULL {
        return;
      }
      LiveIsAlone(block, free, live, chunks, objSize);
      PushLinks(memory, freeHead, free, block);
      WriteKeepsLinked(memory, mallocHead, Headers(chunks), block, freeHead);
      PushKeepsPartition(free, live, chunks, objSize, block);
      memory := Write(memory, block, freeHead);
      freeHead := block;
      free, live := [block] + free, live - {block};
    }

    /** What malloc promises of the area it returns. */
    ghost predicate MallocGives(c: Chunk)
      reads this
    {
      && c.addr != NULL
      && forall k :: 0 <= k < |chunks| ==>
           Apart(c.addr, Length(c, objSize), chunks[k].addr, Length(chunks[k], objSize))
    }

    /** A chunk of fresh blocks, threaded onto the empty free list one after the other. */
    method Thread(c: Chunk)
      requires objSize >= WORD && freeHead == NULL && MallocGives(c)
      requires Linked(memory, mallocHead, Headers(chunks))
      modifies this`memory, this`freeHead, this`mallocHead
      ensures Linked(memory, mallocHead, [c.addr] + Headers(chunks))
      ensures Linked(memory, freeHead, Stacked(c, c.count, objSize))
    {
      HeadersApart(c, chunks, objSize);
      ScribbleKeepsLinked(memory, mallocHead, Headers(chunks), c.addr, Length(c, objSize));
      memory := Scribble(memory, c.addr, Length(c, objSize));
      PushLinks(memory, mallocHead, Headers(chunks), c.addr);
      memory := Write(memory, c.addr, mallocHead);
      mallocHead := c.addr;
      ThreadBlocks(c);
    }

    method ThreadBlocks(c: Chunk)
      requires objSize >= WORD && freeHead == NULL && MallocGives(c)
      requires Linked(memory, mallocHead, [c.addr] + Headers(chunks))
      modifies this`memory, this`freeHead
      ensures Linked(memory, mallocHead, [c.addr] + Headers(chunks))
      ensures Linked(memory, freeHead, Stacked(c, c.count, objSize))
    {
      ghost var headers := [c.addr] + Headers(chunks);
      var block := c.addr + WORD;
      assert Linked(memory, freeHead, Stacked(c, 0, objSize));
      hide Linked, Apart, Write, Length;
      for i := 0 to c.count
        invariant block == BlockAt(c, i, objSize)
        invariant Linked(memory, mallocHead, headers)
        invariant Linked(memory, freeHead, Stacked(c, i, objSize))
      {
        ThreadApart(c, i, chunks, objSize);
        StackedApart(c, i, objSize);
        WriteKeepsLinked(memory, mallocHead, headers, block, freeHead);
        PushLinks(memory, freeHead, Stacked(c, i, objSize), block);
        memory := Write(memory, block, freeHead);
        freeHead := block;
        NextBlock(c, i, objSize);
        block := block + objSize;
      }
    }

    method NewChunk(c: Chunk)
      requires Valid() && freeHead == NULL && MallocGives(c) && c.count == MALLOC_OBJ_COUNT + mallocTimes
      modifies this`memory, this`freeHead, this`mallocHead, this`mallocTimes, this`chunks, this`free
      ensures Valid() && chunks == [c] + old(chunks)
      ensures free == Stacked(c, c.count, objSize)
    {
      hide Linked, Partition, Apart;
      LinkedEmpty(memory, freeHead, free);
      NewChunkPartition(live, c, chunks, objSize);
      Thread(c);
      free := Stacked(c, c.count, objSize);
      chunks := [c] + chunks;
      mallocTimes := mallocTimes + 1;
      assert Headers(chunks) == [c.addr] + Headers(old(chunks));
    }

    /** A block that was free or, when there is none, one of a new chunk; `p` is what malloc returns. */
    method AllocAMemBlock(p: nat) returns (block: nat)
      requires Valid() && (freeHead == NULL ==> MallocGives(Chunk(p, MALLOC_OBJ_COUNT + mallocTimes)))
      modifies this`memory, this`freeHead, this`mallocHead, this`mallocTimes, this`chunks, this`free, this`live
      ensures Valid() && block != NULL && block !in old(live) && live == old(live) + {block}
      ensures old(free) != [] ==> chunks == old(chunks) && [block] + free == old(free)
      ensures old(free) == [] ==>
                && chunks == [Chunk(p, MALLOC_OBJ_COUNT + old(mallocTimes))] + old(chunks)
                && [block] + free == Stacked(chunks[0], chunks[0].count, objSize)
    {
      hide Linked, Partition, ChunksApart, Apart;
      LinkedEmpty(memory, freeHead, free);
      if freeHead == NULL {
        NewChunk(Chunk(p, MALLOC_OBJ_COUNT + mallocTimes));
        LinkedEmpty(memory, freeHead, free);
      }
      PopLinks(memory, freeHead, free);
      PopKeepsPartition(free, live, chunks, objSize);
      block := freeHead;
      freeHead := memory[freeHead];
      free, live := free[1..], live + {block};
    }

    /** Every chunk is given back exactly once; its header is read before that. */
    method Destroy() returns (freed: seq<nat>)
      requires Valid()
      modifies this`memory, this`mallocHead
      ensures freed == Headers(chunks) && Distinct(freed)
      ensures mallocHead == NULL
    {
      HeadersDistinct(chunks, objSize);
      assert Headers(chunks)[0..] == Headers(chunks);
      hide Linked, Apart, Length, Distinct, Headers, ChunksApart, Scribble, Partition, Capacity;
      freed := [];
      while mallocHead != NULL
        invariant |freed| <= |chunks| && freed == Headers(chunks)[..|freed|]
        invariant Linked(memory, mallocHead, Headers(chunks)[|freed|..])
        decreases |chunks| - |freed|
      {
        FreeHead(memory, mallocHead, chunks, |freed|, objSize);
        var node, c := mallocHead, chunks[|freed|];
        mallocHead := memory[node];
        memory := Scribble(memory, node, Length(c, objSize));
        freed := freed + [node];
      }
      LinkedEmpty(memory, mallocHead, Headers(chunks)[|freed|..]);
    }
  }
}
