// kernel/heap.cpp over byte memory: a singly linked list of headers threaded
// through the arena it manages.
module Heap {
  import opened Memory
  import opened HeapLayout

  const NULL: nat := 0

  // Field offsets of the packed header.
  const SIZE_AT: nat := 0
  const FREE_AT: nat := 4
  const NEXT_AT: nat := 5

  ghost predicate HeaderIs(m: seq<Byte>, c: Chunk, next: nat) {
    && c.addr + H <= |m|
    && WordAt(m, c.addr) == c.size
    && m[c.addr + FREE_AT] == (if c.free then 1 else 0)
    && WordAt(m, c.addr + NEXT_AT) == next
  }

  ghost function NextOf(cs: seq<Chunk>, i: nat): nat {
    if i + 1 < |cs| then cs[i + 1].addr else NULL
  }

  ghost predicate LinkOk(m: seq<Byte>, cs: seq<Chunk>, i: nat)
    requires i < |cs|
  {
    HeaderIs(m, cs[i], NextOf(cs, i))
  }

  // The list threaded through m is exactly cs.
  ghost predicate Linked(m: seq<Byte>, cs: seq<Chunk>) {
    forall i :: 0 <= i < |cs| ==> LinkOk(m, cs, i)
  }

  lemma Starts(cs: seq<Chunk>, lo: nat, hi: nat)
    requires Tiles(cs, lo, hi)
    ensures |cs| > 0 && cs[0].addr == lo && NoFreePair(cs[..1])
  {
  }

  lemma NullEndsList(cs: seq<Chunk>, lo: nat, hi: nat, i: nat)
    requires Tiles(cs, lo, hi) && 0 < lo && i < |cs|
    ensures NextOf(cs, i) == NULL <==> i + 1 == |cs|
  {
    if i + 1 < |cs| { Within(cs, lo, hi, i + 1); }
  }

  lemma HeaderFrame(m: seq<Byte>, n: seq<Byte>, c: Chunk, next: nat)
    requires HeaderIs(m, c, next) && SameOn(m, n, c.addr, H)
    ensures HeaderIs(n, c, next)
  {
    SameWord(m, n, c.addr);
    SameWord(m, n, c.addr + NEXT_AT);
  }

  // The header is packed: size, flag and link take up all the bytes from the
  // chunk's address to its payload.
  lemma HeaderIsPacked(m: seq<Byte>, c: Chunk, next: nat)
    requires HeaderIs(m, c, next)
    ensures m[c.addr..c.Payload()] == WordBytes(c.size) + [if c.free then 1 else 0] + WordBytes(next)
  {
    WordIsBytes(m, c.addr);
    WordIsBytes(m, c.addr + NEXT_AT);
    var b := c.addr;
    assert m[b..c.Payload()] == m[b..b + 4] + [m[b + 4]] + m[b + 5..b + 9];
  }

  lemma HeaderReads(m: seq<Byte>, c: Chunk, next: nat)
    requires HeaderIs(m, c, next)
    ensures c.addr + H <= |m| && WordAt(m, c.addr + SIZE_AT) == c.size && WordAt(m, c.addr + NEXT_AT) == next
    ensures m[c.addr + FREE_AT] != 0 <==> c.free
  {
  }

  // Fills in the three fields of one header, in the order the kernel does.
  method WriteHeader(mem: array<Byte>, a: nat, size: Word, free: bool, next: Word)
    requires a + H <= mem.Length
    modifies mem
    ensures HeaderIs(mem[..], Chunk(a, size, free), next)
    ensures SameOutside(old(mem[..]), mem[..], a, H)
  {
    Store(mem, a + SIZE_AT, size);
    ghost var m1 := mem[..];
    StoreByte(mem, a + FREE_AT, if free then 1 else 0);
    ghost var m2 := mem[..];
    WordFrame(m1, m2, a + FREE_AT, 1, a);
    Store(mem, a + NEXT_AT, next);
    WordFrame(m2, mem[..], a + NEXT_AT, 4, a);
  }

  // The only bytes of n that may differ from m lie in headers of cs or in space
  // that was free: everything outside the arena and every live payload is kept.
  ghost predicate PayloadsKept(m: seq<Byte>, n: seq<Byte>, cs: seq<Chunk>, lo: nat, hi: nat) {
    && |m| == |n|
    && (forall a :: 0 <= a < |m| && !(lo <= a < hi) ==> n[a] == m[a])
    && forall c, a :: c in Live(cs) && c.Payload() <= a < c.End() && a < |m| ==> n[a] == m[a]
  }

  lemma PayloadsKeptTwice(m0: seq<Byte>, m: seq<Byte>, n: seq<Byte>,
                          cs0: seq<Chunk>, cs: seq<Chunk>, cs': seq<Chunk>, lo: nat, hi: nat)
    requires PayloadsKept(m0, m, cs0, lo, hi) && PayloadsKept(m, n, cs, lo, hi)
    requires Live(cs') <= Live(cs0) && Live(cs') <= Live(cs)
    ensures PayloadsKept(m0, n, cs', lo, hi)
  {
  }

  // ---- What splitting and merging do to the list ----

  ghost function Carved(c: Chunk, n: nat): seq<Chunk>
    requires Fits(c, n)
  {
    if c.size >= n + H + MIN_SPLIT then [Chunk(c.addr, n, false), Chunk(c.addr + H + n, c.size - n - H, true)]
    else [Chunk(c.addr, c.size, false)]
  }

  lemma CarveKeepsGood(cs: seq<Chunk>, k: nat, n: nat, lo: nat, hi: nat, cs': seq<Chunk>)
    requires Good(cs, lo, hi) && k < |cs| && Fits(cs[k], n)
    requires cs' == cs[..k] + Carved(cs[k], n) + cs[k + 1..]
    ensures Good(cs', lo, hi)
    ensures Live(cs') == Live(cs) + {Chunk(cs[k].addr, Granted(cs[k].size, n), false)}
  {
  }

  // A chunk is split exactly when at least 17 bytes are left over: the block then has
  // just the size asked for, and a free chunk of 8 bytes or more follows it. Otherwise
  // the whole chunk is granted and no free chunk is new.
  lemma SplitLaw(cs: seq<Chunk>, n: nat, p: nat, cs': seq<Chunk>, lo: nat, hi: nat) returns (c: Chunk)
    requires Good(cs, lo, hi) && Good(cs', lo, hi) && p != 0 && AllocStep(cs, n, p, cs')
    ensures c in cs && Fits(c, n) && c.addr + 9 == p
    ensures c.size >= n + 17 ==> Chunk(c.addr, n, false) in cs' && Chunk(p + n, c.size - n - 9, true) in cs'
    ensures c.size < n + 17 ==> Chunk(c.addr, c.size, false) in cs'
    ensures forall d :: d in cs' && d.free && d !in cs ==> c.size >= n + 17 && d.addr == p + n && d.size >= 8
  {
    var k :| 0 <= k < |cs| && AllocAt(cs, n, k, p, cs');
    c := cs[k];
    var carved := Carved(c, n);
    var list := cs[..k] + carved + cs[k + 1..];
    CarveKeepsGood(cs, k, n, lo, hi, list);
    Canonical(cs', list, lo, hi);
    assert carved[0] in cs' && (|carved| == 2 ==> carved[1] in cs');
  }

  ghost function Marked(cs: seq<Chunk>, k: nat): seq<Chunk>
    requires k < |cs|
  {
    cs[k := Chunk(cs[k].addr, cs[k].size, true)]
  }

  ghost function Merged(cs: seq<Chunk>, k: nat): seq<Chunk>
    requires k + 1 < |cs|
  {
    cs[..k] + [Chunk(cs[k].addr, cs[k].size + H + cs[k + 1].size, cs[k].free)] + cs[k + 2..]
  }

  lemma MarkKeepsTiles(cs: seq<Chunk>, k: nat, lo: nat, hi: nat)
    requires Tiles(cs, lo, hi) && k < |cs|
    ensures Tiles(Marked(cs, k), lo, hi)
    ensures FreeStep(cs, cs[k].Payload(), Marked(cs, k))
  {
    var p := cs[k].Payload();
    forall i | 0 <= i < |cs| && i != k
      ensures cs[i].Payload() != p
    {
      if i < k { Ordered(cs, lo, hi, i, k); } else { Ordered(cs, lo, hi, k, i); }
    }
    var cs' := Marked(cs, k);
    assert forall i :: 0 <= i < |cs| ==> (cs'[i].addr == cs[i].addr && cs'[i].size == cs[i].size);
    forall c | c in Live(cs) && c.Payload() != p
      ensures c in Live(cs')
    {
      var i :| 0 <= i < |cs| && cs[i] == c;
      assert cs'[i] == c;
    }
  }

  lemma MergeKeepsTiles(cs: seq<Chunk>, k: nat, lo: nat, hi: nat, cs': seq<Chunk>)
    requires Tiles(cs, lo, hi) && k + 1 < |cs| && cs[k].free && cs[k + 1].free
    requires cs' == Merged(cs, k)
    ensures Tiles(cs', lo, hi)
    ensures Live(cs') == Live(cs)
  {
  }

  // A header that keeps its chunk and its successor survives writes elsewhere.
  lemma LinkFrame(m: seq<Byte>, n: seq<Byte>, cs: seq<Chunk>, i: nat, cs': seq<Chunk>, i': nat, a: nat, len: nat)
    requires i < |cs| && i' < |cs'| && LinkOk(m, cs, i)
    requires cs'[i'] == cs[i] && NextOf(cs', i') == NextOf(cs, i)
    requires SameOutside(m, n, a, len) && (cs[i].addr + H <= a || a + len <= cs[i].addr)
    ensures LinkOk(n, cs', i')
  {
    hide WordAt;
    HeaderFrame(m, n, cs[i], NextOf(cs, i));
  }

  // Rewriting headers inside chunk k, which was free, disturbs no other header.
  lemma CarveKeepsLink(m: seq<Byte>, n: seq<Byte>, cs: seq<Chunk>, k: nat, size: nat, lo: nat, hi: nat,
                       cs': seq<Chunk>, i: nat)
    requires Tiles(cs, lo, hi) && k < |cs| && Fits(cs[k], size) && Linked(m, cs)
    requires cs' == cs[..k] + Carved(cs[k], size) + cs[k + 1..]
    requires SameOutside(m, n, cs[k].addr, H + cs[k].size)
    requires i < |cs'| && !(k <= i < k + |Carved(cs[k], size)|)
    ensures LinkOk(n, cs', i)
  {
    hide HeaderIs;
    hide Linked;
    var w := |Carved(cs[k], size)|;
    var j := if i < k then i else i - w + 1;
    assert cs'[i] == cs[j];
    if j < k { Ordered(cs, lo, hi, j, k); } else { Ordered(cs, lo, hi, k, j); }
    assert LinkOk(m, cs, j) by { AllLinked(m, cs, j); }
    assert NextOf(cs', i) == NextOf(cs, j);
    LinkFrame(m, n, cs, j, cs', i, cs[k].addr, H + cs[k].size);
  }

  lemma AllLinked(m: seq<Byte>, cs: seq<Chunk>, i: nat)
    requires Linked(m, cs) && i < |cs|
    ensures LinkOk(m, cs, i) && HeaderIs(m, cs[i], NextOf(cs, i)) && cs[i].addr + H <= |m|
    ensures WordAt(m, cs[i].addr + SIZE_AT) == cs[i].size
    ensures m[cs[i].addr + FREE_AT] != 0 <==> cs[i].free
    ensures WordAt(m, cs[i].addr + NEXT_AT) == NextOf(cs, i)
  {
    hide WordAt;
  }

  // Absorbing chunk k + 1 into chunk k rewrites only the header of chunk k.
  lemma MergeKeepsLinks(m: seq<Byte>, n: seq<Byte>, cs: seq<Chunk>, k: nat, lo: nat, hi: nat, cs': seq<Chunk>)
    requires Tiles(cs, lo, hi) && k + 1 < |cs| && Linked(m, cs)
    requires cs' == Merged(cs, k)
    requires SameOutside(m, n, cs[k].addr, H) && LinkOk(n, cs', k)
    ensures Linked(n, cs')
  {
    hide HeaderIs;
    forall i | 0 <= i < |cs'|
      ensures LinkOk(n, cs', i)
    {
      var j := if i < k then i else i + 1;
      if i < k { Ordered(cs, lo, hi, i, k); } else if i > k { Ordered(cs, lo, hi, k, j); }
      if i != k {
        assert cs'[i] == cs[j] && NextOf(cs', i) == NextOf(cs, j);
        LinkFrame(m, n, cs, j, cs', i, cs[k].addr, H);
      }
    }
  }

  lemma MarkKeepsLinks(m: seq<Byte>, n: seq<Byte>, cs: seq<Chunk>, k: nat, lo: nat, hi: nat)
    requires Tiles(cs, lo, hi) && k < |cs| && Linked(m, cs) && cs[k].addr + H <= |m|
    requires SameOutside(m, n, cs[k].addr + FREE_AT, 1) && n[cs[k].addr + FREE_AT] == 1
    ensures Linked(n, Marked(cs, k))
  {
    hide HeaderIs;
    var cs' := Marked(cs, k);
    AllLinked(m, cs, k);
    MarkedHeader(m, n, cs[k], NextOf(cs, k), true);
    forall i | 0 <= i < |cs|
      ensures LinkOk(n, cs', i)
    {
      if i < k { Ordered(cs, lo, hi, i, k); } else if k < i { Ordered(cs, lo, hi, k, i); }
      if i != k { LinkFrame(m, n, cs, i, cs', i, cs[k].addr + FREE_AT, 1); }
    }
  }

  // Rewriting one field of a header changes that field and no other.
  lemma MarkedHeader(m: seq<Byte>, n: seq<Byte>, c: Chunk, next: nat, free: bool)
    requires HeaderIs(m, c, next) && SameOutside(m, n, c.addr + FREE_AT, 1)
    requires n[c.addr + FREE_AT] == (if free then 1 else 0)
    ensures HeaderIs(n, Chunk(c.addr, c.size, free), next)
  {
    hide WordAt;
    WordFrame(m, n, c.addr + FREE_AT, 1, c.addr);
    WordFrame(m, n, c.addr + FREE_AT, 1, c.addr + NEXT_AT);
  }

  lemma ResizedHeader(m: seq<Byte>, n: seq<Byte>, c: Chunk, next: nat)
    requires HeaderIs(m, c, next) && SameOutside(m, n, c.addr + SIZE_AT, 4)
    ensures HeaderIs(n, Chunk(c.addr, WordAt(n, c.addr), c.free), next)
  {
    hide WordAt;
    WordFrame(m, n, c.addr + SIZE_AT, 4, c.addr + NEXT_AT);
  }

  lemma RelinkedHeader(m: seq<Byte>, n: seq<Byte>, c: Chunk, next: nat)
    requires HeaderIs(m, c, next) && SameOutside(m, n, c.addr + NEXT_AT, 4)
    ensures HeaderIs(n, c, WordAt(n, c.addr + NEXT_AT))
  {
    hide WordAt;
    WordFrame(m, n, c.addr + NEXT_AT, 4, c.addr);
  }

  // Header rewrites never touch a live payload or leave the arena.
  lemma HeaderWriteKeepsPayloads(m: seq<Byte>, n: seq<Byte>, cs: seq<Chunk>, k: nat, lo: nat, hi: nat)
    requires Tiles(cs, lo, hi) && k < |cs| && hi <= |m| && SameOutside(m, n, cs[k].addr, H)
    ensures PayloadsKept(m, n, cs, lo, hi)
  {
    Within(cs, lo, hi, k);
    forall c, a | c in Live(cs) && c.Payload() <= a < c.End() && a < |m|
      ensures n[a] == m[a]
    {
      var i :| 0 <= i < |cs| && cs[i] == c;
      if i < k { Ordered(cs, lo, hi, i, k); } else if k < i { Ordered(cs, lo, hi, k, i); }
    }
  }

  lemma CarveKeepsLinks(m: seq<Byte>, n: seq<Byte>, cs: seq<Chunk>, k: nat, size: nat, lo: nat, hi: nat,
                        cs': seq<Chunk>)
    requires Tiles(cs, lo, hi) && k < |cs| && Fits(cs[k], size) && hi <= |m| && Linked(m, cs)
    requires cs' == cs[..k] + Carved(cs[k], size) + cs[k + 1..]
    requires SameOutside(m, n, cs[k].addr, H + cs[k].size)
    requires CarvedHeaders(n, cs[k], size, NextOf(cs, k))
    ensures Linked(n, cs') && PayloadsKept(m, n, cs, lo, hi)
  {
    hide HeaderIs;
    forall i | 0 <= i < |cs'|
      ensures LinkOk(n, cs', i)
    {
      if k <= i < k + |Carved(cs[k], size)| {
        assert cs'[i] == Carved(cs[k], size)[i - k];
        assert i + 1 < k + |Carved(cs[k], size)| ==> cs'[i + 1] == Carved(cs[k], size)[1];
        assert i + 1 == k + |Carved(cs[k], size)| ==> NextOf(cs', i) == NextOf(cs, k);
      } else {
        CarveKeepsLink(m, n, cs, k, size, lo, hi, cs', i);
      }
    }
    Within(cs, lo, hi, k);
    forall c, a | c in Live(cs) && c.Payload() <= a < c.End() && a < |m|
      ensures n[a] == m[a]
    {
      var i :| 0 <= i < |cs| && cs[i] == c;
      if i < k { Ordered(cs, lo, hi, i, k); } else if k < i { Ordered(cs, lo, hi, k, i); }
    }
  }

  // Carving the first chunk that fits, in the list and in memory, is an allocation.
  lemma Allocated(m: seq<Byte>, n: seq<Byte>, cs: seq<Chunk>, k: nat, size: nat, lo: nat, hi: nat, cs': seq<Chunk>)
    requires Good(cs, lo, hi) && k < |cs| && Fits(cs[k], size) && hi <= |m| && Linked(m, cs)
    requires forall i :: 0 <= i < k ==> !Fits(cs[i], size)
    requires cs' == cs[..k] + Carved(cs[k], size) + cs[k + 1..]
    requires SameOutside(m, n, cs[k].addr, H + cs[k].size)
    requires CarvedHeaders(n, cs[k], size, NextOf(cs, k))
    ensures Good(cs', lo, hi) && Linked(n, cs') && PayloadsKept(m, n, cs, lo, hi)
    ensures AllocStep(cs, size, cs[k].Payload(), cs')
  {
    CarveKeepsGood(cs, k, size, lo, hi, cs');
    CarveKeepsLinks(m, n, cs, k, size, lo, hi, cs');
    assert AllocAt(cs, size, k, cs[k].Payload(), cs');
  }

  lemma Passed(cs: seq<Chunk>, k: nat)
    requires k + 1 < |cs| && NoFreePair(cs[..k + 1]) && !(cs[k].free && cs[k + 1].free)
    ensures NoFreePair(cs[..k + 2])
  {
  }

  // Merging chunk k with its successor, in the list and in memory.
  lemma Absorbed(m: seq<Byte>, n: seq<Byte>, cs: seq<Chunk>, k: nat, lo: nat, hi: nat, cs': seq<Chunk>)
    requires Tiles(cs, lo, hi) && k + 1 < |cs| && cs[k].free && cs[k + 1].free && hi <= |m| && Linked(m, cs)
    requires cs' == Merged(cs, k)
    requires SameOutside(m, n, cs[k].addr, H) && HeaderIs(n, cs'[k], NextOf(cs, k + 1))
    ensures Tiles(cs', lo, hi) && Linked(n, cs') && PayloadsKept(m, n, cs, lo, hi)
    ensures Live(cs') == Live(cs) && k < |cs'| && cs'[k].addr == cs[k].addr
    ensures NoFreePair(cs[..k + 1]) ==> NoFreePair(cs'[..k + 1])
  {
    assert forall i :: 0 <= i < k ==> cs'[i] == cs[i];
    MergeKeepsTiles(cs, k, lo, hi, cs');
    assert NextOf(cs', k) == NextOf(cs, k + 1);
    MergeKeepsLinks(m, n, cs, k, lo, hi, cs');
    HeaderWriteKeepsPayloads(m, n, cs, k, lo, hi);
  }

  ghost predicate CarvedHeaders(m: seq<Byte>, c: Chunk, size: nat, next: nat)
    requires Fits(c, size)
  {
    var cut := Carved(c, size);
    if |cut| == 1 then HeaderIs(m, cut[0], next)
    else HeaderIs(m, cut[0], cut[1].addr) && HeaderIs(m, cut[1], next)
  }

  // An arena of whole pages below 4 GB leaves room for size + header + 8 in 32 bits.
  lemma PagesLeaveRoom(pages: nat)
    requires 0 < pages && pages * PAGE_SIZE < WORD_LIMIT
    ensures H < pages * PAGE_SIZE && pages * PAGE_SIZE + MIN_SPLIT < WORD_LIMIT
  {
  }

  class KernelHeap {
    const mem: array<Byte>
    var heapStart: nat
    ghost var chunks: seq<Chunk>
    ghost const lo: nat
    ghost const hi: nat

    ghost predicate Valid()
      reads this, mem
    {
      && 0 < lo && hi <= mem.Length && hi < WORD_LIMIT && hi - lo + MIN_SPLIT < WORD_LIMIT
      && heapStart == lo
      && Good(chunks, lo, hi)
      && Linked(mem[..], chunks)
    }

    // init_heap: one free chunk over the whole arena.
    constructor (memory: array<Byte>, startVaddr: nat, initialPages: nat)
      requires 0 < startVaddr && 0 < initialPages
      requires startVaddr + initialPages * PAGE_SIZE <= memory.Length
      requires startVaddr + initialPages * PAGE_SIZE < WORD_LIMIT
      modifies memory
      ensures Valid() && mem == memory
      ensures lo == startVaddr && hi == startVaddr + initialPages * 4096
      ensures chunks == [Chunk(startVaddr, initialPages * 4096 - 9, true)]
      ensures SameOutside(old(memory[..]), memory[..], startVaddr, 9)
    {
      hide WordAt;
      PagesLeaveRoom(initialPages);
      mem := memory;
      heapStart := startVaddr;
      lo := startVaddr;
      hi := startVaddr + initialPages * PAGE_SIZE;
      chunks := [Chunk(startVaddr, initialPages * PAGE_SIZE - H, true)];
      new;
      WriteHeader(mem, heapStart, Wrap(initialPages * PAGE_SIZE - H), true, NULL);
    }

    // First fit, splitting the chunk when the remainder is worth a header.
    method Kmalloc(size: Word) returns (p: nat)
      requires Valid()
      modifies mem, this`chunks
      ensures Valid()
      ensures AllocStep(old(chunks), size, p, chunks)
      ensures PayloadsKept(old(mem[..]), mem[..], old(chunks), lo, hi)
    {
      hide WordAt;
      hide Wrap;
      hide HeaderIs;
      hide Linked;
      ghost var cs := chunks;
      ghost var m := mem[..];
      var current := heapStart;
      ghost var k := 0;
      while current != NULL
        invariant 0 <= k <= |cs| && current == if k < |cs| then cs[k].addr else NULL
        invariant forall i :: 0 <= i < k ==> !Fits(cs[i], size)
        invariant current == NULL ==> k == |cs|
        invariant chunks == cs && mem[..] == m
        decreases |cs| - k
      {
        Within(cs, lo, hi, k);
        AllLinked(m, cs, k);
        var size0, next0 := Load(mem, current + SIZE_AT), Load(mem, current + NEXT_AT);
        var free0 := mem[current + FREE_AT] != 0;
        assert size0 == cs[k].size && next0 == NextOf(cs, k) && free0 == cs[k].free;
        if free0 && size0 >= size {
          Reserve(mem, current, size, cs[k], NextOf(cs, k));
          chunks := cs[..k] + Carved(cs[k], size) + cs[k + 1..];
          p := Wrap(current + H);
          NoWrap(current + H);
          assert p == cs[k].Payload();
          Allocated(m, mem[..], cs, k, size, lo, hi, chunks);
          return;
        }
        NullEndsList(cs, lo, hi, k);
        current := next0;
        k := k + 1;
      }
      p := NULL;
      assert AllocStep(cs, size, p, cs);
    }

    // Marks the block free, then walks the list once and merges neighbours.
    method Kfree(p: nat)
      requires Valid()
      requires p == NULL || IsLive(chunks, p)
      modifies mem, this`chunks
      ensures Valid()
      ensures FreeStep(old(chunks), p, chunks)
      ensures PayloadsKept(old(mem[..]), mem[..], chunks, lo, hi)
    {
      hide WordAt;
      hide Wrap;
      hide HeaderIs;
      hide Linked;
      if p == NULL { return; }
      ghost var cs := chunks;
      ghost var m := mem[..];
      ghost var k :| 0 <= k < |cs| && cs[k].Payload() == p;
      Within(cs, lo, hi, k);
      assert cs[k].Payload() == cs[k].addr + H;
      var header := Wrap(p - H);
      NoWrap(cs[k].addr);
      StoreByte(mem, header + FREE_AT, 1);
      chunks := Marked(cs, k);
      MarkKeepsLinks(m, mem[..], cs, k, lo, hi);
      MarkKeepsTiles(cs, k, lo, hi);
      HeaderWriteKeepsPayloads(m, mem[..], cs, k, lo, hi);
      ghost var cs1, m1 := chunks, mem[..];
      Coalesce();
      PayloadsKeptTwice(m, m1, mem[..], cs, cs1, chunks, lo, hi);
    }

    ghost predicate Walkable()
      reads this, mem
    {
      && 0 < lo && hi <= mem.Length && hi < WORD_LIMIT && hi - lo + MIN_SPLIT < WORD_LIMIT
      && heapStart == lo
      && Tiles(chunks, lo, hi)
      && Linked(mem[..], chunks)
    }

    method MergeNext(current: nat, next: nat, ghost j: nat)
      requires Walkable() && j + 1 < |chunks| && chunks[j].free && chunks[j + 1].free
      requires current == chunks[j].addr && next == chunks[j + 1].addr
      modifies mem, this`chunks
      ensures Walkable() && chunks == Merged(old(chunks), j) && Live(chunks) == old(Live(chunks))
      ensures PayloadsKept(old(mem[..]), mem[..], old(chunks), lo, hi)
      ensures old(NoFreePair(chunks[..j + 1])) ==> NoFreePair(chunks[..j + 1])
    {
      hide WordAt;
      hide HeaderIs;
      hide Linked;
      hide PayloadsKept;
      hide NoFreePair;
      ghost var cs, m := chunks, mem[..];
      AllLinked(m, cs, j);
      AllLinked(m, cs, j + 1);
      Within(cs, lo, hi, j + 1);
      assert cs[j].End() == cs[j + 1].addr;
      Absorb(mem, current, next, cs[j], cs[j + 1], NextOf(cs, j + 1));
      chunks := Merged(cs, j);
      Absorbed(m, mem[..], cs, j, lo, hi, chunks);
    }

    // The walk of kfree: merge the current chunk with its successor while both
    // are free, otherwise move on.
    method Coalesce()
      requires Walkable()
      modifies mem, this`chunks
      ensures Valid() && Live(chunks) == old(Live(chunks))
      ensures PayloadsKept(old(mem[..]), mem[..], old(chunks), lo, hi)
    {
      hide WordAt;
      hide Wrap;
      hide HeaderIs;
      hide Linked;
      assert PayloadsKept(mem[..], mem[..], chunks, lo, hi);
      hide PayloadsKept;
      Starts(chunks, lo, hi);
      hide NoFreePair;
      hide Tiles;
      ghost var chunks0, m0 := chunks, mem[..];
      var current := heapStart;
      ghost var j := 0;
      Within(chunks, lo, hi, 0);
      AllLinked(mem[..], chunks, 0);
      while current != NULL && Load(mem, current + NEXT_AT) != NULL
        invariant Walkable() && 0 <= j < |chunks| && current == chunks[j].addr
        invariant current + H <= mem.Length
        invariant Live(chunks) == old(Live(chunks))
        invariant NoFreePair(chunks[..j + 1])
        invariant PayloadsKept(m0, mem[..], chunks0, lo, hi)
        decreases |chunks| - j
      {
        ghost var cs := chunks;
        ghost var m := mem[..];
        AllLinked(m, cs, j);
        AllLinked(m, cs, j + 1);
        Within(cs, lo, hi, j);
        Within(cs, lo, hi, j + 1);
        var next := Load(mem, current + NEXT_AT);
        var mergeable := mem[current + FREE_AT] != 0 && mem[next + FREE_AT] != 0;
        assert next == cs[j + 1].addr && mergeable == (cs[j].free && cs[j + 1].free);
        if mergeable {
          MergeNext(current, next, j);
          PayloadsKeptTwice(m0, m, mem[..], chunks0, cs, chunks0, lo, hi);
        } else {
          Passed(cs, j);
          current := next;
          j := j + 1;
        }
      }
      AllLinked(mem[..], chunks, j);
      Within(chunks, lo, hi, j);
      NullEndsList(chunks, lo, hi, j);
      assert chunks[..j + 1] == chunks;
    }
  }

  // The header writes of a successful kmalloc, with every sum taken modulo 2^32.
  method Reserve(mem: array<Byte>, current: nat, size: Word, ghost c: Chunk, ghost next: nat)
    requires Fits(c, size) && current == c.addr && HeaderIs(mem[..], c, next)
    requires c.End() <= mem.Length && c.End() < WORD_LIMIT && c.size + H + MIN_SPLIT < WORD_LIMIT
    modifies mem
    ensures SameOutside(old(mem[..]), mem[..], c.addr, H + c.size)
    ensures CarvedHeaders(mem[..], c, size, next)
  {
    hide WordAt;
    hide HeaderIs;
    ghost var m0 := mem[..];
    HeaderReads(m0, c, next);
    NoWrap(size + H + MIN_SPLIT);
    hide Wrap;
    var size0, next0 := Load(mem, current + SIZE_AT), Load(mem, current + NEXT_AT);
    if size0 >= Wrap(size + H + MIN_SPLIT) {
      Split(mem, current, size, size0, next0, c);
    } else {
      StoreByte(mem, current + FREE_AT, 0);
      MarkedHeader(m0, mem[..], c, next, false);
    }
  }

  method Split(mem: array<Byte>, current: nat, size: Word, size0: Word, next0: Word, ghost c: Chunk)
    requires c == Chunk(current, size0, true) && HeaderIs(mem[..], c, next0) && size0 >= size + H + MIN_SPLIT
    requires c.End() <= mem.Length && c.End() < WORD_LIMIT
    modifies mem
    ensures SameOutside(old(mem[..]), mem[..], current, H + size0)
    ensures HeaderIs(mem[..], Chunk(current, size, false), current + H + size)
    ensures HeaderIs(mem[..], Chunk(current + H + size, size0 - size - H, true), next0)
  {
    hide WordAt;
    hide HeaderIs;
    ghost var m0 := mem[..];
    var split := Wrap(current + H + size);
    ghost var rest := Chunk(split, size0 - size - H, true);
    WriteHeader(mem, split, size0 - size - H, true, next0);
    ghost var m1 := mem[..];
    HeaderFrame(m0, m1, c, next0);
    Store(mem, current + SIZE_AT, size);
    ghost var m2 := mem[..];
    ResizedHeader(m1, m2, c, next0);
    HeaderFrame(m1, m2, rest, next0);
    Store(mem, current + NEXT_AT, split);
    ghost var m3 := mem[..];
    RelinkedHeader(m2, m3, Chunk(current, size, true), next0);
    HeaderFrame(m2, m3, rest, next0);
    StoreByte(mem, current + FREE_AT, 0);
    MarkedHeader(m3, mem[..], Chunk(current, size, true), split, false);
    HeaderFrame(m3, mem[..], rest, next0);
  }

  // The two header writes that merge a chunk with its free successor.
  method Absorb(mem: array<Byte>, current: nat, next: nat, ghost c: Chunk, ghost d: Chunk, ghost rest: nat)
    requires HeaderIs(mem[..], c, d.addr) && HeaderIs(mem[..], d, rest) && c.End() == d.addr
    requires current == c.addr && next == d.addr && d.End() <= mem.Length && d.End() < WORD_LIMIT
    modifies mem
    ensures SameOutside(old(mem[..]), mem[..], c.addr, H)
    ensures HeaderIs(mem[..], Chunk(c.addr, c.size + H + d.size, c.free), rest)
  {
    hide WordAt;
    hide HeaderIs;
    hide Wrap;
    ghost var m0 := mem[..];
    HeaderReads(m0, c, d.addr);
    HeaderReads(m0, d, rest);
    NoWrap(c.size + H + d.size);
    var merged := Wrap(Load(mem, current + SIZE_AT) + H + Load(mem, next + SIZE_AT));
    Store(mem, current + SIZE_AT, merged);
    ghost var m1 := mem[..];
    ResizedHeader(m0, m1, c, d.addr);
    WordFrame(m0, m1, current + SIZE_AT, 4, next + NEXT_AT);
    Store(mem, current + NEXT_AT, Load(mem, next + NEXT_AT));
    RelinkedHeader(m1, mem[..], Chunk(c.addr, merged, c.free), d.addr);
  }
}
