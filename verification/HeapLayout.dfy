// The chunk list of kernel/heap.cpp as a value, what one call may do to it, and
// the laws that hold over any interleaving of calls.
module HeapLayout {
  // sizeof(struct heap_chunk_header), which is packed: 4 + 1 + 4 bytes.
  const H: nat := 9
  // A chunk is split only when the remainder keeps a header and this many bytes.
  const MIN_SPLIT: nat := 8

  datatype Chunk = Chunk(addr: nat, size: nat, free: bool) {
    function Payload(): nat { addr + H }
    function End(): nat { addr + H + size }
  }

  // The list covers [lo, hi) exactly: each chunk ends where the next header starts.
  ghost predicate Tiles(cs: seq<Chunk>, lo: nat, hi: nat) {
    && |cs| > 0 && cs[0].addr == lo && cs[|cs| - 1].End() == hi
    && forall i :: 0 <= i < |cs| - 1 ==> cs[i].End() == cs[i + 1].addr
  }

  ghost predicate NoFreePair(cs: seq<Chunk>) {
    forall i :: 0 <= i < |cs| - 1 ==> !(cs[i].free && cs[i + 1].free)
  }

  ghost predicate Good(cs: seq<Chunk>, lo: nat, hi: nat) {
    Tiles(cs, lo, hi) && NoFreePair(cs)
  }

  ghost function Live(cs: seq<Chunk>): set<Chunk> {
    set c | c in cs && !c.free
  }

  predicate Fits(c: Chunk, n: nat) {
    c.free && c.size >= n
  }

  function Granted(size: nat, n: nat): nat
    requires size >= n
  {
    if size >= n + H + MIN_SPLIT then n else size
  }

  // What kmalloc(n) may do: fail with the list untouched when nothing fits, or
  // make a live block at the start of the lowest-addressed chunk that fits.
  ghost predicate AllocStep(cs: seq<Chunk>, n: nat, p: nat, cs': seq<Chunk>) {
    if p == 0 then cs' == cs && forall i :: 0 <= i < |cs| ==> !Fits(cs[i], n)
    else exists k :: 0 <= k < |cs| && AllocAt(cs, n, k, p, cs')
  }

  ghost predicate AllocAt(cs: seq<Chunk>, n: nat, k: nat, p: nat, cs': seq<Chunk>)
    requires k < |cs|
  {
    && Fits(cs[k], n) && (forall i :: 0 <= i < k ==> !Fits(cs[i], n))
    && p == cs[k].Payload()
    && Live(cs') == Live(cs) + {Chunk(cs[k].addr, Granted(cs[k].size, n), false)}
  }

  // What kfree(p) does: the block at p stops being live, every other block stays.
  ghost predicate FreeStep(cs: seq<Chunk>, p: nat, cs': seq<Chunk>) {
    Live(cs') == set c | c in Live(cs) && c.Payload() != p
  }

  ghost predicate IsLive(cs: seq<Chunk>, p: nat) {
    exists c :: c in Live(cs) && c.Payload() == p
  }

  // ---- Address order, disjointness, conservation ----

  lemma {:induction false} Ordered(cs: seq<Chunk>, lo: nat, hi: nat, i: nat, j: nat)
    requires Tiles(cs, lo, hi) && i < j < |cs|
    ensures lo <= cs[i].addr && cs[i].End() <= cs[j].addr && cs[j].End() <= hi
    decreases j - i, |cs| - j, i
  {
    assert cs[i].End() == cs[i + 1].addr;
    if i + 1 < j {
      Ordered(cs, lo, hi, i + 1, j);
    } else if j + 1 < |cs| {
      Within(cs, lo, hi, j);
    }
    Within(cs, lo, hi, i);
    Within(cs, lo, hi, j);
  }

  lemma {:induction false} Within(cs: seq<Chunk>, lo: nat, hi: nat, i: nat)
    requires Tiles(cs, lo, hi) && i < |cs|
    ensures lo <= cs[i].addr && cs[i].End() <= hi
  {
    for k := 0 to i
      invariant lo <= cs[k].addr
    {
      assert cs[k].End() == cs[k + 1].addr;
    }
    var k := |cs| - 1;
    while k > i
      invariant i <= k < |cs| && cs[k].End() <= hi
    {
      k := k - 1;
      assert cs[k].End() == cs[k + 1].addr;
    }
  }

  ghost function Footprint(cs: seq<Chunk>): nat {
    if cs == [] then 0 else cs[0].size + H + Footprint(cs[1..])
  }

  // The live payloads never overlap and the bytes handed out, the bytes left and
  // the headers always add up to the arena.
  lemma {:induction false} Conservation(cs: seq<Chunk>, lo: nat, hi: nat)
    requires Tiles(cs, lo, hi)
    ensures Footprint(cs) == hi - lo
    ensures forall c, d :: c in Live(cs) && d in Live(cs) && c != d ==> c.End() <= d.addr || d.End() <= c.addr
  {
    FootprintIs(cs, lo, hi);
    forall c, d | c in Live(cs) && d in Live(cs) && c != d
      ensures c.End() <= d.addr || d.End() <= c.addr
    {
      var i :| 0 <= i < |cs| && cs[i] == c;
      var j :| 0 <= j < |cs| && cs[j] == d;
      if i < j { Ordered(cs, lo, hi, i, j); } else { Ordered(cs, lo, hi, j, i); }
    }
  }

  lemma {:induction false} FootprintIs(cs: seq<Chunk>, lo: nat, hi: nat)
    requires Tiles(cs, lo, hi)
    ensures Footprint(cs) == hi - lo
  {
    if |cs| > 1 {
      assert cs[0].End() == cs[1].addr;
      FootprintIs(cs[1..], cs[0].End(), hi);
    } else {
      assert cs[1..] == [];
    }
  }

  // ---- The layout is determined by the live blocks ----

  // Two well-formed lists over the same arena with the same live blocks are the
  // same list: nothing about the history of calls survives in the heap.
  lemma {:induction false} Canonical(a: seq<Chunk>, b: seq<Chunk>, lo: nat, hi: nat)
    requires Good(a, lo, hi) && Good(b, lo, hi) && Live(a) == Live(b)
    ensures a == b
    decreases |a|
  {
    SameHead(a, b, lo, hi);
    assert a[0] == b[0];
    if |a| == 1 || |b| == 1 {
      if |a| > 1 { Ordered(a, lo, hi, 0, |a| - 1); }
      if |b| > 1 { Ordered(b, lo, hi, 0, |b| - 1); }
    } else {
      var mid := a[0].End();
      LiveTail(a, lo, hi);
      LiveTail(b, lo, hi);
      assert Good(a[1..], mid, hi) by { assert a[0].End() == a[1].addr; }
      assert Good(b[1..], mid, hi) by { assert b[0].End() == b[1].addr; }
      Canonical(a[1..], b[1..], mid, hi);
      assert a == [a[0]] + a[1..] && b == [b[0]] + b[1..];
    }
  }

  lemma LiveTail(a: seq<Chunk>, lo: nat, hi: nat)
    requires Tiles(a, lo, hi) && |a| > 1
    ensures Live(a[1..]) == Live(a) - {a[0]}
  {
    forall i | 1 <= i < |a|
      ensures a[i] != a[0]
    {
      Ordered(a, lo, hi, 0, i);
    }
    assert a == [a[0]] + a[1..];
  }

  // A live chunk of b is found in a at the address where b has it.
  lemma LiveAt(a: seq<Chunk>, b: seq<Chunk>, j: nat) returns (i: nat)
    requires Live(a) == Live(b) && j < |b| && !b[j].free
    ensures i < |a| && a[i] == b[j]
  {
    assert b[j] in Live(b);
    assert b[j] in Live(a);
    i :| 0 <= i < |a| && a[i] == b[j];
  }

  lemma SameHead(a: seq<Chunk>, b: seq<Chunk>, lo: nat, hi: nat)
    requires Good(a, lo, hi) && Good(b, lo, hi) && Live(a) == Live(b)
    ensures a[0] == b[0]
  {
    if !a[0].free {
      HeadIsLive(b, a, lo, hi);
    } else if !b[0].free {
      HeadIsLive(a, b, lo, hi);
    } else {
      FreeHeadNotShorter(a, b, lo, hi);
      FreeHeadNotShorter(b, a, lo, hi);
    }
  }

  lemma HeadIsLive(a: seq<Chunk>, b: seq<Chunk>, lo: nat, hi: nat)
    requires Good(a, lo, hi) && Good(b, lo, hi) && Live(a) == Live(b) && !b[0].free
    ensures a[0] == b[0]
  {
    var i := LiveAt(a, b, 0);
    if i > 0 { Ordered(a, lo, hi, 0, i); }
  }

  lemma FreeHeadNotShorter(a: seq<Chunk>, b: seq<Chunk>, lo: nat, hi: nat)
    requires Good(a, lo, hi) && Good(b, lo, hi) && Live(a) == Live(b) && a[0].free && b[0].free
    ensures a[0].End() >= b[0].End()
  {
    if |a| > 1 {
      assert a[0].End() == a[1].addr;
      var i := LiveAt(b, a, 1);
      if i > 0 { Ordered(b, lo, hi, 0, i); }
    } else {
      Within(b, lo, hi, 0);
    }
  }

  // ---- Inversion, drain and completeness ----

  // Freeing what kmalloc just returned restores the list exactly, split or not.
  lemma FreeUndoesAlloc(cs: seq<Chunk>, n: nat, p: nat, cs': seq<Chunk>, cs'': seq<Chunk>, lo: nat, hi: nat)
    requires Good(cs, lo, hi) && Good(cs', lo, hi) && Good(cs'', lo, hi)
    requires p != 0 && AllocStep(cs, n, p, cs') && FreeStep(cs', p, cs'')
    ensures cs'' == cs
  {
    var k :| 0 <= k < |cs| && AllocAt(cs, n, k, p, cs');
    forall c | c in Live(cs)
      ensures c.Payload() != p
    {
      var i :| 0 <= i < |cs| && cs[i] == c;
      if i < k { Ordered(cs, lo, hi, i, k); } else if k < i { Ordered(cs, lo, hi, k, i); }
    }
    assert Live(cs'') == Live(cs);
    Canonical(cs'', cs, lo, hi);
  }

  datatype Op = Malloc(n: nat, p: nat) | Free(q: nat)

  ghost predicate HeapStep(cs: seq<Chunk>, op: Op, cs': seq<Chunk>) {
    match op
    case Malloc(n, p) => AllocStep(cs, n, p, cs')
    case Free(q) => FreeStep(cs, q, cs') && (q == 0 || IsLive(cs, q))
  }

  // A run of calls, one layout per point in time; every call keeps Good.
  ghost predicate Run(states: seq<seq<Chunk>>, ops: seq<Op>, lo: nat, hi: nat) {
    && |states| == |ops| + 1
    && (forall i :: 0 <= i < |states| ==> Good(states[i], lo, hi))
    && forall i :: 0 <= i < |ops| ==> HeapStep(states[i], ops[i], states[i + 1])
  }

  // The calls that are still outstanding: pointers returned and not yet freed.
  ghost function Outstanding(ops: seq<Op>): set<nat> {
    if ops == [] then {}
    else
      var before := Outstanding(ops[..|ops| - 1]);
      match ops[|ops| - 1]
      case Malloc(_, p) => if p == 0 then before else before + {p}
      case Free(q) => before - {q}
  }

  // Over every run that starts empty, the live pointers are exactly the outstanding ones.
  lemma {:induction false} LiveIsOutstanding(states: seq<seq<Chunk>>, ops: seq<Op>, lo: nat, hi: nat)
    requires Run(states, ops, lo, hi) && Live(states[0]) == {}
    ensures forall p :: IsLive(states[|ops|], p) <==> p in Outstanding(ops)
  {
    if ops != [] {
      var m := |ops| - 1;
      assert Run(states[..m + 1], ops[..m], lo, hi);
      LiveIsOutstanding(states[..m + 1], ops[..m], lo, hi);
      var a, b := states[m], states[m + 1];
      assert HeapStep(a, ops[m], b);
      assert states[..m + 1][m] == a;
      match ops[m]
      case Free(q) =>
        forall p
          ensures IsLive(b, p) <==> p in Outstanding(ops)
        {
          if IsLive(a, p) && p != q {
            var c :| c in Live(a) && c.Payload() == p;
            assert c in Live(b);
          }
        }
      case Malloc(n, p0) =>
        if p0 != 0 {
          var k :| 0 <= k < |a| && AllocAt(a, n, k, p0, b);
          var made := Chunk(a[k].addr, Granted(a[k].size, n), false);
          forall p
            ensures IsLive(b, p) <==> p in Outstanding(ops)
          {
            if IsLive(a, p) {
              var c :| c in Live(a) && c.Payload() == p;
              assert c in Live(b);
            }
            if p == p0 { assert made in Live(b) && made.Payload() == p0; }
          }
        }
    }
  }

  // Whenever a run has freed everything it was given, in whatever order, the
  // heap is back to the single chunk that init_heap made.
  lemma Drained(states: seq<seq<Chunk>>, ops: seq<Op>, lo: nat, hi: nat)
    requires Run(states, ops, lo, hi)
    requires lo + H <= hi && states[0] == [Chunk(lo, hi - lo - H, true)] && Outstanding(ops) == {}
    ensures states[|ops|] == states[0]
  {
    LiveIsOutstanding(states, ops, lo, hi);
    var last := states[|ops|];
    forall c | c in Live(last)
      ensures false
    {
      assert IsLive(last, c.Payload());
    }
    Canonical(last, states[0], lo, hi);
  }

  // Free space is counted in maximal runs of adjacent free chunks, whose inner
  // headers a merge would reclaim.
  ghost predicate FreeRun(cs: seq<Chunk>, i: nat, j: nat) {
    i < j <= |cs| && forall x :: i <= x < j ==> cs[x].free
  }

  lemma RunIsOneChunk(cs: seq<Chunk>, i: nat, j: nat)
    requires NoFreePair(cs) && FreeRun(cs, i, j)
    ensures j == i + 1
  {
    assert i + 1 < |cs| ==> !cs[i].free || !cs[i + 1].free;
  }

  // kmalloc fails exactly when no free run, however merged, has n payload bytes.
  lemma FailsOnlyWhenFull(cs: seq<Chunk>, n: nat, p: nat, cs': seq<Chunk>, lo: nat, hi: nat)
    requires Good(cs, lo, hi) && AllocStep(cs, n, p, cs')
    ensures p == 0 <==> forall i: nat, j: nat :: FreeRun(cs, i, j) ==> cs[j - 1].End() < cs[i].Payload() + n
  {
    if p == 0 {
      forall i: nat, j: nat | FreeRun(cs, i, j)
        ensures cs[j - 1].End() < cs[i].Payload() + n
      {
        RunIsOneChunk(cs, i, j);
        assert !Fits(cs[i], n);
      }
    } else {
      var k :| 0 <= k < |cs| && AllocAt(cs, n, k, p, cs');
      assert FreeRun(cs, k, k + 1);
    }
  }

  // No free chunk below the granted block could have served the request.
  lemma GrantIsLowest(cs: seq<Chunk>, n: nat, p: nat, cs': seq<Chunk>, lo: nat, hi: nat)
    requires Good(cs, lo, hi) && p != 0 && AllocStep(cs, n, p, cs')
    ensures forall d :: d in cs && Fits(d, n) ==> p <= d.addr + 9
  {
    var k :| 0 <= k < |cs| && AllocAt(cs, n, k, p, cs');
    forall d | d in cs && Fits(d, n)
      ensures p <= d.addr + 9
    {
      var i :| 0 <= i < |cs| && cs[i] == d;
      if k < i { Ordered(cs, lo, hi, k, i); }
    }
  }

  // A granted block is big enough, wastes less than a header plus the split
  // minimum, and overlaps no block that was live before.
  lemma GrantIsFresh(cs: seq<Chunk>, n: nat, p: nat, cs': seq<Chunk>, lo: nat, hi: nat) returns (c: Chunk)
    requires Good(cs, lo, hi) && p != 0 && AllocStep(cs, n, p, cs')
    ensures c in Live(cs') && c.Payload() == p && n <= c.size <= n + 16
    ensures lo <= c.addr && c.End() <= hi && Live(cs') == Live(cs) + {c} && c !in Live(cs)
    ensures forall d :: d in Live(cs) ==> d.End() <= c.addr || c.End() <= d.addr
  {
    var k :| 0 <= k < |cs| && AllocAt(cs, n, k, p, cs');
    c := Chunk(cs[k].addr, Granted(cs[k].size, n), false);
    Within(cs, lo, hi, k);
    forall d | d in Live(cs)
      ensures d.End() <= c.addr || c.End() <= d.addr
    {
      var i :| 0 <= i < |cs| && cs[i] == d;
      if i < k { Ordered(cs, lo, hi, i, k); } else if k < i { Ordered(cs, lo, hi, k, i); }
    }
  }
}
