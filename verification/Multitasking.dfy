// kernel/task.cpp on byte memory: thread control blocks and stacks come from the
// kernel heap, and every operation is one step of the system in Tasks.
module Multitasking {
  import opened Memory
  import opened HeapLayout
  import opened Heap
  import opened Tasks
  import opened Stacks

  // struct thread_control_block: id, esp, entry, 36 bytes of registers, next.
  const TCB_SIZE: nat := 52
  const ID_AT: nat := 0
  const ENTRY_AT: nat := 8
  const NEXT_TCB_AT: nat := 48
  const STACK_SIZE: nat := 4096

  // ---- What memory must hold for one thread ----

  ghost predicate TcbIs(m: seq<Byte>, t: Thread, next: nat) {
    && t.tcb + TCB_SIZE <= |m| && t.tcb + TCB_SIZE < WORD_LIMIT && t.stackHi <= |m|
    && WordAt(m, t.tcb + ID_AT) == t.id
    && WordAt(m, t.tcb + ENTRY_AT) == t.entry
    && WordAt(m, t.tcb + NEXT_TCB_AT) == next
  }

  // The saved esp points at an intact frame inside the thread's own stack, below
  // the bytes the thread had there, and the frame returns to one of the two places
  // that re-enable interrupts.
  ghost predicate FrameIs(m: seq<Byte>, t: Thread, f: Frame) {
    && t.tcb + TCB_SIZE <= |m|
    && |f.words| == FRAME_WORDS
    && t.stackLo <= f.sp && f.sp + FRAME_BYTES <= t.stackHi < WORD_LIMIT && t.stackHi <= |m|
    && f.above == m[f.sp + FRAME_BYTES..t.stackHi]
    && WordAt(m, t.tcb + ESP_AT) == f.sp
    && Stacked(m, f.sp, f.words)
    && (f.words[8] == SWITCH_RETURN || f.words[8] == THREAD_BOOTSTRAP)
  }

  // [a, a + len) lies in the payload of one live heap block.
  ghost predicate Owns(cs: seq<Chunk>, a: nat, len: nat) {
    exists c :: c in Live(cs) && c.Payload() == a && len <= c.size
  }

  lemma OwnedIsNotNull(cs: seq<Chunk>, a: nat)
    requires Owns(cs, a, TCB_SIZE)
    ensures a != NULL
  {
  }

  // The boot thread's stack is in .bss, outside the heap; all else is heap memory.
  ghost predicate Placed(cs: seq<Chunk>, lo: nat, hi: nat, t: Thread, boot: bool) {
    && Owns(cs, t.tcb, TCB_SIZE)
    && (if boot then t.stackHi <= lo || hi <= t.stackLo
        else Owns(cs, t.stackLo, STACK_SIZE) && t.stackHi == t.stackLo + STACK_SIZE)
  }

  ghost predicate Disjoint(a: nat, la: nat, b: nat, lb: nat) {
    a + la <= b || b + lb <= a
  }

  // No byte of one thread's block or stack belongs to the other thread.
  ghost predicate Apart(t: Thread, u: Thread) {
    && t.stackLo <= t.stackHi && u.stackLo <= u.stackHi
    && Disjoint(t.tcb, TCB_SIZE, u.tcb, TCB_SIZE)
    && Disjoint(t.tcb, TCB_SIZE, u.stackLo, u.stackHi - u.stackLo)
    && Disjoint(u.tcb, TCB_SIZE, t.stackLo, t.stackHi - t.stackLo)
    && Disjoint(t.stackLo, t.stackHi - t.stackLo, u.stackLo, u.stackHi - u.stackLo)
  }

  ghost predicate SelfApart(t: Thread) {
    t.stackLo <= t.stackHi && Disjoint(t.tcb, TCB_SIZE, t.stackLo, t.stackHi - t.stackLo)
  }

  // ---- The threads of a ring in memory ----

  ghost predicate TcbLinked(m: seq<Byte>, ring: seq<Thread>, i: nat)
    requires i < |ring|
  {
    TcbIs(m, ring[i], ring[Next(i, |ring|)].tcb)
  }

  ghost predicate RingIs(m: seq<Byte>, ring: seq<Thread>) {
    forall i :: 0 <= i < |ring| ==> TcbLinked(m, ring, i)
  }

  ghost predicate ParkedIn(m: seq<Byte>, ring: seq<Thread>, parked: seq<Frame>, cur: nat) {
    |ring| == |parked| && forall i :: 0 <= i < |ring| && i != cur ==> FrameIs(m, ring[i], parked[i])
  }

  ghost predicate AllPlaced(cs: seq<Chunk>, lo: nat, hi: nat, ring: seq<Thread>) {
    forall i :: 0 <= i < |ring| ==> Placed(cs, lo, hi, ring[i], i == 0)
  }

  ghost predicate AllApart(ring: seq<Thread>) {
    && (forall i :: 0 <= i < |ring| ==> SelfApart(ring[i]))
    && forall i, j :: 0 <= i < |ring| && 0 <= j < |ring| && i != j ==> Apart(ring[i], ring[j])
  }

  // m and n agree on everything the thread owns.
  ghost predicate ThreadKept(m: seq<Byte>, n: seq<Byte>, t: Thread) {
    && t.stackLo <= t.stackHi
    && SameOn(m, n, t.tcb, TCB_SIZE)
    && (t.stackHi <= |m| ==> SameOn(m, n, t.stackLo, t.stackHi - t.stackLo))
  }

  // Where the fields of a control block lie: id, esp, entry, then 36 bytes nobody
  // writes, and the link in the last four of 52 bytes.
  lemma TcbFields(m: seq<Byte>, t: Thread, next: nat, esp: Word)
    requires TcbIs(m, t, next) && WordAt(m, t.tcb + ESP_AT) == esp
    ensures m[t.tcb..t.tcb + 12] == WordBytes(t.id) + WordBytes(esp) + WordBytes(t.entry)
    ensures m[t.tcb + 48..t.tcb + 52] == WordBytes(next) && TCB_SIZE == 52
  {
    hide WordAt;
    var a := t.tcb;
    WordIsBytes(m, a);
    WordIsBytes(m, a + 4);
    WordIsBytes(m, a + 8);
    WordIsBytes(m, a + 48);
    assert m[a..a + 12] == m[a..a + 4] + m[a + 4..a + 8] + m[a + 8..a + 12];
  }

  // The saved esp may change without touching the rest of the block.
  lemma TcbKept(m: seq<Byte>, n: seq<Byte>, t: Thread, next: nat)
    requires TcbIs(m, t, next) && SameOn(m, n, t.tcb, ESP_AT) && SameOn(m, n, t.tcb + ENTRY_AT, TCB_SIZE - ENTRY_AT)
    ensures TcbIs(n, t, next)
  {
    hide WordAt;
    SameWord(m, n, t.tcb + ID_AT);
    SameWord(m, n, t.tcb + ENTRY_AT);
    SameWord(m, n, t.tcb + NEXT_TCB_AT);
  }

  lemma FrameKept(m: seq<Byte>, n: seq<Byte>, t: Thread, f: Frame)
    requires FrameIs(m, t, f) && SameOn(m, n, t.tcb + ESP_AT, 4) && SameOn(m, n, f.sp, t.stackHi - f.sp)
    ensures FrameIs(n, t, f)
  {
    hide WordAt;
    SameWord(m, n, t.tcb + ESP_AT);
    StackedFrame(m, n, f.sp, f.words);
    SameSlice(m, n, f.sp + FRAME_BYTES, t.stackHi - f.sp - FRAME_BYTES);
  }

  // Writing inside a live payload or outside the arena keeps every header.
  lemma HeadersKept(m: seq<Byte>, n: seq<Byte>, cs: seq<Chunk>, lo: nat, hi: nat, a: nat, len: nat)
    requires Tiles(cs, lo, hi) && Linked(m, cs) && SameOutside(m, n, a, len)
    requires Owns(cs, a, len) || a + len <= lo || hi <= a
          || (exists c :: c in Live(cs) && c.Payload() <= a && a + len <= c.End())
    ensures Linked(n, cs)
  {
    hide HeaderIs;
    forall i | 0 <= i < |cs|
      ensures LinkOk(n, cs, i)
    {
      Within(cs, lo, hi, i);
      if !(a + len <= lo || hi <= a) {
        var c :| c in Live(cs) && c.Payload() <= a && a + len <= c.End();
        var k :| 0 <= k < |cs| && cs[k] == c;
        if i < k { Ordered(cs, lo, hi, i, k); } else if k < i { Ordered(cs, lo, hi, k, i); }
      }
      LinkFrame(m, n, cs, i, cs, i, a, len);
    }
  }

  // What the stack of t holds from esp up to its top.
  ghost function StackFrom(m: seq<Byte>, t: Thread, esp: nat): seq<Byte> {
    if esp <= t.stackHi <= |m| then m[esp..t.stackHi] else []
  }

  lemma StackKept(m: seq<Byte>, n: seq<Byte>, t: Thread, esp: nat)
    requires |m| == |n| && forall a :: esp <= a < t.stackHi && a < |m| ==> n[a] == m[a]
    ensures StackFrom(n, t, esp) == StackFrom(m, t, esp)
  {
  }

  // Two heap calls later, everything a thread owned is still its own, untouched.
  lemma ThreadSurvivesHeap(m: seq<Byte>, n: seq<Byte>, cs: seq<Chunk>, lo: nat, hi: nat, t: Thread, boot: bool)
    requires PayloadsKept(m, n, cs, lo, hi) && Placed(cs, lo, hi, t, boot) && t.stackLo <= t.stackHi
    requires t.tcb + TCB_SIZE <= |m|
    ensures ThreadKept(m, n, t)
  {
  }

  // ---- What the running thread may write ----

  // Byte a belongs to thread i in a way that only a switch away from it, or its
  // own execution, may change.
  ghost predicate Guarded(ring: seq<Thread>, cur: nat, i: nat, a: nat)
    requires i < |ring|
  {
    var t := ring[i];
    if i == cur then t.tcb <= a < t.tcb + TCB_SIZE && !(t.tcb + ESP_AT <= a < t.tcb + ENTRY_AT)
    else t.tcb <= a < t.tcb + TCB_SIZE || t.stackLo <= a < t.stackHi
  }

  ghost predicate OthersKept(m: seq<Byte>, n: seq<Byte>, ring: seq<Thread>, cur: nat) {
    |m| == |n| && forall i, a: nat :: 0 <= i < |ring| && a < |m| && Guarded(ring, cur, i, a) ==> n[a] == m[a]
  }

  // While the other threads' bytes stand, the ring and every parked frame stand.
  lemma RingKept(m: seq<Byte>, n: seq<Byte>, ring: seq<Thread>, parked: seq<Frame>, cur: nat)
    requires RingIs(m, ring) && ParkedIn(m, ring, parked, cur) && OthersKept(m, n, ring, cur)
    ensures RingIs(n, ring) && ParkedIn(n, ring, parked, cur)
  {
    hide FrameIs;
    forall i | 0 <= i < |ring|
      ensures TcbLinked(n, ring, i) && (i != cur ==> FrameIs(n, ring[i], parked[i]))
    {
      assert TcbLinked(m, ring, i);
      GuardsKeepThread(m, n, ring, cur, i, ring[Next(i, |ring|)].tcb, parked[i]);
    }
  }

  lemma GuardsKeepThread(m: seq<Byte>, n: seq<Byte>, ring: seq<Thread>, cur: nat, i: nat, next: nat, f: Frame)
    requires i < |ring| && OthersKept(m, n, ring, cur) && TcbIs(m, ring[i], next)
    ensures TcbIs(n, ring[i], next)
    ensures i != cur && FrameIs(m, ring[i], f) ==> FrameIs(n, ring[i], f)
  {
    hide WordAt;
    hide Stacked;
    var t := ring[i];
    forall a | t.tcb <= a < t.tcb + TCB_SIZE && !(t.tcb + ESP_AT <= a < t.tcb + ENTRY_AT)
      ensures n[a] == m[a]
    {
      assert Guarded(ring, cur, i, a);
    }
    TcbKept(m, n, t, next);
    if i != cur && FrameIs(m, t, f) {
      forall a | t.tcb <= a < t.tcb + TCB_SIZE || f.sp <= a < t.stackHi
        ensures n[a] == m[a]
      {
        assert Guarded(ring, cur, i, a);
      }
      FrameKept(m, n, t, f);
    }
  }

  lemma ParkCur(m: seq<Byte>, ring: seq<Thread>, parked: seq<Frame>, cur: nat, f: Frame, next: nat)
    requires ParkedIn(m, ring, parked, cur) && cur < |ring| && FrameIs(m, ring[cur], f)
    ensures ParkedIn(m, ring, parked[cur := f], next)
  {
  }

  // The only bytes a switch or an interrupt writes: the running thread's stack
  // and the esp field of its block.
  ghost predicate OwnWrites(m: seq<Byte>, n: seq<Byte>, t: Thread) {
    && |m| == |n|
    && forall a :: 0 <= a < |m| && !(t.stackLo <= a < t.stackHi) && !(t.tcb + ESP_AT <= a < t.tcb + ENTRY_AT) ==>
         n[a] == m[a]
  }

  lemma OwnWritesSpareOthers(m: seq<Byte>, n: seq<Byte>, ring: seq<Thread>, cur: nat)
    requires cur < |ring| && AllApart(ring) && OwnWrites(m, n, ring[cur])
    ensures OthersKept(m, n, ring, cur)
  {
  }

  // m and n agree on every live block that is no thread's.
  ghost predicate BystandersKept(m: seq<Byte>, n: seq<Byte>, cs: seq<Chunk>, ring: seq<Thread>) {
    && |m| == |n|
    && forall c, a :: c in Live(cs) && NoThreadBlock(ring, c.Payload()) && c.Payload() <= a < c.End() && a < |m| ==>
         n[a] == m[a]
  }

  lemma OwnWritesSpareBystanders(m: seq<Byte>, n: seq<Byte>, cs: seq<Chunk>, lo: nat, hi: nat,
                                 ring: seq<Thread>, cur: nat)
    requires cur < |ring| && Good(cs, lo, hi) && AllPlaced(cs, lo, hi, ring) && OwnWrites(m, n, ring[cur])
    ensures BystandersKept(m, n, cs, ring)
  {
    var t := ring[cur];
    assert Placed(cs, lo, hi, t, cur == 0);
    var own :| own in Live(cs) && own.Payload() == t.tcb && TCB_SIZE <= own.size;
    forall c, a | c in Live(cs) && NoThreadBlock(ring, c.Payload()) && c.Payload() <= a < c.End() && a < |m|
      ensures n[a] == m[a]
    {
      LiveApart(cs, lo, hi, c, own);
      if cur != 0 {
        var stack :| stack in Live(cs) && stack.Payload() == t.stackLo && STACK_SIZE <= stack.size;
        LiveApart(cs, lo, hi, c, stack);
      }
    }
  }

  // Live blocks lie in the arena, and two of them overlap nowhere.
  lemma LiveApart(cs: seq<Chunk>, lo: nat, hi: nat, c: Chunk, d: Chunk)
    requires Tiles(cs, lo, hi) && c in Live(cs) && d in Live(cs)
    ensures lo <= c.addr && c.End() <= hi
    ensures c == d || c.End() <= d.addr || d.End() <= c.addr
  {
    var i :| 0 <= i < |cs| && cs[i] == c;
    var j :| 0 <= j < |cs| && cs[j] == d;
    Within(cs, lo, hi, i);
    if i < j { Ordered(cs, lo, hi, i, j); } else if j < i { Ordered(cs, lo, hi, j, i); }
  }

  // An address of the kernel's own data: outside the heap and the boot stack.
  ghost predicate KernelData(ring: seq<Thread>, lo: nat, hi: nat, a: nat) {
    (a < lo || hi <= a) && |ring| > 0 && !(ring[0].stackLo <= a < ring[0].stackHi)
  }

  // Stores to kernel data touch neither the heap nor any thread's stack.
  lemma DataStoresSpareThreads(m: seq<Byte>, stores: seq<(nat, Byte)>, cs: seq<Chunk>, lo: nat, hi: nat,
                               ring: seq<Thread>, cur: nat)
    requires Good(cs, lo, hi) && Linked(m, cs) && AllPlaced(cs, lo, hi, ring)
    requires cur < |ring| && ring[cur].stackLo <= ring[cur].stackHi
    requires forall k :: 0 <= k < |stores| ==> KernelData(ring, lo, hi, stores[k].0)
    ensures var n := Applied(m, stores);
            && OthersKept(m, n, ring, cur) && BystandersKept(m, n, cs, ring) && Linked(n, cs)
            && forall a :: ring[cur].stackLo <= a < ring[cur].stackHi && a < |m| ==> n[a] == m[a]
    ensures StoresMiss(stores, ring[cur].stackLo, ring[cur].stackHi - ring[cur].stackLo)
  {
    var n := Applied(m, stores);
    forall i, a | 0 <= i < |ring| && ring[i].stackLo <= a < ring[i].stackHi
      ensures !KernelData(ring, lo, hi, a)
    {
      StackIsNoData(cs, lo, hi, ring, i, a);
    }
    forall i, a | 0 <= i < |ring| && ring[i].tcb <= a < ring[i].tcb + TCB_SIZE
      ensures !KernelData(ring, lo, hi, a)
    {
      TcbIsNoData(cs, lo, hi, ring, i, a);
    }
    forall a: nat | a < |m| && !KernelData(ring, lo, hi, a)
      ensures n[a] == m[a]
    {
      AppliedElsewhere(m, stores, a);
    }
    forall c, a | c in Live(cs) && c.Payload() <= a < c.End()
      ensures !KernelData(ring, lo, hi, a)
    {
      LiveApart(cs, lo, hi, c, c);
    }
    ArenaKeepsHeaders(m, n, cs, lo, hi);
  }

  lemma StackIsNoData(cs: seq<Chunk>, lo: nat, hi: nat, ring: seq<Thread>, i: nat, a: nat)
    requires Good(cs, lo, hi) && AllPlaced(cs, lo, hi, ring) && i < |ring| && ring[i].stackLo <= a < ring[i].stackHi
    ensures !KernelData(ring, lo, hi, a)
  {
    if i != 0 {
      assert Placed(cs, lo, hi, ring[i], false);
      var c :| c in Live(cs) && c.Payload() == ring[i].stackLo && STACK_SIZE <= c.size;
      LiveApart(cs, lo, hi, c, c);
    }
  }

  lemma TcbIsNoData(cs: seq<Chunk>, lo: nat, hi: nat, ring: seq<Thread>, i: nat, a: nat)
    requires Good(cs, lo, hi) && AllPlaced(cs, lo, hi, ring) && i < |ring| && ring[i].tcb <= a < ring[i].tcb + TCB_SIZE
    ensures !KernelData(ring, lo, hi, a)
  {
    assert Placed(cs, lo, hi, ring[i], i == 0);
    var c :| c in Live(cs) && c.Payload() == ring[i].tcb && TCB_SIZE <= c.size;
    LiveApart(cs, lo, hi, c, c);
  }

  lemma ArenaKeepsHeaders(m: seq<Byte>, n: seq<Byte>, cs: seq<Chunk>, lo: nat, hi: nat)
    requires Tiles(cs, lo, hi) && Linked(m, cs) && |m| == |n|
    requires forall a: nat :: a < |m| && lo <= a < hi ==> n[a] == m[a]
    ensures Linked(n, cs)
  {
    hide WordAt;
    forall i | 0 <= i < |cs|
      ensures LinkOk(n, cs, i)
    {
      Within(cs, lo, hi, i);
      assert LinkOk(m, cs, i);
      HeaderFrame(m, n, cs[i], NextOf(cs, i));
    }
  }

  lemma KeptTwice(m0: seq<Byte>, m: seq<Byte>, n: seq<Byte>, ring: seq<Thread>, cur: nat, cs: seq<Chunk>)
    requires OthersKept(m0, m, ring, cur) && OthersKept(m, n, ring, cur)
    requires BystandersKept(m0, m, cs, ring) && BystandersKept(m, n, cs, ring)
    ensures OthersKept(m0, n, ring, cur) && BystandersKept(m0, n, cs, ring)
  {
  }

  lemma OwnWritesKeepHeaders(m: seq<Byte>, n: seq<Byte>, cs: seq<Chunk>, lo: nat, hi: nat, t: Thread, boot: bool)
    requires Good(cs, lo, hi) && Linked(m, cs) && Placed(cs, lo, hi, t, boot) && OwnWrites(m, n, t)
    requires t.tcb + TCB_SIZE <= |m| && SelfApart(t)
    ensures Linked(n, cs)
  {
    // Go through the memory in which only the stack bytes have changed.
    var mid := seq(|m|, i requires 0 <= i < |m| => if t.stackLo <= i < t.stackHi then n[i] else m[i]);
    assert SameOutside(m, mid, t.stackLo, t.stackHi - t.stackLo) && SameOutside(mid, n, t.tcb + ESP_AT, 4);
    HeadersKept(m, mid, cs, lo, hi, t.stackLo, t.stackHi - t.stackLo);
    HeadersKept(mid, n, cs, lo, hi, t.tcb + ESP_AT, 4);
  }

  // After context_switch its two arguments and everything above them still lie
  // above the parked frame.
  lemma ArgumentsStand(m0: seq<Byte>, m1: seq<Byte>, n: seq<Byte>, t: Thread, slot: Word, newEsp: Word, esp: nat)
    requires t.stackLo + 44 <= esp <= t.stackHi <= |m0| && SelfApart(t) && slot == t.tcb + ESP_AT
    requires SameOutside(m0, m1, esp - 12, 12) && Stacked(m1, esp - 12, [SWITCH_RETURN, slot, newEsp])
    requires SameOutsideTwo(m1, n, esp - 44, 32, slot, 4)
    ensures n[esp - 8..t.stackHi] == WordBytes(slot) + WordBytes(newEsp) + StackFrom(m0, t, esp)
  {
    hide WordAt;
    var args := [SWITCH_RETURN, slot, newEsp];
    assert WordAt(m1, esp - 12 + 4 * 1) == args[1] && WordAt(m1, esp - 12 + 4 * 2) == args[2];
    WordIsBytes(m1, esp - 8);
    WordIsBytes(m1, esp - 4);
    SameSlice(m1, n, esp - 8, 4);
    SameSlice(m1, n, esp - 4, 4);
    SameSlice(m0, n, esp, t.stackHi - esp);
    assert n[esp - 8..t.stackHi] == n[esp - 8..esp - 4] + n[esp - 4..esp] + n[esp..t.stackHi];
  }

  lemma NothingWritten(m: seq<Byte>, cs: seq<Chunk>, ring: seq<Thread>, cur: nat, a: nat, b: nat)
    ensures OthersKept(m, m, ring, cur) && BystandersKept(m, m, cs, ring) && SameOutsideTwo(m, m, a, 44, b, 4)
  {
  }

  // The callee's frame is in place and lies apart from all that the call writes.
  lemma CalleeReady(m: seq<Byte>, t: Thread, u: Thread, f: Frame, esp: nat)
    requires FrameIs(m, u, f) && Apart(u, t) && SelfApart(t) && t.stackLo + 44 <= esp <= t.stackHi
    ensures u.tcb + TCB_SIZE <= |m| && WordAt(m, u.tcb + ESP_AT) == f.sp && FitsCpu(f)
    ensures Resume(f).esp == f.sp + FRAME_BYTES && Resume(f).iflag
    ensures f.sp + FRAME_BYTES <= esp - 44 || esp <= f.sp
    ensures f.sp + FRAME_BYTES <= t.tcb + ESP_AT || t.tcb + TCB_SIZE <= f.sp
    ensures t.tcb + TCB_SIZE <= esp - 44 || esp <= t.tcb
    ensures u.stackLo <= f.sp + FRAME_BYTES <= u.stackHi < WORD_LIMIT
  {
  }

  lemma FrameReady(m0: seq<Byte>, m1: seq<Byte>, u: Thread, f: Frame, esp: nat)
    requires FrameIs(m0, u, f) && SameOutside(m0, m1, esp, 12)
    requires f.sp + FRAME_BYTES <= esp || esp + 12 <= f.sp
    ensures Stacked(m1, f.sp, f.words)
  {
    hide WordAt;
    StackedLength(m0, f.sp, f.words);
    StackedFrame(m0, m1, f.sp, f.words);
  }

  lemma Unchanged(m: seq<Byte>, a: nat)
    ensures SameOutside(m, m, a, 0)
  {
  }

  // All that a hand-over leaves in memory: the caller's frame below its stack, the
  // callee's stack as it was, and no other byte changed.
  lemma HandedOver(m0: seq<Byte>, m1: seq<Byte>, n: seq<Byte>, t: Thread, u: Thread, f: Frame, cpu: Cpu, slot: Word)
    requires t.stackLo + 44 <= cpu.esp <= t.stackHi < WORD_LIMIT && t.stackHi <= |m0|
    requires t.tcb + TCB_SIZE <= |m0| && slot == t.tcb + ESP_AT
    requires SelfApart(t) && Apart(u, t) && FrameIs(m0, u, f)
    requires SameOutside(m0, m1, cpu.esp - 12, 12) && Stacked(m1, cpu.esp - 12, [SWITCH_RETURN, slot, f.sp])
    requires SameOutsideTwo(m1, n, cpu.esp - 44, 32, slot, 4) && WordAt(n, slot) == cpu.esp - 44
    requires Stacked(n, cpu.esp - 44, CallFrame(cpu, StackFrom(m0, t, cpu.esp), slot, f.sp).words)
    ensures FrameIs(n, t, CallFrame(cpu, StackFrom(m0, t, cpu.esp), slot, f.sp))
    ensures f.above == StackFrom(n, u, f.sp + FRAME_BYTES)
    ensures SameOutsideTwo(m0, n, cpu.esp - 44, 44, slot, 4) && OwnWrites(m0, n, t)
  {
    hide WordAt;
    hide Stacked;
    ArgumentsStand(m0, m1, n, t, slot, f.sp, cpu.esp);
    SameSlice(m0, n, f.sp + FRAME_BYTES, u.stackHi - f.sp - FRAME_BYTES);
  }

  // ---- The boot thread ----

  lemma BootBlock(cs: seq<Chunk>, p: nat, cs': seq<Chunk>, lo: nat, hi: nat)
    requires Good(cs, lo, hi) && AllocStep(cs, TCB_SIZE, p, cs')
    requires exists k :: 0 <= k < |cs| && Fits(cs[k], TCB_SIZE)
    ensures p != NULL && Owns(cs', p, TCB_SIZE) && lo <= p && p + TCB_SIZE <= hi
  {
    FreshBlock(cs, TCB_SIZE, p, cs', lo, hi);
  }

  lemma BootRing(m0: seq<Byte>, m1: seq<Byte>, n: seq<Byte>, cs: seq<Chunk>, cs': seq<Chunk>, lo: nat, hi: nat,
                 t: Thread, esp: nat)
    requires Good(cs, lo, hi) && AllocStep(cs, TCB_SIZE, t.tcb, cs') && t.tcb != NULL
    requires PayloadsKept(m0, m1, cs, lo, hi) && SameOutside(m1, n, t.tcb, TCB_SIZE) && TcbIs(n, t, t.tcb)
    requires Good(cs', lo, hi) && Linked(m1, cs') && Owns(cs', t.tcb, TCB_SIZE) && lo <= t.tcb && t.tcb + TCB_SIZE <= hi
    requires t.stackLo <= esp <= t.stackHi <= |m0| && (t.stackHi <= lo || hi <= t.stackLo)
    ensures RingIs(n, [t]) && ParkedIn(n, [t], [Frame(0, [], [])], 0) && AllPlaced(cs', lo, hi, [t]) && AllApart([t])
    ensures Linked(n, cs') && PayloadsKept(m0, n, cs, lo, hi) && StackFrom(n, t, esp) == m0[esp..t.stackHi]
  {
    hide TcbIs;
    hide HeaderIs;
    HeadersKept(m1, n, cs', lo, hi, t.tcb, TCB_SIZE);
    FreshBlock(cs, TCB_SIZE, t.tcb, cs', lo, hi);
    forall c, a | c in Live(cs) && c.Payload() <= a < c.End() && a < |m0|
      ensures n[a] == m0[a]
    {
      assert Owns(cs, c.Payload(), c.size);
    }
  }

  // ---- Thread creation ----

  lemma AllocKeepsLive(cs: seq<Chunk>, n: nat, p: nat, cs': seq<Chunk>)
    requires AllocStep(cs, n, p, cs')
    ensures Live(cs) <= Live(cs')
  {
  }

  lemma ThreadSurvives(m: seq<Byte>, n: seq<Byte>, t: Thread, next: nat, f: Frame)
    requires ThreadKept(m, n, t) && TcbIs(m, t, next)
    ensures TcbIs(n, t, next) && (FrameIs(m, t, f) ==> FrameIs(n, t, f))
  {
    hide WordAt;
    hide Stacked;
    TcbKept(m, n, t, next);
    if FrameIs(m, t, f) { FrameKept(m, n, t, f); }
  }

  // A heap call that keeps the threads' blocks leaves every thread as it was.
  lemma RingSurvivesHeap(m: seq<Byte>, n: seq<Byte>, cs: seq<Chunk>, lo: nat, hi: nat,
                         ring: seq<Thread>, parked: seq<Frame>, cur: nat)
    requires PayloadsKept(m, n, cs, lo, hi)
    requires RingIs(m, ring) && ParkedIn(m, ring, parked, cur) && AllPlaced(cs, lo, hi, ring) && AllApart(ring)
    ensures RingIs(n, ring) && ParkedIn(n, ring, parked, cur)
    ensures forall i, esp: nat :: 0 <= i < |ring| && ring[i].stackLo <= esp ==>
              StackFrom(n, ring[i], esp) == StackFrom(m, ring[i], esp)
  {
    hide FrameIs;
    hide TcbIs;
    hide PayloadsKept;
    forall i, esp: nat | 0 <= i < |ring| && ring[i].stackLo <= esp
      ensures StackFrom(n, ring[i], esp) == StackFrom(m, ring[i], esp)
    {
      assert TcbLinked(m, ring, i) && SelfApart(ring[i]) && Placed(cs, lo, hi, ring[i], i == 0);
      TcbInMemory(m, ring[i], ring[Next(i, |ring|)].tcb);
      ThreadSurvivesHeap(m, n, cs, lo, hi, ring[i], i == 0);
    }
    forall i | 0 <= i < |ring|
      ensures TcbLinked(n, ring, i) && (i != cur ==> FrameIs(n, ring[i], parked[i]))
    {
      assert TcbLinked(m, ring, i) && SelfApart(ring[i]) && Placed(cs, lo, hi, ring[i], i == 0);
      TcbInMemory(m, ring[i], ring[Next(i, |ring|)].tcb);
      ThreadSurvivesHeap(m, n, cs, lo, hi, ring[i], i == 0);
      ThreadSurvives(m, n, ring[i], ring[Next(i, |ring|)].tcb, parked[i]);
    }
  }

  lemma PlacedGrows(cs: seq<Chunk>, cs': seq<Chunk>, lo: nat, hi: nat, ring: seq<Thread>)
    requires AllPlaced(cs, lo, hi, ring) && Live(cs) <= Live(cs')
    ensures AllPlaced(cs', lo, hi, ring)
  {
  }

  // p is neither the control block nor the stack of any thread.
  ghost predicate NoThreadBlock(ring: seq<Thread>, p: nat) {
    forall i :: 0 <= i < |ring| ==> ring[i].tcb != p && (i == 0 || ring[i].stackLo != p)
  }

  lemma PlacedAfterFree(cs: seq<Chunk>, p: nat, cs': seq<Chunk>, lo: nat, hi: nat, ring: seq<Thread>)
    requires AllPlaced(cs, lo, hi, ring) && FreeStep(cs, p, cs') && NoThreadBlock(ring, p)
    ensures AllPlaced(cs', lo, hi, ring)
  {
  }

  lemma TcbInMemory(m: seq<Byte>, t: Thread, next: nat)
    requires TcbIs(m, t, next)
    ensures t.tcb + TCB_SIZE <= |m| && t.tcb + TCB_SIZE < WORD_LIMIT && t.stackHi <= |m|
  {
  }

  // A fresh block shares no byte with a block that was owned before.
  lemma FreshBlock(cs: seq<Chunk>, n: nat, p: nat, cs': seq<Chunk>, lo: nat, hi: nat)
    requires Good(cs, lo, hi) && p != 0 && AllocStep(cs, n, p, cs')
    ensures Owns(cs', p, n) && lo <= p && p + n <= hi
    ensures forall a: nat, len: nat :: Owns(cs, a, len) ==> Owns(cs', a, len) && Disjoint(p, n, a, len)
  {
    var c := GrantIsFresh(cs, n, p, cs', lo, hi);
    forall a: nat, len: nat | Owns(cs, a, len)
      ensures Owns(cs', a, len) && Disjoint(p, n, a, len)
    {
      var d :| d in Live(cs) && d.Payload() == a && len <= d.size;
      assert d in Live(cs');
    }
  }

  lemma FreshThread(cs: seq<Chunk>, lo: nat, hi: nat, t: Thread, u: Thread, boot: bool)
    requires Placed(cs, lo, hi, u, boot) && SelfApart(u)
    requires forall a: nat, len: nat :: Owns(cs, a, len) ==>
                 Disjoint(t.tcb, TCB_SIZE, a, len) && Disjoint(t.stackLo, STACK_SIZE, a, len)
    requires t.stackHi == t.stackLo + STACK_SIZE
    requires lo <= t.tcb && t.tcb + TCB_SIZE <= hi && lo <= t.stackLo && t.stackHi <= hi
    ensures Apart(t, u) && Apart(u, t)
  {
  }

  // The bytes create_thread writes: the new block, the new stack, the head's link.
  ghost predicate WrittenByCreate(a: nat, t: Thread, head: Thread) {
    || t.tcb <= a < t.tcb + TCB_SIZE
    || t.stackLo <= a < t.stackHi
    || head.tcb + NEXT_TCB_AT <= a < head.tcb + TCB_SIZE
  }

  ghost predicate CreateWrites(m: seq<Byte>, n: seq<Byte>, t: Thread, head: Thread) {
    && |m| == |n|
    && forall a :: 0 <= a < |m| && !WrittenByCreate(a, t, head) ==> n[a] == m[a]
  }

  lemma CreateKeepsThread(m: seq<Byte>, n: seq<Byte>, t: Thread, head: Thread, u: Thread, next: nat, f: Frame)
    requires CreateWrites(m, n, t, head) && Apart(t, u) && TcbIs(m, u, next)
    requires SelfApart(u) && (u == head || Apart(u, head)) && SelfApart(head)
    ensures u != head ==> TcbIs(n, u, next)
    ensures u == head ==> TcbIs(n, u, WordAt(n, u.tcb + NEXT_TCB_AT))
    ensures FrameIs(m, u, f) ==> FrameIs(n, u, f)
  {
    hide WordAt;
    hide Stacked;
    SameWord(m, n, u.tcb + ID_AT);
    SameWord(m, n, u.tcb + ENTRY_AT);
    if u != head { SameWord(m, n, u.tcb + NEXT_TCB_AT); }
    if FrameIs(m, u, f) { FrameKept(m, n, u, f); }
  }

  // Linking the new thread behind the head yields the ring of Tasks.Step.
  lemma CreateKeepsRing(m: seq<Byte>, n: seq<Byte>, ring: seq<Thread>, parked: seq<Frame>, cur: nat, t: Thread)
    requires |ring| > 0 && cur < |ring| && FRAME_BYTES <= t.stackHi
    requires RingIs(m, ring) && ParkedIn(m, ring, parked, cur) && AllApart(ring)
    requires SelfApart(t) && forall i :: 0 <= i < |ring| ==> Apart(t, ring[i]) && Apart(ring[i], t)
    requires CreateWrites(m, n, t, ring[0])
    requires TcbIs(n, t, ring[Next(0, |ring|)].tcb) && FrameIs(n, t, FirstFrame(t))
    requires ring[0].tcb + TCB_SIZE <= |n| && WordAt(n, ring[0].tcb + NEXT_TCB_AT) == t.tcb
    ensures var ring' := ring[..1] + [t] + ring[1..];
            var parked' := parked[..1] + [FirstFrame(t)] + parked[1..];
            && RingIs(n, ring') && ParkedIn(n, ring', parked', if cur == 0 then 0 else cur + 1) && AllApart(ring')
  {
    hide WordAt;
    hide TcbIs;
    hide FrameIs;
    hide Apart;
    hide SelfApart;
    var ring' := ring[..1] + [t] + ring[1..];
    var parked' := parked[..1] + [FirstFrame(t)] + parked[1..];
    forall i | 0 <= i < |ring|
      ensures var i' := if i == 0 then 0 else i + 1;
              && ring'[i'] == ring[i] && parked'[i'] == parked[i] && TcbLinked(n, ring', i')
              && (i != cur ==> FrameIs(n, ring[i], parked[i]))
    {
      assert TcbLinked(m, ring, i) && SelfApart(ring[i]) && SelfApart(ring[0]) && Apart(t, ring[i]);
      assert i != 0 ==> Apart(ring[i], ring[0]);
      HeadIsFirst(ring, i);
      CreateKeepsThread(m, n, t, ring[0], ring[i], ring[Next(i, |ring|)].tcb, parked[i]);
    }
    assert TcbLinked(n, ring', 1);
    ApartInserted(ring, t);
  }

  // The three writes of create_thread, one after the other: stack image, block, link.
  lemma CreateWritesAll(m0: seq<Byte>, m1: seq<Byte>, m2: seq<Byte>, m3: seq<Byte>, t: Thread, head: Thread, next: nat)
    requires Apart(t, head) && SelfApart(t) && t.stackHi == t.stackLo + STACK_SIZE < WORD_LIMIT
    requires SameOutside(m0, m1, t.stackHi - FRAME_BYTES, FRAME_BYTES)
    requires Stacked(m1, t.stackHi - FRAME_BYTES, FirstFrame(t).words)
    requires SameOutside(m1, m2, t.tcb, TCB_SIZE) && TcbIs(m2, t, next)
    requires WordAt(m2, t.tcb + ESP_AT) == t.stackHi - FRAME_BYTES
    requires SameOutside(m2, m3, head.tcb + NEXT_TCB_AT, 4)
    ensures CreateWrites(m0, m3, t, head) && TcbIs(m3, t, next) && FrameIs(m3, t, FirstFrame(t))
  {
    hide WordAt;
    hide Stacked;
    var f := FirstFrame(t);
    StackedLength(m1, f.sp, f.words);
    StackedFrame(m1, m2, f.sp, f.words);
    StackedFrame(m2, m3, f.sp, f.words);
    SameWord(m2, m3, t.tcb + ESP_AT);
    TcbKept(m2, m3, t, next);
  }

  lemma CreateKeepsHeaders(m0: seq<Byte>, m1: seq<Byte>, m2: seq<Byte>, m3: seq<Byte>,
                           cs: seq<Chunk>, lo: nat, hi: nat, t: Thread, head: Thread)
    requires Good(cs, lo, hi) && Linked(m0, cs)
    requires Owns(cs, t.tcb, TCB_SIZE) && Owns(cs, t.stackLo, STACK_SIZE) && Owns(cs, head.tcb, TCB_SIZE)
    requires t.stackHi == t.stackLo + STACK_SIZE && SameOutside(m0, m1, t.stackHi - FRAME_BYTES, FRAME_BYTES)
    requires SameOutside(m1, m2, t.tcb, TCB_SIZE) && SameOutside(m2, m3, head.tcb + NEXT_TCB_AT, 4)
    ensures Linked(m3, cs)
  {
    HeadersKept(m0, m1, cs, lo, hi, t.stackHi - FRAME_BYTES, FRAME_BYTES);
    HeadersKept(m1, m2, cs, lo, hi, t.tcb, TCB_SIZE);
    HeadersKept(m2, m3, cs, lo, hi, head.tcb + NEXT_TCB_AT, 4);
  }

  // m and n agree outside the arena and in every live payload, the len bytes at b aside.
  ghost predicate KeptBut(m: seq<Byte>, n: seq<Byte>, cs: seq<Chunk>, lo: nat, hi: nat, b: nat, len: nat) {
    && |m| == |n|
    && (forall a :: 0 <= a < |m| && !(lo <= a < hi) ==> n[a] == m[a])
    && forall c, a :: c in Live(cs) && c.Payload() <= a < c.End() && a < |m| && !(b <= a < b + len) ==> n[a] == m[a]
  }

  // Of what was there before, create_thread changes the head's link and nothing else.
  lemma CreateKeepsPayloads(m: seq<Byte>, n: seq<Byte>, cs: seq<Chunk>, cs': seq<Chunk>, lo: nat, hi: nat,
                            t: Thread, head: Thread)
    requires CreateWrites(m, n, t, head) && Good(cs', lo, hi)
    requires forall a: nat, len: nat :: Owns(cs, a, len) ==>
                 Disjoint(t.tcb, TCB_SIZE, a, len) && Disjoint(t.stackLo, STACK_SIZE, a, len)
    requires t.stackHi == t.stackLo + STACK_SIZE && Owns(cs', head.tcb, TCB_SIZE)
    requires lo <= t.tcb && t.tcb + TCB_SIZE <= hi && lo <= t.stackLo && t.stackHi <= hi
    ensures KeptBut(m, n, cs, lo, hi, head.tcb + NEXT_TCB_AT, 4)
  {
    var h :| h in Live(cs') && h.Payload() == head.tcb && TCB_SIZE <= h.size;
    LiveApart(cs', lo, hi, h, h);
    forall c, a | c in Live(cs) && c.Payload() <= a < c.End() && a < |m|
                  && !(head.tcb + NEXT_TCB_AT <= a < head.tcb + TCB_SIZE)
      ensures n[a] == m[a]
    {
      assert Owns(cs, c.Payload(), c.size);
    }
  }

  lemma KeptThenBut(m0: seq<Byte>, m: seq<Byte>, n: seq<Byte>, cs: seq<Chunk>, lo: nat, hi: nat, b: nat, len: nat)
    requires PayloadsKept(m0, m, cs, lo, hi) && KeptBut(m, n, cs, lo, hi, b, len)
    ensures KeptBut(m0, n, cs, lo, hi, b, len)
  {
  }

  // The running thread's stack is none of the bytes create_thread writes.
  lemma CreateKeepsStack(m: seq<Byte>, n: seq<Byte>, ring: seq<Thread>, cur: nat, t: Thread, esp: nat)
    requires cur < |ring| && AllApart(ring) && Apart(t, ring[cur]) && CreateWrites(m, n, t, ring[0])
    requires ring[cur].stackLo <= esp
    ensures StackFrom(n, ring[cur], esp) == StackFrom(m, ring[cur], esp)
  {
    hide StackFrom;
    assert SelfApart(ring[0]) && (cur != 0 ==> Apart(ring[cur], ring[0]));
    StackKept(m, n, ring[cur], esp);
  }

  // The two kmallocs of create_thread, one after the other.
  ghost predicate TwoAllocs(cs: seq<Chunk>, tcb: nat, mid: seq<Chunk>, stack: nat, cs': seq<Chunk>, lo: nat, hi: nat) {
    AllocStep(cs, TCB_SIZE, tcb, mid) && Good(mid, lo, hi) && AllocStep(mid, STACK_SIZE, stack, cs')
  }

  ghost predicate FirstFit(cs: seq<Chunk>, n: nat, k: nat) {
    k < |cs| && Fits(cs[k], n) && forall i :: 0 <= i < k ==> !Fits(cs[i], n)
  }

  // The block goes into chunk k; the stack fits behind it or elsewhere.
  ghost predicate RoomForThread(cs: seq<Chunk>, k: nat) {
    && FirstFit(cs, 52, k)
    && (cs[k].size >= 52 + 9 + 4096 || exists i :: 0 <= i < |cs| && i != k && Fits(cs[i], 4096))
  }

  // A thread can be created if and only if the free chunks leave room for it.
  lemma CreationOutcome(cs: seq<Chunk>, tcb: nat, mid: seq<Chunk>, stack: nat, cs': seq<Chunk>, lo: nat, hi: nat)
    requires Good(cs, lo, hi) && TwoAllocs(cs, tcb, mid, stack, cs', lo, hi)
    ensures tcb != NULL && stack != NULL <==> exists k: nat :: RoomForThread(cs, k)
  {
    if tcb == NULL {
      assert forall k: nat :: k < |cs| ==> !Fits(cs[k], TCB_SIZE);
    } else {
      var k :| 0 <= k < |cs| && AllocAt(cs, TCB_SIZE, k, tcb, mid);
      forall k': nat | FirstFit(cs, TCB_SIZE, k')
        ensures k' == k
      {
      }
      AfterFirstFit(cs, k, tcb, mid, lo, hi);
      assert stack != NULL <==> exists i :: 0 <= i < |mid| && Fits(mid[i], STACK_SIZE);
      assert stack != NULL <==> RoomForThread(cs, k);
    }
  }

  // After start-up on a heap of two pages or more there is room for a thread.
  lemma BootLeavesRoom(cs: seq<Chunk>, boot: nat, cs': seq<Chunk>, lo: nat, hi: nat)
    requires lo + 2 * 4096 <= hi && cs == [Chunk(lo, hi - lo - H, true)]
    requires AllocStep(cs, TCB_SIZE, boot, cs') && Good(cs', lo, hi)
    ensures boot != NULL && RoomForThread(cs', 1)
  {
    assert Fits(cs[0], TCB_SIZE);
    var carved := Carved(cs[0], TCB_SIZE);
    CarveKeepsGood(cs, 0, TCB_SIZE, lo, hi, carved);
    Canonical(cs', carved, lo, hi);
  }

  // What still fits a stack once the control block is taken from chunk k.
  lemma AfterFirstFit(cs: seq<Chunk>, k: nat, tcb: nat, mid: seq<Chunk>, lo: nat, hi: nat)
    requires Good(cs, lo, hi) && Good(mid, lo, hi) && k < |cs| && AllocAt(cs, TCB_SIZE, k, tcb, mid)
    ensures (exists i :: 0 <= i < |mid| && Fits(mid[i], STACK_SIZE)) <==> RoomForThread(cs, k)
  {
    var carved := Carved(cs[k], TCB_SIZE);
    var list := cs[..k] + carved + cs[k + 1..];
    CarveKeepsGood(cs, k, TCB_SIZE, lo, hi, list);
    Canonical(mid, list, lo, hi);
    hide Good;
    hide Live;
    if i :| 0 <= i < |mid| && Fits(mid[i], STACK_SIZE) {
      assert i < k ==> mid[i] == cs[i];
      assert k <= i < k + |carved| ==> mid[i] == carved[i - k];
      assert k + |carved| <= i ==> mid[i] == cs[i - |carved| + 1];
    }
    if RoomForThread(cs, k) {
      if cs[k].size >= TCB_SIZE + H + STACK_SIZE {
        assert Fits(mid[k + 1], STACK_SIZE);
      } else {
        var i :| 0 <= i < |cs| && i != k && Fits(cs[i], STACK_SIZE);
        assert mid[if i < k then i else i - 1 + |carved|] == cs[i];
      }
    }
  }

  lemma PlacedInserted(cs: seq<Chunk>, lo: nat, hi: nat, ring: seq<Thread>, t: Thread)
    requires |ring| > 0 && AllPlaced(cs, lo, hi, ring) && Placed(cs, lo, hi, t, false)
    ensures AllPlaced(cs, lo, hi, ring[..1] + [t] + ring[1..])
  {
  }

  lemma NextId(n: nat)
    ensures Wrap(Wrap(n) + 1) == Wrap(n + 1)
  {
  }

  lemma HeadIsFirst(ring: seq<Thread>, i: nat)
    requires AllApart(ring) && i < |ring|
    ensures ring[i] == ring[0] <==> i == 0
  {
  }

  lemma ApartInserted(ring: seq<Thread>, t: Thread)
    requires |ring| > 0 && AllApart(ring) && SelfApart(t)
    requires forall i :: 0 <= i < |ring| ==> Apart(t, ring[i]) && Apart(ring[i], t)
    ensures AllApart(ring[..1] + [t] + ring[1..])
  {
  }

  // Fabricates the image context_switch expects: the bootstrap address at the top
  // of the stack and eight zero words below it.
  method BuildStack(mem: array<Byte>, stack: nat) returns (esp: nat)
    requires stack + STACK_SIZE <= mem.Length && stack + STACK_SIZE < WORD_LIMIT
    modifies mem
    ensures esp == stack + STACK_SIZE - FRAME_BYTES
    ensures Stacked(mem[..], esp, [0, 0, 0, 0, 0, 0, 0, 0, THREAD_BOOTSTRAP])
    ensures SameOutside(old(mem[..]), mem[..], esp, FRAME_BYTES)
  {
    hide WordAt;
    var top := Wrap(stack + STACK_SIZE);
    top := top - 4;
    Store(mem, top, THREAD_BOOTSTRAP);
    top := top - 32;
    var i := 0;
    while i < 8
      invariant 0 <= i <= 8
      invariant SameOutside(old(mem[..]), mem[..], top, FRAME_BYTES)
      invariant WordAt(mem[..], top + 32) == THREAD_BOOTSTRAP
      invariant forall k :: 0 <= k < i ==> WordAt(mem[..], top + 4 * k) == 0
    {
      ghost var m := mem[..];
      Store(mem, top + 4 * i, 0);
      WordFrame(m, mem[..], top + 4 * i, 4, top + 32);
      forall k | 0 <= k < i
        ensures WordAt(mem[..], top + 4 * k) == 0
      {
        WordFrame(m, mem[..], top + 4 * i, 4, top + 4 * k);
      }
      i := i + 1;
    }
    esp := top;
  }

  // Fills in a thread control block.
  method FillTcb(mem: array<Byte>, tcb: nat, id: Word, entry: Word, esp: Word, next: Word, ghost t: Thread)
    requires tcb + TCB_SIZE <= mem.Length && tcb + TCB_SIZE < WORD_LIMIT
    requires t.stackHi <= mem.Length && t.tcb == tcb && t.id == id && t.entry == entry
    modifies mem
    ensures TcbIs(mem[..], t, next) && WordAt(mem[..], tcb + ESP_AT) == esp
    ensures SameOutside(old(mem[..]), mem[..], tcb, TCB_SIZE)
  {
    hide WordAt;
    Store(mem, tcb + ID_AT, id);
    ghost var m1 := mem[..];
    Store(mem, tcb + ENTRY_AT, entry);
    ghost var m2 := mem[..];
    Store(mem, tcb + ESP_AT, esp);
    ghost var m3 := mem[..];
    Store(mem, tcb + NEXT_TCB_AT, next);
    WordFrame(m1, m2, tcb + ENTRY_AT, 4, tcb);
    WordFrame(m2, m3, tcb + ESP_AT, 4, tcb);
    WordFrame(m3, mem[..], tcb + NEXT_TCB_AT, 4, tcb);
    WordFrame(m2, m3, tcb + ESP_AT, 4, tcb + ENTRY_AT);
    WordFrame(m3, mem[..], tcb + NEXT_TCB_AT, 4, tcb + ENTRY_AT);
    WordFrame(m3, mem[..], tcb + NEXT_TCB_AT, 4, tcb + ESP_AT);
  }

  // All the memory writes of create_thread.
  method WriteThread(mem: array<Byte>, tcb: nat, stack: nat, id: Word, entry: Word, headTcb: nat,
                     ghost cs: seq<Chunk>, ghost lo: nat, ghost hi: nat,
                     ghost t: Thread, ghost head: Thread, ghost next: nat)
    requires t == Thread(tcb, id, entry, stack, stack + STACK_SIZE) && headTcb == head.tcb
    requires SelfApart(t) && Apart(t, head)
    requires Good(cs, lo, hi) && Linked(mem[..], cs) && TcbIs(mem[..], head, next)
    requires Owns(cs, tcb, TCB_SIZE) && Owns(cs, stack, STACK_SIZE) && Owns(cs, headTcb, TCB_SIZE)
    requires tcb + TCB_SIZE <= hi && t.stackHi <= hi <= mem.Length && hi < WORD_LIMIT
    modifies mem
    ensures CreateWrites(old(mem[..]), mem[..], t, head) && Linked(mem[..], cs)
    ensures TcbIs(mem[..], t, next) && FrameIs(mem[..], t, FirstFrame(t))
    ensures WordAt(mem[..], headTcb + NEXT_TCB_AT) == tcb
  {
    hide WordAt;
    hide Good;
    hide Linked;
    hide Owns;
    hide Stacked;
    ghost var m0 := mem[..];
    var esp := BuildStack(mem, stack);
    ghost var m1 := mem[..];
    var headNext := Load(mem, headTcb + NEXT_TCB_AT);
    WordFrame(m0, m1, esp, FRAME_BYTES, headTcb + NEXT_TCB_AT);
    FillTcb(mem, tcb, id, entry, esp, headNext, t);
    ghost var m2 := mem[..];
    Store(mem, headTcb + NEXT_TCB_AT, tcb);
    CreateWritesAll(m0, m1, m2, mem[..], t, head, headNext);
    CreateKeepsHeaders(m0, m1, m2, mem[..], cs, lo, hi, t, head);
  }

  class Kernel {
    const heap: KernelHeap
    const cpu: Processor
    var runningTask: nat
    var taskListHead: nat
    var nextThreadId: Word
    ghost var ring: seq<Thread>
    ghost var parked: seq<Frame>
    ghost var cur: nat

    ghost predicate Valid()
      reads this, heap, heap.mem, cpu
    {
      && cpu.mem == heap.mem && heap.Valid()
      && |ring| == |parked| > 0 && cur < |ring|
      && taskListHead == ring[0].tcb && runningTask == ring[cur].tcb && nextThreadId == Wrap(|ring|)
      && RingIs(heap.mem[..], ring) && ParkedIn(heap.mem[..], ring, parked, cur)
      && AllPlaced(heap.chunks, heap.lo, heap.hi, ring) && AllApart(ring)
      && ring[cur].stackLo <= cpu.esp <= ring[cur].stackHi < WORD_LIMIT
    }

    // init_multitasking: the boot timeline becomes the one thread of the ring.
    constructor (h: KernelHeap, p: Processor, ghost bootLo: nat, ghost bootHi: nat)
      requires h.Valid() && p.mem == h.mem
      requires bootLo <= p.esp <= bootHi < WORD_LIMIT && bootHi <= h.mem.Length && (bootHi <= h.lo || h.hi <= bootLo)
      requires exists k :: 0 <= k < |h.chunks| && Fits(h.chunks[k], TCB_SIZE)
      modifies h.mem, h`chunks
      ensures Valid() && heap == h && cpu == p
      ensures exists t :: View() == System([Thread(t, 0, NULL, bootLo, bootHi)], 0, [Frame(0, [], [])],
                                           old(p.State()), old(h.mem[p.esp..bootHi]))
                          && AllocStep(old(h.chunks), TCB_SIZE, t, h.chunks)
      ensures PayloadsKept(old(h.mem[..]), h.mem[..], old(h.chunks), h.lo, h.hi)
    {
      hide WordAt;
      hide TcbIs;
      hide PayloadsKept;
      hide Good;
      hide Linked;
      hide Owns;
      hide AllocStep;
      hide RingIs;
      hide ParkedIn;
      hide AllPlaced;
      hide AllApart;
      hide StackFrom;
      heap, cpu := h, p;
      new;
      ghost var m0, cs := heap.mem[..], heap.chunks;
      var task := heap.Kmalloc(TCB_SIZE);
      ghost var m1 := heap.mem[..];
      BootBlock(cs, task, heap.chunks, heap.lo, heap.hi);
      ghost var t := Thread(task, 0, NULL, bootLo, bootHi);
      FillTcb(heap.mem, task, 0, NULL, 0, task, t);
      runningTask, taskListHead, nextThreadId := task, task, 1;
      ring, parked, cur := [t], [Frame(0, [], [])], 0;
      BootRing(m0, m1, heap.mem[..], cs, heap.chunks, heap.lo, heap.hi, t, cpu.esp);
    }

    // The machine as the abstract system.
    ghost function View(): System
      requires cur < |ring|
      reads this, heap, heap.mem, cpu
    {
      System(ring, cur, parked, cpu.State(), StackFrom(heap.mem[..], ring[cur], cpu.esp))
    }

    lemma ViewWellFormed()
      requires Valid()
      ensures WellFormed(View()) && ring[cur].stackHi <= heap.mem.Length
    {
      hide WordAt;
      hide Stacked;
      hide AllPlaced;
      hide Linked;
      hide Good;
      assert TcbLinked(heap.mem[..], ring, cur);
    }

    // What a switch relies on: the link to the next thread, its intact frame, and
    // that its memory is not the caller's.
    lemma NextIsReady()
      requires Valid()
      ensures TcbIs(heap.mem[..], ring[cur], ring[Next(cur, |ring|)].tcb)
      ensures SelfApart(ring[cur]) && Placed(heap.chunks, heap.lo, heap.hi, ring[cur], cur == 0)
      ensures |ring| > 1 ==>
                var u := Next(cur, |ring|);
                && FrameIs(heap.mem[..], ring[u], parked[u]) && Apart(ring[u], ring[cur])
                && ring[cur].tcb != ring[u].tcb
    {
      assert TcbLinked(heap.mem[..], ring, cur);
      var u := Next(cur, |ring|);
      if |ring| > 1 { assert Apart(ring[u], ring[cur]); }
    }

    // switch_task. It writes the running thread's stack below esp and the esp field
    // of its control block.
    method SwitchTask()
      requires Valid() && ring[cur].stackLo + 44 <= cpu.esp
      modifies this, heap.mem, cpu
      ensures Valid()
      ensures WellFormed(old(View())) && Legal(old(View()), Switch) && View() == Tasks.Step(old(View()), Switch)
      ensures SameOutsideTwo(old(heap.mem[..]), heap.mem[..], old(cpu.esp) - 44, 44, old(runningTask) + ESP_AT, 4)
      ensures OthersKept(old(heap.mem[..]), heap.mem[..], old(ring), old(cur))
      ensures BystandersKept(old(heap.mem[..]), heap.mem[..], heap.chunks, old(ring))
    {
      hide WordAt;
      hide RingIs;
      hide ParkedIn;
      hide AllPlaced;
      hide AllApart;
      hide Linked;
      hide Good;
      hide Stacked;
      hide FrameIs;
      hide OthersKept;
      hide BystandersKept;
      hide OwnWrites;
      hide SameOutsideTwo;
      hide StackFrom;
      hide Placed;
      hide Apart;
      hide SelfApart;
      hide Resume;
      hide CallFrame;
      ViewWellFormed();
      NextIsReady();
      NothingWritten(heap.mem[..], heap.chunks, ring, cur, cpu.esp - 44, runningTask + ESP_AT);
      ghost var m := heap.mem[..];
      ghost var n := Next(cur, |ring|);
      var next := Load(heap.mem, runningTask + NEXT_TCB_AT);
      if next != runningTask {
        var oldTask := runningTask;
        cpu.iflag := false; // cli
        runningTask := next;
        Handover(oldTask, next, ring[cur], ring[n], parked[n], old(cpu.State()));
        cpu.iflag := true; // sti, at either landing point
        ghost var mine := CallFrame(old(cpu.State()), old(View()).stack, Wrap(oldTask + ESP_AT), parked[n].sp);
        OwnWritesSpareOthers(m, heap.mem[..], ring, cur);
        OwnWritesSpareBystanders(m, heap.mem[..], heap.chunks, heap.lo, heap.hi, ring, cur);
        RingKept(m, heap.mem[..], ring, parked, cur);
        OwnWritesKeepHeaders(m, heap.mem[..], heap.chunks, heap.lo, heap.hi, ring[cur], cur == 0);
        ParkCur(heap.mem[..], ring, parked, cur, mine, n);
        parked := parked[cur := mine];
        cur := n;
      }
    }

    // call context_switch(&old_task->esp, next_task->esp), with interrupts masked.
    method Handover(oldTask: nat, next: nat, ghost t: Thread, ghost u: Thread, ghost f: Frame, ghost before: Cpu)
      requires cpu.mem == heap.mem && cpu.State() == before.(iflag := false)
      requires oldTask == t.tcb && next == u.tcb && t.tcb + TCB_SIZE <= heap.mem.Length && t.tcb + TCB_SIZE < WORD_LIMIT
      requires SelfApart(t) && t.stackLo + 44 <= cpu.esp <= t.stackHi < WORD_LIMIT && t.stackHi <= heap.mem.Length
      requires FrameIs(heap.mem[..], u, f) && Apart(u, t)
      modifies heap.mem, cpu
      ensures FitsCpu(f) && cpu.State().(iflag := true) == Resume(f)
      ensures u.stackLo <= cpu.esp <= u.stackHi < WORD_LIMIT && f.above == StackFrom(heap.mem[..], u, cpu.esp)
      ensures var stack := StackFrom(old(heap.mem[..]), t, old(cpu.esp));
              FrameIs(heap.mem[..], t, CallFrame(before, stack, Wrap(oldTask + ESP_AT), f.sp))
      ensures SameOutsideTwo(old(heap.mem[..]), heap.mem[..], old(cpu.esp) - 44, 44, oldTask + ESP_AT, 4)
      ensures OwnWrites(old(heap.mem[..]), heap.mem[..], t)
    {
      hide WordAt;
      hide Stacked;
      hide SameOutsideTwo;
      hide OwnWrites;
      hide StackFrom;
      hide FrameIs;
      hide Apart;
      hide SelfApart;
      hide SameOutside;
      hide Resume;
      hide CallFrame;
      hide Processor.ParkedWords;
      ghost var m0 := heap.mem[..];
      CalleeReady(m0, t, u, f, cpu.esp);
      var slot := Wrap(oldTask + ESP_AT);
      NoWrap(oldTask + ESP_AT);
      PushCall(Load(heap.mem, next + ESP_AT), slot);
      ghost var m1 := heap.mem[..];
      FrameReady(m0, m1, u, f, cpu.esp);
      cpu.ParksCallFrame(before, StackFrom(m0, t, before.esp), slot, f.sp);
      cpu.ContextSwitch(SWITCH_RETURN, slot, f);
      HandedOver(m0, m1, heap.mem[..], t, u, f, before, slot);
    }

    // The compiler's call sequence: both arguments and the return address.
    method PushCall(newEsp: Word, slot: Word)
      requires 12 <= cpu.esp <= cpu.mem.Length
      modifies cpu.mem, cpu`esp
      ensures cpu.esp == old(cpu.esp) - 12 && Stacked(cpu.mem[..], cpu.esp, [SWITCH_RETURN, slot, newEsp])
      ensures SameOutside(old(cpu.mem[..]), cpu.mem[..], cpu.esp, 12)
    {
      hide Stacked;
      hide SameOutside;
      ghost var m0 := cpu.mem[..];
      NothingStacked(m0, cpu.esp);
      Unchanged(m0, cpu.esp);
      cpu.Push(newEsp, [], m0, 0);
      assert [newEsp] + [] == [newEsp];
      cpu.Push(slot, [newEsp], m0, 4);
      assert [slot] + [newEsp] == [slot, newEsp];
      cpu.Push(SWITCH_RETURN, [slot, newEsp], m0, 8);
      assert [SWITCH_RETURN] + [slot, newEsp] == [SWITCH_RETURN, slot, newEsp];
    }

    // A kfree of a block that is not a thread's: the ring and every frame survive.
    method Release(p: nat)
      requires Valid() && p != NULL && IsLive(heap.chunks, p) && NoThreadBlock(ring, p)
      modifies heap.mem, heap`chunks
      ensures Valid() && View() == old(View()) && FreeStep(old(heap.chunks), p, heap.chunks)
      ensures PayloadsKept(old(heap.mem[..]), heap.mem[..], heap.chunks, heap.lo, heap.hi)
    {
      hide WordAt;
      hide RingIs;
      hide ParkedIn;
      hide AllPlaced;
      hide AllApart;
      hide PayloadsKept;
      ghost var m, cs := heap.mem[..], heap.chunks;
      heap.Kfree(p);
      PlacedAfterFree(cs, p, heap.chunks, heap.lo, heap.hi, ring);
      RingSurvivesHeap(m, heap.mem[..], heap.chunks, heap.lo, heap.hi, ring, parked, cur);
    }

    // A kmalloc by anyone: the new block is disjoint from all that was owned.
    method Allocate(size: Word) returns (p: nat)
      requires Valid()
      modifies heap.mem, heap`chunks
      ensures Valid() && View() == old(View())
      ensures AllocStep(old(heap.chunks), size, p, heap.chunks)
      ensures PayloadsKept(old(heap.mem[..]), heap.mem[..], old(heap.chunks), heap.lo, heap.hi)
      ensures old(Live(heap.chunks)) <= Live(heap.chunks)
      ensures p != NULL ==> Owns(heap.chunks, p, size) && heap.lo <= p && p + size <= heap.hi
      ensures p != NULL ==> forall a: nat, len: nat :: old(Owns(heap.chunks, a, len)) ==> Disjoint(p, size, a, len)
      ensures forall a: nat, len: nat :: old(Owns(heap.chunks, a, len)) ==> Owns(heap.chunks, a, len)
    {
      hide WordAt;
      hide RingIs;
      hide ParkedIn;
      hide AllPlaced;
      hide AllApart;
      hide AllocStep;
      hide PayloadsKept;
      ghost var m, cs := heap.mem[..], heap.chunks;
      p := heap.Kmalloc(size);
      AllocKeepsLive(cs, size, p, heap.chunks);
      RingSurvivesHeap(m, heap.mem[..], cs, heap.lo, heap.hi, ring, parked, cur);
      PlacedGrows(cs, heap.chunks, heap.lo, heap.hi, ring);
      if p != NULL { FreshBlock(cs, size, p, heap.chunks, heap.lo, heap.hi); }
    }

    // create_thread. The kernel does not check kmalloc; when one of the two calls
    // fails, the model stops before the write through a null pointer. CreationOutcome
    // says from the free chunks alone which case it is.
    method CreateThread(entry: Word) returns (ok: bool, ghost t: Thread)
      requires Valid()
      modifies this, heap.mem, heap`chunks
      ensures Valid()
      ensures ok ==> WellFormed(old(View())) && Legal(old(View()), Create(t))
                     && View() == Tasks.Step(old(View()), Create(t))
      ensures ok <==> t.tcb != NULL && t.stackLo != NULL
      ensures exists mid :: TwoAllocs(old(heap.chunks), t.tcb, mid, t.stackLo, heap.chunks, heap.lo, heap.hi)
      ensures ok ==> t.entry == entry && t.id == Wrap(|old(ring)|) && t.stackHi == t.stackLo + 4096
      ensures !ok ==> View() == old(View())
      ensures KeptBut(old(heap.mem[..]), heap.mem[..], old(heap.chunks), heap.lo, heap.hi,
                      old(taskListHead) + NEXT_TCB_AT, if ok then 4 else 0)
    {
      hide WordAt;
      hide RingIs;
      hide ParkedIn;
      hide AllPlaced;
      hide AllApart;
      hide Good;
      hide Linked;
      hide Owns;
      ViewWellFormed();
      hide PayloadsKept;
      hide StackFrom;
      hide AllocStep;
      ghost var m0, cs := heap.mem[..], heap.chunks;
      var tcb := Allocate(TCB_SIZE);
      ghost var m1, cs1 := heap.mem[..], heap.chunks;
      var stack := Allocate(STACK_SIZE);
      ghost var m2 := heap.mem[..];
      assert TwoAllocs(cs, tcb, cs1, stack, heap.chunks, heap.lo, heap.hi);
      hide TwoAllocs;
      PayloadsKeptTwice(m0, m1, m2, cs, cs1, cs, heap.lo, heap.hi);
      t := Thread(tcb, nextThreadId, entry, stack, stack + STACK_SIZE);
      ok := tcb != NULL && stack != NULL;
      if ok {
        FreshAmongAll(cs, t);
        HeadFacts();
        Link(tcb, stack, entry, t);
        CreateKeepsPayloads(m2, heap.mem[..], cs, heap.chunks, heap.lo, heap.hi, t, old(ring[0]));
        KeptThenBut(m0, m2, heap.mem[..], cs, heap.lo, heap.hi, taskListHead + NEXT_TCB_AT, 4);
      }
    }

    // A thread built from two fresh blocks shares no byte with any other thread.
    lemma FreshAmongAll(cs: seq<Chunk>, t: Thread)
      requires Valid() && AllPlaced(cs, heap.lo, heap.hi, ring)
      requires forall a: nat, len: nat :: Owns(cs, a, len) ==>
                 Disjoint(t.tcb, TCB_SIZE, a, len) && Disjoint(t.stackLo, STACK_SIZE, a, len)
      requires t.stackHi == t.stackLo + STACK_SIZE
      requires heap.lo <= t.tcb && t.tcb + TCB_SIZE <= heap.hi && heap.lo <= t.stackLo && t.stackHi <= heap.hi
      ensures forall i :: 0 <= i < |ring| ==> Apart(t, ring[i]) && Apart(ring[i], t)
      ensures t !in ring
    {
      forall i | 0 <= i < |ring|
        ensures Apart(t, ring[i]) && Apart(ring[i], t)
      {
        assert Placed(cs, heap.lo, heap.hi, ring[i], i == 0) && SelfApart(ring[i]);
        FreshThread(cs, heap.lo, heap.hi, t, ring[i], i == 0);
      }
    }

    method Link(tcb: nat, stack: nat, entry: Word, ghost t: Thread)
      requires Valid() && t == Thread(tcb, nextThreadId, entry, stack, stack + STACK_SIZE)
      requires Owns(heap.chunks, tcb, TCB_SIZE) && Owns(heap.chunks, stack, STACK_SIZE) && SelfApart(t)
      requires tcb + TCB_SIZE <= heap.hi && t.stackHi <= heap.hi
      requires forall i :: 0 <= i < |ring| ==> Apart(t, ring[i]) && Apart(ring[i], t)
      modifies this, heap.mem
      ensures Valid() && runningTask == old(runningTask) && heap.chunks == old(heap.chunks)
      ensures ring == old(ring)[..1] + [t] + old(ring)[1..]
      ensures parked == old(parked)[..1] + [FirstFrame(t)] + old(parked)[1..]
      ensures cur == if old(cur) == 0 then 0 else old(cur) + 1
      ensures taskListHead == old(taskListHead) && View().stack == old(View()).stack
      ensures CreateWrites(old(heap.mem[..]), heap.mem[..], t, old(ring[0]))
    {
      hide WordAt;
      hide RingIs;
      hide ParkedIn;
      hide AllPlaced;
      hide AllApart;
      hide Good;
      hide Linked;
      hide Owns;
      hide Stacked;
      ghost var m0 := heap.mem[..];
      HeadFacts();
      NextId(|ring|);
      var id := nextThreadId;
      nextThreadId := Wrap(nextThreadId + 1);
      WriteThread(heap.mem, tcb, stack, id, entry, taskListHead,
                  heap.chunks, heap.lo, heap.hi, t, ring[0], ring[Next(0, |ring|)].tcb);
      CreateKeepsRing(m0, heap.mem[..], ring, parked, cur, t);
      CreateKeepsStack(m0, heap.mem[..], ring, cur, t, cpu.esp);
      PlacedInserted(heap.chunks, heap.lo, heap.hi, ring, t);
      ring := ring[..1] + [t] + ring[1..];
      parked := parked[..1] + [FirstFrame(t)] + parked[1..];
      cur := if cur == 0 then 0 else cur + 1;
    }

    lemma HeadFacts()
      requires Valid()
      ensures TcbIs(heap.mem[..], ring[0], ring[Next(0, |ring|)].tcb)
      ensures Owns(heap.chunks, ring[0].tcb, TCB_SIZE)
    {
      assert TcbLinked(heap.mem[..], ring, 0) && Placed(heap.chunks, heap.lo, heap.hi, ring[0], true);
    }

    // A hardware interrupt, taken only while IF is set: the frame lands on the
    // running thread's stack, the handler may update the kernel's own data, and
    // after iret the system is what it was.
    method Interrupt(eflags: Word, cs: Word, scratch: seq<Byte>, stores: seq<(nat, Byte)>, clobber: Regs)
      requires Valid() && cpu.iflag && ring[cur].stackLo + 44 + |scratch| <= cpu.esp
      requires forall k :: 0 <= k < |stores| ==> KernelData(ring, heap.lo, heap.hi, stores[k].0)
      modifies heap.mem, cpu
      ensures Valid() && View() == old(View())
      ensures SameOutside(Applied(old(heap.mem[..]), stores), heap.mem[..], cpu.esp - 44 - |scratch|, 44 + |scratch|)
      ensures OthersKept(old(heap.mem[..]), heap.mem[..], ring, cur)
      ensures BystandersKept(old(heap.mem[..]), heap.mem[..], heap.chunks, ring)
    {
      hide RingIs;
      hide ParkedIn;
      hide AllPlaced;
      hide AllApart;
      hide Good;
      hide Linked;
      hide StackFrom;
      hide KernelData;
      hide OthersKept;
      hide BystandersKept;
      NextIsReady();
      ghost var m := heap.mem[..];
      ghost var mid := Applied(m, stores);
      DataStoresSpareThreads(m, stores, heap.chunks, heap.lo, heap.hi, ring, cur);
      cpu.TakeInterrupt(eflags, cs, scratch, stores, clobber);
      StackKept(m, heap.mem[..], ring[cur], cpu.esp);
      OwnWritesSpareOthers(mid, heap.mem[..], ring, cur);
      OwnWritesSpareBystanders(mid, heap.mem[..], heap.chunks, heap.lo, heap.hi, ring, cur);
      KeptTwice(m, mid, heap.mem[..], ring, cur, heap.chunks);
      RingKept(m, heap.mem[..], ring, parked, cur);
      OwnWritesKeepHeaders(mid, heap.mem[..], heap.chunks, heap.lo, heap.hi, ring[cur], cur == 0);
    }

    // The running thread owns byte a: it is outside the heap or in a live payload,
    // and it is in no control block and on no other thread's stack.
    ghost predicate MayWrite(a: nat)
      reads this, heap
    {
      && cur < |ring| && a < heap.mem.Length
      && (forall i :: 0 <= i < |ring| ==> !Guarded(ring, cur, i, a))
      && !(ring[cur].tcb + ESP_AT <= a < ring[cur].tcb + ENTRY_AT)
      && (a < heap.lo || heap.hi <= a || exists c :: c in Live(heap.chunks) && c.Payload() <= a < c.End())
    }

    // One instruction of the running thread: new register values and a byte store
    // that spares heap headers, control blocks and the other threads' stacks.
    method Execute(next: Cpu, a: nat, v: Byte)
      requires Valid() && ring[cur].stackLo <= next.esp <= ring[cur].stackHi && MayWrite(a)
      modifies heap.mem, cpu
      ensures Valid()
      ensures var e := Compute(next, StackFrom(heap.mem[..], ring[cur], next.esp));
              WellFormed(old(View())) && Legal(old(View()), e) && View() == Tasks.Step(old(View()), e)
      ensures heap.mem[..] == old(heap.mem[..])[a := v]
    {
      hide RingIs;
      hide ParkedIn;
      hide AllPlaced;
      hide AllApart;
      ViewWellFormed();
      ghost var m := heap.mem[..];
      StoreByte(heap.mem, a, v);
      cpu.regs, cpu.esp, cpu.eip, cpu.iflag := next.regs, next.esp, next.eip, next.iflag;
      HeadersKept(m, heap.mem[..], heap.chunks, heap.lo, heap.hi, a, 1);
      RingKept(m, heap.mem[..], ring, parked, cur);
    }

    // thread_bootstrap before its final loop: interrupts on, and a call of the entry
    // create_thread was given for the thread now running, unless that is null.
    method ThreadBootstrap() returns (calls: bool, entry: Word)
      requires Valid()
      modifies cpu`iflag
      ensures Valid() && (calls <==> ring[cur].entry != NULL) && (calls ==> entry == ring[cur].entry)
      ensures var e := Compute(old(cpu.State()).(iflag := true), old(View()).stack);
              WellFormed(old(View())) && Legal(old(View()), e) && View() == Tasks.Step(old(View()), e)
    {
      hide WordAt;
      hide RingIs;
      hide ParkedIn;
      hide AllApart;
      hide Linked;
      hide Good;
      hide StackFrom;
      NextIsReady();
      ViewWellFormed();
      OwnedIsNotNull(heap.chunks, ring[cur].tcb);
      hide AllPlaced;
      hide Owns;
      cpu.iflag := true;
      calls, entry := false, NULL;
      if runningTask != NULL {
        entry := Load(heap.mem, runningTask + ENTRY_AT);
        calls := entry != NULL;
      }
    }

    // get_thread_count walks the circular list once.
    method GetThreadCount() returns (count: Word)
      requires Valid() && |ring| < WORD_LIMIT
      ensures count == |ring|
    {
      hide WordAt;
      hide RingIs;
      hide ParkedIn;
      hide AllPlaced;
      hide AllApart;
      hide Linked;
      hide Good;
      count := 1;
      Cycle(0);
      var node := Load(heap.mem, taskListHead + NEXT_TCB_AT);
      while node != taskListHead
        invariant 1 <= count <= |ring|
        invariant node == ring[Next(count - 1, |ring|)].tcb
        invariant node == taskListHead <==> count == |ring|
        decreases |ring| - count
      {
        Cycle(count);
        count := count + 1;
        node := Load(heap.mem, node + NEXT_TCB_AT);
      }
    }

    // The link of thread i leads to thread i + 1, and back to the head from the last.
    lemma Cycle(i: nat)
      requires Valid() && i < |ring|
      ensures TcbIs(heap.mem[..], ring[i], ring[Next(i, |ring|)].tcb)
      ensures ring[Next(i, |ring|)].tcb == taskListHead <==> i + 1 == |ring|
    {
      hide WordAt;
      assert TcbLinked(heap.mem[..], ring, i);
      if i + 1 < |ring| { assert Apart(ring[i + 1], ring[0]); }
    }
  }
}
