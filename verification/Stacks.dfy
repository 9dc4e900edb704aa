// Words on a stack, and the processor instructions that move them.
module Stacks {
  import opened Memory
  import opened Tasks

  // The words ws lie at sp, lowest address first.
  ghost predicate Stacked(m: seq<Byte>, sp: nat, ws: seq<Word>) {
    sp + 4 * |ws| <= |m| && forall k :: 0 <= k < |ws| ==> WordAt(m, sp + 4 * k) == ws[k]
  }

  lemma StackedFrame(m: seq<Byte>, n: seq<Byte>, sp: nat, ws: seq<Word>)
    requires Stacked(m, sp, ws) && SameOn(m, n, sp, 4 * |ws|)
    ensures Stacked(n, sp, ws)
  {
    forall k | 0 <= k < |ws|
      ensures WordAt(n, sp + 4 * k) == ws[k]
    {
      SameWord(m, n, sp + 4 * k);
    }
  }

  lemma PushStacked(m: seq<Byte>, n: seq<Byte>, sp: nat, ws: seq<Word>, v: Word)
    requires Stacked(m, sp, ws) && sp >= 4
    requires SameOutside(m, n, sp - 4, 4) && WordAt(n, sp - 4) == v
    ensures Stacked(n, sp - 4, [v] + ws)
  {
    StackedFrame(m, n, sp, ws);
    forall k | 0 <= k < |ws| + 1
      ensures WordAt(n, sp - 4 + 4 * k) == ([v] + ws)[k]
    {
      if k > 0 { assert WordAt(n, sp + 4 * (k - 1)) == ws[k - 1]; }
    }
  }

  lemma StackedTail(m: seq<Byte>, sp: nat, ws: seq<Word>, k: nat)
    requires Stacked(m, sp, ws) && k <= |ws|
    ensures Stacked(m, sp + 4 * k, ws[k..])
  {
    forall i | 0 <= i < |ws[k..]|
      ensures WordAt(m, sp + 4 * k + 4 * i) == ws[k..][i]
    {
      assert WordAt(m, sp + 4 * (k + i)) == ws[k + i];
    }
  }

  lemma GrowDown(m0: seq<Byte>, m: seq<Byte>, n: seq<Byte>, sp: nat, len: nat, more: nat)
    requires SameOutside(m0, m, sp, len) && sp >= more && SameOutside(m, n, sp - more, more)
    ensures SameOutside(m0, n, sp - more, len + more)
  {
  }

  // The memory after the stores, in their order. Stores past its end are lost.
  function Applied(m: seq<Byte>, stores: seq<(nat, Byte)>): (n: seq<Byte>)
    ensures |n| == |m|
  {
    if stores == [] then m
    else
      var before := Applied(m, stores[..|stores| - 1]);
      var last := stores[|stores| - 1];
      if last.0 < |m| then before[last.0 := last.1] else before
  }

  // No store hits the len bytes at a.
  ghost predicate StoresMiss(stores: seq<(nat, Byte)>, a: nat, len: nat) {
    forall i :: 0 <= i < |stores| ==> !(a <= stores[i].0 < a + len)
  }

  lemma {:induction false} AppliedElsewhere(m: seq<Byte>, stores: seq<(nat, Byte)>, a: nat)
    requires a < |m| && forall i :: 0 <= i < |stores| ==> stores[i].0 != a
    ensures Applied(m, stores)[a] == m[a]
  {
    if stores != [] { AppliedElsewhere(m, stores[..|stores| - 1], a); }
  }

  class Processor {
    const mem: array<Byte>
    var regs: Regs
    var esp: Word
    var eip: Word
    var iflag: bool

    constructor (memory: array<Byte>, cpu: Cpu)
      ensures mem == memory && State() == cpu
    {
      mem := memory;
      regs, esp, eip, iflag := cpu.regs, cpu.esp, cpu.eip, cpu.iflag;
    }

    function State(): Cpu
      reads this
    {
      Cpu(regs, esp, eip, iflag)
    }

    // push v. The ghost arguments describe what is already there: ws at esp, and
    // m0 as the memory before the len bytes at esp were pushed.
    method Push(v: Word, ghost ws: seq<Word>, ghost m0: seq<Byte>, ghost len: nat)
      requires 4 <= esp && Stacked(mem[..], esp, ws) && SameOutside(m0, mem[..], esp, len)
      modifies mem, this`esp
      ensures esp == old(esp) - 4
      ensures Stacked(mem[..], esp, [v] + ws)
      ensures SameOutside(m0, mem[..], esp, len + 4)
    {
      hide WordAt;
      ghost var m := mem[..];
      Store(mem, esp - 4, v);
      PushStacked(m, mem[..], esp, ws, v);
      GrowDown(m0, m, mem[..], esp, len, 4);
      esp := esp - 4;
    }

    ghost function PushaWords(): (ws: seq<Word>)
      reads this
      ensures |ws| == 8
    {
      [regs.edi, regs.esi, regs.ebp, esp, regs.ebx, regs.edx, regs.ecx, regs.eax]
    }

    // Intel SDM volume 2, section 4.3, PUSHA: EAX, ECX, EDX, EBX, the original
    // ESP, EBP, ESI, EDI.
    method Pusha(ghost ws: seq<Word>, ghost m0: seq<Byte>, ghost len: nat)
      requires 32 <= esp && Stacked(mem[..], esp, ws) && SameOutside(m0, mem[..], esp, len)
      modifies mem, this`esp
      ensures esp == old(esp) - 32
      ensures Stacked(mem[..], esp, old(PushaWords()) + ws)
      ensures SameOutside(m0, mem[..], esp, len + 32)
    {
      hide WordAt;
      hide Stacked;
      hide SameOutside;
      var temp := esp;
      ghost var w := ws;
      Push(regs.eax, w, m0, len); w := [regs.eax] + w;
      Push(regs.ecx, w, m0, len + 4); w := [regs.ecx] + w;
      Push(regs.edx, w, m0, len + 8); w := [regs.edx] + w;
      Push(regs.ebx, w, m0, len + 12); w := [regs.ebx] + w;
      Push(temp, w, m0, len + 16); w := [temp] + w;
      Push(regs.ebp, w, m0, len + 20); w := [regs.ebp] + w;
      Push(regs.esi, w, m0, len + 24); w := [regs.esi] + w;
      Push(regs.edi, w, m0, len + 28); w := [regs.edi] + w;
      assert w == old(PushaWords()) + ws;
    }

    // POPA: the same slots in reverse, the stored ESP skipped.
    method Popa(ghost ws: seq<Word>)
      requires |ws| >= 8 && esp + 32 < WORD_LIMIT && Stacked(mem[..], esp, ws)
      modifies this`esp, this`regs
      ensures esp == old(esp) + 32
      ensures regs == Regs(ws[7], ws[6], ws[5], ws[4], ws[2], ws[1], ws[0])
      ensures Stacked(mem[..], esp, ws[8..])
    {
      hide WordAt;
      StackedTail(mem[..], esp, ws, 8);
      assert WordAt(mem[..], esp + 4 * 0) == ws[0] && WordAt(mem[..], esp + 4 * 1) == ws[1];
      assert WordAt(mem[..], esp + 4 * 2) == ws[2] && WordAt(mem[..], esp + 4 * 4) == ws[4];
      assert WordAt(mem[..], esp + 4 * 5) == ws[5] && WordAt(mem[..], esp + 4 * 6) == ws[6];
      assert WordAt(mem[..], esp + 4 * 7) == ws[7];
      regs := Regs(Load(mem, esp + 28), Load(mem, esp + 24), Load(mem, esp + 20), Load(mem, esp + 16),
                   Load(mem, esp + 8), Load(mem, esp + 4), Load(mem, esp));
      esp := esp + 32;
    }

    method Pop(ghost ws: seq<Word>) returns (v: Word)
      requires |ws| >= 1 && esp + 4 < WORD_LIMIT && Stacked(mem[..], esp, ws)
      modifies this`esp
      ensures esp == old(esp) + 4 && v == ws[0]
      ensures Stacked(mem[..], esp, ws[1..])
    {
      hide WordAt;
      StackedTail(mem[..], esp, ws, 1);
      assert WordAt(mem[..], esp + 4 * 0) == ws[0];
      v := Load(mem, esp);
      esp := esp + 4;
    }

    // An interrupt through irq0_handler_stub or irq1_handler_stub: the processor
    // pushes EFLAGS, CS and EIP and clears IF; the stub saves every register; the
    // handler scribbles below esp, stores to its own data and clobbers registers;
    // popa and iret undo all but the stores.
    method TakeInterrupt(eflags: Word, cs: Word, scratch: seq<Byte>, stores: seq<(nat, Byte)>, clobber: Regs)
      requires iflag && 44 + |scratch| <= esp <= mem.Length
      requires StoresMiss(stores, esp - 44 - |scratch|, 44 + |scratch|)
      modifies mem, this
      ensures State() == old(State())
      ensures SameOutside(Applied(old(mem[..]), stores), mem[..], esp - 44 - |scratch|, 44 + |scratch|)
    {
      hide WordAt;
      hide Stacked;
      ghost var m0 := mem[..];
      NothingStacked(m0, esp);
      Push(eflags, [], m0, 0);
      Push(cs, [eflags] + [], m0, 4);
      Push(eip, [cs] + ([eflags] + []), m0, 8);
      iflag := false;
      ghost var top := [eip] + ([cs] + ([eflags] + []));
      ghost var frame := PushaWords() + top;
      Pusha(top, m0, 12);
      Scribble(scratch, frame, m0);
      StoreAll(stores, frame, m0, esp - |scratch|, 44 + |scratch|);
      regs := clobber;
      Popa(frame);
      assert frame[8..] == top;
      eip := Pop(top);
      var cs' := Pop(top[1..]);
      var eflags' := Pop(top[1..][1..]);
      iflag := true; // IF as saved in EFLAGS
    }

    // The handler's stores to its own data, which miss the len bytes at a.
    method StoreAll(stores: seq<(nat, Byte)>, ghost ws: seq<Word>, ghost m0: seq<Byte>, ghost a: nat, ghost len: nat)
      requires Stacked(mem[..], esp, ws) && SameOutside(m0, mem[..], a, len)
      requires a <= esp && esp + 4 * |ws| <= a + len && StoresMiss(stores, a, len)
      modifies mem
      ensures Stacked(mem[..], esp, ws)
      ensures SameOutside(Applied(m0, stores), mem[..], a, len)
    {
      hide WordAt;
      hide Stacked;
      ghost var m := mem[..];
      StackedLength(m, esp, ws);
      for i := 0 to |stores|
        invariant SameOutside(Applied(m0, stores[..i]), mem[..], a, len) && SameOn(m, mem[..], esp, 4 * |ws|)
      {
        assert stores[..i + 1][..i] == stores[..i];
        if stores[i].0 < mem.Length { mem[stores[i].0] := stores[i].1; }
      }
      assert stores[..|stores|] == stores;
      StackedFrame(m, mem[..], esp, ws);
    }

    // What the handler leaves below the stack pointer.
    method Scribble(scratch: seq<Byte>, ghost ws: seq<Word>, ghost m0: seq<Byte>)
      requires |scratch| <= esp <= mem.Length && Stacked(mem[..], esp, ws) && SameOutside(m0, mem[..], esp, 44)
      modifies mem
      ensures Stacked(mem[..], esp, ws)
      ensures SameOutside(m0, mem[..], esp - |scratch|, 44 + |scratch|)
    {
      hide WordAt;
      ghost var m := mem[..];
      for i := 0 to |scratch|
        invariant SameOutside(m, mem[..], esp - |scratch|, |scratch|)
      {
        mem[esp - |scratch| + i] := scratch[i];
      }
      StackedFrame(m, mem[..], esp, ws);
      GrowDown(m0, m, mem[..], esp, 44, |scratch|);
    }

    // The caller's words for its own frame once eax and edx hold the arguments.
    ghost function ParkedWords(slot: Word, newEsp: Word, ret: Word): (ws: seq<Word>)
      reads this
      ensures |ws| == FRAME_WORDS
    {
      [regs.edi, regs.esi, regs.ebp, esp, regs.ebx, newEsp, regs.ecx, slot, ret]
    }

    // Called from switch_task, they are the words of a CallFrame.
    lemma ParksCallFrame(before: Cpu, stack: seq<Byte>, slot: Word, newEsp: Word)
      requires 44 <= before.esp && regs == before.regs && esp == before.esp - 12
      ensures ParkedWords(slot, newEsp, SWITCH_RETURN) == CallFrame(before, stack, slot, newEsp).words
    {
    }

    // context_switch in boot.s, instruction by instruction. Its arguments lie
    // above the return address: the slot for the old esp, then the new esp.
    method ContextSwitch(ghost ret: Word, ghost slot: Word, ghost f: Frame)
      requires FitsCpu(f) && 32 <= esp && esp + 12 < WORD_LIMIT
      requires Stacked(mem[..], esp, [ret, slot, f.sp]) && Stacked(mem[..], f.sp, f.words)
      requires slot + 4 <= mem.Length && (slot + 4 <= esp - 32 || esp + 12 <= slot)
      requires f.sp + FRAME_BYTES <= esp - 32 || esp <= f.sp
      requires f.sp + FRAME_BYTES <= slot || slot + 4 <= f.sp
      modifies mem, this`regs, this`esp, this`eip
      ensures State() == Resume(f).(iflag := iflag)
      ensures WordAt(mem[..], slot) == old(esp) - 32
      ensures Stacked(mem[..], old(esp) - 32, old(ParkedWords(slot, f.sp, ret)))
      ensures SameOutsideTwo(old(mem[..]), mem[..], old(esp) - 32, 32, slot, 4)
    {
      hide WordAt;
      hide Stacked;
      hide SameOutsideTwo;
      ghost var m0 := mem[..];
      StackedLength(m0, f.sp, f.words);
      SaveContext(ret, slot, f.sp);
      ghost var m1 := mem[..];
      KeptBySave(m0, m1, esp, slot, f);
      esp := regs.edx;
      Popa(f.words);
      eip := Pop(f.words[8..]);
    }

    // mov eax, [esp + 4]; mov edx, [esp + 8]; pusha; mov [eax], esp
    method SaveContext(ghost ret: Word, ghost slot: Word, ghost newEsp: Word)
      requires 32 <= esp && esp + 12 < WORD_LIMIT && Stacked(mem[..], esp, [ret, slot, newEsp])
      requires slot + 4 <= mem.Length && (slot + 4 <= esp - 32 || esp + 12 <= slot)
      modifies mem, this`regs, this`esp
      ensures esp == old(esp) - 32 && regs.edx == newEsp
      ensures WordAt(mem[..], slot) == esp
      ensures Stacked(mem[..], esp, old(ParkedWords(slot, newEsp, ret)))
      ensures SameOutsideTwo(old(mem[..]), mem[..], esp, 32, slot, 4)
    {
      hide WordAt;
      ghost var m0 := mem[..];
      ghost var args := [ret, slot, newEsp];
      assert WordAt(m0, esp + 4 * 1) == args[1] && WordAt(m0, esp + 4 * 2) == args[2];
      regs := regs.(eax := Load(mem, esp + 4));
      regs := regs.(edx := Load(mem, esp + 8));
      ghost var frame := PushaWords() + args;
      Pusha(args, m0, 0);
      ghost var m1 := mem[..];
      Store(mem, regs.eax, esp);
      StackedFrame(m1, mem[..], esp, frame);
      Prefix(mem[..], esp, frame, FRAME_WORDS);
      assert frame[..FRAME_WORDS] == old(ParkedWords(slot, newEsp, ret));
    }
  }

  // m and n agree outside two ranges of bytes.
  ghost predicate SameOutsideTwo(m: seq<Byte>, n: seq<Byte>, a: nat, la: nat, b: nat, lb: nat) {
    |m| == |n| && forall i :: 0 <= i < |m| && !(a <= i < a + la) && !(b <= i < b + lb) ==> n[i] == m[i]
  }

  lemma StackedLength(m: seq<Byte>, sp: nat, ws: seq<Word>)
    requires Stacked(m, sp, ws)
    ensures sp + 4 * |ws| <= |m|
  {
  }

  lemma KeptBySave(m: seq<Byte>, n: seq<Byte>, sp: nat, slot: nat, f: Frame)
    requires SameOutsideTwo(m, n, sp, 32, slot, 4) && Stacked(m, f.sp, f.words) && |f.words| == FRAME_WORDS
    requires f.sp + FRAME_BYTES <= sp || sp + 32 <= f.sp
    requires f.sp + FRAME_BYTES <= slot || slot + 4 <= f.sp
    ensures Stacked(n, f.sp, f.words)
  {
    StackedFrame(m, n, f.sp, f.words);
  }

  lemma NothingStacked(m: seq<Byte>, sp: nat)
    requires sp <= |m|
    ensures Stacked(m, sp, [])
  {
  }

  lemma Prefix(m: seq<Byte>, sp: nat, ws: seq<Word>, k: nat)
    requires Stacked(m, sp, ws) && k <= |ws|
    ensures Stacked(m, sp, ws[..k])
  {
  }
}
