// The cooperative scheduler as a value: a ring of threads, the frame each
// suspended thread left on its stack, and the processor. The laws here hold over
// every run; Multitasking.dfy shows that kernel/task.cpp and context_switch take
// exactly these steps on byte memory.
module Tasks {
  import opened Memory

  datatype Regs = Regs(eax: Word, ecx: Word, edx: Word, ebx: Word, ebp: Word, esi: Word, edi: Word)

  datatype Cpu = Cpu(regs: Regs, esp: Word, eip: Word, iflag: bool)

  // A thread control block and the stack it owns, [stackLo, stackHi).
  datatype Thread = Thread(tcb: nat, id: Word, entry: Word, stackLo: nat, stackHi: nat)

  // A suspended context: the words at sp are what popa and ret will consume, and
  // above is the rest of the stack, up to its top.
  datatype Frame = Frame(sp: nat, words: seq<Word>, above: seq<Byte>)

  // stack is what the running thread's stack holds, from esp up to its top.
  datatype System = System(ring: seq<Thread>, cur: nat, parked: seq<Frame>, cpu: Cpu, stack: seq<Byte>)

  // Landing points of the final ret of context_switch: the instruction after the
  // call in switch_task, and the first one of thread_bootstrap. Any two addresses do.
  const SWITCH_RETURN: Word := 0x10_1000
  const THREAD_BOOTSTRAP: Word := 0x10_2000

  const FRAME_WORDS: nat := 9
  const FRAME_BYTES: nat := 36
  const ESP_AT: nat := 4

  ghost predicate WellFormed(s: System) {
    && |s.ring| == |s.parked| > 0 && s.cur < |s.ring|
    && (forall i, j :: 0 <= i < j < |s.ring| ==> s.ring[i] != s.ring[j])
    && (forall i :: 0 <= i < |s.parked| && i != s.cur ==> Suspended(s.ring[i], s.parked[i]))
    && s.cpu.esp + |s.stack| == s.ring[s.cur].stackHi
  }

  ghost predicate FitsCpu(f: Frame) {
    |f.words| == FRAME_WORDS && f.sp + FRAME_BYTES < WORD_LIMIT
  }

  // f accounts for the stack of t from sp up to its top.
  ghost predicate Suspended(t: Thread, f: Frame) {
    FitsCpu(f) && f.sp + FRAME_BYTES + |f.above| == t.stackHi
  }

  function Next(i: nat, n: nat): nat {
    if i + 1 == n then 0 else i + 1
  }

  // What popa followed by ret loads, and sti once control has landed.
  // PUSHA order: EAX ECX EDX EBX ESP EBP ESI EDI, so EDI is at the lowest address.
  function Resume(f: Frame): Cpu
    requires |f.words| == FRAME_WORDS && f.sp + FRAME_BYTES < WORD_LIMIT
  {
    Cpu(Regs(f.words[7], f.words[6], f.words[5], f.words[4], f.words[2], f.words[1], f.words[0]),
        f.sp + FRAME_BYTES, f.words[8], true)
  }

  // The stack left by: push next->esp, push &old->esp, call context_switch, pusha.
  function CallFrame(cpu: Cpu, stack: seq<Byte>, slot: Word, newEsp: Word): Frame
    requires cpu.esp >= 12 + 32
  {
    var regs := cpu.regs;
    Frame(cpu.esp - 44,
          [regs.edi, regs.esi, regs.ebp, cpu.esp - 12, regs.ebx, newEsp, regs.ecx, slot, SWITCH_RETURN],
          WordBytes(slot) + WordBytes(newEsp) + stack)
  }

  // The stack image fabricated for a thread that has never run.
  function FirstFrame(t: Thread): Frame
    requires t.stackHi >= FRAME_BYTES
  {
    Frame(t.stackHi - FRAME_BYTES, [0, 0, 0, 0, 0, 0, 0, 0, THREAD_BOOTSTRAP], [])
  }

  datatype Event =
    | Switch                 // switch_task
    | Create(t: Thread)      // create_thread
    | Compute(cpu: Cpu, stack: seq<Byte>)
                             // the running thread executes anything else, interrupts included

  ghost predicate Legal(s: System, e: Event)
    requires s.cur < |s.ring|
  {
    match e
    case Switch => s.cpu.esp >= 44
    case Create(t) => t !in s.ring && FRAME_BYTES <= t.stackHi < WORD_LIMIT
    case Compute(cpu, stack) => cpu.esp + |stack| == s.ring[s.cur].stackHi
  }

  function Step(s: System, e: Event): System
    requires WellFormed(s) && Legal(s, e)
  {
    match e
    case Switch =>
      if |s.ring| == 1 then s else
      var n := Next(s.cur, |s.ring|);
      var slot := Wrap(s.ring[s.cur].tcb + ESP_AT);
      s.(cur := n,
         parked := s.parked[s.cur := CallFrame(s.cpu, s.stack, slot, s.parked[n].sp)],
         cpu := Resume(s.parked[n]),
         stack := s.parked[n].above)
    case Create(t) =>
      s.(ring := s.ring[..1] + [t] + s.ring[1..],
         parked := s.parked[..1] + [FirstFrame(t)] + s.parked[1..],
         cur := if s.cur == 0 then 0 else s.cur + 1)
    case Compute(cpu, stack) => s.(cpu := cpu, stack := stack)
  }

  ghost predicate IsRun(states: seq<System>, es: seq<Event>) {
    && |states| == |es| + 1
    && (forall i :: 0 <= i < |states| ==> WellFormed(states[i]))
    && forall i :: 0 <= i < |es| ==> Legal(states[i], es[i]) && states[i + 1] == Step(states[i], es[i])
  }

  // Every legal step leads to a well-formed system again.
  lemma StepWellFormed(s: System, e: Event)
    requires WellFormed(s) && Legal(s, e)
    ensures WellFormed(Step(s, e))
  {
    match e
    case Switch => SwitchWellFormed(s);
    case Create(t) => CreateWellFormed(s, t);
    case Compute(cpu, stack) =>
  }

  lemma SwitchWellFormed(s: System)
    requires WellFormed(s) && Legal(s, Switch)
    ensures WellFormed(Step(s, Switch))
  {
  }

  lemma CreateWellFormed(s: System, t: Thread)
    requires WellFormed(s) && Legal(s, Create(t))
    ensures WellFormed(Step(s, Create(t)))
  {
    var s' := Step(s, Create(t));
    forall i | 0 <= i < |s'.ring|
      ensures s'.ring[i] == t <==> i == 1
      ensures i != s'.cur ==> Suspended(s'.ring[i], s'.parked[i])
    {
      if i > 1 { assert s'.ring[i] == s.ring[i - 1] && s'.parked[i] == s.parked[i - 1]; }
    }
  }

  // No run gets stuck: any legal event extends it.
  lemma RunExtends(states: seq<System>, es: seq<Event>, e: Event)
    requires IsRun(states, es) && Legal(states[|es|], e)
    ensures IsRun(states + [Step(states[|es|], e)], es + [e])
  {
    StepWellFormed(states[|es|], e);
  }

  lemma RunTail(states: seq<System>, es: seq<Event>)
    requires IsRun(states, es) && |es| >= 1
    ensures IsRun(states[1..], es[1..])
  {
  }

  lemma RunsOnlyAtCur(s: System, i: nat)
    requires WellFormed(s) && i < |s.ring|
    ensures Runs(s, s.ring[i]) <==> i == s.cur
  {
  }

  ghost predicate Runs(s: System, t: Thread) {
    s.cur < |s.ring| && s.ring[s.cur] == t
  }

  // ---- Context preservation ----

  // Where thread t, suspended with frame f, is after one step that does not run it.
  lemma ParkedStep(s: System, e: Event, i: nat) returns (i': nat)
    requires WellFormed(s) && Legal(s, e) && i < |s.ring| && i != s.cur
    ensures i' < |Step(s, e).ring| && Step(s, e).ring[i'] == s.ring[i]
    ensures i' != Step(s, e).cur ==> Step(s, e).parked[i'] == s.parked[i]
    ensures i' == Step(s, e).cur ==>
              e == Switch && Step(s, e).cpu == Resume(s.parked[i]) && Step(s, e).stack == s.parked[i].above
  {
    i' := if e.Create? && i >= 1 then i + 1 else i;
  }

  // Over any run in which t does not run, its stack stays intact from the saved esp
  // to the top; and the step that runs t loads exactly that frame into the processor.
  lemma {:induction false} ContextPreserved(states: seq<System>, es: seq<Event>, i: nat) returns (i': nat)
    requires IsRun(states, es) && i < |states[0].ring| && i != states[0].cur
    requires forall k :: 0 <= k < |es| ==> !Runs(states[k], states[0].ring[i])
    ensures var last := states[|es|];
            && i' < |last.ring| && last.ring[i'] == states[0].ring[i]
            && if Runs(last, states[0].ring[i]) then
                 last.cpu == Resume(states[0].parked[i]) && last.stack == states[0].parked[i].above
               else i' != last.cur && last.parked[i'] == states[0].parked[i]
  {
    if es == [] {
      i' := i;
    } else {
      var m := |es| - 1;
      assert IsRun(states[..m + 1], es[..m]);
      var j := ContextPreserved(states[..m + 1], es[..m], i);
      assert !Runs(states[m], states[0].ring[i]);
      i' := ParkedStep(states[m], es[m], j);
    }
  }

  // A thread that calls switch_task and is resumed any number of steps later sees
  // its callee-saved registers, its stack and its return point again: esp is just
  // below the two arguments it pushed, and every byte above them is as it left it.
  lemma SwitchReturns(states: seq<System>, es: seq<Event>)
    requires IsRun(states, es) && |es| >= 2 && es[0] == Switch && |states[0].ring| > 1
    requires forall k :: 1 <= k < |es| ==> !Runs(states[k], states[0].ring[states[0].cur])
    requires Runs(states[|es|], states[0].ring[states[0].cur])
    ensures var before, after := states[0].cpu, states[|es|].cpu;
            && after.regs.ebx == before.regs.ebx && after.regs.esi == before.regs.esi
            && after.regs.edi == before.regs.edi && after.regs.ebp == before.regs.ebp
            && after.esp == before.esp - 8 && after.eip == SWITCH_RETURN && after.iflag
            && |states[|es|].stack| == |states[0].stack| + 8 && states[|es|].stack[8..] == states[0].stack
  {
    var i := states[0].cur;
    assert states[1] == Step(states[0], es[0]);
    RunTail(states, es);
    forall k | 0 <= k < |es[1..]|
      ensures !Runs(states[1..][k], states[1].ring[i])
    {
      assert states[1..][k] == states[k + 1];
    }
    var i' := ContextPreserved(states[1..], es[1..], i);
  }

  // A new thread's first step on the processor is in thread_bootstrap with zeroed
  // registers, an empty stack and interrupts on.
  lemma FirstResume(states: seq<System>, es: seq<Event>, t: Thread)
    requires IsRun(states, es) && |es| >= 1 && es[0] == Create(t)
    requires forall k :: 1 <= k < |es| ==> !Runs(states[k], t)
    requires Runs(states[|es|], t)
    ensures states[|es|].cpu == Cpu(Regs(0, 0, 0, 0, 0, 0, 0), t.stackHi, THREAD_BOOTSTRAP, true)
    ensures states[|es|].stack == []
  {
    assert states[1] == Step(states[0], es[0]);
    assert states[1].ring[1] == t && states[1].cur != 1 && states[1].parked[1] == FirstFrame(t);
    RunTail(states, es);
    forall k | 0 <= k < |es[1..]|
      ensures !Runs(states[1..][k], t)
    {
      assert states[1..][k] == states[k + 1];
      assert k == 0 ==> states[1].ring[states[1].cur] != t;
    }
    var i' := ContextPreserved(states[1..], es[1..], 1);
  }

  // ---- Ring shape and fairness ----

  ghost function NewestFirst(es: seq<Event>): seq<Thread> {
    if es == [] then []
    else if es[|es| - 1].Create? then [es[|es| - 1].t] + NewestFirst(es[..|es| - 1])
    else NewestFirst(es[..|es| - 1])
  }

  function Creations(es: seq<Event>): nat {
    if es == [] then 0 else Creations(es[..|es| - 1]) + if es[|es| - 1].Create? then 1 else 0
  }

  lemma SpliceSecond(ring: seq<Thread>, newer: seq<Thread>, t: Thread)
    requires |ring| > 0
    ensures var a := ring[..1] + newer + ring[1..];
            |a| > 0 && a[..1] + [t] + a[1..] == ring[..1] + ([t] + newer) + ring[1..]
  {
  }

  // The ring stays one simple cycle: the head, then the created threads, newest
  // first, then the old ring in its old order. So it grows by one per creation.
  lemma {:induction false} RingShape(states: seq<System>, es: seq<Event>)
    requires IsRun(states, es)
    ensures states[|es|].ring == states[0].ring[..1] + NewestFirst(es) + states[0].ring[1..]
    ensures |states[|es|].ring| == |states[0].ring| + Creations(es)
  {
    if es == [] {
      assert states[0].ring == states[0].ring[..1] + states[0].ring[1..];
    } else {
      var m := |es| - 1;
      assert IsRun(states[..m + 1], es[..m]);
      RingShape(states[..m + 1], es[..m]);
      assert states[m + 1] == Step(states[m], es[m]);
      assert states[..m + 1][m] == states[m];
      if es[m].Create? { SpliceSecond(states[0].ring, NewestFirst(es[..m]), es[m].t); }
    }
  }

  // How many switches until the thread at index i runs, if nothing is created.
  function Distance(s: System, i: nat): nat
    requires s.cur < |s.ring| && i < |s.ring|
  {
    if i >= s.cur then i - s.cur else i + |s.ring| - s.cur
  }

  function Switches(es: seq<Event>): nat {
    if es == [] then 0 else Switches(es[..|es| - 1]) + if es[|es| - 1] == Switch then 1 else 0
  }

  lemma DistanceStep(s: System, e: Event, i: nat) returns (i': nat)
    requires WellFormed(s) && Legal(s, e) && i < |s.ring| && i != s.cur
    ensures var s' := Step(s, e);
            && s'.cur < |s'.ring| && i' < |s'.ring| && s'.ring[i'] == s.ring[i]
            && (e == Switch ==> Distance(s', i') == Distance(s, i) - 1)
            && (e.Create? ==> Distance(s, i) <= Distance(s', i') <= Distance(s, i) + 1)
            && (e.Compute? ==> Distance(s', i') == Distance(s, i))
  {
    i' := if e.Create? && i >= 1 then i + 1 else i;
  }

  // While the thread at distance d waits, every switch brings it one place nearer
  // and every creation pushes it back by at most one. So it runs after exactly d
  // switches if nothing is created, and after at most d + c of them otherwise.
  lemma {:induction false} Fairness(states: seq<System>, es: seq<Event>, i: nat) returns (i': nat)
    requires IsRun(states, es) && i < |states[0].ring|
    requires forall k :: 0 <= k < |es| ==> !Runs(states[k], states[0].ring[i])
    ensures var last, d := states[|es|], Distance(states[0], i);
            && i' < |last.ring| && last.ring[i'] == states[0].ring[i]
            && d - Switches(es) <= Distance(last, i') <= d - Switches(es) + Creations(es)
            && (Runs(last, states[0].ring[i]) <==> Distance(last, i') == 0)
            && (Creations(es) == 0 ==> (Runs(last, states[0].ring[i]) <==> Switches(es) == d))
  {
    hide Step;
    hide Legal;
    hide Suspended;
    if es == [] {
      i' := i;
    } else {
      var m := |es| - 1;
      assert IsRun(states[..m + 1], es[..m]);
      var j := Fairness(states[..m + 1], es[..m], i);
      assert states[..m + 1][m] == states[m] && !Runs(states[m], states[0].ring[i]);
      i' := DistanceStep(states[m], es[m], j);
    }
    RunsOnlyAtCur(states[|es|], i');
  }
}
