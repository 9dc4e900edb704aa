// Byte-addressed i386 memory. Words are 32 bits wide and little-endian; every
// address computation of the kernel is done modulo 2^32.
module Memory {
  type Byte = b: nat | b < 0x100
  type Word = w: nat | w < 0x1_0000_0000

  const WORD_LIMIT: nat := 0x1_0000_0000
  const PAGE_SIZE: nat := 4096

  function Wrap(x: int): Word {
    x % 0x1_0000_0000
  }

  lemma NoWrap(x: int)
    requires 0 <= x < WORD_LIMIT
    ensures Wrap(x) == x
  {
  }

  function LittleEndian(b0: int, b1: int, b2: int, b3: int): int {
    b0 + 0x100 * b1 + 0x1_0000 * b2 + 0x100_0000 * b3
  }

  // The word stored at address a.
  function WordAt(m: seq<Byte>, a: nat): Word
    requires a + 4 <= |m|
  {
    LittleEndian(m[a], m[a + 1], m[a + 2], m[a + 3])
  }

  function WordBytes(w: Word): (bs: seq<Byte>)
    ensures |bs| == 4
  {
    [w % 0x100, w / 0x100 % 0x100, w / 0x1_0000 % 0x100, w / 0x100_0000]
  }

  lemma WordIsBytes(m: seq<Byte>, a: nat)
    requires a + 4 <= |m|
    ensures m[a..a + 4] == WordBytes(WordAt(m, a))
  {
    var w, b1: int, b2: int, b3: int := WordAt(m, a), m[a + 1], m[a + 2], m[a + 3];
    assert w / 0x100 == b1 + 0x100 * b2 + 0x1_0000 * b3;
    assert w / 0x1_0000 == b2 + 0x100 * b3;
  }

  // m and n agree everywhere except possibly on the len bytes from address a on.
  ghost predicate SameOutside(m: seq<Byte>, n: seq<Byte>, a: nat, len: nat) {
    |m| == |n| && forall i :: 0 <= i < |m| && !(a <= i < a + len) ==> n[i] == m[i]
  }

  ghost predicate SameOn(m: seq<Byte>, n: seq<Byte>, a: nat, len: nat) {
    |m| == |n| && a + len <= |m| && forall i :: a <= i < a + len ==> n[i] == m[i]
  }

  lemma SameWord(m: seq<Byte>, n: seq<Byte>, a: nat)
    requires SameOn(m, n, a, 4)
    ensures WordAt(n, a) == WordAt(m, a)
  {
    assert forall i :: a <= i < a + 4 ==> n[i] == m[i];
    assert n[a] == m[a] && n[a + 1] == m[a + 1] && n[a + 2] == m[a + 2] && n[a + 3] == m[a + 3];
  }

  lemma SameSlice(m: seq<Byte>, n: seq<Byte>, a: nat, len: nat)
    requires SameOn(m, n, a, len)
    ensures n[a..a + len] == m[a..a + len]
  {
  }

  method Store(mem: array<Byte>, a: nat, v: Word)
    requires a + 4 <= mem.Length
    modifies mem
    ensures WordAt(mem[..], a) == v
    ensures SameOutside(old(mem[..]), mem[..], a, 4)
  {
    var q1 := v / 0x100;
    var q2 := q1 / 0x100;
    var q3 := q2 / 0x100;
    mem[a], mem[a + 1], mem[a + 2], mem[a + 3] := v % 0x100, q1 % 0x100, q2 % 0x100, q3;
    assert LittleEndian(v % 0x100, q1 % 0x100, q2 % 0x100, q3) == v;
  }

  method StoreByte(mem: array<Byte>, a: nat, v: Byte)
    requires a < mem.Length
    modifies mem
    ensures mem[a] == v
    ensures SameOutside(old(mem[..]), mem[..], a, 1)
  {
    mem[a] := v;
  }

  // Writing elsewhere keeps the word at a.
  lemma WordFrame(m: seq<Byte>, n: seq<Byte>, w: nat, len: nat, a: nat)
    requires SameOutside(m, n, w, len) && a + 4 <= |m| && (a + 4 <= w || w + len <= a)
    ensures WordAt(n, a) == WordAt(m, a)
  {
    SameWord(m, n, a);
  }

  function Load(mem: array<Byte>, a: nat): (w: Word)
    requires a + 4 <= mem.Length
    reads mem
    ensures w == WordAt(mem[..], a)
  {
    LittleEndian(mem[a], mem[a + 1], mem[a + 2], mem[a + 3])
  }
}
