// The physical page bitmap of kernel/pmm.cpp, refined to a set of held pages.
module Pages {
  import opened Memory

  const BITMAP_SIZE: nat := 4096
  const MAX_PAGES: nat := 32768
  // The first 2 MB: 512 pages.
  const RESERVED: nat := 512

  // 1 << k
  function Mask(k: nat): (mask: bv8)
    requires k < 8
    ensures mask == (1 as bv8) << k
  {
    match k
    case 0 => 0x01 case 1 => 0x02 case 2 => 0x04 case 3 => 0x08
    case 4 => 0x10 case 5 => 0x20 case 6 => 0x40 case _ => 0x80
  }

  predicate Bit(b: bv8, k: nat)
    requires k < 8
  {
    b & Mask(k) != 0
  }

  lemma SetBit(b: bv8, j: nat, k: nat)
    requires j < 8 && k < 8
    ensures Bit(b | Mask(j), k) <==> k == j || Bit(b, k)
  {
  }

  lemma ClearBit(b: bv8, j: nat, k: nat)
    requires j < 8 && k < 8
    ensures Bit(b & !Mask(j), k) <==> k != j && Bit(b, k)
  {
  }

  // bitmap_test
  predicate Marked(m: seq<bv8>, page: nat)
    requires |m| == BITMAP_SIZE && page < MAX_PAGES
  {
    Bit(m[page / 8], page % 8)
  }

  // The page's bit is bit p % 8, counted from the low end, of byte p / 8.
  lemma MarkedBit(m: seq<bv8>, page: nat)
    requires |m| == 4096 && page < 32768
    ensures Marked(m, page) <==> m[page / 8] & ((1 as bv8) << (page % 8)) != 0
  {
  }

  // The pages in use: the reserved ones and those handed out and not given back.
  ghost predicate InUse(held: set<nat>, page: nat) {
    page < RESERVED || page in held
  }

  ghost predicate Refines(m: seq<bv8>, held: set<nat>) {
    |m| == BITMAP_SIZE && forall p :: 0 <= p < MAX_PAGES ==> (Marked(m, p) <==> InUse(held, p))
  }

  class PageAllocator {
    const bitmap: array<bv8>
    var totalPages: nat
    ghost var held: set<nat>

    ghost predicate Valid()
      reads this, bitmap
    {
      && bitmap.Length == BITMAP_SIZE && totalPages <= MAX_PAGES
      && Refines(bitmap[..], held)
      && forall p :: p in held ==> RESERVED <= p < totalPages
    }

    // bitmap_set
    method Set(page: nat)
      requires bitmap.Length == BITMAP_SIZE && page < MAX_PAGES
      modifies bitmap
      ensures forall p :: 0 <= p < MAX_PAGES ==> (Marked(bitmap[..], p) <==> p == page || old(Marked(bitmap[..], p)))
    {
      ghost var m := bitmap[..];
      bitmap[page / 8] := bitmap[page / 8] | Mask(page % 8);
      forall p | 0 <= p < MAX_PAGES
        ensures Marked(bitmap[..], p) <==> p == page || Marked(m, p)
      {
        SetBit(m[page / 8], page % 8, p % 8);
      }
    }

    // bitmap_clear
    method Clear(page: nat)
      requires bitmap.Length == BITMAP_SIZE && page < MAX_PAGES
      modifies bitmap
      ensures forall p :: 0 <= p < MAX_PAGES ==> (Marked(bitmap[..], p) <==> p != page && old(Marked(bitmap[..], p)))
    {
      ghost var m := bitmap[..];
      bitmap[page / 8] := bitmap[page / 8] & !Mask(page % 8);
      forall p | 0 <= p < MAX_PAGES
        ensures Marked(bitmap[..], p) <==> p != page && Marked(m, p)
      {
        ClearBit(m[page / 8], page % 8, p % 8);
      }
    }

    // init_pmm, for memory up to 128 MB.
    constructor (memorySizeBytes: nat)
      requires memorySizeBytes <= MAX_PAGES * PAGE_SIZE
      ensures Valid() && fresh(bitmap) && held == {} && totalPages == memorySizeBytes / 4096
      ensures forall p :: 0 <= p < 32768 ==> (Marked(bitmap[..], p) <==> p < 512)
    {
      bitmap := new bv8[BITMAP_SIZE](_ => 0);
      totalPages := memorySizeBytes / PAGE_SIZE;
      held := {};
      new;
      hide Bit;
      assert forall p :: 0 <= p < MAX_PAGES ==> !Marked(bitmap[..], p) by { AllClear(bitmap[..]); }
      for i := 0 to RESERVED
        invariant totalPages == memorySizeBytes / PAGE_SIZE && held == {}
        invariant forall p :: 0 <= p < MAX_PAGES ==> (Marked(bitmap[..], p) <==> p < i)
      {
        Set(i);
      }
    }

    // pmm_alloc_page: the lowest free page, never a held or a reserved one; null
    // exactly when every page is in use, which 0 can stand for because page 0 is
    // reserved.
    method AllocPage() returns (address: nat)
      requires Valid()
      modifies this`held, bitmap
      ensures Valid()
      ensures address == 0 <==> forall p :: 0 <= p < totalPages ==> InUse(old(held), p)
      ensures address == 0 ==> held == old(held)
      ensures address != 0 ==>
                var page := address / 4096;
                && address == page * 4096 && page < totalPages && !InUse(old(held), page)
                && (forall p :: 0 <= p < page ==> InUse(old(held), p))
                && held == old(held) + {page}
    {
      hide Marked;
      for i := 0 to totalPages
        invariant Valid() && held == old(held)
        invariant forall p :: 0 <= p < i ==> InUse(held, p)
      {
        if !Marked(bitmap[..], i) {
          assert !InUse(held, i);
          Set(i);
          held := held + {i};
          return i * PAGE_SIZE;
        }
      }
      return 0;
    }

    // pmm_free_page of a page that was handed out.
    method FreePage(address: nat)
      requires Valid() && address / 4096 in held
      modifies this`held, bitmap
      ensures Valid() && held == old(held) - {address / 4096}
    {
      hide Marked;
      var page := address / PAGE_SIZE;
      Clear(page);
      held := held - {page};
    }

    // pmm_get_used_pages: the reserved pages that exist plus the held ones.
    method GetUsedPages() returns (used: nat)
      requires Valid()
      ensures used == (if totalPages < 512 then totalPages else 512) + |held|
      ensures used <= totalPages
    {
      hide Marked;
      used := 0;
      for i := 0 to totalPages
        invariant used == |UsedBelow(held, i)| <= i
      {
        UsedNext(held, i);
        if Marked(bitmap[..], i) { used := used + 1; }
      }
      ReservedPlusHeld(held, totalPages);
    }
  }

  lemma AllClear(m: seq<bv8>)
    requires |m| == BITMAP_SIZE && forall i :: 0 <= i < BITMAP_SIZE ==> m[i] == 0
    ensures forall p :: 0 <= p < MAX_PAGES ==> !Marked(m, p)
  {
  }

  ghost function UsedBelow(held: set<nat>, n: nat): set<nat> {
    set p: nat | p < n && InUse(held, p)
  }

  lemma UsedNext(held: set<nat>, n: nat)
    ensures UsedBelow(held, n + 1) == if InUse(held, n) then UsedBelow(held, n) + {n} else UsedBelow(held, n)
  {
  }

  // Counting marked pages counts the reserved ones once and every held page once.
  lemma ReservedPlusHeld(held: set<nat>, n: nat)
    requires forall p :: p in held ==> RESERVED <= p < n
    ensures |UsedBelow(held, n)| == (if n < RESERVED then n else RESERVED) + |held|
  {
    var r := if n < RESERVED then n else RESERVED;
    assert UsedBelow(held, n) == UsedBelow({}, r) + held;
    Initial(r);
  }

  lemma {:induction false} Initial(n: nat)
    requires n <= RESERVED
    ensures |UsedBelow({}, n)| == n
  {
    if n > 0 {
      Initial(n - 1);
      UsedNext({}, n - 1);
    }
  }
}
