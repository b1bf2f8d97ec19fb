/** The allocation accounting of the broker's utility file. Every block
    handed out by xmalloc carries a `size_t` header holding the size the
    caller asked for, and a global counter `memory` is raised and lowered
    as blocks come and go. Addresses are abstract: a pointer is a number,
    NULL is 0, and a block is known by the pointer the caller holds (the
    header in front of it is not addressed separately). What malloc and
    realloc return is a parameter: NULL, or the address of a block that
    is not in use. */
module Alloc {
  import opened Strings

  type Ptr = nat

  const NULL: Ptr := 0
  /** sizeof(size_t) on the 64-bit targets the broker is built for. */
  const HEADER: nat := 8

  /** The counter and the size stored in the header of every live block. */
  datatype Accounting = Accounting(memory: int, blocks: map<Ptr, nat>)

  /** NULL is never the address of a live block. */
  predicate WellFormed(a: Accounting)
  {
    NULL !in a.blocks
  }

  /** What malloc may return while `a` is the state: NULL or an address
      not in use. */
  predicate FreshOrNull(a: Accounting, got: Ptr)
  {
    got == NULL || got !in a.blocks
  }

  /** The bytes the live blocks in `ks` take, headers included. */
  ghost function TotalOver(m: map<Ptr, nat>, ks: set<Ptr>): nat
    requires ks <= m.Keys
  {
    if ks == {} then 0
    else
      var k :| k in ks;
      m[k] + HEADER + TotalOver(m, ks - {k})
  }

  ghost function Total(m: map<Ptr, nat>): nat
  {
    TotalOver(m, m.Keys)
  }

  /** The sum does not depend on which block is taken first. */
  lemma {:induction false} TotalOverRemove(m: map<Ptr, nat>, ks: set<Ptr>, k: Ptr)
    requires ks <= m.Keys && k in ks
    ensures TotalOver(m, ks) == m[k] + HEADER + TotalOver(m, ks - {k})
    decreases ks
  {
    var j :| j in ks && TotalOver(m, ks) == m[j] + HEADER + TotalOver(m, ks - {j});
    if j != k {
      TotalOverRemove(m, ks - {j}, k);
      TotalOverRemove(m, ks - {k}, j);
      assert ks - {j} - {k} == ks - {k} - {j};
    }
  }

  /** Only the sizes of the blocks summed over matter. */
  lemma {:induction false} TotalOverAgree(m1: map<Ptr, nat>, m2: map<Ptr, nat>, ks: set<Ptr>)
    requires ks <= m1.Keys && ks <= m2.Keys
    requires forall k :: k in ks ==> m1[k] == m2[k]
    ensures TotalOver(m1, ks) == TotalOver(m2, ks)
    decreases ks
  {
    if ks != {} {
      var k :| k in ks && TotalOver(m1, ks) == m1[k] + HEADER + TotalOver(m1, ks - {k});
      TotalOverAgree(m1, m2, ks - {k});
      TotalOverRemove(m2, ks, k);
    }
  }

  /** A new block adds its size and its header. */
  lemma TotalAdd(m: map<Ptr, nat>, p: Ptr, size: nat)
    requires p !in m
    ensures Total(m[p := size]) == Total(m) + size + HEADER
  {
    var m' := m[p := size];
    TotalOverRemove(m', m'.Keys, p);
    assert m'.Keys - {p} == m.Keys;
    TotalOverAgree(m', m, m.Keys);
  }

  /** A released block takes its size and its header away. */
  lemma TotalRemove(m: map<Ptr, nat>, p: Ptr)
    requires p in m
    ensures Total(m - {p}) == Total(m) - m[p] - HEADER
  {
    var m' := m - {p};
    TotalOverRemove(m, m.Keys, p);
    assert m'.Keys == m.Keys - {p};
    TotalOverAgree(m, m', m'.Keys);
  }

  /** xmalloc: NULL when malloc fails, otherwise a block whose header
      holds `size`, the counter raised by `size` plus the header. */
  function MallocStep(a: Accounting, size: nat, got: Ptr): (r: (Accounting, Ptr))
    requires size > 0 && FreshOrNull(a, got)
  {
    if got == NULL then (a, NULL)
    else (Accounting(a.memory + size + HEADER, a.blocks[got := size]), got)
  }

  /** xcalloc: xmalloc of `len * size` bytes (the zeroing is not part of
      the accounting). */
  function CallocStep(a: Accounting, len: nat, size: nat, got: Ptr): (r: (Accounting, Ptr))
    requires len > 0 && size > 0 && FreshOrNull(a, got)
  {
    MallocStep(a, len * size, got)
  }

  /** xfree: nothing for NULL, otherwise the block goes and the counter
      drops by its stored size plus the header. */
  function FreeStep(a: Accounting, ptr: Ptr): (r: Accounting)
    requires ptr == NULL || ptr in a.blocks
  {
    if ptr == NULL then a
    else Accounting(a.memory - (a.blocks[ptr] + HEADER), a.blocks - {ptr})
  }

  /** xmalloc_size: the stored size, 0 for NULL. */
  function SizeOf(a: Accounting, ptr: Ptr): nat
    requires ptr == NULL || ptr in a.blocks
  {
    if ptr == NULL then 0 else a.blocks[ptr]
  }

  /** What realloc may return for block `ptr`: NULL, the block itself
      (resized in place) or an address not in use. */
  predicate ReallocResult(a: Accounting, ptr: Ptr, got: Ptr)
  {
    got == NULL || got == ptr || got !in a.blocks
  }

  /** xrealloc: xmalloc for NULL; the same pointer and no change when the
      size is the stored one; NULL and no change when realloc fails;
      otherwise the block moves to `got` with the new size, and the
      counter moves by the new size minus the old plus one more header. */
  function ReallocStep(a: Accounting, ptr: Ptr, size: nat, got: Ptr): (r: (Accounting, Ptr))
    requires size > 0 && WellFormed(a)
    requires ptr == NULL || ptr in a.blocks
    requires ReallocResult(a, ptr, got)
  {
    if ptr == NULL then MallocStep(a, size, got)
    else if size == a.blocks[ptr] then (a, ptr)
    else if got == NULL then (a, NULL)
    else (Accounting(a.memory - a.blocks[ptr] + size + HEADER, (a.blocks - {ptr})[got := size]), got)
  }

  /** The counter equals the bytes held by live blocks, headers included,
      plus `drift`. */
  ghost predicate Counts(a: Accounting, drift: int)
  {
    a.memory == Total(a.blocks) + drift
  }

  /** xmalloc keeps the counter exact and records the size asked for. */
  lemma MallocCounts(a: Accounting, size: nat, got: Ptr, drift: int)
    requires size > 0 && FreshOrNull(a, got) && WellFormed(a) && Counts(a, drift)
    ensures var (a', p) := MallocStep(a, size, got);
      && WellFormed(a') && Counts(a', drift)
      && (p == NULL <==> got == NULL)
      && (p != NULL ==> p in a'.blocks && SizeOf(a', p) == size && p !in a.blocks)
      && (forall q :: q in a.blocks ==> q in a'.blocks && a'.blocks[q] == a.blocks[q])
  {
    if got != NULL {
      TotalAdd(a.blocks, got, size);
    }
  }

  /** xfree keeps the counter exact: it releases exactly the one block,
      keeps every other, and does nothing for NULL. */
  lemma FreeCounts(a: Accounting, ptr: Ptr, drift: int)
    requires (ptr == NULL || ptr in a.blocks) && WellFormed(a) && Counts(a, drift)
    ensures var a' := FreeStep(a, ptr);
      && WellFormed(a') && Counts(a', drift)
      && a'.blocks == a.blocks - {ptr}
      && (ptr == NULL ==> a' == a)
      && (ptr != NULL ==> a'.memory == a.memory - a.blocks[ptr] - HEADER)
  {
    if ptr != NULL {
      TotalRemove(a.blocks, ptr);
    }
  }

  /** A block freed right after it was allocated leaves no trace. */
  lemma MallocThenFree(a: Accounting, size: nat, got: Ptr)
    requires size > 0 && got != NULL && FreshOrNull(a, got)
    ensures FreeStep(MallocStep(a, size, got).0, got) == a
  {
    assert a.blocks[got := size] - {got} == a.blocks;
  }

  /** Every resize that moves the counter adds one header more than the
      blocks account for; all other outcomes keep the counter exact. */
  lemma ReallocCounts(a: Accounting, ptr: Ptr, size: nat, got: Ptr, drift: int)
    requires size > 0 && WellFormed(a) && (ptr == NULL || ptr in a.blocks)
    requires ReallocResult(a, ptr, got) && Counts(a, drift)
    ensures var (a', p) := ReallocStep(a, ptr, size, got);
      var resized := ptr != NULL && size != a.blocks[ptr] && got != NULL;
      && WellFormed(a')
      && Counts(a', if resized then drift + HEADER else drift)
      && (resized ==> p == got && a'.blocks == (a.blocks - {ptr})[got := size])
      && (ptr != NULL && !resized ==> a' == a)
      && (ptr == NULL ==> (a', p) == MallocStep(a, size, got))
      && (ptr != NULL && size == a.blocks[ptr] ==> p == ptr)
      && (ptr != NULL && size != a.blocks[ptr] && got == NULL ==> p == NULL)
  {
    if ptr == NULL {
      MallocCounts(a, size, got, drift);
    } else if size != a.blocks[ptr] && got != NULL {
      TotalRemove(a.blocks, ptr);
      TotalAdd(a.blocks - {ptr}, got, size);
    }
  }

  /** The heap with its global counter, as the utility file keeps it. */
  class Heap {
    var memory: int
    var blocks: map<Ptr, nat>
    /** How many resizes have moved a block so far; each one leaves an
        extra header in the counter. */
    ghost var resizes: nat

    ghost predicate Valid()
      reads this
    {
      WellFormed(State()) && Counts(State(), HEADER * resizes)
    }

    function State(): Accounting
      reads this
    {
      Accounting(memory, blocks)
    }

    constructor ()
      ensures Valid() && State() == Accounting(0, map[]) && resizes == 0
    {
      memory := 0;
      blocks := map[];
      resizes := 0;
    }

    method XMalloc(size: nat, got: Ptr) returns (p: Ptr)
      requires Valid() && size > 0 && FreshOrNull(State(), got)
      modifies this
      ensures Valid() && resizes == old(resizes)
      ensures (State(), p) == MallocStep(old(State()), size, got)
    {
      MallocCounts(State(), size, got, HEADER * resizes);
      if got == NULL {
        return NULL;
      }
      memory := memory + size + HEADER;
      blocks := blocks[got := size];
      p := got;
    }

    method XCalloc(len: nat, size: nat, got: Ptr) returns (p: Ptr)
      requires Valid() && len > 0 && size > 0 && FreshOrNull(State(), got)
      modifies this
      ensures Valid() && resizes == old(resizes)
      ensures (State(), p) == CallocStep(old(State()), len, size, got)
    {
      p := XMalloc(len * size, got);
    }

    method XRealloc(ptr: Ptr, size: nat, got: Ptr) returns (p: Ptr)
      requires Valid() && size > 0 && (ptr == NULL || ptr in blocks)
      requires ReallocResult(State(), ptr, got)
      modifies this
      ensures Valid()
      ensures (State(), p) == ReallocStep(old(State()), ptr, size, got)
    {
      if ptr == NULL {
        p := XMalloc(size, got);
        return;
      }
      var currSize := blocks[ptr];
      if size == currSize {
        return ptr;
      }
      if got == NULL {
        return NULL;
      }
      ReallocCounts(State(), ptr, size, got, HEADER * resizes);
      blocks := (blocks - {ptr})[got := size];
      memory := memory - currSize + size + HEADER;
      resizes := resizes + 1;
      p := got;
    }

    method XFree(ptr: Ptr)
      requires Valid() && (ptr == NULL || ptr in blocks)
      modifies this
      ensures Valid() && resizes == old(resizes)
      ensures State() == FreeStep(old(State()), ptr)
    {
      if ptr == NULL {
        return;
      }
      FreeCounts(State(), ptr, HEADER * resizes);
      memory := memory - (blocks[ptr] + HEADER);
      blocks := blocks - {ptr};
    }

    method XMallocSize(ptr: Ptr) returns (size: nat)
      requires ptr == NULL || ptr in blocks
      ensures size == SizeOf(State(), ptr)
      ensures ptr != NULL ==> size == blocks[ptr]
      ensures ptr == NULL ==> size == 0
    {
      if ptr == NULL {
        return 0;
      }
      size := blocks[ptr];
    }
  }

  /** update_integer_string: the number at the start of the string at
      `ptr` plus `num`, written back in decimal into the block, which is
      resized to the new length plus the NUL. */
  method UpdateIntegerString(h: Heap, ptr: Ptr, str: seq<char>, num: int, got: Ptr)
    returns (q: Ptr, s: seq<char>)
    requires h.Valid() && ptr != NULL && ptr in h.blocks
    requires ReallocResult(h.State(), ptr, got) && got != NULL
    requires ParseValue(str) <= INT_MAX && INT_MIN <= ParseValue(str) + num <= INT_MAX
    modifies h
    ensures h.Valid()
    ensures s == Render(ParseValue(str) + num)
    ensures (h.State(), q) == ReallocStep(old(h.State()), ptr, |s| + 1, got)
    ensures q != NULL && SizeOf(h.State(), q) == |s| + 1
  {
    var n := ParseInt(str);
    n := n + num;
    var room := NumberLen(SizeT(n));
    RenderFits(n);
    assert |Render(n)| + 1 <= room + 1;
    s := Render(n);
    q := h.XRealloc(ptr, |s| + 1, got);
  }
}
