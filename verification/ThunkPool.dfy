/** The allocator of executable thunks: pages divided into thunks of one size,
    the free ones of a page in a linked list that runs through the thunks. */
module ThunkPool {
  import opened Arithmetic

  datatype Option<T> = None | Some(value: T)

  /** Marks a thunk as free. */
  const STOPPER: nat := 0xCCCC_CCCC
  const NULL: int := -1

  // ---------------------------------------------------------------- the division of a page

  /** How many thunks the constructor of a block makes: its loop takes a thunk's
      size off the page size for as long as anything is left. */
  function Count(pageSize: int, thunkSize: nat): nat
    requires thunkSize > 0
    decreases pageSize
  {
    if pageSize <= 0 then 0 else 1 + Count(pageSize - thunkSize, thunkSize)
  }

  /** Where thunk `i` of a page starts. */
  function Start(i: nat, thunkSize: nat): nat {
    if i == 0 then 0 else Start(i - 1, thunkSize) + thunkSize
  }

  lemma {:induction false} StartMonotone(i: nat, j: nat, thunkSize: nat)
    requires i < j
    ensures Start(i, thunkSize) + thunkSize <= Start(j, thunkSize)
    decreases j
  {
    if i < j - 1 {
      StartMonotone(i, j - 1, thunkSize);
    }
  }

  lemma {:induction false} StartIsProduct(i: nat, thunkSize: nat)
    requires thunkSize > 0
    ensures Start(i, thunkSize) == i * thunkSize && Multiple(Start(i, thunkSize), thunkSize)
  {
    if i > 0 {
      StartIsProduct(i - 1, thunkSize);
    }
  }

  lemma {:induction false} CountCovers(pageSize: nat, thunkSize: nat)
    requires thunkSize > 0
    ensures pageSize <= Start(Count(pageSize, thunkSize), thunkSize) < pageSize + thunkSize
    decreases pageSize
  {
    if pageSize > thunkSize {
      CountCovers(pageSize - thunkSize, thunkSize);
    }
  }

  /** The thunks of a page stay inside it if and only if their size divides it;
      otherwise the last one runs over the end. */
  lemma ThunksFitIffSizeDivides(pageSize: nat, thunkSize: nat)
    requires thunkSize > 0
    ensures Start(Count(pageSize, thunkSize), thunkSize) <= pageSize <==> pageSize % thunkSize == 0
    ensures pageSize % thunkSize == 0 ==> Count(pageSize, thunkSize) == pageSize / thunkSize
  {
    var n := Count(pageSize, thunkSize);
    CountCovers(pageSize, thunkSize);
    StartIsProduct(n, thunkSize);
    MultipleIsRemainderZero(pageSize, thunkSize);
    if Multiple(pageSize, thunkSize) {
      LeastIsUnique(Start(n, thunkSize), pageSize, pageSize, thunkSize);
      DivMul(thunkSize, pageSize, n, 0);
    }
  }

  /** Thunks of 4 + 28 bytes fill a page of 4096 exactly; of those of 8 + 32
      bytes, with 8-byte pointers, 103 are made and end 24 bytes behind it. */
  lemma PageOf4096()
    ensures Count(4096, 32) == 128 && Start(Count(4096, 32), 32) == 4096
    ensures Count(4096, 40) == 103 && Start(Count(4096, 40), 40) == 4096 + 24
  {
    ThunksFitIffSizeDivides(4096, 32);
    StartIsProduct(128, 32);
    CountCovers(4096, 40);
    StartIsProduct(Count(4096, 40), 40);
    StartIsProduct(103, 40);
  }

  // ---------------------------------------------------------------- one page

  /** The list words of a thunk; the code written into an allocated one overlays them. */
  datatype Thunk = Thunk(stopper: nat, nextFreeThunk: int)

  class MemoryBlock {
    const ptr: nat
    const memory: array<Thunk>
    var freeThunk: int
    ghost var free: nat

    /** The free list runs through the first `free` thunks, from the last of them
        down; what an allocated thunk holds does not matter. */
    ghost predicate Valid()
      reads this, memory
    {
      && free <= memory.Length && freeThunk == free - 1
      && forall i | 0 <= i < free :: memory[i] == Thunk(STOPPER, i - 1)
    }

    constructor (ptr: nat, pageSize: nat, thunkSize: nat)
      requires thunkSize > 0
      ensures Valid() && fresh(memory) && this.ptr == ptr
      ensures free == memory.Length == Count(pageSize, thunkSize)
    {
      this.ptr, freeThunk := ptr, NULL;
      memory := new Thunk[Count(pageSize, thunkSize)](_ => Thunk(0, NULL));
      free := 0;
      new;
      var p, i: int := 0, pageSize;
      while i > 0
        invariant p == free && Valid()
        invariant free + Count(i, thunkSize) == memory.Length
        decreases i
      {
        Reclaim(p);
        p := p + 1;
        i := i - thunkSize;
      }
    }

    /** Puts the next thunk on top of the free list. */
    method Reclaim(p: nat)
      requires Valid() && p == free < memory.Length
      modifies this`freeThunk, this`free, memory
      ensures Valid() && free == old(free) + 1
    {
      memory[p] := Thunk(STOPPER, freeThunk);
      freeThunk := p;
      free := free + 1;
    }

    /** Takes the top of the free list, if there is one. */
    method Allocate() returns (thunk: Option<nat>)
      requires Valid()
      modifies this`freeThunk, this`free, memory
      ensures Valid()
      ensures old(free) == 0 ==> thunk == None && unchanged(this) && unchanged(memory)
      ensures old(free) > 0 ==> thunk == Some(free) && free == old(free) - 1
    {
      if freeThunk == NULL {
        return None;
      }
      var top := freeThunk;
      freeThunk := memory[top].nextFreeThunk;
      memory[top] := Thunk(0, NULL);
      free := free - 1;
      thunk := Some(top);
    }

    /** The owner of an allocated thunk writes its code there. */
    method WriteCode(thunk: nat, code: Thunk)
      requires Valid() && free <= thunk < memory.Length
      modifies memory
      ensures Valid()
    {
      memory[thunk] := code;
    }
  }

  // ---------------------------------------------------------------- the pool

  /** Two pages do not overlap. */
  predicate PagesApart(p: nat, q: nat, pageSize: nat) {
    p + pageSize <= q || q + pageSize <= p
  }

  ghost predicate Exhausted(frees: seq<nat>) {
    forall i | 0 <= i < |frees| :: frees[i] == 0
  }

  class ThunkPool {
    var blocks: seq<MemoryBlock>
    const pageSize: nat
    const thunkSize: nat
    ghost var Repr: set<object>

    ghost predicate BlockOk(b: MemoryBlock)
      reads this, Repr
    {
      b in Repr && b.memory in Repr && b.Valid() && thunkSize > 0 && b.memory.Length == Count(pageSize, thunkSize)
    }

    ghost predicate Apart(b: MemoryBlock, c: MemoryBlock) {
      b != c && b.memory != c.memory && PagesApart(b.ptr, c.ptr, pageSize)
    }

    /** Distinct pages of memory, each with its own free list. */
    ghost predicate Valid()
      reads this, Repr
    {
      && this !in Repr && thunkSize > 0 && pageSize > 0
      && (forall i | 0 <= i < |blocks| :: BlockOk(blocks[i]))
      && (forall i, j | 0 <= i < j < |blocks| :: Apart(blocks[i], blocks[j]))
    }

    /** The pool's free and allocated thunks: block `k` has handed out the thunks
        from `Frees()[k]` on. */
    ghost function Frees(): (f: seq<nat>)
      reads this, Repr
      requires Valid()
      ensures |f| == |blocks|
    {
      seq(|blocks|, k requires 0 <= k < |blocks| reads this, Repr requires Valid() => blocks[k].free)
    }

    constructor (pageSize: nat, thunkSize: nat)
      requires thunkSize > 0 && pageSize > 0
      ensures Valid() && blocks == [] && this.pageSize == pageSize && this.thunkSize == thunkSize
    {
      this.pageSize, this.thunkSize, blocks, Repr := pageSize, thunkSize, [], {};
    }

    /** Blocks are searched front to back and a new page goes to the front. The
        thunk handed out is the topmost free one of the first block that has any. */
    method Allocate(page: nat) returns (k: nat, thunk: nat, ghost available: seq<nat>)
      requires Valid() && forall i | 0 <= i < |blocks| :: PagesApart(blocks[i].ptr, page, pageSize)
      modifies this, Repr
      ensures Valid() && fresh(Repr - old(Repr)) && k < |blocks|
      ensures if Exhausted(old(Frees()))
              then
                && k == 0 && blocks[1..] == old(blocks) && fresh(blocks[0]) && blocks[0].ptr == page
                && available == [Count(pageSize, thunkSize)] + old(Frees())
              else
                && blocks == old(blocks) && available == old(Frees())
                && forall i | 0 <= i < k :: available[i] == 0
      ensures |available| == |blocks| && available[k] > 0
      ensures thunk == available[k] - 1 && Frees() == available[k := thunk]
    {
      available := Frees();
      var itr := 0;
      while itr < |blocks|
        invariant itr <= |blocks| && unchanged(this) && unchanged(Repr)
        invariant forall j | 0 <= j < itr :: available[j] == 0
      {
        assert BlockOk(blocks[itr]) && available[itr] == blocks[itr].free;
        var p := blocks[itr].Allocate();
        if p.Some? {
          assert available[itr] > 0;
          assert forall i | 0 <= i < itr :: Apart(blocks[i], blocks[itr]);
          assert forall i | itr < i < |blocks| :: Apart(blocks[itr], blocks[i]);
          return itr, p.value, available;
        }
        itr := itr + 1;
      }
      k := 0;
      thunk, available := Grow(page);
    }

    /** A new page, which registers itself in front and serves the request. */
    method Grow(page: nat) returns (thunk: nat, ghost available: seq<nat>)
      requires Valid() && forall i | 0 <= i < |blocks| :: PagesApart(blocks[i].ptr, page, pageSize)
      modifies this
      ensures Valid() && fresh(Repr - old(Repr)) && blocks != []
      ensures blocks[1..] == old(blocks) && fresh(blocks[0]) && blocks[0].ptr == page
      ensures available == [Count(pageSize, thunkSize)] + old(Frees())
      ensures thunk == available[0] - 1 && Frees() == available[0 := thunk]
    {
      available := Frees();
      var b := new MemoryBlock(page, pageSize, thunkSize);
      blocks := [b] + blocks;
      Repr := Repr + {b, b.memory};
      available := [b.free] + available;
      var p := b.Allocate();
      thunk := p.value;
    }
  }

  // ---------------------------------------------------------------- whole runs

  /** What one allocation handed out: a thunk of a block. */
  datatype Region = Region(block: MemoryBlock, thunk: nat)

  function Address(r: Region, thunkSize: nat): nat {
    r.block.ptr + Start(r.thunk, thunkSize)
  }

  ghost predicate HandedOut(pool: ThunkPool, r: Region)
    requires pool.Valid()
    reads pool, pool.Repr
  {
    exists k :: 0 <= k < |pool.blocks| && pool.blocks[k] == r.block
                && pool.Frees()[k] <= r.thunk < Count(pool.pageSize, pool.thunkSize)
  }

  /** If the size divides the page, a thunk lies in its page, and two thunks overlap
      only if they are the same. */
  lemma RegionsDisjoint(pool: ThunkPool, r: Region, s: Region)
    requires pool.Valid() && pool.pageSize % pool.thunkSize == 0
    requires HandedOut(pool, r) && HandedOut(pool, s)
    ensures r.block.ptr <= Address(r, pool.thunkSize)
         && Address(r, pool.thunkSize) + pool.thunkSize <= r.block.ptr + pool.pageSize
    ensures r != s ==> PagesApart(Address(r, pool.thunkSize), Address(s, pool.thunkSize), pool.thunkSize)
  {
    var n := Count(pool.pageSize, pool.thunkSize);
    ThunksFitIffSizeDivides(pool.pageSize, pool.thunkSize);
    StartMonotone(r.thunk, n, pool.thunkSize);
    StartMonotone(s.thunk, n, pool.thunkSize);
    if r.block == s.block {
      if r.thunk < s.thunk {
        StartMonotone(r.thunk, s.thunk, pool.thunkSize);
      } else if s.thunk < r.thunk {
        StartMonotone(s.thunk, r.thunk, pool.thunkSize);
      }
    } else {
      var i :| 0 <= i < |pool.blocks| && pool.blocks[i] == r.block;
      var j :| 0 <= j < |pool.blocks| && pool.blocks[j] == s.block;
      assert i < j ==> pool.Apart(r.block, s.block);
      assert j < i ==> pool.Apart(s.block, r.block);
    }
  }

  ghost predicate AllHandedOut(pool: ThunkPool, rs: seq<Region>)
    requires pool.Valid()
    reads pool, pool.Repr
  {
    forall i | 0 <= i < |rs| :: HandedOut(pool, rs[i])
  }

  /** An allocation hands out something new and takes nothing back. */
  method AllocateNext(pool: ThunkPool, page: nat, ghost before: seq<Region>) returns (r: Region)
    requires pool.Valid() && forall i | 0 <= i < |pool.blocks| :: PagesApart(pool.blocks[i].ptr, page, pool.pageSize)
    requires AllHandedOut(pool, before)
    modifies pool, pool.Repr
    ensures pool.Valid() && fresh(pool.Repr - old(pool.Repr))
    ensures AllHandedOut(pool, before + [r]) && r !in before
    ensures forall i | 0 <= i < |pool.blocks| :: pool.blocks[i] in old(pool.blocks) || pool.blocks[i].ptr == page
  {
    ghost var blocks, frees := pool.blocks, pool.Frees();
    var k, thunk, available := pool.Allocate(page);
    r := Region(pool.blocks[k], thunk);
    assert HandedOut(pool, r) by {
      assert pool.Frees()[k] == thunk;
      assert pool.BlockOk(pool.blocks[k]);
    }
    forall i | 0 <= i < |before|
      ensures HandedOut(pool, before[i]) && r != before[i]
    {
      ghost var j :| 0 <= j < |blocks| && blocks[j] == before[i].block && frees[j] <= before[i].thunk;
      ghost var j' := if Exhausted(frees) then j + 1 else j;
      assert pool.blocks[j'] == before[i].block && available[j'] == frees[j];
      assert pool.Frees()[j'] <= available[j'];
      assert j' < k ==> pool.Apart(pool.blocks[j'], pool.blocks[k]);
      assert k < j' ==> pool.Apart(pool.blocks[k], pool.blocks[j']);
    }
  }

  /** Over any run of allocations no thunk is handed out twice. */
  method Serve(pool: ThunkPool, pages: seq<nat>) returns (rs: seq<Region>)
    requires pool.Valid()
    requires forall i, j | 0 <= i < |pool.blocks| && 0 <= j < |pages| ::
               PagesApart(pool.blocks[i].ptr, pages[j], pool.pageSize)
    requires forall i, j | 0 <= i < j < |pages| :: PagesApart(pages[i], pages[j], pool.pageSize)
    modifies pool, pool.Repr
    ensures pool.Valid() && |rs| == |pages| && AllHandedOut(pool, rs)
    ensures forall i, j | 0 <= i < j < |rs| :: rs[i] != rs[j]
  {
    rs := [];
    for n := 0 to |pages|
      invariant pool.Valid() && fresh(pool.Repr - old(pool.Repr)) && |rs| == n && AllHandedOut(pool, rs)
      invariant forall i, j | 0 <= i < j < |rs| :: rs[i] != rs[j]
      invariant forall i, j | 0 <= i < |pool.blocks| && n <= j < |pages| ::
                  PagesApart(pool.blocks[i].ptr, pages[j], pool.pageSize)
    {
      var r := AllocateNext(pool, pages[n], rs);
      rs := rs + [r];
    }
  }
}
