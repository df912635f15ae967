/** Two-level page tables as a flat map from virtual pages to entries. */
module Paging {

  const SIZE: nat := 1024
  const PAGES: nat := 1024 * 1024
  const PAGE_SIZE: nat := 4096

  /** The last slot of a directory holds the software table, not a page table. */
  const LAST: nat := 1023

  /** A 32-bit word: the upper 20 bits name a frame, the lower 12 bits are flags. */
  datatype Word = Word(frame: nat, low: bv12)

  const EMPTY: Word := Word(0, 0)

  const PRESENT: bv12 := 1
  const WRITE: bv12 := 2
  const USER: bv12 := 4

  const OPEN: bv12 := 7

  lemma OpenBits(d: bv12, e: bv12, bit: bv12)
    requires bit == PRESENT || bit == WRITE || bit == USER
    ensures d & OPEN == OPEN ==> (d & e & bit == bit <==> e & bit == bit)
    ensures d & PRESENT != 0 <==> d & PRESENT == PRESENT
    ensures EMPTY.low & bit != bit
  {
  }

  predicate IsPresent(w: Word)
  {
    w.low & PRESENT != 0
  }

  // ----- Pages and slots -----

  function PageOf(vaddr: nat): nat
  {
    vaddr / PAGE_SIZE
  }

  function DirOf(page: nat): nat
  {
    page / SIZE
  }

  function TableOf(page: nat): nat
  {
    page % SIZE
  }

  /** The two indices identify the page. */
  lemma SlotsOf(p: nat, q: nat)
    requires p < PAGES && q < PAGES
    ensures DirOf(p) < SIZE && TableOf(p) < SIZE
    ensures p == q <==> DirOf(p) == DirOf(q) && TableOf(p) == TableOf(q)
  {
  }

  lemma FlagsPresent(frame: nat, x: bv12, flags: bv12)
    ensures IsPresent(Word(frame, x | PRESENT | flags)) && !IsPresent(EMPTY)
  {
    assert (x | PRESENT | flags) & PRESENT == 1;
  }

  /** A page table in kernel memory, at the start of a frame. */
  class Table {
    const frame: nat
    var entries: seq<Word>

    constructor (frame: nat)
      ensures this.frame == frame && entries == Blank()
    {
      this.frame := frame;
      entries := Blank();
    }
  }

  function Blank(): (es: seq<Word>)
    ensures |es| == SIZE && forall i :: 0 <= i < SIZE ==> es[i] == EMPTY
  {
    seq(SIZE, i => EMPTY)
  }

  /** The processor's two reads: the directory, then the table in the frame it names. */
  function Walk(hw: seq<Word>, phys: map<nat, seq<Word>>, page: nat): Word
    requires |hw| == SIZE && page < PAGES
  {
    var d := hw[DirOf(page)];
    if IsPresent(d) && d.frame in phys && TableOf(page) < |phys[d.frame]| then phys[d.frame][TableOf(page)] else EMPTY
  }

  /** The processor allows an access to a page, by bit, if both the entries it reads do. */
  predicate Allows(hw: seq<Word>, phys: map<nat, seq<Word>>, page: nat, bit: bv12)
    requires |hw| == SIZE && page < PAGES
  {
    hw[DirOf(page)].low & Walk(hw, phys, page).low & bit == bit
  }

  /** A page directory: the entries the processor reads, and the pointers the kernel follows. */
  class Directory {
    var hw: seq<Word>
    var vmap: seq<Table?>

    ghost function Tables(): set<Table>
      reads this
    {
      set t: Table | t in vmap
    }

    /** Each present slot names one table in both forms, and no two slots the same table or the same frame. */
    ghost predicate Valid()
      reads this, Tables()
    {
      && |hw| == |vmap| == SIZE && !IsPresent(hw[LAST])
      && (forall i :: 0 <= i < SIZE && IsPresent(hw[i]) ==>
            vmap[i] != null && hw[i].frame == vmap[i].frame && |vmap[i].entries| == SIZE)
      && (forall i, j :: 0 <= i < j < SIZE && IsPresent(hw[i]) && IsPresent(hw[j]) ==>
            vmap[i] != vmap[j] && hw[i].frame != hw[j].frame)
    }

    /** No present slot names the frame. */
    ghost predicate Unused(frame: nat)
      requires |hw| == SIZE
      reads this
    {
      forall i :: 0 <= i < SIZE && IsPresent(hw[i]) ==> hw[i].frame != frame
    }

    /** The frames that hold page tables, and what is in them. */
    ghost function Frames(): map<nat, seq<Word>>
      requires Valid()
      reads this, Tables()
    {
      map i | 0 <= i < SIZE && IsPresent(hw[i]) :: hw[i].frame := vmap[i].entries
    }

    /** The flat map: the entry of a virtual page. */
    ghost function Entry(page: nat): Word
      requires Valid() && page < PAGES
      reads this, Tables()
    {
      if IsPresent(hw[DirOf(page)]) then vmap[DirOf(page)].entries[TableOf(page)] else EMPTY
    }

    /** Every present directory entry allows writing and user access, so that the page entries decide. */
    ghost predicate Open()
      requires |hw| == SIZE
      reads this
    {
      forall i :: 0 <= i < SIZE && IsPresent(hw[i]) ==> hw[i].low & OPEN == OPEN
    }

    /** With open directory entries the processor allows what the page entry allows. */
    lemma EntryDecides(page: nat, bit: bv12)
      requires Valid() && Open() && page < PAGES && (bit == PRESENT || bit == WRITE || bit == USER)
      ensures Allows(hw, Frames(), page, bit) <==> Entry(page).low & bit == bit
    {
      SlotsOf(page, page);
      ProcessorView(page);
      OpenBits(hw[DirOf(page)].low, Entry(page).low, bit);
    }

    /** The processor, which follows frames, finds the entry that the kernel finds by following pointers. */
    lemma ProcessorView(page: nat)
      requires Valid() && page < PAGES
      ensures Walk(hw, Frames(), page) == Entry(page)
    {
      SlotsOf(page, page);
    }

    constructor ()
      ensures Valid() && Open() && forall p :: 0 <= p < PAGES ==> Entry(p) == EMPTY
    {
      hw := seq(SIZE, i => EMPTY);
      vmap := seq(SIZE, i => null);
      new;
      FlagsPresent(0, 0, 0);
    }

    /** get_paddr: the frame of the page plus the offset; 0 where there is no table. */
    method GetPaddr(vaddr: nat) returns (paddr: nat)
      requires Valid() && PageOf(vaddr) < PAGES
      ensures paddr == if IsPresent(hw[DirOf(PageOf(vaddr))])
                       then Entry(PageOf(vaddr)).frame * PAGE_SIZE + vaddr % PAGE_SIZE else 0
    {
      var pdi, pti := vaddr / 0x40_0000, vaddr / PAGE_SIZE % SIZE;
      assert pdi == DirOf(PageOf(vaddr)) && pti == TableOf(PageOf(vaddr));
      if !IsPresent(hw[pdi]) {
        return 0;
      }
      return vmap[pdi].entries[pti].frame * PAGE_SIZE + vaddr % PAGE_SIZE;
    }

    /**
     map_page: exactly the page of vaddr changes, also when its table is new;
     frame is where kvalloc puts a new table, one that no table has yet. Bits of paddr below the page size
     end up among the flags.
     */
    method Map(paddr: Word, vaddr: nat, flags: bv12, frame: nat)
      requires Valid() && PageOf(vaddr) < PAGES && DirOf(PageOf(vaddr)) != LAST
      requires IsPresent(hw[DirOf(PageOf(vaddr))]) || Unused(frame)
      modifies this, Tables()
      ensures Valid() && fresh(Tables() - old(Tables())) && (old(Open()) ==> Open())
      ensures forall i :: 0 <= i < SIZE && (i != DirOf(PageOf(vaddr)) || old(IsPresent(hw[i]))) ==> hw[i] == old(hw[i])
      ensures !old(IsPresent(hw[DirOf(PageOf(vaddr))])) ==> hw[DirOf(PageOf(vaddr))] == Word(frame, OPEN)
      ensures forall f :: f != frame && old(Unused(f)) ==> Unused(f)
      ensures forall p: nat :: p < PAGES ==>
        Entry(p) == if p == PageOf(vaddr) then Word(paddr.frame, paddr.low | PRESENT | flags) else old(Entry(p))
    {
      var pdi, pti := vaddr / 0x40_0000, vaddr / PAGE_SIZE % SIZE;
      assert pdi == DirOf(PageOf(vaddr)) && pti == TableOf(PageOf(vaddr));
      var table;
      if IsPresent(hw[pdi]) {
        table := vmap[pdi];
      } else {
        table := new Table(frame);
        FlagsPresent(frame, 0, WRITE | USER);
        assert 0 | PRESENT | (WRITE | USER) == OPEN;
        hw := hw[pdi := Word(frame, 0 | PRESENT | (WRITE | USER))];
        vmap := vmap[pdi := table];
      }
      table.entries := table.entries[pti := Word(paddr.frame, paddr.low | PRESENT | flags)];
      forall p: nat | p < PAGES
        ensures Entry(p) == if p == PageOf(vaddr) then Word(paddr.frame, paddr.low | PRESENT | flags) else old(Entry(p))
      {
        SlotsOf(p, PageOf(vaddr));
      }
    }

    /** unmap_page: the page has no entry any more, every other page keeps its own. */
    method Unmap(vaddr: nat)
      requires Valid() && PageOf(vaddr) < PAGES
      modifies Tables()
      ensures Valid() && hw == old(hw)
      ensures forall p: nat :: p < PAGES ==> Entry(p) == if p == PageOf(vaddr) then EMPTY else old(Entry(p))
    {
      var pdi, pti := vaddr / 0x40_0000, vaddr / PAGE_SIZE % SIZE;
      assert pdi == DirOf(PageOf(vaddr)) && pti == TableOf(PageOf(vaddr));
      if IsPresent(hw[pdi]) {
        var table := vmap[pdi];
        table.entries := table.entries[pti := EMPTY];
      }
      forall p: nat | p < PAGES
        ensures Entry(p) == if p == PageOf(vaddr) then EMPTY else old(Entry(p))
      {
        SlotsOf(p, PageOf(vaddr));
      }
    }

    /** One call takes every entry to its next value, and names no frame but its own. */
    method Exec(call: Call)
      requires Valid() && InRange(call) && (call.MapPage? ==> Unused(call.frame))
      modifies this, Tables()
      ensures Valid() && fresh(Tables() - old(Tables())) && (old(Open()) ==> Open())
      ensures forall f :: (call.MapPage? ==> f != call.frame) && old(Unused(f)) ==> Unused(f)
      ensures forall p: nat :: p < PAGES ==> Entry(p) == Applied(old(Entry(p)), call, p)
    {
      match call
      case MapPage(paddr, vaddr, flags, frame) => Map(paddr, vaddr, flags, frame);
      case UnmapPage(vaddr) => Unmap(vaddr);
    }

    /**
     Over every run of maps and unmaps, with a new frame for each table, the
     directory is the flat map that the same calls make, and the processor
     finds the same entries.
     */
    method Run(calls: seq<Call>)
      requires Valid() && Supplied(calls)
      requires forall i :: 0 <= i < |calls| && calls[i].MapPage? ==> Unused(calls[i].frame)
      modifies this, Tables()
      ensures Valid() && (old(Open()) ==> Open())
      ensures forall p: nat :: p < PAGES ==> Entry(p) == FlatEntry(old(Entry(p)), calls, |calls|, p)
      ensures forall p: nat :: p < PAGES ==> Walk(hw, Frames(), p) == Entry(p)
    {
      hide Applied, InRange, IsPresent, PageOf, DirOf, TableOf, Walk;
      for n := 0 to |calls|
        invariant Valid() && fresh(Tables() - old(Tables())) && (old(Open()) ==> Open())
        invariant forall i :: n <= i < |calls| && calls[i].MapPage? ==> Unused(calls[i].frame)
        invariant forall p: nat :: p < PAGES ==> Entry(p) == FlatEntry(old(Entry(p)), calls, n, p)
      {
        Exec(calls[n]);
      }
      forall p: nat | p < PAGES
        ensures Walk(hw, Frames(), p) == Entry(p)
      {
        ProcessorView(p);
      }
    }
  }

  // ----- Runs -----

  datatype Call = MapPage(paddr: Word, vaddr: nat, flags: bv12, frame: nat) | UnmapPage(vaddr: nat)

  /** An address in range, and below the last slot for a map. */
  predicate InRange(call: Call)
  {
    PageOf(call.vaddr) < PAGES && (call.MapPage? ==> DirOf(PageOf(call.vaddr)) != LAST)
  }

  /** Addresses in range, and no frame offered for two tables. */
  predicate Supplied(calls: seq<Call>)
  {
    && (forall i :: 0 <= i < |calls| ==> InRange(calls[i]))
    && (forall i, j :: 0 <= i < j < |calls| && calls[i].MapPage? && calls[j].MapPage? ==>
          calls[i].frame != calls[j].frame)
  }

  /** What a call makes of the entry of a page. */
  function Applied(w: Word, call: Call, page: nat): Word
  {
    if PageOf(call.vaddr) != page then w
    else
      match call
      case MapPage(paddr, _, flags, _) => Word(paddr.frame, paddr.low | PRESENT | flags)
      case UnmapPage(_) => EMPTY
  }

  /** The entry of a page that had w, after the first n calls. */
  function FlatEntry(w: Word, calls: seq<Call>, n: nat, page: nat): Word
    requires n <= |calls|
  {
    if n == 0 then w else Applied(FlatEntry(w, calls, n - 1, page), calls[n - 1], page)
  }
}
