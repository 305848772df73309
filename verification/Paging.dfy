// paging.c: the kernel's page tables as an object. The tables live in physical memory (mem), their frames come
// from the bitmap allocator. The ghost fields record where each table frame sits in the tree.
module Paging {
  import opened Options
  import opened FrameAllocation
  import opened PageTree
  import opened PageEffects
  import opened PageSplits
  import opened PageSupply
  import opened PageNeeds

  /** PAGING_LOOKUP_DESCRIPTOR; physical is the first frame of the leaf. */
  datatype LookupDescriptor = LookupDescriptor(physical: nat, attributes: nat, pageType: nat, status: nat)

  lemma LowBits(attributes: nat)
    ensures attributes % 8 % 2 == attributes % 2
  {
  }

  class AddressSpace {
    const frames: FrameAllocator
    /** GbPageSupport. */
    const gbPages: bool
    /** The frame of the PML4. */
    const pml4: nat
    var mem: Memory
    /** paging_allocated_pages. */
    var allocatedPages: nat
    ghost var node: map<Pos, nat>
    ghost var owner: map<nat, Pos>

    ghost function View(): Tables
      reads this
    {
      Tables(mem, pml4, gbPages, node, owner)
    }

    ghost function State(): Snapshot
      reads this, frames
    {
      Snapshot(View(), frames.free, frames.formerCount)
    }

    /** Between calls, moreover, the last page of all has no translation. */
    ghost predicate Valid()
      reads this, frames, frames.bitmap
    {
      Tree() && Translate(mem, pml4, LAST) == None
    }

    /** The tables form a tree, their frames are marked used in the bitmap, and allocatedPages counts them. */
    ghost predicate Tree()
      reads this, frames, frames.bitmap
    {
      && frames.Valid()
      && Shape(View())
      && allocatedPages == |mem.Keys|
      && (forall f: nat {:trigger Marked(f)} :: Marked(f))
    }

    /** A frame that holds a table is a used frame of the bitmap. */
    ghost predicate Marked(f: nat)
      reads this, frames
    {
      f in mem ==> f !in frames.free && f < 8 * frames.bitmapSize
    }

    lemma AllMarked()
      requires Tree()
      ensures forall f: nat :: f in mem ==> f !in frames.free && f < 8 * frames.bitmapSize
      ensures forall f: nat :: f in frames.free ==> f !in mem
    {
      forall f: nat | f in mem ensures f !in frames.free && f < 8 * frames.bitmapSize { assert Marked(f); }
    }

    /** The start of SetupPaging: an empty PML4 in a frame of its own. */
    constructor (frames: FrameAllocator, gbPages: bool)
      requires frames.Valid() && frames.Supply() != {}
      modifies frames`formerCount, frames`free, frames.bitmap
      ensures this.frames == frames && this.gbPages == gbPages && Valid()
      ensures forall w: nat {:trigger Page(w)} :: Page(w) ==> Translate(mem, pml4, w) == None
      ensures Pool(State()) == old(frames.free) && mem.Keys == {pml4}
    {
      var _, f := frames.AllocOne();
      this.frames, this.gbPages, this.pml4 := frames, gbPages, f;
      mem, allocatedPages := map[f := ZeroTable()], 1;
      node, owner := map[ROOT := f], map[f := ROOT];
      EmptyTree(f, gbPages);
      assert Page(LAST);
    }

    /** alloc_pages(1): one zeroed frame, or none when the search finds no free frame. */
    method AllocPages() returns (ok: bool, f: nat)
      requires frames.Valid()
      modifies this`mem, this`allocatedPages, frames`formerCount, frames`free, frames.bitmap
      ensures frames.Valid()
      ensures ok <==> old(Above(frames.free, frames.formerCount)) != {}
      ensures !ok ==> mem == old(mem) && allocatedPages == old(allocatedPages)
                      && frames.free == old(frames.free) && frames.formerCount == old(frames.formerCount)
      ensures ok ==>
        && f in old(Above(frames.free, frames.formerCount)) && f < 8 * frames.bitmapSize
        && mem == old(mem)[f := ZeroTable()] && allocatedPages == old(allocatedPages) + 1
        && frames.free == old(frames.free) - {f}
        && Above(frames.free, frames.formerCount) == old(Above(frames.free, frames.formerCount)) - {f}
        && old(frames.formerCount) <= frames.formerCount
    {
      ok, f := frames.AllocOne();
      if !ok {
        return;
      }
      mem := mem[f := ZeroTable()];
      allocatedPages := allocatedPages + 1;
    }

    /** free_pages(f, 1). */
    method FreePages(f: nat)
      requires frames.Valid() && f < 8 * frames.bitmapSize
      modifies this`mem, this`allocatedPages, frames`formerCount, frames`free, frames.bitmap
      ensures frames.Valid()
      ensures mem == old(mem) - {f} && mem.Keys == old(mem).Keys - {f}
      ensures f in old(mem) ==> |mem.Keys| == |old(mem).Keys| - 1
      ensures allocatedPages == if old(allocatedPages) >= 1 then old(allocatedPages) - 1 else old(allocatedPages)
      ensures frames.free == old(frames.free) + {f}
      ensures frames.formerCount <= old(frames.formerCount) && frames.formerCount <= f
    {
      frames.FreeFrame(Block(f, 1, Success));
      assert Interval(f, 1) == {f};
      mem := mem - {f};
      assert mem.Keys == old(mem).Keys - {f};
      if allocatedPages >= 1 {
        allocatedPages := allocatedPages - 1;
      }
    }

    /** The table at place p is tableFrame and its level is one of the four. */
    ghost predicate At(tableFrame: nat, p: Pos)
      reads this
    {
      p in node && node[p] == tableFrame
    }

    /** T[x] = alloc_pages(1) | (attributes & 7). */
    method WriteNewTable(tableFrame: nat, x: nat, attributes: nat, ghost p: Pos) returns (ok: bool, ghost f: nat)
      requires Tree() && At(tableFrame, p) && 2 <= p.level <= 4 && x < 512
      requires tableFrame in mem && |mem[tableFrame]| == 512
      modifies this`mem, this`allocatedPages, this`node, this`owner, frames`formerCount, frames`free, frames.bitmap
      ensures frames.Valid()
      ensures !ok ==> Above(frames.free, frames.formerCount) == {} && State() == old(State()) && allocatedPages == old(allocatedPages)
      ensures ok ==>
        && f in old(frames.free) && old(frames.formerCount) <= f && f !in old(mem) && f < 8 * frames.bitmapSize
        && View() == Linked(old(View()), p, x, f, attributes % 8)
        && allocatedPages == old(allocatedPages) + 1
        && frames.free == old(frames.free) - {f}
        && Above(frames.free, frames.formerCount) == old(Above(frames.free, frames.formerCount)) - {f}
        && old(frames.formerCount) <= frames.formerCount
    {
      AllMarked();
      var g;
      ok, g := AllocPages();
      f := g;
      if ok {
        mem := mem[tableFrame := mem[tableFrame][x := Entry(g, attributes % 8, false)]];
        node, owner := node[Down(p, x) := g], owner[g := Down(p, x)];
      }
    }

    /** The same with its consequences: the leaf at this place, if any, gives way to an empty table.
        cur is any page translated through this entry. */
    method NewTable(tableFrame: nat, x: nat, attributes: nat, ghost p: Pos, ghost cur: nat) returns (ok: bool)
      requires Tree() && At(tableFrame, p) && 2 <= p.level <= 4 && x < 512 && attributes % 2 == 1
      requires tableFrame in mem && |mem[tableFrame]| == 512 && !IsTable(mem[tableFrame][x])
      requires Page(cur) && Under(cur, p, x)
      modifies this`mem, this`allocatedPages, this`node, this`owner, frames`formerCount, frames`free, frames.bitmap
      ensures Tree()
      ensures !ok ==> Above(frames.free, frames.formerCount) == {} && State() == old(State())
      ensures AddsOnly(old(View()), View(), {Down(p, x)}) && MadeWith(old(View()), View(), attributes)
      ensures ok ==> Entered(View(), p, x) && At(tableFrame, p)
      ensures ok ==> Reshapes(old(State()), State(), cur, cur + 1)
      ensures ok ==> Displaces(old(mem), mem, pml4, p, x)
    {
      ghost var s := State();
      assert Read(mem, tableFrame, x) == mem[tableFrame][x];
      ghost var f;
      ok, f := WriteNewTable(tableFrame, x, attributes, p);
      if ok {
        LowBits(attributes);
        LinkStep(s, p, x, f, attributes % 8, cur, State());
        forall g: nat ensures Marked(g) { assert old(Marked(g)); }
      }
    }

    /** if (T[x] == 0 || (T[x] & 0x80)) T[x] = alloc_pages(1) | (attributes & 7); then the table behind T[x]. */
    method EnsureTable(tableFrame: nat, x: nat, attributes: nat, ghost p: Pos, ghost cur: nat) returns (ok: bool, child: nat)
      requires Tree() && At(tableFrame, p) && 2 <= p.level && x < 512 && attributes % 2 == 1
      requires Page(cur) && Under(cur, p, x)
      modifies this`mem, this`allocatedPages, this`node, this`owner, frames`formerCount, frames`free, frames.bitmap
      ensures Tree()
      ensures !ok ==> Above(frames.free, frames.formerCount) == {} && State() == old(State()) && Down(p, x) !in node
      ensures AddsOnly(old(View()), View(), {Down(p, x)}) && KeepsLast(old(mem), mem, pml4)
      ensures MadeWith(old(View()), View(), attributes)
      ensures ok ==> At(child, Down(p, x)) && At(tableFrame, p)
      ensures ok ==> Reshapes(old(State()), State(), cur, cur + 1)
      ensures ok ==> Displaces(old(mem), mem, pml4, p, x)
    {
      assert NodeOk(View(), p) && EntryOk(View(), p, x);
      if mem[tableFrame][x] == ZERO || mem[tableFrame][x].huge {
        ghost var s := State();
        ok := NewTable(tableFrame, x, attributes, p, cur);
        if !ok {
          NoTableHere(s.t, p, x);
          return false, 0;
        }
        DisplacesKeepLast(s.t.mem, mem, pml4, p, x);
      } else {
        TableDisplacesNothing(View(), p, x);
        assert Entered(View(), p, x);
      }
      ok, child := true, mem[tableFrame][x].frame;
    }

    /** free_pages(PD[x]); PD[x] = e. */
    method FreePt(pd: nat, x: nat, e: Entry, ghost p: Pos)
      requires Tree() && At(pd, p) && p.level == 2 && x < 512 && pd in mem && |mem[pd]| == 512 && IsTable(mem[pd][x])
      requires mem.Keys <= owner.Keys && owner[pd] == p
      modifies this`mem, this`allocatedPages, this`node, this`owner, frames`formerCount, frames`free, frames.bitmap
      ensures frames.Valid()
      ensures View() == Unlinked(old(View()), p, x, e)
      ensures allocatedPages == old(allocatedPages) - |GoneFrames(old(View()), Down(p, x))|
      ensures frames.free == old(frames.free) + GoneFrames(old(View()), Down(p, x))
      ensures frames.formerCount <= old(frames.formerCount)
      ensures forall f :: f in GoneFrames(old(View()), Down(p, x)) ==> frames.formerCount <= f
    {
      ghost var t, q, pt := View(), Down(p, x), mem[pd][x].frame;
      EntryIsOneTable(t, p, x);
      assert Marked(pt);
      FreePages(mem[pd][x].frame);
      mem := mem[pd := mem[pd][x := e]];
      node, owner := Unlinked(t, p, x, e).node, owner - {pt};
    }

    /** One round of the loop of free_pdpt. */
    method FreePdEntry(pd: nat, i: nat)
      requires frames.Valid() && pd in mem && |mem[pd]| == 512 && i < 512 && allocatedPages == |mem.Keys|
      requires IsTable(mem[pd][i]) ==> mem[pd][i].frame in mem && mem[pd][i].frame < 8 * frames.bitmapSize
      modifies this`mem, this`allocatedPages, frames`formerCount, frames`free, frames.bitmap
      ensures frames.Valid() && allocatedPages == |mem.Keys|
      ensures mem == AfterPdEntry(old(mem), pd, i)
      ensures frames.formerCount <= old(frames.formerCount)
      ensures var e := old(mem)[pd][i];
              if IsTable(e) then frames.free == old(frames.free) + {e.frame} && frames.formerCount <= e.frame
              else frames.free == old(frames.free)
    {
      if !mem[pd][i].huge && Present(mem[pd][i]) {
        FreePages(mem[pd][i].frame);
      } else {
        mem := mem[pd := mem[pd][i := ZERO]];
        assert mem.Keys == old(mem).Keys;
      }
    }

    /** The same, with what was freed so far. */
    method FreeNextPt(pd: nat, i: nat, ghost s: Snapshot, ghost q: Pos)
      requires frames.Valid() && allocatedPages == |mem.Keys| && i < 512
      requires Freeing(s, mem, frames.free, frames.formerCount, q, i) && pd == s.t.node[q]
      requires forall f :: f in s.t.mem ==> f < 8 * frames.bitmapSize
      modifies this`mem, this`allocatedPages, frames`formerCount, frames`free, frames.bitmap
      ensures frames.Valid() && allocatedPages == |mem.Keys|
      ensures Freeing(s, mem, frames.free, frames.formerCount, q, i + 1)
    {
      ghost var m, free, hint := mem, frames.free, frames.formerCount;
      FreeingEntry(s, m, free, hint, q, i);
      FreePdEntry(pd, i);
      FreeingStep(s, m, free, hint, q, i, mem, frames.free, frames.formerCount);
    }

    /** free_pdpt on an entry that points to a page directory: the directory at place q and every page table behind it. */
    method FreePdpt(pd: nat, ghost q: Pos)
      requires Tree() && At(pd, q) && q.level == 2 && mem.Keys <= owner.Keys && pd in mem && |mem[pd]| == 512
      modifies this`mem, this`allocatedPages, frames`formerCount, frames`free, frames.bitmap
      ensures frames.Valid()
      ensures mem == old(mem) - GoneFrames(old(View()), q)
      ensures allocatedPages == |mem.Keys|
      ensures frames.free == old(frames.free) + GoneFrames(old(View()), q)
      ensures frames.formerCount <= old(frames.formerCount)
      ensures forall f :: f in GoneFrames(old(View()), q) ==> frames.formerCount <= f
    {
      ghost var s := State();
      AllMarked();
      FreeingStart(s, q);
      for i := 0 to 512
        invariant frames.Valid() && allocatedPages == |mem.Keys|
        invariant Freeing(s, mem, frames.free, frames.formerCount, q, i)
      {
        FreeNextPt(pd, i, s, q);
      }
      FreeingEnd(s, mem, frames.free, frames.formerCount, q);
      FreePages(pd);
    }

    /** PD[x] = e, giving back the page table PD[x] pointed to, if any. */
    method ReplacePde(pd: nat, x: nat, e: Entry, ghost p: Pos, ghost lo: nat, ghost hi: nat)
      requires Tree() && At(pd, p) && p.level == 2 && x < 512 && LeafOk(e, 2, gbPages)
      requires lo == (p.n * 512 + x) * 512 && hi == lo + 512
      modifies this`mem, this`allocatedPages, this`node, this`owner, frames`formerCount, frames`free, frames.bitmap
      ensures Tree() && At(pd, p)
      ensures Reshapes(old(State()), State(), lo, hi)
      ensures Sets(old(mem), mem, pml4, lo, hi, e, 2) && mem.Keys <= old(mem).Keys && node.Keys <= old(node).Keys
    {
      ghost var s := State();
      OwnersKnown(s.t, p);
      assert Read(mem, pd, x) == mem[pd][x];
      if !mem[pd][x].huge && Present(mem[pd][x]) {
        FreePt(pd, x, e, p);
        UnlinkStep(s, p, x, e, State(), lo, hi);
        forall f: nat ensures Marked(f) { assert old(Marked(f)); }
      } else {
        mem := mem[pd := mem[pd][x := e]];
        WriteStep(s, p, x, e, State(), lo, hi);
        forall f: nat ensures Marked(f) { assert old(Marked(f)); }
      }
    }

    /** free_pdpt(&PDPT[x]); PDPT[x] = e. */
    method FreePd(pdpt: nat, x: nat, e: Entry, ghost p: Pos)
      requires Tree() && At(pdpt, p) && p.level == 3 && x < 512 && pdpt in mem && |mem[pdpt]| == 512 && IsTable(mem[pdpt][x])
      requires mem.Keys <= owner.Keys && owner[pdpt] == p
      modifies this`mem, this`allocatedPages, this`node, this`owner, frames`formerCount, frames`free, frames.bitmap
      ensures frames.Valid() && allocatedPages == |mem.Keys|
      ensures View() == Unlinked(old(View()), p, x, e)
      ensures frames.free == old(frames.free) + GoneFrames(old(View()), Down(p, x))
      ensures frames.formerCount <= old(frames.formerCount)
      ensures forall f :: f in GoneFrames(old(View()), Down(p, x)) ==> frames.formerCount <= f
    {
      ghost var t, q := View(), Down(p, x);
      EntryIsDirectory(t, p, x);
      FreePdpt(mem[pdpt][x].frame, q);
      ghost var m := mem;
      mem := mem[pdpt := mem[pdpt][x := e]];
      assert mem.Keys == m.Keys;
      node, owner := Unlinked(t, p, x, e).node, Unlinked(t, p, x, e).owner;
    }

    /** PDPT[x] = e, giving back the tables PDPT[x] led to, if any. */
    method ReplacePdpte(pdpt: nat, x: nat, e: Entry, ghost p: Pos, ghost lo: nat, ghost hi: nat)
      requires Tree() && At(pdpt, p) && p.level == 3 && x < 512 && LeafOk(e, 3, gbPages)
      requires lo == (p.n * 512 + x) * 262144 && hi == lo + 262144
      modifies this`mem, this`allocatedPages, this`node, this`owner, frames`formerCount, frames`free, frames.bitmap
      ensures Tree() && At(pdpt, p)
      ensures Reshapes(old(State()), State(), lo, hi)
      ensures Sets(old(mem), mem, pml4, lo, hi, e, 3) && mem.Keys <= old(mem).Keys && node.Keys <= old(node).Keys
    {
      ghost var s := State();
      OwnersKnown(s.t, p);
      assert Read(mem, pdpt, x) == mem[pdpt][x];
      if !mem[pdpt][x].huge && Present(mem[pdpt][x]) {
        FreePd(pdpt, x, e, p);
        UnlinkStep(s, p, x, e, State(), lo, hi);
        forall f: nat ensures Marked(f) { assert old(Marked(f)); }
      } else {
        mem := mem[pdpt := mem[pdpt][x := e]];
        WriteStep(s, p, x, e, State(), lo, hi);
        forall f: nat ensures Marked(f) { assert old(Marked(f)); }
      }
    }

    /** PT[x] = e. */
    method ReplacePte(pt: nat, x: nat, e: Entry, ghost p: Pos, ghost lo: nat, ghost hi: nat)
      requires Tree() && At(pt, p) && p.level == 1 && x < 512 && LeafOk(e, 1, gbPages)
      requires lo == p.n * 512 + x && hi == lo + 1
      modifies this`mem
      ensures Tree() && At(pt, p)
      ensures Reshapes(old(State()), State(), lo, hi)
      ensures Sets(old(mem), mem, pml4, lo, hi, e, 1) && mem.Keys <= old(mem).Keys && node.Keys <= old(node).Keys
    {
      ghost var s := State();
      OwnersKnown(s.t, p);
      mem := mem[pt := mem[pt][x := e]];
      WriteStep(s, p, x, e, State(), lo, hi);
      forall f: nat ensures Marked(f) { assert old(Marked(f)); }
    }

    // The inner loops of create_mapping: count leaves of one size in one table, for the pages [lo, hi).

    method MapPdptes(pdpt: nat, x: nat, count: nat, frame: nat, attributes: nat, ghost p: Pos, ghost lo: nat, ghost hi: nat)
      requires Tree() && At(pdpt, p) && p.level == 3 && x + count <= 512 && attributes % 2 == 1 && gbPages && Aligned(frame, 3)
      requires lo == (p.n * 512 + x) * 262144 && hi == (p.n * 512 + x + count) * 262144
      modifies this`mem, this`allocatedPages, this`node, this`owner, frames`formerCount, frames`free, frames.bitmap
      ensures Tree()
      ensures Reshapes(old(State()), State(), lo, hi)
      ensures Filled(old(mem), mem, pml4, lo, hi, frame, attributes, 3) && node.Keys <= old(node).Keys
    {
      var physical := frame;
      ghost var s, mid := State(), lo;
      for i := 0 to count
        invariant Tree() && At(pdpt, p) && physical == frame + (mid - lo) && lo <= mid == (p.n * 512 + x + i) * 262144
        invariant Aligned(physical, 3)
        invariant Reshapes(s, State(), lo, mid)
        invariant Filled(s.t.mem, mem, pml4, lo, mid, frame, attributes, 3) && node.Keys <= s.t.node.Keys
      {
        ghost var s1, next := State(), mid + 262144;
        var e := Entry(physical, attributes, true);
        ReplacePdpte(pdpt, x + i, e, p, mid, next);
        ReshapesAppend(s, s1, State(), lo, mid, next);
        FilledStep(s.t.mem, s1.t.mem, mem, pml4, lo, mid, next, frame, e, 3);
        physical := physical + 262144;
        mid := next;
      }
    }

    method MapPdes(pd: nat, x: nat, count: nat, frame: nat, attributes: nat, ghost p: Pos, ghost lo: nat, ghost hi: nat)
      requires Tree() && At(pd, p) && p.level == 2 && x + count <= 512 && attributes % 2 == 1 && Aligned(frame, 2)
      requires lo == (p.n * 512 + x) * 512 && hi == (p.n * 512 + x + count) * 512
      modifies this`mem, this`allocatedPages, this`node, this`owner, frames`formerCount, frames`free, frames.bitmap
      ensures Tree()
      ensures Reshapes(old(State()), State(), lo, hi)
      ensures Filled(old(mem), mem, pml4, lo, hi, frame, attributes, 2) && node.Keys <= old(node).Keys
    {
      var physical := frame;
      ghost var s, mid := State(), lo;
      for i := 0 to count
        invariant Tree() && At(pd, p) && physical == frame + (mid - lo) && lo <= mid == (p.n * 512 + x + i) * 512
        invariant Aligned(physical, 2)
        invariant Reshapes(s, State(), lo, mid)
        invariant Filled(s.t.mem, mem, pml4, lo, mid, frame, attributes, 2) && node.Keys <= s.t.node.Keys
      {
        ghost var s1, next := State(), mid + 512;
        var e := Entry(physical, attributes, true);
        ReplacePde(pd, x + i, e, p, mid, next);
        ReshapesAppend(s, s1, State(), lo, mid, next);
        FilledStep(s.t.mem, s1.t.mem, mem, pml4, lo, mid, next, frame, e, 2);
        physical := physical + 512;
        mid := next;
      }
    }

    method MapPtes(pt: nat, x: nat, count: nat, frame: nat, attributes: nat, ghost p: Pos, ghost lo: nat, ghost hi: nat)
      requires Tree() && At(pt, p) && p.level == 1 && x + count <= 512 && attributes % 2 == 1
      requires lo == p.n * 512 + x && hi == p.n * 512 + x + count
      modifies this`mem, this`allocatedPages, this`node, this`owner, frames`formerCount, frames`free, frames.bitmap
      ensures Tree()
      ensures Reshapes(old(State()), State(), lo, hi)
      ensures Filled(old(mem), mem, pml4, lo, hi, frame, attributes, 1) && node.Keys <= old(node).Keys
    {
      var physical := frame;
      ghost var s, mid := State(), lo;
      for i := 0 to count
        invariant Tree() && At(pt, p) && physical == frame + (mid - lo) && lo <= mid == p.n * 512 + x + i
        invariant Reshapes(s, State(), lo, mid)
        invariant Filled(s.t.mem, mem, pml4, lo, mid, frame, attributes, 1) && node.Keys <= s.t.node.Keys
      {
        ghost var s1, next := State(), mid + 1;
        var e := Entry(physical, attributes, false);
        ReplacePte(pt, x + i, e, p, mid, next);
        ReshapesAppend(s, s1, State(), lo, mid, next);
        FilledStep(s.t.mem, s1.t.mem, mem, pml4, lo, mid, next, frame, e, 1);
        physical := physical + 1;
        mid := next;
      }
    }

    // The inner loops of destroy_mapping.

    method ClearPdptes(pdpt: nat, x: nat, count: nat, ghost p: Pos, ghost lo: nat, ghost hi: nat)
      requires Tree() && At(pdpt, p) && p.level == 3 && x + count <= 512
      requires lo == (p.n * 512 + x) * 262144 && hi == (p.n * 512 + x + count) * 262144
      modifies this`mem, this`allocatedPages, this`node, this`owner, frames`formerCount, frames`free, frames.bitmap
      ensures Tree()
      ensures Reshapes(old(State()), State(), lo, hi)
      ensures Cleared(old(mem), mem, pml4, lo, hi) && mem.Keys <= old(mem).Keys && node.Keys <= old(node).Keys
    {
      ghost var s, mid := State(), lo;
      for i := 0 to count
        invariant Tree() && At(pdpt, p) && lo <= mid == (p.n * 512 + x + i) * 262144
        invariant Reshapes(s, State(), lo, mid)
        invariant Cleared(s.t.mem, mem, pml4, lo, mid) && mem.Keys <= s.t.mem.Keys && node.Keys <= s.t.node.Keys
      {
        ghost var s1, next := State(), mid + 262144;
        ReplacePdpte(pdpt, x + i, ZERO, p, mid, next);
        ReshapesAppend(s, s1, State(), lo, mid, next);
        ClearedStep(s.t.mem, s1.t.mem, mem, pml4, lo, mid, next, 3);
        mid := next;
      }
    }

    method ClearPdes(pd: nat, x: nat, count: nat, ghost p: Pos, ghost lo: nat, ghost hi: nat)
      requires Tree() && At(pd, p) && p.level == 2 && x + count <= 512
      requires lo == (p.n * 512 + x) * 512 && hi == (p.n * 512 + x + count) * 512
      modifies this`mem, this`allocatedPages, this`node, this`owner, frames`formerCount, frames`free, frames.bitmap
      ensures Tree()
      ensures Reshapes(old(State()), State(), lo, hi)
      ensures Cleared(old(mem), mem, pml4, lo, hi) && mem.Keys <= old(mem).Keys && node.Keys <= old(node).Keys
    {
      ghost var s, mid := State(), lo;
      for i := 0 to count
        invariant Tree() && At(pd, p) && lo <= mid == (p.n * 512 + x + i) * 512
        invariant Reshapes(s, State(), lo, mid)
        invariant Cleared(s.t.mem, mem, pml4, lo, mid) && mem.Keys <= s.t.mem.Keys && node.Keys <= s.t.node.Keys
      {
        ghost var s1, next := State(), mid + 512;
        ReplacePde(pd, x + i, ZERO, p, mid, next);
        ReshapesAppend(s, s1, State(), lo, mid, next);
        ClearedStep(s.t.mem, s1.t.mem, mem, pml4, lo, mid, next, 2);
        mid := next;
      }
    }

    method ClearPtes(pt: nat, x: nat, count: nat, ghost p: Pos, ghost lo: nat, ghost hi: nat)
      requires Tree() && At(pt, p) && p.level == 1 && x + count <= 512
      requires lo == p.n * 512 + x && hi == p.n * 512 + x + count
      modifies this`mem, this`allocatedPages, this`node, this`owner, frames`formerCount, frames`free, frames.bitmap
      ensures Tree()
      ensures Reshapes(old(State()), State(), lo, hi)
      ensures Cleared(old(mem), mem, pml4, lo, hi) && mem.Keys <= old(mem).Keys && node.Keys <= old(node).Keys
    {
      ghost var s, mid := State(), lo;
      for i := 0 to count
        invariant Tree() && At(pt, p) && lo <= mid == p.n * 512 + x + i
        invariant Reshapes(s, State(), lo, mid)
        invariant Cleared(s.t.mem, mem, pml4, lo, mid) && mem.Keys <= s.t.mem.Keys && node.Keys <= s.t.node.Keys
      {
        ghost var s1, next := State(), mid + 1;
        ReplacePte(pt, x + i, ZERO, p, mid, next);
        ReshapesAppend(s, s1, State(), lo, mid, next);
        ClearedStep(s.t.mem, s1.t.mem, mem, pml4, lo, mid, next, 1);
        mid := next;
      }
    }

    // One round of the outer loop of create_mapping from page v on, by the table it has reached: leaves for [v, hi).

    method MapGb(pdpt: nat, v: nat, ph: nat, pages: nat, attributes: nat, ghost p: Pos) returns (hi: nat)
      requires Tree() && At(pdpt, p) && p == Pos(3, Prefix(v, 3)) && v + pages < PAGES && attributes % 2 == 1
      requires v % 262144 == 0 && Aligned(ph, 3) && pages >= 262144 && gbPages
      modifies this`mem, this`allocatedPages, this`node, this`owner, frames`formerCount, frames`free, frames.bitmap
      ensures Tree() && v < hi <= v + pages && hi % 262144 == 0 && node.Keys <= old(node).Keys
      ensures Reshapes(old(State()), State(), v, hi)
      ensures Maps(old(mem), mem, pml4, v, hi, ph, attributes)
    {
      ghost var s := State();
      var gbCount, pdptIndex := pages / 262144, v / 512 / 512 % 512;
      if gbCount + pdptIndex >= 512 {
        gbCount := 512 - pdptIndex;
      }
      hi := v + gbCount * 262144;
      GbChunk(v, gbCount, hi);
      MapPdptes(pdpt, pdptIndex, gbCount, ph, attributes, p, v, hi);
      TableExcludesLeaf(s.t, 3, v);
      RunMaps(s.t.mem, mem, pml4, v, hi, ph, attributes, 3);
    }

    method MapMb(pd: nat, v: nat, ph: nat, pages: nat, attributes: nat, ghost p: Pos) returns (hi: nat)
      requires Tree() && At(pd, p) && p == Pos(2, Prefix(v, 2)) && v + pages < PAGES && attributes % 2 == 1
      requires v % 512 == 0 && Aligned(ph, 2) && pages >= 512
      modifies this`mem, this`allocatedPages, this`node, this`owner, frames`formerCount, frames`free, frames.bitmap
      ensures Tree() && v < hi <= v + pages && hi % 512 == 0 && hi <= v - v % 262144 + 262144 && node.Keys <= old(node).Keys
      ensures Reshapes(old(State()), State(), v, hi)
      ensures Maps(old(mem), mem, pml4, v, hi, ph, attributes)
    {
      ghost var s := State();
      var mbCount, pdIndex := pages / 512, v / 512 % 512;
      if mbCount + pdIndex >= 512 {
        mbCount := 512 - pdIndex;
      }
      hi := v + mbCount * 512;
      MbChunk(v, mbCount, hi);
      MapPdes(pd, pdIndex, mbCount, ph, attributes, p, v, hi);
      TableExcludesLeaf(s.t, 2, v);
      RunMaps(s.t.mem, mem, pml4, v, hi, ph, attributes, 2);
    }

    method MapKb(pt: nat, v: nat, ph: nat, pages: nat, attributes: nat, ghost p: Pos) returns (hi: nat)
      requires Tree() && At(pt, p) && p == Pos(1, Prefix(v, 1)) && v + pages < PAGES && attributes % 2 == 1
      requires pages > 0
      modifies this`mem, this`allocatedPages, this`node, this`owner, frames`formerCount, frames`free, frames.bitmap
      ensures Tree() && v < hi <= v + pages && hi <= v - v % 512 + 512 && node.Keys <= old(node).Keys
      ensures Reshapes(old(State()), State(), v, hi)
      ensures Maps(old(mem), mem, pml4, v, hi, ph, attributes)
    {
      ghost var s := State();
      var kbCount, ptIndex := pages, v % 512;
      if kbCount + ptIndex >= 512 {
        kbCount := 512 - ptIndex;
      }
      hi := v + kbCount;
      KbChunk(v, kbCount, hi);
      MapPtes(pt, ptIndex, kbCount, ph, attributes, p, v, hi);
      TableExcludesLeaf(s.t, 1, v);
      RunMaps(s.t.mem, mem, pml4, v, hi, ph, attributes, 1);
    }

    method MapInPd(pd: nat, v: nat, ph: nat, pages: nat, attributes: nat, ghost p: Pos) returns (ok: bool, hi: nat)
      requires Tree() && At(pd, p) && p == Pos(2, Prefix(v, 2)) && pages > 0 && v + pages < PAGES && attributes % 2 == 1
      requires !LeafFits(gbPages, 3, v, ph, pages)
      modifies this`mem, this`allocatedPages, this`node, this`owner, frames`formerCount, frames`free, frames.bitmap
      ensures Tree()
      ensures !ok ==> StarvedAt(old(State()), State(), v, ph, pages)
      ensures AddsOnPath(old(View()), View(), v, ph, pages) && KeepsLast(old(mem), mem, pml4)
      ensures ok ==> ChunkEnds(gbPages, v, ph, pages, hi)
      ensures ok ==> Reshapes(old(State()), State(), v, hi)
      ensures ok ==> Maps(old(mem), mem, pml4, v, hi, ph, attributes) && MadeWith(old(View()), View(), attributes)
    {
      if v % 512 == 0 && ph % 512 == 0 && pages / 512 > 0 {
        ghost var m := mem;
        hi := MapMb(pd, v, ph, pages, attributes, p);
        ok := true;
        MapsKeepLast(m, mem, pml4, v, hi, ph, attributes);
      } else {
        ok, hi := MapInPt(pd, v, ph, pages, attributes, p);
      }
    }

    /** The page table of v, made if need be, takes single pages. */
    method MapInPt(pd: nat, v: nat, ph: nat, pages: nat, attributes: nat, ghost p: Pos) returns (ok: bool, hi: nat)
      requires Tree() && At(pd, p) && p == Pos(2, Prefix(v, 2)) && pages > 0 && v + pages < PAGES && attributes % 2 == 1
      requires !LeafFits(gbPages, 3, v, ph, pages) && !LeafFits(gbPages, 2, v, ph, pages)
      modifies this`mem, this`allocatedPages, this`node, this`owner, frames`formerCount, frames`free, frames.bitmap
      ensures Tree()
      ensures !ok ==> StarvedAt(old(State()), State(), v, ph, pages)
      ensures AddsOnPath(old(View()), View(), v, ph, pages) && KeepsLast(old(mem), mem, pml4)
      ensures ok ==> ChunkEnds(gbPages, v, ph, pages, hi)
      ensures ok ==> Reshapes(old(State()), State(), v, hi)
      ensures ok ==> Maps(old(mem), mem, pml4, v, hi, ph, attributes) && MadeWith(old(View()), View(), attributes)
    {
      ghost var s, q := State(), Down(p, v / 512 % 512);
      var child;
      ok, child := EnsureTable(pd, v / 512 % 512, attributes, p, v);
      hi := v;
      if !ok {
        StarvedHere(s, q, v, ph, pages);
        return;
      }
      ghost var s1 := State();
      hi := MapKb(child, v, ph, pages, attributes, q);
      MapsKeepLast(s1.t.mem, mem, pml4, v, hi, ph, attributes);
      MadeAppend(s, s1, State(), v, hi, attributes);
      DisplacedMaps(s.t.mem, s1.t.mem, mem, pml4, p, v / 512 % 512, v, hi, ph, attributes);
      ReshapesWithin(s, s1, State(), v, hi);
    }

    method MapInPdpt(pdpt: nat, v: nat, ph: nat, pages: nat, attributes: nat, ghost p: Pos) returns (ok: bool, hi: nat)
      requires Tree() && At(pdpt, p) && p == Pos(3, Prefix(v, 3)) && pages > 0 && v + pages < PAGES && attributes % 2 == 1
      modifies this`mem, this`allocatedPages, this`node, this`owner, frames`formerCount, frames`free, frames.bitmap
      ensures Tree()
      ensures !ok ==> StarvedAt(old(State()), State(), v, ph, pages)
      ensures AddsOnPath(old(View()), View(), v, ph, pages) && KeepsLast(old(mem), mem, pml4)
      ensures ok ==> ChunkEnds(gbPages, v, ph, pages, hi)
      ensures ok ==> Reshapes(old(State()), State(), v, hi)
      ensures ok ==> Maps(old(mem), mem, pml4, v, hi, ph, attributes) && MadeWith(old(View()), View(), attributes)
    {
      if v % 262144 == 0 && ph % 262144 == 0 && gbPages && pages / 262144 > 0 {
        ghost var m := mem;
        hi := MapGb(pdpt, v, ph, pages, attributes, p);
        ok := true;
        MapsKeepLast(m, mem, pml4, v, hi, ph, attributes);
      } else {
        ghost var s, q := State(), Down(p, v / 512 / 512 % 512);
        var child;
        ok, child := EnsureTable(pdpt, v / 512 / 512 % 512, attributes, p, v);
        hi := v;
        if !ok {
          StarvedHere(s, q, v, ph, pages);
          return;
        }
        ghost var s1 := State();
        ok, hi := MapInPd(child, v, ph, pages, attributes, q);
        AddsAppend(s.t, s1.t, View(), q, v, ph, pages);
        if !ok {
          StarvedAfter(s, s1, State(), v, ph, pages);
          return;
        }
        MadeAppend(s, s1, State(), v, hi, attributes);
        DisplacedMaps(s.t.mem, s1.t.mem, mem, pml4, p, v / 512 / 512 % 512, v, hi, ph, attributes);
        ReshapesWithin(s, s1, State(), v, hi);
      }
    }

    method MapInPml4(top: nat, v: nat, ph: nat, pages: nat, attributes: nat, ghost p: Pos) returns (ok: bool, hi: nat)
      requires Tree() && At(top, p) && p == Pos(4, Prefix(v, 4)) && pages > 0 && v + pages < PAGES && attributes % 2 == 1
      modifies this`mem, this`allocatedPages, this`node, this`owner, frames`formerCount, frames`free, frames.bitmap
      ensures Tree()
      ensures !ok ==> StarvedAt(old(State()), State(), v, ph, pages)
      ensures AddsOnPath(old(View()), View(), v, ph, pages) && KeepsLast(old(mem), mem, pml4)
      ensures ok ==> ChunkEnds(gbPages, v, ph, pages, hi)
      ensures ok ==> Reshapes(old(State()), State(), v, hi)
      ensures ok ==> Maps(old(mem), mem, pml4, v, hi, ph, attributes) && MadeWith(old(View()), View(), attributes)
    {
      ghost var s, q := State(), Down(p, v / 512 / 512 / 512 % 512);
      var child;
      ok, child := EnsureTable(top, v / 512 / 512 / 512 % 512, attributes, p, v);
      hi := v;
      if !ok {
        StarvedHere(s, q, v, ph, pages);
        return;
      }
      ghost var s1 := State();
      ok, hi := MapInPdpt(child, v, ph, pages, attributes, q);
      AddsAppend(s.t, s1.t, View(), q, v, ph, pages);
      if !ok {
        StarvedAfter(s, s1, State(), v, ph, pages);
        return;
      }
      MadeAppend(s, s1, State(), v, hi, attributes);
      DisplacedMaps(s.t.mem, s1.t.mem, mem, pml4, p, v / 512 / 512 / 512 % 512, v, hi, ph, attributes);
      ReshapesWithin(s, s1, State(), v, hi);
    }

    /** The part [virtual, v) of a range that ends at `end` is mapped, and only tables it needs were made. */
    ghost predicate MapUnderway(s: Snapshot, virtual: nat, v: nat, end: nat, physical: nat, attributes: nat)
      reads this, frames, frames.bitmap
    {
      && Valid() && Shape(s.t) && Ready(gbPages, virtual, v, end, physical) && AddsNeeded(s.t, View(), virtual, end, physical)
      && Reshapes(s, State(), virtual, v) && Maps(s.t.mem, mem, pml4, virtual, v, physical, attributes)
      && MadeWith(s.t, View(), attributes)
    }

    /** One round of create_mapping. */
    method MapRound(ghost s: Snapshot, ghost virtual: nat, v: nat, ph: nat, left: nat, ghost end: nat, ghost physical: nat,
                    attributes: nat)
      returns (ok: bool, hi: nat)
      requires MapUnderway(s, virtual, v, end, physical, attributes) && virtual <= v < end < PAGES && left == end - v
      requires ph == physical + (v - virtual) && attributes % 2 == 1
      modifies this`mem, this`allocatedPages, this`node, this`owner, frames`formerCount, frames`free, frames.bitmap
      ensures Valid() && Conserves(s, State()) && AddsNeeded(s.t, View(), virtual, end, physical)
      ensures !ok ==> Above(frames.free, frames.formerCount) == {} && LacksNeeded(s.t, View(), virtual, end, physical)
      ensures ok ==> v < hi <= end && MapUnderway(s, virtual, hi, end, physical, attributes)
    {
      ghost var s1 := State();
      assert NodeOk(s1.t, ROOT);
      ok, hi := MapInPml4(pml4, v, ph, left, attributes, ROOT);
      if !ok {
        ConservesAppend(s, s1, State());
        NeededAtEnd(s, s1, State(), virtual, v, end, physical);
        return;
      }
      NeededStep(s, s1, State(), virtual, v, hi, end, physical);
      ReadyStep(gbPages, virtual, v, end, physical, hi);
      MadeAppend(s, s1, State(), v, hi, attributes);
      ReshapesAppend(s, s1, State(), virtual, v, hi);
      MapsAppend(s.t.mem, s1.t.mem, mem, pml4, virtual, v, hi, physical, attributes);
    }

    /** The outer loop of create_mapping. */
    method MapRange(virtual: nat, physical: nat, pages: nat, attributes: nat) returns (ok: bool)
      requires Valid() && virtual + pages < PAGES && attributes % 2 == 1
      modifies this`mem, this`allocatedPages, this`node, this`owner, frames`formerCount, frames`free, frames.bitmap
      ensures Valid() && Conserves(old(State()), State()) && AddsNeeded(old(View()), View(), virtual, virtual + pages, physical)
      ensures !ok ==> Above(frames.free, frames.formerCount) == {} && LacksNeeded(old(View()), View(), virtual, virtual + pages, physical)
      ensures ok ==> Reshapes(old(State()), State(), virtual, virtual + pages)
      ensures ok ==> Maps(old(mem), mem, pml4, virtual, virtual + pages, physical, attributes)
      ensures ok ==> MadeWith(old(View()), View(), attributes)
    {
      ghost var s := State();
      MapsNothing(mem, pml4, virtual, physical, attributes);
      var v, ph, left, end := virtual, physical, pages, virtual + pages;
      ReadyStart(gbPages, virtual, end, physical);
      while v < end
        invariant virtual <= v <= end && ph == physical + (v - virtual) && left == end - v
        invariant MapUnderway(s, virtual, v, end, physical, attributes)
      {
        var hi;
        ok, hi := MapRound(s, virtual, v, ph, left, end, physical, attributes);
        if !ok {
          return;
        }
        ph, left, v := ph + (hi - v), left - (hi - v), hi;
      }
      ok := true;
    }

    /** create_mapping: after it, page virtual + i is translated to frame physical + i with these attributes.
        The C function does not look at the outcome of alloc_frame; here ok is false once a search found nothing.
        A range that ends at the end of the address space has the end address 0, and nothing is mapped. */
    method CreateMapping(virtual: nat, physical: nat, pages: nat, attributes: nat) returns (ok: bool)
      requires Valid() && InOneHalf(virtual, pages) && attributes % 2 == 1
      modifies this`mem, this`allocatedPages, this`node, this`owner, frames`formerCount, frames`free, frames.bitmap
      ensures Valid() && Conserves(old(State()), State())
      ensures AddsNeeded(old(View()), View(), virtual, virtual + pages, physical)
      ensures !ok ==> Above(frames.free, frames.formerCount) == {}
      ensures !ok ==> LacksNeeded(old(View()), View(), virtual, virtual + pages, physical)
      ensures |old(Supply(State()))| >= |old(Needed(View(), virtual, virtual + pages, physical))| ==> ok
      ensures virtual + pages == PAGES ==> ok && State() == old(State())
      ensures ok && virtual + pages < PAGES ==>
        && Reshapes(old(State()), State(), virtual, virtual + pages)
        && Maps(old(mem), mem, pml4, virtual, virtual + pages, physical, attributes)
        && MadeWith(old(View()), View(), attributes)
    {
      ghost var s := State();
      var end := (virtual + pages) % PAGES;
      if end <= virtual {
        assert pages > 0 ==> virtual + pages == PAGES;
        MapsNothing(mem, pml4, virtual, physical, attributes);
        return true;
      }
      assert end == virtual + pages;
      AllMarked();
      ok := MapRange(virtual, physical, pages, attributes);
      if !ok {
        EnoughSupply(s, State(), virtual, virtual + pages, physical);
      }
    }

    /** paging_lookup: 0, or the level at which the walk ended without a translation. */
    method PagingLookup(w: nat) returns (r: LookupDescriptor)
      requires Valid() && Page(w)
      ensures r.status <= 4 && (r.status == 0 <==> Translate(mem, pml4, w).Some?)
      ensures r.status == 0 ==>
        var x := Translate(mem, pml4, w).value;
        r.pageType + 1 == x.level && r.attributes == x.attributes && r.physical + w % Span(x.level) == x.frame
      ensures r.status == 1 <==> Pos(3, Prefix(w, 3)) !in node
      ensures r.status == 2 <==> Pos(3, Prefix(w, 3)) in node && EntryAt(View(), w, 3) == ZERO
      ensures r.status == 3 <==> Pos(2, Prefix(w, 2)) in node && EntryAt(View(), w, 2) == ZERO
      ensures r.status == 4 <==> Pos(1, Prefix(w, 1)) in node && EntryAt(View(), w, 1) == ZERO
    {
      ghost var t := View();
      WalkSeesTree(t, w);
      PathStep(t, w, 4);
      PathStep(t, w, 3);
      PathStep(t, w, 2);
      LastStep(t, w);
      assert NodeOk(t, ROOT) && NodeOk(t, Pos(3, Prefix(w, 3))) && NodeOk(t, Pos(2, Prefix(w, 2))) && NodeOk(t, Pos(1, Prefix(w, 1)));
      var ptIndex, pdIndex, pdptIndex, pml4Index := w % 512, w / 512 % 512, w / 512 / 512 % 512, w / 512 / 512 / 512 % 512;
      var e4 := mem[pml4][pml4Index];
      assert EntryAt(t, w, 4) == e4;
      if e4 == ZERO {
        return LookupDescriptor(0, 0, 0, 1);
      }
      var e3 := mem[e4.frame][pdptIndex];
      if e3 == ZERO {
        return LookupDescriptor(0, 0, 0, 2);
      }
      if e3.huge {
        return LookupDescriptor(e3.frame, e3.attributes, 2, 0);
      }
      var e2 := mem[e3.frame][pdIndex];
      if e2 == ZERO {
        return LookupDescriptor(0, 0, 0, 3);
      }
      if e2.huge {
        return LookupDescriptor(e2.frame, e2.attributes, 1, 0);
      }
      var e1 := mem[e2.frame][ptIndex];
      if e1 == ZERO {
        return LookupDescriptor(0, 0, 0, 4);
      }
      return LookupDescriptor(e1.frame, e1.attributes, 0, 0);
    }

    /** create_mapping on a part of the huge leaf at page v. */
    method RemapPart(lo: nat, count: nat, phys: nat, attributes: nat, ghost level: nat, ghost v: nat, ghost n: set<Pos>)
      returns (ok: bool)
      requires Valid() && InOneHalf(lo, count) && lo + count < PAGES && attributes % 2 == 1 && OnTop(View(), v, level)
      requires 2 <= level <= 3 && NeedsOnly(gbPages, v, level, lo, count, phys, n)
      modifies this`mem, this`allocatedPages, this`node, this`owner, frames`formerCount, frames`free, frames.bitmap
      ensures Valid() && Conserves(old(State()), State()) && AddsOnly(old(View()), View(), n)
      ensures !ok ==> Above(frames.free, frames.formerCount) == {} && Lacking(View(), n)
      ensures ok ==> Maps(old(mem), mem, pml4, lo, lo + count, phys, attributes)
      ensures ok ==> OnTop(View(), v, level) && KeepsTables(old(View()), View(), level)
    {
      ghost var s := State();
      ok := CreateMapping(lo, phys, count, attributes);
      NeedsOnlyAdds(s.t, View(), v, level, lo, count, phys, n);
      if ok {
        PartKeeps(s, State(), level, v, lo, count);
      }
    }

    /** The part of a huge leaf before v, its part [v, c) and the rest up to e are mapped again. */
    method RemapParts(h: nat, v: nat, c: nat, e: nat, hphys: nat, attributes: nat, ghost level: nat, ghost n: set<Pos>)
      returns (ok: bool, ghost m1: Memory, ghost m2: Memory)
      requires Valid() && h <= v < c <= e < PAGES && attributes % 2 == 1 && OnTop(View(), v, level) && 2 <= level <= 3
      requires e <= HALF || HALF <= h
      requires NeedsOnly(gbPages, v, level, h, v - h, hphys, n) && NeedsOnly(gbPages, v, level, v, c - v, hphys + (v - h), n)
      requires NeedsOnly(gbPages, v, level, c, e - c, hphys + (c - h), n)
      modifies this`mem, this`allocatedPages, this`node, this`owner, frames`formerCount, frames`free, frames.bitmap
      ensures Valid() && Conserves(old(State()), State()) && AddsOnly(old(View()), View(), n)
      ensures !ok ==> Above(frames.free, frames.formerCount) == {} && Lacking(View(), n)
      ensures ok ==> Maps(old(mem), m1, pml4, h, v, hphys, attributes) && Maps(m1, m2, pml4, v, c, hphys + (v - h), attributes)
      ensures ok ==> Maps(m2, mem, pml4, c, e, hphys + (c - h), attributes) && KeepsTables(old(View()), View(), level)
    {
      ghost var s := State();
      ok := RemapHead(h, v, hphys, attributes, level, n);
      m1, m2 := mem, mem;
      if !ok {
        return;
      }
      ghost var s1 := State();
      ok, m2 := RemapRest(h, v, c, e, hphys, attributes, level, n);
      ConservesAppend(s, s1, State());
      AddsTwice(s.t, s1.t, View(), n);
      if ok {
        KeepsAppend(s.t, s1.t, View(), level);
      }
    }

    /** The part before v, if there is one. */
    method RemapHead(h: nat, v: nat, hphys: nat, attributes: nat, ghost level: nat, ghost n: set<Pos>) returns (ok: bool)
      requires Valid() && h <= v < PAGES && (v <= HALF || HALF <= h) && attributes % 2 == 1 && OnTop(View(), v, level)
      requires 2 <= level <= 3 && NeedsOnly(gbPages, v, level, h, v - h, hphys, n)
      modifies this`mem, this`allocatedPages, this`node, this`owner, frames`formerCount, frames`free, frames.bitmap
      ensures Valid() && Conserves(old(State()), State()) && AddsOnly(old(View()), View(), n)
      ensures !ok ==> Above(frames.free, frames.formerCount) == {} && Lacking(View(), n)
      ensures ok ==> Maps(old(mem), mem, pml4, h, v, hphys, attributes)
      ensures ok ==> OnTop(View(), v, level) && KeepsTables(old(View()), View(), level)
    {
      MapsNothing(mem, pml4, h, hphys, attributes);
      KeepsSame(View(), level);
      ok := true;
      if h < v {
        assert h + (v - h) == v;
        ok := RemapPart(h, v - h, hphys, attributes, level, v, n);
      }
    }

    /** The parts from v on. */
    method RemapRest(h: nat, v: nat, c: nat, e: nat, hphys: nat, attributes: nat, ghost level: nat, ghost n: set<Pos>)
      returns (ok: bool, ghost m2: Memory)
      requires Valid() && h <= v < c <= e < PAGES && attributes % 2 == 1 && OnTop(View(), v, level) && 2 <= level <= 3
      requires e <= HALF || HALF <= h
      requires NeedsOnly(gbPages, v, level, v, c - v, hphys + (v - h), n) && NeedsOnly(gbPages, v, level, c, e - c, hphys + (c - h), n)
      modifies this`mem, this`allocatedPages, this`node, this`owner, frames`formerCount, frames`free, frames.bitmap
      ensures Valid() && Conserves(old(State()), State()) && AddsOnly(old(View()), View(), n)
      ensures !ok ==> Above(frames.free, frames.formerCount) == {} && Lacking(View(), n)
      ensures ok ==> Maps(old(mem), m2, pml4, v, c, hphys + (v - h), attributes)
      ensures ok ==> Maps(m2, mem, pml4, c, e, hphys + (c - h), attributes) && KeepsTables(old(View()), View(), level)
    {
      ghost var s1 := State();
      assert v + (c - v) == c && c + (e - c) == e;
      ok := RemapPart(v, c - v, hphys + (v - h), attributes, level, v, n);
      m2 := mem;
      if !ok {
        return;
      }
      ghost var s2 := State();
      ok := RemapPart(c, e - c, hphys + (c - h), attributes, level, v, n);
      ConservesAppend(s1, s2, State());
      AddsTwice(s1.t, s2.t, View(), n);
      if ok {
        KeepsAppend(s1.t, s2.t, View(), level);
      }
    }

    /** destroy_mapping on a huge leaf it may not clear as a whole. */
    method SplitLeaf(v: nat, pages: nat, hphys: nat, hvirt: nat, span: nat, ghost level: nat) returns (ok: bool)
      requires Valid() && Page(v) && pages > 0 && v + pages < PAGES && 2 <= level <= 3 && span == Span(level)
      requires EntryAt(View(), v, level).huge && hphys == EntryAt(View(), v, level).frame
      requires hvirt == BlockStart(level, v) && (hvirt < v || pages < span)
      modifies this`mem, this`allocatedPages, this`node, this`owner, frames`formerCount, frames`free, frames.bitmap
      ensures Valid() && Conserves(old(State()), State())
      ensures AddsOnly(old(View()), View(), Cuts(gbPages, v, v + pages))
      ensures !ok ==> Above(frames.free, frames.formerCount) == {} && Lacking(View(), Cuts(gbPages, v, v + pages))
      ensures ok ==> Refines(old(mem), mem, pml4, v) && SmallerLeaf(Translate(mem, pml4, v), level) && KeepsTables(old(View()), View(), level)
    {
      ghost var m := mem;
      HugeEntry(View(), level, v);
      TopOfLeaf(View(), v, level);
      BlockShape(level, v, v);
      LeafBeforeLast(m, pml4, level, v, EntryAt(View(), v, level).frame, EntryAt(View(), v, level).attributes);
      assert Page(hvirt);
      BlockShape(level, v, hvirt);
      var lookup := PagingLookup(hvirt);
      var align := v - hvirt;
      var available := span - align;
      var here := if pages < available then pages else available;
      var c, e := v + here, hvirt + span;
      ghost var m1, m2;
      PartsInOrder(level, v, pages);
      BlockInOneHalf(level, v);
      SplitNeedsOnly(gbPages, level, v, pages, hphys, hvirt, c, e, Cuts(gbPages, v, v + pages));
      ok, m1, m2 := RemapParts(hvirt, v, c, e, hphys, lookup.attributes, level, Cuts(gbPages, v, v + pages));
      if ok {
        SplitParts(m, m1, m2, mem, pml4, level, v, c, hvirt, e, hphys, lookup.attributes);
      }
    }

    // One round of the outer loop of destroy_mapping from page v on, by the table it has reached: [v, hi) is cleared.

    method UnmapGb(pdpt: nat, v: nat, pages: nat, ghost p: Pos) returns (hi: nat)
      requires Tree() && At(pdpt, p) && p == Pos(3, Prefix(v, 3)) && v + pages < PAGES
      requires v % 262144 == 0 && pages >= 262144
      modifies this`mem, this`allocatedPages, this`node, this`owner, frames`formerCount, frames`free, frames.bitmap
      ensures Tree() && v < hi <= v + pages && hi % 262144 == 0 && Conserves(old(State()), State())
      ensures Unmaps(old(mem), mem, pml4, v, hi) && CleanCut(old(mem), pml4, v, hi)
      ensures mem.Keys <= old(mem).Keys && node.Keys <= old(node).Keys
    {
      ghost var s := State();
      var gbCount, pdptIndex := pages / 262144, v / 512 / 512 % 512;
      if gbCount + pdptIndex >= 512 {
        gbCount := 512 - pdptIndex;
      }
      hi := v + gbCount * 262144;
      GbChunk(v, gbCount, hi);
      ClearPdptes(pdpt, pdptIndex, gbCount, p, v, hi);
      TableExcludesLeaf(s.t, 3, v);
      ClearedUnmaps(s.t.mem, mem, pml4, v, hi, 3);
    }

    method UnmapMb(pd: nat, v: nat, pages: nat, ghost p: Pos) returns (hi: nat)
      requires Tree() && At(pd, p) && p == Pos(2, Prefix(v, 2)) && v + pages < PAGES
      requires v % 512 == 0 && pages >= 512
      modifies this`mem, this`allocatedPages, this`node, this`owner, frames`formerCount, frames`free, frames.bitmap
      ensures Tree() && v < hi <= v + pages && hi % 512 == 0 && hi <= v - v % 262144 + 262144 && Conserves(old(State()), State())
      ensures Unmaps(old(mem), mem, pml4, v, hi) && CleanCut(old(mem), pml4, v, hi)
      ensures mem.Keys <= old(mem).Keys && node.Keys <= old(node).Keys
    {
      ghost var s := State();
      var mbCount, pdIndex := pages / 512, v / 512 % 512;
      if mbCount + pdIndex >= 512 {
        mbCount := 512 - pdIndex;
      }
      hi := v + mbCount * 512;
      MbChunk(v, mbCount, hi);
      ClearPdes(pd, pdIndex, mbCount, p, v, hi);
      TableExcludesLeaf(s.t, 2, v);
      ClearedUnmaps(s.t.mem, mem, pml4, v, hi, 2);
    }

    method UnmapKb(pt: nat, v: nat, pages: nat, ghost p: Pos) returns (hi: nat)
      requires Tree() && At(pt, p) && p == Pos(1, Prefix(v, 1)) && v + pages < PAGES
      requires pages > 0
      modifies this`mem, this`allocatedPages, this`node, this`owner, frames`formerCount, frames`free, frames.bitmap
      ensures Tree() && v < hi <= v + pages && hi <= v - v % 512 + 512 && Conserves(old(State()), State())
      ensures Unmaps(old(mem), mem, pml4, v, hi) && CleanCut(old(mem), pml4, v, hi)
      ensures mem.Keys <= old(mem).Keys && node.Keys <= old(node).Keys
    {
      ghost var s := State();
      var kbCount, ptIndex := pages, v % 512;
      if kbCount + ptIndex >= 512 {
        kbCount := 512 - ptIndex;
      }
      hi := v + kbCount;
      KbChunk(v, kbCount, hi);
      ClearPtes(pt, ptIndex, kbCount, p, v, hi);
      TableExcludesLeaf(s.t, 1, v);
      ClearedUnmaps(s.t.mem, mem, pml4, v, hi, 1);
    }

    /** The 2 MiB leaf at v is split first. */
    method UnmapPartOfMb(pd: nat, v: nat, pages: nat, ghost p: Pos) returns (ok: bool, hi: nat)
      requires Valid() && At(pd, p) && p == Pos(2, Prefix(v, 2)) && pages > 0 && v + pages < PAGES
      requires EntryAt(View(), v, 2).huge && (v % 512 != 0 || pages < 512)
      modifies this`mem, this`allocatedPages, this`node, this`owner, frames`formerCount, frames`free, frames.bitmap
      ensures Valid() && Conserves(old(State()), State()) && !Whole(old(mem), pml4, v, v + pages)
      ensures AddsOnly(old(View()), View(), Cuts(gbPages, v, v + pages))
      ensures !ok ==> Above(frames.free, frames.formerCount) == {} && Lacking(View(), Cuts(gbPages, v, v + pages))
      ensures ok ==> ChunkEnds(gbPages, v, v, pages, hi) && Unmaps(old(mem), mem, pml4, v, hi)
    {
      var pdptIndex, pml4Index, pdIndex := v / 512 / 512 % 512, v / 512 / 512 / 512 % 512, v / 512 % 512;
      ghost var s := State();
      ghost var e := EntryAt(s.t, v, 2);
      OwnersKnown(s.t, p);
      assert e == mem[pd][pdIndex];
      HugeEntry(s.t, 2, v);
      SplitNotWhole(s.t.mem, pml4, 2, v, v + pages, e.frame, e.attributes);
      BlockAddress2(v);
      hi := v;
      ok := SplitLeaf(v, pages, mem[pd][pdIndex].frame, FindAddress(0, pdIndex, pdptIndex, pml4Index), 512, 2);
      if !ok {
        return;
      }
      PathOfLeaf(View(), v, 2);
      assert Kept(s.t, View(), 2, p);
      ghost var s1 := State();
      hi := UnmapKb(mem[pd][pdIndex].frame, v, pages, Down(p, pdIndex));
      SmallChunk(gbPages, v, pages, hi);
      UnmapsKeepLast(s1.t.mem, mem, pml4, v, hi);
      ConservesAppend(s, s1, State());
      SplitUnmaps(s.t.mem, s1.t.mem, mem, pml4, v, hi);
    }

    method UnmapInPd(pd: nat, v: nat, pages: nat, ghost p: Pos) returns (ok: bool, hi: nat, hole: bool)
      requires !LeafFits(gbPages, 3, v, v, pages)
      requires Valid() && At(pd, p) && p == Pos(2, Prefix(v, 2)) && pages > 0 && v + pages < PAGES
      modifies this`mem, this`allocatedPages, this`node, this`owner, frames`formerCount, frames`free, frames.bitmap
      ensures Valid() && Conserves(old(State()), State())
      ensures AddsOnly(old(View()), View(), Cuts(gbPages, v, v + pages))
      ensures !ok ==> Above(frames.free, frames.formerCount) == {} && Lacking(View(), Cuts(gbPages, v, v + pages))
      ensures ok && hole ==> State() == old(State()) && allocatedPages == old(allocatedPages) && Translate(mem, pml4, v) == None
      ensures ok && !hole ==> ChunkEnds(gbPages, v, v, pages, hi) && Unmaps(old(mem), mem, pml4, v, hi)
      ensures Whole(old(mem), pml4, v, v + pages) ==> ok && mem.Keys <= old(mem).Keys && (!hole ==> CleanCut(old(mem), pml4, v, hi))
    {
      var pdIndex := v / 512 % 512;
      ok, hi, hole := true, v, false;
      if v % 512 == 0 && pages / 512 > 0 {
        ghost var m := mem;
        hi := UnmapMb(pd, v, pages, p);
        UnmapsKeepLast(m, mem, pml4, v, hi);
        return;
      }
      ghost var s := State();
      OwnersKnown(s.t, p);
      assert EntryAt(s.t, v, 2) == mem[pd][pdIndex];
      if mem[pd][pdIndex] == ZERO {
        EmptyPath(s.t, v, 2);
        hole := true;
        return;
      }
      if mem[pd][pdIndex].huge && (v % 512 != 0 || pages < 512) {
        ok, hi := UnmapPartOfMb(pd, v, pages, p);
      } else {
        assert NodeOk(s.t, p) && EntryOk(s.t, p, pdIndex);
        hi := UnmapKb(mem[pd][pdIndex].frame, v, pages, Down(p, pdIndex));
        UnmapsKeepLast(s.t.mem, mem, pml4, v, hi);
      }
    }

    /** The 1 GiB leaf at v is split first; then v has a smaller leaf, so this round does not end at a hole. */
    method UnmapPartOfGb(pdpt: nat, v: nat, pages: nat, ghost p: Pos) returns (ok: bool, hi: nat)
      requires Valid() && At(pdpt, p) && p == Pos(3, Prefix(v, 3)) && pages > 0 && v + pages < PAGES
      requires EntryAt(View(), v, 3).huge && (v % 262144 != 0 || pages < 262144)
      modifies this`mem, this`allocatedPages, this`node, this`owner, frames`formerCount, frames`free, frames.bitmap
      ensures Valid() && Conserves(old(State()), State()) && !Whole(old(mem), pml4, v, v + pages)
      ensures AddsOnly(old(View()), View(), Cuts(gbPages, v, v + pages))
      ensures !ok ==> Above(frames.free, frames.formerCount) == {} && Lacking(View(), Cuts(gbPages, v, v + pages))
      ensures ok ==> ChunkEnds(gbPages, v, v, pages, hi) && Unmaps(old(mem), mem, pml4, v, hi)
    {
      var pdptIndex, pml4Index := v / 512 / 512 % 512, v / 512 / 512 / 512 % 512;
      ghost var s := State();
      ghost var e := EntryAt(s.t, v, 3);
      OwnersKnown(s.t, p);
      assert e == mem[pdpt][pdptIndex];
      HugeEntry(s.t, 3, v);
      SplitNotWhole(s.t.mem, pml4, 3, v, v + pages, e.frame, e.attributes);
      BlockAddress3(v);
      hi := v;
      ok := SplitLeaf(v, pages, mem[pdpt][pdptIndex].frame, FindAddress(0, 0, pdptIndex, pml4Index), 262144, 3);
      if !ok {
        return;
      }
      PathOfLeaf(View(), v, 3);
      assert Kept(s.t, View(), 3, p);
      ghost var s1 := State();
      var hole;
      ok, hi, hole := UnmapInPd(mem[pdpt][pdptIndex].frame, v, pages, Down(p, pdptIndex));
      ConservesAppend(s, s1, State());
      if ok {
        SplitUnmaps(s.t.mem, s1.t.mem, mem, pml4, v, hi);
      }
    }

    method UnmapInPdpt(pdpt: nat, v: nat, pages: nat, ghost p: Pos) returns (ok: bool, hi: nat, hole: bool)
      requires Valid() && At(pdpt, p) && p == Pos(3, Prefix(v, 3)) && pages > 0 && v + pages < PAGES
      modifies this`mem, this`allocatedPages, this`node, this`owner, frames`formerCount, frames`free, frames.bitmap
      ensures Valid() && Conserves(old(State()), State())
      ensures AddsOnly(old(View()), View(), Cuts(gbPages, v, v + pages))
      ensures !ok ==> Above(frames.free, frames.formerCount) == {} && Lacking(View(), Cuts(gbPages, v, v + pages))
      ensures ok && hole ==> State() == old(State()) && allocatedPages == old(allocatedPages) && Translate(mem, pml4, v) == None
      ensures ok && !hole ==> ChunkEnds(gbPages, v, v, pages, hi) && Unmaps(old(mem), mem, pml4, v, hi)
      ensures Whole(old(mem), pml4, v, v + pages) ==> ok && mem.Keys <= old(mem).Keys && (!hole ==> CleanCut(old(mem), pml4, v, hi))
    {
      var pdptIndex := v / 512 / 512 % 512;
      ok, hi, hole := true, v, false;
      ghost var s := State();
      OwnersKnown(s.t, p);
      assert EntryAt(s.t, v, 3) == mem[pdpt][pdptIndex];
      if mem[pdpt][pdptIndex] == ZERO {
        EmptyPath(s.t, v, 3);
        hole := true;
        return;
      }
      if v % 262144 == 0 && gbPages && pages / 262144 > 0 {
        hi := UnmapGb(pdpt, v, pages, p);
        UnmapsKeepLast(s.t.mem, mem, pml4, v, hi);
        return;
      }
      assert NodeOk(s.t, p) && EntryOk(s.t, p, pdptIndex);
      if mem[pdpt][pdptIndex].huge && (v % 262144 != 0 || pages < 262144) {
        ok, hi := UnmapPartOfGb(pdpt, v, pages, p);
      } else {
        ok, hi, hole := UnmapInPd(mem[pdpt][pdptIndex].frame, v, pages, Down(p, pdptIndex));
      }
    }

    method UnmapInPml4(v: nat, pages: nat) returns (ok: bool, hi: nat, hole: bool)
      requires Valid() && pages > 0 && v + pages < PAGES
      modifies this`mem, this`allocatedPages, this`node, this`owner, frames`formerCount, frames`free, frames.bitmap
      ensures Valid() && Conserves(old(State()), State())
      ensures AddsOnly(old(View()), View(), Cuts(gbPages, v, v + pages))
      ensures !ok ==> Above(frames.free, frames.formerCount) == {} && Lacking(View(), Cuts(gbPages, v, v + pages))
      ensures ok && hole ==> State() == old(State()) && allocatedPages == old(allocatedPages) && Translate(mem, pml4, v) == None
      ensures ok && !hole ==> ChunkEnds(gbPages, v, v, pages, hi) && Unmaps(old(mem), mem, pml4, v, hi)
      ensures Whole(old(mem), pml4, v, v + pages) ==> ok && mem.Keys <= old(mem).Keys && (!hole ==> CleanCut(old(mem), pml4, v, hi))
    {
      ghost var t := View();
      var pml4Index := v / 512 / 512 / 512 % 512;
      assert NodeOk(t, ROOT) && EntryOk(t, ROOT, pml4Index);
      assert EntryAt(t, v, 4) == mem[pml4][pml4Index];
      ok, hi, hole := true, v, false;
      if mem[pml4][pml4Index] == ZERO {
        EmptyPath(t, v, 4);
        hole := true;
        return;
      }
      ok, hi, hole := UnmapInPdpt(mem[pml4][pml4Index].frame, v, pages, Down(ROOT, pml4Index));
    }

    /** The part [virtual, v) of a range that ends at `end` is done; no tables but those of n were made. */
    ghost predicate Underway(s: Snapshot, virtual: nat, v: nat, end: nat, n: set<Pos>)
      reads this, frames, frames.bitmap
    {
      && Valid() && Shape(s.t) && Conserves(s, State()) && Unmaps(s.t.mem, mem, pml4, virtual, v)
      && Ready(gbPages, virtual, v, end, virtual) && AddsOnly(s.t, View(), n)
      && (Whole(s.t.mem, pml4, virtual, end) ==>
            Whole(mem, pml4, v, end) && mem.Keys <= s.t.mem.Keys && CleanCut(s.t.mem, pml4, virtual, v))
    }

    /** One round of destroy_mapping. */
    method DestroyRound(ghost s: Snapshot, ghost virtual: nat, v: nat, left: nat, ghost end: nat, ghost n: set<Pos>)
      returns (ok: bool, hi: nat, hole: bool)
      requires Underway(s, virtual, v, end, n) && virtual <= v < end < PAGES && left == end - v
      requires n == Cuts(gbPages, virtual, end)
      modifies this`mem, this`allocatedPages, this`node, this`owner, frames`formerCount, frames`free, frames.bitmap
      ensures Valid() && Conserves(s, State()) && AddsOnly(s.t, View(), n)
      ensures !ok ==> Above(frames.free, frames.formerCount) == {} && !Whole(s.t.mem, pml4, virtual, end) && Lacking(View(), n)
      ensures ok && hole ==> Underway(s, virtual, v, end, n) && Translate(mem, pml4, v) == None
      ensures ok && !hole ==> v < hi <= end && Underway(s, virtual, hi, end, n)
    {
      ghost var s1 := State();
      CutsFromHere(gbPages, virtual, v, end);
      ok, hi, hole := UnmapInPml4(v, left);
      ConservesAppend(s, s1, State());
      if ok && !hole {
        ReadyStep(gbPages, virtual, v, end, virtual, hi);
        UnmapsAppend(s.t.mem, s1.t.mem, mem, pml4, virtual, v, hi);
        if Whole(s.t.mem, pml4, virtual, end) {
          WholeStep(s.t.mem, s1.t.mem, mem, pml4, virtual, v, hi, end);
        }
      }
    }

    /** The outer loop of destroy_mapping. */
    method DestroyRange(virtual: nat, pages: nat) returns (ok: bool, ghost stop: nat)
      requires Valid() && virtual + pages < PAGES
      modifies this`mem, this`allocatedPages, this`node, this`owner, frames`formerCount, frames`free, frames.bitmap
      ensures Valid() && Conserves(old(State()), State())
      ensures !ok ==> Above(frames.free, frames.formerCount) == {}
      ensures |old(Supply(State()))| >= |old(MissingCuts(View(), virtual, virtual + pages))| ==> ok
      ensures ok ==>
        && virtual <= stop <= virtual + pages
        && (stop < virtual + pages ==> Translate(mem, pml4, stop) == None)
        && Unmaps(old(mem), mem, pml4, virtual, stop)
      ensures ok && AllMapped(old(mem), pml4, virtual, virtual + pages) ==>
        Unmaps(old(mem), mem, pml4, virtual, virtual + pages)
      ensures Whole(old(mem), pml4, virtual, virtual + pages) ==>
        ok && mem.Keys <= old(mem).Keys && CleanCut(old(mem), pml4, virtual, stop)
    {
      ghost var s, n := State(), Cuts(gbPages, virtual, virtual + pages);
      var v, left, end := virtual, pages, virtual + pages;
      AllMarked();
      UnmapsNothing(mem, pml4, virtual);
      ReadyStart(gbPages, virtual, end, virtual);
      while v < end
        invariant virtual <= v <= end && left == end - v && Underway(s, virtual, v, end, n)
      {
        var hi, hole;
        ok, hi, hole := DestroyRound(s, virtual, v, left, end, n);
        stop := v;
        if !ok {
          EnoughForCuts(s, State(), virtual, end);
          return;
        }
        if hole {
          NoHoleInMapped(s.t.mem, mem, pml4, virtual, end, stop);
          return;
        }
        left, v := left - (hi - v), hi;
      }
      ok, stop := true, v;
    }

    /** destroy_mapping: the range is unmapped up to its end, or up to the first page that a round starts on and
        that has no translation. stop is where it ended. The end of a range that goes on to the end of the address space
        wraps to zero, and nothing is done. */
    method DestroyMapping(virtual: nat, pages: nat) returns (ok: bool, ghost stop: nat)
      requires Valid() && InOneHalf(virtual, pages)
      modifies this`mem, this`allocatedPages, this`node, this`owner, frames`formerCount, frames`free, frames.bitmap
      ensures Valid() && Conserves(old(State()), State())
      ensures !ok ==> Above(frames.free, frames.formerCount) == {}
      ensures |old(Supply(State()))| >= |old(MissingCuts(View(), virtual, virtual + pages))| ==> ok
      ensures |old(Supply(State()))| >= 4 ==> ok
      ensures virtual + pages == PAGES ==> ok && State() == old(State())
      ensures ok && virtual + pages < PAGES ==>
        && virtual <= stop <= virtual + pages
        && (stop < virtual + pages ==> Translate(mem, pml4, stop) == None)
        && Unmaps(old(mem), mem, pml4, virtual, stop)
      ensures ok && AllMapped(old(mem), pml4, virtual, virtual + pages) ==>
        Unmaps(old(mem), mem, pml4, virtual, virtual + pages)
      ensures Whole(old(mem), pml4, virtual, virtual + pages) && virtual + pages < PAGES ==>
        ok && mem.Keys <= old(mem).Keys && CleanCut(old(mem), pml4, virtual, stop)
    {
      ghost var s := State();
      var end := (virtual + pages) % PAGES;
      LastNotMapped(s.t.mem, pml4, virtual, virtual + pages);
      if end <= virtual {
        assert pages > 0 ==> virtual + pages == PAGES;
        NothingIsLeft(s, virtual);
        return true, virtual;
      }
      assert end == virtual + pages;
      FewCuts(s.t, virtual, end);
      ok, stop := DestroyRange(virtual, pages);
    }
  }

  /** An empty range. */
  lemma NothingIsLeft(s: Snapshot, virtual: nat)
    ensures Conserves(s, s) && Unmaps(s.t.mem, s.t.mem, s.t.root, virtual, virtual)
    ensures CleanCut(s.t.mem, s.t.root, virtual, virtual)
  {
    UnmapsNothing(s.t.mem, s.t.root, virtual);
    forall f ensures FrameFate(s, s, f) {}
  }

  /** The page tables behind the first i entries of the page directory at q. */
  ghost function PtFrames(t: Tables, q: Pos, i: nat): set<nat>
    requires t.mem.Keys <= t.owner.Keys
  {
    set f | f in t.mem && t.owner[f].level == 1 && Up(t.owner[f]) == q && t.owner[f].n % 512 < i
  }

  lemma PtFramesStep(t: Tables, q: Pos, i: nat)
    requires Shape(t) && q in t.node && q.level == 2 && i < 512 && t.mem.Keys <= t.owner.Keys
    ensures var e := Read(t.mem, t.node[q], i);
            if IsTable(e) then
              PtFrames(t, q, i + 1) == PtFrames(t, q, i) + {e.frame}
              && e.frame in t.mem && e.frame !in PtFrames(t, q, i) && e.frame != t.node[q]
            else PtFrames(t, q, i + 1) == PtFrames(t, q, i)
  {
    var r := Down(q, i);
    assert NodeOk(t, q) && EntryOk(t, q, i) && NodeOk(t, r);
    assert Up(r) == q && r.n % 512 == i;
    forall f | f in t.mem && t.owner[f].level == 1 && Up(t.owner[f]) == q && t.owner[f].n % 512 == i
      ensures IsTable(Read(t.mem, t.node[q], i)) && f == Read(t.mem, t.node[q], i).frame
    {
      assert FrameOk(t, f) && t.owner[f] == r && LinkOk(t, r);
    }
  }

  lemma PtFramesAll(t: Tables, q: Pos)
    requires Shape(t) && q in t.node && q.level == 2 && t.mem.Keys <= t.owner.Keys
    ensures PtFrames(t, q, 0) == {}
    ensures t.node[q] in t.mem && t.node[q] !in PtFrames(t, q, 512)
    ensures PtFrames(t, q, 512) + {t.node[q]} == GoneFrames(t, q)
  {
    assert NodeOk(t, q);
    forall f | f in t.mem && t.owner[f] == q ensures f == t.node[q] { assert FrameOk(t, f); }
  }

  ghost predicate DirectoryAt(t: Tables, q: Pos) {
    && Shape(t) && q in t.node && q.level == 2 && t.mem.Keys <= t.owner.Keys
    && t.node[q] in t.mem && |t.mem[t.node[q]]| == 512
  }

  /** Memory and bitmap after the first i entries of the directory at q have been treated. */
  ghost predicate Freeing(s: Snapshot, m: Memory, free: set<nat>, hint: nat, q: Pos, i: nat) {
    DirectoryAt(s.t, q) &&
    var pd, gone := s.t.node[q], PtFrames(s.t, q, i);
    && pd in m && |m[pd]| == 512 && (forall y :: i <= y < 512 ==> m[pd][y] == s.t.mem[pd][y])
    && m.Keys == s.t.mem.Keys - gone
    && (forall f :: f in m && f != pd ==> m[f] == s.t.mem[f])
    && free == s.free + gone && hint <= s.hint && forall f :: f in gone ==> hint <= f
  }

  ghost function AfterPdEntry(m: Memory, pd: nat, i: nat): Memory
    requires pd in m && |m[pd]| == 512 && i < 512
  {
    if IsTable(m[pd][i]) then m - {m[pd][i].frame} else m[pd := m[pd][i := ZERO]]
  }

  lemma FreeingStart(s: Snapshot, q: Pos)
    requires DirectoryAt(s.t, q)
    ensures Freeing(s, s.t.mem, s.free, s.hint, q, 0)
  {
    PtFramesAll(s.t, q);
  }

  lemma FreeingEntry(s: Snapshot, m: Memory, free: set<nat>, hint: nat, q: Pos, i: nat)
    requires Freeing(s, m, free, hint, q, i) && i < 512
    ensures var e := m[s.t.node[q]][i]; IsTable(e) ==> e.frame in m && e.frame in s.t.mem
  {
    PtFramesStep(s.t, q, i);
  }

  lemma FreeingStep(s: Snapshot, m: Memory, free: set<nat>, hint: nat, q: Pos, i: nat, m': Memory, free': set<nat>, hint': nat)
    requires Freeing(s, m, free, hint, q, i) && i < 512
    requires m' == AfterPdEntry(m, s.t.node[q], i) && hint' <= hint
    requires var e := m[s.t.node[q]][i];
             if IsTable(e) then free' == free + {e.frame} && hint' <= e.frame else free' == free
    ensures Freeing(s, m', free', hint', q, i + 1)
  {
    PtFramesStep(s.t, q, i);
  }

  lemma FreeingEnd(s: Snapshot, m: Memory, free: set<nat>, hint: nat, q: Pos)
    requires Freeing(s, m, free, hint, q, 512)
    ensures var pd, gone := s.t.node[q], GoneFrames(s.t, q);
            && m - {pd} == s.t.mem - gone && pd in m && pd in s.t.mem
            && free + {pd} == s.free + gone
            && forall f :: f in gone && f != pd ==> hint <= f
  {
    PtFramesAll(s.t, q);
  }

  lemma KeepsSame(t: Tables, level: nat)
    ensures KeepsTables(t, t, level)
  {
    forall q ensures Kept(t, t, level, q) {}
  }

  lemma OwnersKnown(t: Tables, p: Pos)
    requires Shape(t) && p in t.node
    ensures t.mem.Keys <= t.owner.Keys && t.node[p] in t.mem && |t.mem[t.node[p]]| == 512 && t.owner[t.node[p]] == p
  {
    forall f | f in t.mem ensures f in t.owner { assert FrameOk(t, f); }
    assert NodeOk(t, p);
  }

  lemma EntryIsDirectory(t: Tables, p: Pos, x: nat)
    requires Shape(t) && p in t.node && p.level == 3 && x < 512 && IsTable(Read(t.mem, t.node[p], x))
    requires t.mem.Keys <= t.owner.Keys
    ensures var q, f := Down(p, x), Read(t.mem, t.node[p], x).frame;
            && q in t.node && t.node[q] == f && f in t.mem && |t.mem[f]| == 512
            && t.node[p] !in GoneFrames(t, q)
  {
    var q := Down(p, x);
    assert NodeOk(t, p) && EntryOk(t, p, x) && NodeOk(t, q);
  }

  lemma EntryIsOneTable(t: Tables, p: Pos, x: nat)
    requires Shape(t) && p in t.node && p.level == 2 && x < 512 && IsTable(Read(t.mem, t.node[p], x))
    requires t.mem.Keys <= t.owner.Keys
    ensures var f := Read(t.mem, t.node[p], x).frame; f in t.mem && f != t.node[p] && GoneFrames(t, Down(p, x)) == {f}
  {
    var q := Down(p, x);
    assert NodeOk(t, p) && EntryOk(t, p, x) && NodeOk(t, q);
    forall f | f in t.mem && Gone(q, t.owner[f]) ensures f == t.node[q] { assert FrameOk(t, f); }
  }
}
