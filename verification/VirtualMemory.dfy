// va_alloc and va_free over vmalloc and vfree: ranges come from the trees, frames from the bitmap, and the page tables
// tie the two together. What any number of calls keeps: every live range is mapped to frames of its own.
module VirtualMemory {
  import opened Options
  import opened FrameAllocation
  import opened PageTree
  import opened PageEffects
  import opened PageSplits
  import opened PageSupply
  import opened Paging
  import opened VaRanges
  import opened VaAlloc
  import Vmalloc

  /** va_ret; status 0 is success. */
  datatype VaRet = VaRet(base: nat, pages: nat, attributes: nat, status: nat)

  function Handle(r: VaRet): Allocation { Allocation(r.base, r.pages, r.attributes) }

  /** The page number of a 64-bit address: its 48 translated bits without the offset. */
  function PageOf(address: nat): nat { address / 4096 % PAGES }

  lemma PageOfUser(q: nat, w: nat)
    requires q < 0x8_0000_0000
    ensures PageOf(q * 4096) == q && (w < 0x8_0000_0000 ==> Canonical(w) == w * 4096)
  {
  }

  lemma PageOfKernel(q: nat)
    requires 0xf_fff8_0000_0000 <= q < 0x10_0000_0000_0000
    ensures PageOf(q * 4096) == q - 0xf_fff0_0000_0000
  {
  }

  /** The pages of an allocation are those whose canonical address it has. */
  lemma PagesOf(ks: nat, a: Allocation, w: nat)
    requires 0xFFFF_8000_0000_0000 <= ks && AllocationFits(ks, a) && Page(w)
    ensures InOneHalf(PageOf(a.base), a.pages)
    ensures Has(a, Canonical(w)) <==> PageOf(a.base) <= w < PageOf(a.base) + a.pages
  {
    var q := a.base / 4096;
    if User(a.attributes) {
      PageOfUser(q, w);
    } else {
      PageOfKernel(q);
    }
  }

  /** The trees, the live allocations with the frames behind each page of them, and the page tables with the free frames. */
  datatype Kernel = Kernel(nodes: seq<VaForest.Node>, live: set<Allocation>, own: map<Allocation, map<nat, nat>>, s: Snapshot)

  ghost predicate Held(k: Kernel, a: Allocation, limit: nat) {
    a in k.own && Vmalloc.Holds(k.s, PageOf(a.base), PageOf(a.base) + a.pages, k.own[a], limit)
  }

  /** No frame backs two allocations. */
  ghost predicate Exclusive(own: map<Allocation, map<nat, nat>>, a: Allocation, b: Allocation) {
    a in own && b in own && a != b ==> own[a].Values !! own[b].Values
  }

  /** Every live allocation is mapped to frames of its own, whatever else the page tables map. */
  ghost predicate Backing(k: Kernel, limit: nat) {
    && k.own.Keys == k.live
    && (forall a {:trigger Held(k, a, limit)} :: a in k.live ==> Held(k, a, limit))
    && (forall a, b {:trigger Exclusive(k.own, a, b)} :: Exclusive(k.own, a, b))
  }

  /** The free addresses from `from` on are not mapped. With the first address after the kernel this is so when the trees are
      made; below, start-up maps the memory of the machine one to one, which reaches into the user range. */
  ghost predicate UnmappedFrom(k: Kernel, from: nat) {
    forall w: nat {:trigger Page(w)} :: Page(w) && from <= Canonical(w) && FreeAt(k.nodes, Canonical(w)) ==>
      Translate(k.s.t.mem, k.s.t.root, w) == None
  }

  ghost predicate SameElsewhere(m: Memory, m': Memory, root: nat, lo: nat, hi: nat) {
    forall w: nat {:trigger Page(w)} :: Page(w) && !(lo <= w < hi) ==> Translate(m', root, w) == Translate(m, root, w)
  }

  ghost predicate NothingMapped(m: Memory, root: nat, lo: nat, hi: nat) {
    forall w: nat {:trigger Page(w)} :: Page(w) && lo <= w < hi ==> Translate(m, root, w) == None
  }

  predicate KernelHalf(ks: nat) { 0xFFFF_8000_0000_0000 <= ks }

  // ----- what one allocation does -----

  /** Allocation a is new: its addresses were free, and its pages are backed by free frames. */
  ghost predicate Allocated(k: Kernel, k': Kernel, a: Allocation, limit: nat) {
    && a !in k.live && k'.live == k.live + {a} && Taken(k.nodes, k.live, k'.nodes, a)
    && a in k'.own && k'.own == k.own[a := k'.own[a]] && k'.s.t.root == k.s.t.root
    && PageOf(a.base) + a.pages < PAGES
    && Vmalloc.Backs(k.s.t.mem, k'.s.t.mem, k.s.t.root, PageOf(a.base), PageOf(a.base) + a.pages, k'.own[a], a.attributes)
    && Vmalloc.Chosen(k.s, k'.s, PageOf(a.base), PageOf(a.base) + a.pages, k'.own[a], limit)
  }

  /** The other pages keep their translations exactly when no leaf reaches both into the range and out of it. */
  lemma AllocElsewhereIff(k: Kernel, k': Kernel, a: Allocation, limit: nat)
    requires Allocated(k, k', a, limit)
    ensures var lo, hi := PageOf(a.base), PageOf(a.base) + a.pages;
            SameElsewhere(k.s.t.mem, k'.s.t.mem, k.s.t.root, lo, hi) <==> CleanCut(k.s.t.mem, k.s.t.root, lo, hi)
  {
    var lo, hi := PageOf(a.base), PageOf(a.base) + a.pages;
    forall w: nat | Page(w) && !(lo <= w < hi)
      ensures Translate(k'.s.t.mem, k.s.t.root, w) == Translate(k.s.t.mem, k.s.t.root, w) <==>
              !Touches(Translate(k.s.t.mem, k.s.t.root, w), w, lo, hi)
    {
      assert Vmalloc.Backed(Translate(k.s.t.mem, k.s.t.root, w), Translate(k'.s.t.mem, k.s.t.root, w), w, lo, hi, k'.own[a], a.attributes);
    }
  }

  /** Both, for any work on the tables: which pages outside are kept, and that nothing is mapped outside. */
  ghost predicate LeavesOthers(k: Kernel, k': Kernel, a: Allocation) {
    && (SameElsewhere(k.s.t.mem, k'.s.t.mem, k.s.t.root, PageOf(a.base), PageOf(a.base) + a.pages) <==>
          CleanCut(k.s.t.mem, k.s.t.root, PageOf(a.base), PageOf(a.base) + a.pages))
    && (forall from: nat {:trigger UnmappedFrom(k', from)} :: UnmappedFrom(k, from) ==> UnmappedFrom(k', from))
  }

  lemma AllocLeavesOthers(ks: nat, k: Kernel, k': Kernel, a: Allocation, limit: nat)
    requires KernelHalf(ks) && AllocationFits(ks, a) && Allocated(k, k', a, limit)
    ensures LeavesOthers(k, k', a)
  {
    AllocElsewhereIff(k, k', a, limit);
    forall from: nat | UnmappedFrom(k, from) ensures UnmappedFrom(k', from) {
      AllocKeepsUnmapped(ks, k, k', a, limit, from);
    }
  }

  /** That is so above addresses from which on free ranges are unmapped. */
  lemma UnmappedIsClean(ks: nat, k: Kernel, nodes': seq<VaForest.Node>, a: Allocation, from: nat)
    requires KernelHalf(ks) && Shape(k.s.t) && AllocationFits(ks, a) && Taken(k.nodes, k.live, nodes', a)
    requires UnmappedFrom(k, from) && from <= a.base
    ensures CleanCut(k.s.t.mem, k.s.t.root, PageOf(a.base), PageOf(a.base) + a.pages)
  {
    var lo, hi := PageOf(a.base), PageOf(a.base) + a.pages;
    PagesOf(ks, a, 0);
    forall w: nat | Page(w) && lo <= w < hi ensures Translate(k.s.t.mem, k.s.t.root, w) == None {
      PagesOf(ks, a, w);
    }
    forall w: nat | Page(w) ensures !Touches(Translate(k.s.t.mem, k.s.t.root, w), w, lo, hi) {
      Vmalloc.UnmappedNotTouched(k.s.t, lo, hi, w);
    }
  }

  /** In particular no kernel range disturbs a page outside it. */
  lemma KernelRangesAreClean(ks: nat, k: Kernel, k': Kernel, a: Allocation, limit: nat)
    requires KernelHalf(ks) && ks <= END && Shape(k.s.t) && AllocationFits(ks, a) && Allocated(k, k', a, limit)
    requires UnmappedFrom(k, ks) && !User(a.attributes)
    ensures SameElsewhere(k.s.t.mem, k'.s.t.mem, k.s.t.root, PageOf(a.base), PageOf(a.base) + a.pages)
  {
    UnmappedIsClean(ks, k, k'.nodes, a, ks);
    AllocElsewhereIff(k, k', a, limit);
  }

  /** What is still free was free, and is as unmapped as before: backing a range maps nothing outside it. */
  lemma AllocKeepsUnmapped(ks: nat, k: Kernel, k': Kernel, a: Allocation, limit: nat, from: nat)
    requires KernelHalf(ks) && AllocationFits(ks, a) && UnmappedFrom(k, from) && Allocated(k, k', a, limit)
    ensures UnmappedFrom(k', from)
  {
    var lo, hi := PageOf(a.base), PageOf(a.base) + a.pages;
    forall w: nat | Page(w) && from <= Canonical(w) && FreeAt(k'.nodes, Canonical(w))
      ensures Translate(k'.s.t.mem, k'.s.t.root, w) == None
    {
      PagesOf(ks, a, w);
      assert FreeAt(k.nodes, Canonical(w));
      assert Vmalloc.Backed(Translate(k.s.t.mem, k.s.t.root, w), Translate(k'.s.t.mem, k.s.t.root, w), w, lo, hi, k'.own[a], a.attributes);
    }
  }

  /** A live allocation b is not concerned by work that leaves its pages and its frames alone. */
  lemma StaysHeld(k: Kernel, k': Kernel, b: Allocation, limit: nat)
    requires Held(k, b, limit) && b in k'.own && k'.own[b] == k.own[b] && k'.s.t.root == k.s.t.root
    requires forall w: nat {:trigger Page(w)} :: Page(w) && PageOf(b.base) <= w < PageOf(b.base) + b.pages ==>
               Translate(k'.s.t.mem, k'.s.t.root, w) == Translate(k.s.t.mem, k.s.t.root, w)
    requires forall f :: f in k.own[b].Values ==> !Vmalloc.Owned(k'.s, f)
    ensures Held(k', b, limit)
  {
    var F := k.own[b];
    forall w | w in F ensures F[w] !in k'.s.free && F[w] !in k'.s.t.mem {
      assert F[w] in F.Values && !Vmalloc.Owned(k'.s, F[w]);
    }
  }

  /** Its leaves lie inside its own range, so none of them reaches into that of a. */
  lemma LivePageStays(ks: nat, k: Kernel, k': Kernel, a: Allocation, b: Allocation, limit: nat, w: nat)
    requires KernelHalf(ks) && AllocationFits(ks, a) && AllocationFits(ks, b) && Held(k, b, limit) && Allocated(k, k', a, limit)
    requires forall x: nat :: !(Has(a, x) && Has(b, x))
    requires Page(w) && PageOf(b.base) <= w < PageOf(b.base) + b.pages
    ensures Translate(k'.s.t.mem, k'.s.t.root, w) == Translate(k.s.t.mem, k.s.t.root, w)
  {
    var lo, hi := PageOf(a.base), PageOf(a.base) + a.pages;
    var x := Translate(k.s.t.mem, k.s.t.root, w);
    PagesOf(ks, a, w);
    PagesOf(ks, b, w);
    RangesDoNotMeet(ks, a, b);
    assert Vmalloc.Backed(x, Translate(k'.s.t.mem, k.s.t.root, w), w, lo, hi, k'.own[a], a.attributes);
    assert Within(x.value, w, PageOf(b.base), PageOf(b.base) + b.pages);
  }

  lemma RangesDoNotMeet(ks: nat, a: Allocation, b: Allocation)
    requires KernelHalf(ks) && AllocationFits(ks, a) && AllocationFits(ks, b) && forall x: nat :: !(Has(a, x) && Has(b, x))
    ensures PageOf(a.base) + a.pages <= PageOf(b.base) || PageOf(b.base) + b.pages <= PageOf(a.base)
  {
    var w := if PageOf(a.base) < PageOf(b.base) then PageOf(b.base) else PageOf(a.base);
    PagesOf(ks, a, 0);
    PagesOf(ks, b, 0);
    if w < PAGES {
      PagesOf(ks, a, w);
      PagesOf(ks, b, w);
      assert !(Has(a, Canonical(w)) && Has(b, Canonical(w)));
    }
  }

  /** The frames of a live allocation are not the pool's. */
  lemma HeldIsNotOwned(k: Kernel, b: Allocation, limit: nat)
    requires Held(k, b, limit)
    ensures forall f :: f in k.own[b].Values ==> !Vmalloc.Owned(k.s, f)
  {
    forall f | f in k.own[b].Values ensures !Vmalloc.Owned(k.s, f) {
      var w :| w in k.own[b] && k.own[b][w] == f;
    }
  }

  lemma AllocKeepsOne(ks: nat, k: Kernel, k': Kernel, a: Allocation, b: Allocation, limit: nat)
    requires KernelHalf(ks) && AllocationFits(ks, a) && AllocationFits(ks, b) && b in k.live
    requires Held(k, b, limit) && Allocated(k, k', a, limit)
    ensures Held(k', b, limit) && k.own[b].Values !! k'.own[a].Values
  {
    HeldIsNotOwned(k, b, limit);
    forall f | f in k.own[b].Values ensures f !in k'.own[a].Values && !Vmalloc.Owned(k'.s, f) {
      assert !Vmalloc.Owned(k.s, f);
    }
    forall x: nat ensures !(Has(a, x) && Has(b, x)) { assert Has(a, x) ==> !LiveAt(k.live, x); }
    forall w: nat | Page(w) && PageOf(b.base) <= w < PageOf(b.base) + b.pages
      ensures Translate(k'.s.t.mem, k'.s.t.root, w) == Translate(k.s.t.mem, k.s.t.root, w)
    {
      LivePageStays(ks, k, k', a, b, limit, w);
    }
    StaysHeld(k, k', b, limit);
  }

  lemma AllocExclusive(own: map<Allocation, map<nat, nat>>, own': map<Allocation, map<nat, nat>>, a: Allocation)
    requires (forall b, c {:trigger Exclusive(own, b, c)} :: Exclusive(own, b, c)) && a !in own
    requires a in own' && own' == own[a := own'[a]] && forall b :: b in own ==> own[b].Values !! own'[a].Values
    ensures forall b, c {:trigger Exclusive(own', b, c)} :: Exclusive(own', b, c)
  {
    forall b, c ensures Exclusive(own', b, c) { assert Exclusive(own, b, c); }
  }

  /** va_alloc: the new range is backed, the others stay as they are, whatever the page tables held at the start. */
  lemma AllocEffect(ks: nat, k: Kernel, k': Kernel, a: Allocation, limit: nat)
    requires KernelHalf(ks) && Tiling(ks, k.nodes, k.live) && AllocationFits(ks, a)
    requires Backing(k, limit) && Allocated(k, k', a, limit)
    ensures Backing(k', limit)
  {
    forall b | b in k.live ensures Held(k', b, limit) && k.own[b].Values !! k'.own[a].Values {
      assert Held(k, b, limit);
      AllocKeepsOne(ks, k, k', a, b, limit);
    }
    Vmalloc.BackedHolds(k.s, k'.s, PageOf(a.base), PageOf(a.base) + a.pages, k'.own[a], a.attributes, limit);
    AllocExclusive(k.own, k'.own, a);
  }

  /** The same for the state after a range was taken from the trees. */
  lemma TakeEffect(ks: nat, k: Kernel, nodes': seq<VaForest.Node>, s': Snapshot, a: Allocation, F: map<nat, nat>, limit: nat)
    requires KernelHalf(ks) && Tiling(ks, k.nodes, k.live) && AllocationFits(ks, a) && Backing(k, limit)
    requires a !in k.live && Taken(k.nodes, k.live, nodes', a) && s'.t.root == k.s.t.root && PageOf(a.base) + a.pages < PAGES
    requires Vmalloc.Backs(k.s.t.mem, s'.t.mem, k.s.t.root, PageOf(a.base), PageOf(a.base) + a.pages, F, a.attributes)
    requires Vmalloc.Chosen(k.s, s', PageOf(a.base), PageOf(a.base) + a.pages, F, limit)
    ensures var k' := Kernel(nodes', k.live + {a}, k.own[a := F], s'); Allocated(k, k', a, limit) && Backing(k', limit) && LeavesOthers(k, k', a)
  {
    var k' := Kernel(nodes', k.live + {a}, k.own[a := F], s');
    assert k'.own[a] == F;
    AllocLeavesOthers(ks, k, k', a, limit);
    AllocEffect(ks, k, k', a, limit);
  }

  /** One to one mapping of the 2 MiB from the first user address on, as start-up leaves it on a machine with memory there. */
  function OneToOne(): Tables {
    var p, q := Pos(3, 0), Pos(2, 1);
    Tables(map[0 := ZeroTable()[0 := Entry(1, 3, false)], 1 := ZeroTable()[1 := Entry(2, 3, false)],
               2 := ZeroTable()[0 := Entry(0x4_0000, 3, true)]],
           0, false, map[ROOT := 0, p := 1, q := 2], map[0 := ROOT, 1 := p, 2 := q])
  }

  lemma OneToOneReads()
    ensures var m := OneToOne().mem;
            forall x: nat :: Read(m, 0, x) == (if x == 0 then Entry(1, 3, false) else ZERO)
              && Read(m, 1, x) == (if x == 1 then Entry(2, 3, false) else ZERO)
              && Read(m, 2, x) == (if x == 0 then Entry(0x4_0000, 3, true) else ZERO)
  {
  }

  lemma OneToOneShape()
    ensures Shape(OneToOne())
  {
    var t := OneToOne();
    OneToOneReads();
    forall r ensures NodeOk(t, r) && LinkOk(t, r) { }
    forall r, x: nat ensures EntryOk(t, r, x) { }
  }

  lemma OneToOneWalk(w: nat)
    requires 0x4_0000 <= w < 0x4_0200
    ensures Translate(OneToOne().mem, 0, w) == Some(Mapping(w, 3, 2))
  {
    OneToOneReads();
    InBlock512(w, 512);
    assert w % 512 == w - 0x4_0000;
  }

  lemma LastUnmapped()
    ensures Translate(OneToOne().mem, 0, LAST) == None
  {
    OneToOneReads();
    assert Prefix(LAST, 3) % 512 == 511;
  }

  /** A leaf that reaches into the range of an allocation is lost. */
  lemma NeighbourIsLost(k: Kernel, k': Kernel, a: Allocation, limit: nat, w: nat)
    requires Allocated(k, k', a, limit) && Page(w) && !(PageOf(a.base) <= w < PageOf(a.base) + a.pages)
    requires Touches(Translate(k.s.t.mem, k.s.t.root, w), w, PageOf(a.base), PageOf(a.base) + a.pages)
    ensures Translate(k'.s.t.mem, k.s.t.root, w) == None
  {
  }

  /** The first user allocation of one page takes the next page away. */
  lemma UserRangeExample(k: Kernel, k': Kernel, limit: nat)
    requires k.s.t == OneToOne() && Allocated(k, k', Allocation(USER_SPACE, 1, 7), limit)
    ensures Shape(OneToOne()) && Translate(OneToOne().mem, 0, LAST) == None
    ensures Translate(OneToOne().mem, 0, 0x4_0001) == Some(Mapping(0x4_0001, 3, 2))
    ensures Translate(k'.s.t.mem, 0, 0x4_0001) == None
  {
    OneToOneShape();
    LastUnmapped();
    OneToOneWalk(0x4_0001);
    NeighbourIsLost(k, k', Allocation(USER_SPACE, 1, 7), limit, 0x4_0001);
  }

  // ----- what one release does -----

  /** Allocation a is gone: its addresses are free, its pages unmapped, its frames back in the pool, and no other page
      changes. */
  ghost predicate Released(k: Kernel, k': Kernel, a: Allocation) {
    && a in k.live && a in k.own && k'.live == k.live - {a} && Returned(k.nodes, k'.nodes, a) && k'.own == k.own - {a}
    && k'.s.t.root == k.s.t.root
    && NothingMapped(k'.s.t.mem, k.s.t.root, PageOf(a.base), PageOf(a.base) + a.pages)
    && SameElsewhere(k.s.t.mem, k'.s.t.mem, k.s.t.root, PageOf(a.base), PageOf(a.base) + a.pages)
    && (forall f: nat {:trigger Vmalloc.Owned(k'.s, f)} ::
          Vmalloc.Owned(k'.s, f) <==> Vmalloc.Owned(k.s, f) || f in k.own[a].Values)
  }

  lemma FreeKeepsOne(ks: nat, k: Kernel, k': Kernel, a: Allocation, b: Allocation, limit: nat)
    requires KernelHalf(ks) && Tiling(ks, k.nodes, k.live) && b in k.live && a != b
    requires Held(k, b, limit) && Exclusive(k.own, a, b) && Released(k, k', a)
    ensures Held(k', b, limit)
  {
    assert AllocationFits(ks, a) && AllocationFits(ks, b);
    HeldIsNotOwned(k, b, limit);
    forall f | f in k.own[b].Values ensures !Vmalloc.Owned(k'.s, f) { assert !Vmalloc.Owned(k.s, f) && f !in k.own[a].Values; }
    forall x: nat ensures !(Has(a, x) && Has(b, x)) { assert Tiled(ks, k.nodes, k.live, x); }
    forall w: nat | Page(w) && PageOf(b.base) <= w < PageOf(b.base) + b.pages
      ensures Translate(k'.s.t.mem, k'.s.t.root, w) == Translate(k.s.t.mem, k.s.t.root, w)
    {
      PagesOf(ks, a, w);
      PagesOf(ks, b, w);
    }
    StaysHeld(k, k', b, limit);
  }

  /** The range that comes back is unmapped, so whatever was unmapped while free still is. */
  lemma FreeKeepsUnmapped(ks: nat, k: Kernel, k': Kernel, a: Allocation, from: nat)
    requires KernelHalf(ks) && AllocationFits(ks, a) && UnmappedFrom(k, from) && Released(k, k', a)
    ensures UnmappedFrom(k', from)
  {
    forall w: nat | Page(w) && from <= Canonical(w) && FreeAt(k'.nodes, Canonical(w))
      ensures Translate(k'.s.t.mem, k'.s.t.root, w) == None
    {
      PagesOf(ks, a, w);
    }
  }

  /** va_free: the other live ranges stay as they are. */
  lemma FreeEffect(ks: nat, k: Kernel, k': Kernel, a: Allocation, limit: nat)
    requires KernelHalf(ks) && Tiling(ks, k.nodes, k.live) && Backing(k, limit) && Released(k, k', a)
    ensures Backing(k', limit)
  {
    forall b | b in k'.live ensures Held(k', b, limit) {
      assert Held(k, b, limit) && Exclusive(k.own, a, b);
      FreeKeepsOne(ks, k, k', a, b, limit);
    }
    forall b, c ensures Exclusive(k'.own, b, c) { assert Exclusive(k.own, b, c); }
  }

  /** What vfree does to the page tables, in these terms. */
  lemma UnmapsRange(m: Memory, m': Memory, root: nat, lo: nat, hi: nat)
    requires Unmaps(m, m', root, lo, hi) && CleanCut(m, root, lo, hi)
    ensures SameElsewhere(m, m', root, lo, hi) && NothingMapped(m', root, lo, hi)
  {
    forall w: nat | Page(w) ensures Unmapped(Translate(m, root, w), Translate(m', root, w), w, lo, hi) {}
  }

  /** The same for the state after vfree. */
  lemma UnbackEffect(ks: nat, k: Kernel, nodes': seq<VaForest.Node>, s': Snapshot, a: Allocation, limit: nat)
    requires KernelHalf(ks) && Tiling(ks, k.nodes, k.live) && Backing(k, limit)
    requires a in k.live && Returned(k.nodes, nodes', a) && s'.t.root == k.s.t.root
    requires Unmaps(k.s.t.mem, s'.t.mem, k.s.t.root, PageOf(a.base), PageOf(a.base) + a.pages)
    requires CleanCut(k.s.t.mem, k.s.t.root, PageOf(a.base), PageOf(a.base) + a.pages)
    requires forall f: nat {:trigger Vmalloc.Owned(s', f)} :: Vmalloc.Owned(s', f) <==> Vmalloc.Owned(k.s, f) || f in k.own[a].Values
    ensures var k' := Kernel(nodes', k.live - {a}, k.own - {a}, s'); Released(k, k', a) && Backing(k', limit)
  {
    UnmapsRange(k.s.t.mem, s'.t.mem, k.s.t.root, PageOf(a.base), PageOf(a.base) + a.pages);
    FreeEffect(ks, k, Kernel(nodes', k.live - {a}, k.own - {a}, s'), a, limit);
  }

  class KernelMemory {
    const ranges: VaAllocator
    const space: AddressSpace
    /** The frames behind each live allocation, page by page. */
    ghost var own: map<Allocation, map<nat, nat>>

    ghost function State(): Kernel
      reads this, ranges, space, space.frames
    {
      Kernel(ranges.nodes, ranges.live, own, space.State())
    }

    ghost predicate Valid()
      reads this, ranges, space, space.frames, space.frames.bitmap
    {
      && ranges.Valid() && space.Valid()
      && Backing(State(), 8 * space.frames.bitmapSize)
    }

    /** The first call of va_alloc, on whatever page tables start-up has made. */
    constructor (kernelEnd: nat, space: AddressSpace)
      requires 0xFFFF_8000_0000_0000 <= kernelEnd && (kernelEnd + 4095) / 4096 * 4096 <= END && space.Valid()
      ensures Valid() && this.space == space && fresh(ranges) && ranges.live == {}
      ensures ranges.ks == (kernelEnd + 4095) / 4096 * 4096
      ensures forall x: nat :: FreeAt(ranges.nodes, x) <==> Managed(ranges.ks, x)
    {
      this.space, own := space, map[];
      ranges := new VaAllocator(kernelEnd);
    }

    /** The frames vmalloc has to find for a range, one for each page and one for each missing table, can be found. */
    ghost predicate Affordable(base: nat, pages: nat)
      reads this, space, space.frames
    {
      |Supply(space.State())| >= pages + |Missing(space.View(), PageOf(base), Vmalloc.MapEnd(PageOf(base) + pages))|
    }

    /** The base va_alloc would hand out. */
    ghost function NextBase(pages: nat, attributes: nat): Option<nat>
      requires ranges.Valid()
      reads this, ranges
    {
      var fit := ranges.Choice(pages, attributes);
      if fit.Some? && fit.value < |ranges.nodes| then Some(ranges.nodes[fit.value].base) else None
    }

    /** The range is taken from its tree; F are the frames vmalloc has found for it. */
    method Take(i: nat, pages: nat, attributes: nat, ghost F: map<nat, nat>)
      requires ranges.Valid() && VaForest.Live(ranges.nodes, i)
      requires 0 < pages && pages * 4096 <= ranges.nodes[i].length && (ranges.nodes[i].attributes == 7 <==> User(attributes))
      requires VaForest.IsRoot(i) ==> ranges.nodes[i].length != pages * 4096
      modifies this`own, ranges`nodes, ranges`live, ranges`entries, ranges`unused
      ensures ranges.Valid() && unchanged(space, space.frames, space.frames.bitmap)
      ensures var a := Allocation(old(ranges.nodes)[i].base, pages, attributes);
              && a !in old(ranges.live) && Taken(old(ranges.nodes), old(ranges.live), ranges.nodes, a)
              && State() == Kernel(ranges.nodes, old(ranges.live) + {a}, old(own)[a := F], space.State())
    {
      own := own[Allocation(ranges.nodes[i].base, pages, attributes) := F];
      ranges.TakeRange(i, pages, attributes);
    }

    /** Backs the front of node i, and takes it from the tree if that succeeds. */
    method AllocFrom(i: nat, pages: nat, attributes: nat) returns (ok: bool, stopped: bool)
      requires Valid() && VaForest.Live(ranges.nodes, i) && attributes % 2 == 1
      requires 0 < pages && pages * 4096 <= ranges.nodes[i].length && (ranges.nodes[i].attributes == 7 <==> User(attributes))
      requires VaForest.IsRoot(i) ==> ranges.nodes[i].length != pages * 4096
      modifies this`own, ranges`nodes, ranges`live, ranges`entries, ranges`unused
      modifies space`mem, space`allocatedPages, space`node, space`owner
      modifies space.frames`formerCount, space.frames`free, space.frames.bitmap
      ensures old(Affordable(ranges.nodes[i].base, pages)) || |old(Supply(space.State()))| < pages ==> !stopped
      ensures !stopped ==> (ok <==> pages <= |old(Supply(space.State()))|)
      ensures PageOf(old(ranges.nodes)[i].base) + pages >= PAGES ==> Translate(space.mem, space.pml4, LAST) == None
      ensures !stopped && !ok ==> State() == old(State()) && Valid()
      ensures !stopped && ok && PageOf(old(ranges.nodes)[i].base) + pages < PAGES ==>
        var a := Allocation(old(ranges.nodes)[i].base, pages, attributes);
        Valid() && Allocated(old(State()), State(), a, 8 * space.frames.bitmapSize) && LeavesOthers(old(State()), State(), a)
    {
      ghost var a, k, limit := Allocation(ranges.nodes[i].base, pages, attributes), State(), 8 * space.frames.bitmapSize;
      var virtual := PageOf(ranges.nodes[i].base);
      ghost var rich := Affordable(ranges.nodes[i].base, pages);
      ranges.ChoiceFits(i, pages, attributes);
      PagesOf(ranges.ks, a, 0);
      var alloc;
      ghost var F;
      alloc, stopped, F := Vmalloc.Vmalloc(space, virtual, pages, attributes);
      assert rich ==> !stopped;
      assert ranges.Valid();
      ok := !stopped && alloc.attribute == 0;
      if ok {
        if virtual + pages < PAGES {
          TakeBacked(i, pages, attributes, F, k, limit);
        } else {
          Take(i, pages, attributes, F);
        }
      }
    }

    /** The range vmalloc has backed with the frames F is taken from its tree. */
    method TakeBacked(i: nat, pages: nat, attributes: nat, ghost F: map<nat, nat>, ghost k: Kernel, ghost limit: nat)
      requires ranges.Valid() && VaForest.Live(ranges.nodes, i)
      requires 0 < pages && pages * 4096 <= ranges.nodes[i].length && (ranges.nodes[i].attributes == 7 <==> User(attributes))
      requires VaForest.IsRoot(i) ==> ranges.nodes[i].length != pages * 4096
      requires k.nodes == ranges.nodes && k.live == ranges.live && k.own == own && k.s.t.root == space.pml4
      requires Backing(k, limit) && PageOf(ranges.nodes[i].base) + pages < PAGES
      requires var lo := PageOf(ranges.nodes[i].base);
               && Vmalloc.Backs(k.s.t.mem, space.mem, space.pml4, lo, lo + pages, F, attributes)
               && Vmalloc.Chosen(k.s, space.State(), lo, lo + pages, F, limit)
      modifies this`own, ranges`nodes, ranges`live, ranges`entries, ranges`unused
      ensures ranges.Valid() && Backing(State(), limit) && unchanged(space, space.frames, space.frames.bitmap)
      ensures var a := Allocation(k.nodes[i].base, pages, attributes); Allocated(k, State(), a, limit) && LeavesOthers(k, State(), a)
    {
      ghost var a := Allocation(ranges.nodes[i].base, pages, attributes);
      ranges.ChoiceFits(i, pages, attributes);
      ghost var ks, s := ranges.ks, space.State();
      assert Tiling(ks, k.nodes, k.live) && KernelHalf(ks);
      Take(i, pages, attributes, F);
      assert space.State() == s;
      TakeEffect(ks, k, ranges.nodes, s, a, F, limit);
    }

    /** va_alloc. The range is backed before it is taken from its tree; stopped is the one of vmalloc. A range that ends
        with the address space is handed out although its last page has no translation. */
    method VaAlloc(pages: nat, attributes: nat) returns (ret: VaRet, stopped: bool)
      requires Valid() && pages < TWO64 / 4096 && attributes % 2 == 1
      // the roots start with terabytes and are never used up
      requires RootFor(attributes) < |ranges.nodes| && ranges.nodes[RootFor(attributes)].length != pages * 4096
      modifies this`own, ranges`nodes, ranges`live, ranges`entries, ranges`unused
      modifies space`mem, space`allocatedPages, space`node, space`owner
      modifies space.frames`formerCount, space.frames`free, space.frames.bitmap
      ensures pages == 0 || old(NextBase(pages, attributes)) == None || |old(Supply(space.State()))| < pages ==> !stopped
      ensures old(NextBase(pages, attributes).Some? && Affordable(NextBase(pages, attributes).value, pages)) ==> !stopped
      ensures !stopped ==>
        (ret.status == 0 <==>
           pages != 0 && FitExists(old(ranges.nodes), attributes, pages * 4096) && pages <= |old(Supply(space.State()))|)
      ensures !stopped && ret.status == 0 ==>
        ret.pages == pages && ret.attributes == attributes && old(NextBase(pages, attributes)) == Some(ret.base)
      ensures !stopped && ret.status == 0 && PageOf(ret.base) + pages < PAGES ==>
        && Valid() && Allocated(old(State()), State(), Handle(ret), 8 * space.frames.bitmapSize)
        && LeavesOthers(old(State()), State(), Handle(ret))
      ensures !stopped && ret.status == 0 && PageOf(ret.base) + pages >= PAGES ==> Translate(space.mem, space.pml4, LAST) == None
      ensures !stopped && ret.status != 0 ==> Valid() && State() == old(State())
    {
      ret, stopped := VaRet(0, 0, 0, 1), false;
      if pages == 0 {
        return;
      }
      var fit := ranges.FindRange(pages, attributes);
      if fit.None? {
        return;
      }
      var base := ranges.nodes[fit.value].base;
      var ok;
      ok, stopped := AllocFrom(fit.value, pages, attributes);
      if ok {
        ret := VaRet(base, pages, attributes, 0);
      }
    }

    /** va_free: the range is unmapped and its frames go back, or, when no node of its kind can take a child, nothing
        happens. */
    method VaFree(desc: VaRet)
      requires Valid() && (desc.status == 0 && desc.pages != 0 ==> Handle(desc) in ranges.live)
      modifies this`own, ranges`nodes, ranges`live, ranges`entries, ranges`unused, ranges`depth, ranges`bound
      modifies space`mem, space`allocatedPages, space`node, space`owner
      modifies space.frames`formerCount, space.frames`free, space.frames.bitmap
      ensures Valid()
      ensures var freed := desc.status == 0 && desc.pages != 0 &&
                           exists i :: 0 <= i < |old(ranges.nodes)| && Accepts(old(ranges.nodes)[i], desc.attributes);
              if freed then Released(old(State()), State(), Handle(desc)) else State() == old(State())
    {
      if desc.status != 0 || desc.pages == 0 {
        return;
      }
      ghost var k := State();
      var freed := ranges.ReturnRange(desc.base, desc.pages, desc.attributes);
      if freed {
        Unback(desc.base, desc.pages, k, Handle(desc));
      }
    }

    /** vfree on a range that went back to the trees. */
    method Unback(base: nat, pages: nat, ghost k: Kernel, ghost a: Allocation)
      requires ranges.Valid() && space.Valid() && a in k.live && a.base == base && a.pages == pages
      requires k == Kernel(k.nodes, k.live, own, space.State()) && Tiling(ranges.ks, k.nodes, k.live)
      requires ranges.live == k.live - {a} && Returned(k.nodes, ranges.nodes, a)
      requires Backing(k, 8 * space.frames.bitmapSize)
      modifies this`own, space`mem, space`allocatedPages, space`node, space`owner
      modifies space.frames`formerCount, space.frames`free, space.frames.bitmap
      ensures Valid() && Released(k, State(), a)
    {
      assert Held(k, a, 8 * space.frames.bitmapSize) && AllocationFits(ranges.ks, a);
      PagesOf(ranges.ks, a, 0);
      Vmalloc.Vfree(space, PageOf(base), pages, own[a]);
      UnbackEffect(ranges.ks, k, ranges.nodes, space.State(), a, 8 * space.frames.bitmapSize);
      own := own - {a};
      assert State() == Kernel(ranges.nodes, k.live - {a}, k.own - {a}, space.State());
    }
  }

  // ----- what holds of any two live allocations -----

  /** Their addresses do not overlap. */
  lemma RangesApart(ks: nat, nodes: seq<VaForest.Node>, live: set<Allocation>, a: Allocation, b: Allocation)
    requires Tiling(ks, nodes, live) && a in live && b in live && a != b
    ensures a.base + a.pages * 4096 <= b.base || b.base + b.pages * 4096 <= a.base
  {
    var x := if a.base < b.base then b.base else a.base;
    assert AllocationFits(ks, a) && AllocationFits(ks, b) && Tiled(ks, nodes, live, x);
  }

  /** No two pages of live allocations, of the same or of different ones, share a frame, and none of these frames holds a
      page table or is free. */
  lemma PagesHaveOwnFrames(ks: nat, k: Kernel, limit: nat, w: nat, u: nat)
    requires KernelHalf(ks) && Tiling(ks, k.nodes, k.live) && Backing(k, limit) && Page(w) && Page(u) && w != u
    requires LiveAt(k.live, Canonical(w)) && LiveAt(k.live, Canonical(u))
    ensures var x, y := Translate(k.s.t.mem, k.s.t.root, w), Translate(k.s.t.mem, k.s.t.root, u);
            x.Some? && y.Some? && x.value.frame != y.value.frame && !Vmalloc.Owned(k.s, x.value.frame)
  {
    var a :| a in k.live && Has(a, Canonical(w));
    var b :| b in k.live && Has(b, Canonical(u));
    assert AllocationFits(ks, a) && AllocationFits(ks, b);
    PagesOf(ks, a, w);
    PagesOf(ks, b, u);
    assert Held(k, a, limit) && Held(k, b, limit) && Exclusive(k.own, a, b);
    assert k.own[a][w] in k.own[a].Values && k.own[b][u] in k.own[b].Values;
  }
}
