// From the BIOS memory map to the frame allocator's first state: stage4.c converts E820 entries to page descriptors and
// sizes the bitmap, allocator_init fills it. Rounding inwards and outwards only makes sense for both stages together.
module E820 {
  import opened Words
  import opened Bits
  import opened MemoryMap
  import opened FrameAllocation

  const TWO64 := 0x1_0000_0000_0000_0000
  const MAX_ENTRIES := 1024

  /** An E820 entry. */
  datatype Entry = Entry(base: nat, length: nat, kind: nat, attributes: nat)

  function EfiTypeOf(kind: nat): EfiType {
    match kind
    case 1 => ConventionalMemory
    case 3 => AcpiReclaimMemory
    case 4 => AcpiMemoryNvs
    case 5 => UnusableMemory
    case 7 => PersistentMemory
    case _ => ReservedMemory
  }

  /** Entries that are empty or reach the end of the address space are skipped. */
  predicate Accepted(e: Entry) {
    e.length != 0 && e.base + e.length < TWO64
  }

  function PageUp(x: nat): nat { x / 4096 + if x % 4096 != 0 then 1 else 0 }

  function FirstPage(e: Entry): nat { if EfiTypeOf(e.kind) == ConventionalMemory then PageUp(e.base) else e.base / 4096 }

  function EndPage(e: Entry): nat {
    if EfiTypeOf(e.kind) == ConventionalMemory then (e.base + e.length) / 4096 else PageUp(e.base + e.length)
  }

  predicate Yields(e: Entry, d: Descriptor) {
    && Accepted(e) && FirstPage(e) < EndPage(e)
    && d == Descriptor(EfiTypeOf(e.kind), FirstPage(e) * 4096, EndPage(e) - FirstPage(e))
  }

  /** The descriptors of a list of entries, in order. */
  function Converted(entries: seq<Entry>): seq<Descriptor>
    decreases |entries|
  {
    if entries == [] then [] else
      var e := entries[|entries| - 1];
      Converted(entries[..|entries| - 1]) +
      if Accepted(e) && FirstPage(e) < EndPage(e)
      then [Descriptor(EfiTypeOf(e.kind), FirstPage(e) * 4096, EndPage(e) - FirstPage(e))] else []
  }

  lemma {:induction false} ConvertedYields(entries: seq<Entry>, d: Descriptor)
    ensures d in Converted(entries) <==> exists e :: e in entries && Yields(e, d)
    decreases |entries|
  {
    if entries != [] {
      var rest, e := entries[..|entries| - 1], entries[|entries| - 1];
      assert forall x :: x in entries <==> x in rest || x == e;
      ConvertedYields(rest, d);
      assert d in Converted(entries) <==> d in Converted(rest) || Yields(e, d);
      if exists x :: x in rest && Yields(x, d) {
        var x :| x in rest && Yields(x, d);
        assert x in entries;
      }
    }
  }

  /** The entries that are looked at. */
  function Head(entries: seq<Entry>): seq<Entry> {
    if |entries| <= MAX_ENTRIES then entries else entries[..MAX_ENTRIES]
  }

  /** convert_e820_to_efi. */
  method ConvertE820ToEfi(entries: seq<Entry>) returns (descriptors: seq<Descriptor>)
    ensures descriptors == Converted(Head(entries))
  {
    descriptors := [];
    var i := 0;
    while i < |entries| && i < MAX_ENTRIES
      invariant i <= |Head(entries)| && descriptors == Converted(Head(entries)[..i])
    {
      var base, length := entries[i].base, entries[i].length;
      assert Head(entries)[..i + 1][..i] == Head(entries)[..i];
      i := i + 1;
      if length == 0 || length > TWO64 - 1 - base {
        continue;
      }
      var kind := EfiTypeOf(entries[i - 1].kind);
      var end := base + length;
      var firstPage, endPage;
      if kind == ConventionalMemory {
        firstPage := base / 4096 + if base % 4096 != 0 then 1 else 0;
        endPage := end / 4096;
      } else {
        firstPage := base / 4096;
        endPage := end / 4096 + if end % 4096 != 0 then 1 else 0;
      }
      if endPage <= firstPage {
        continue;
      }
      descriptors := descriptors + [Descriptor(kind, firstPage * 4096, endPage - firstPage)];
    }
    assert Head(entries)[..i] == Head(entries);
  }

  /** find_highest_page. */
  method FindHighestPage(descriptors: seq<Descriptor>) returns (highest: nat)
    ensures forall d :: d in descriptors ==> d.physicalStart / 4096 + d.pages <= highest
    ensures highest > 0 ==> exists d :: d in descriptors && d.physicalStart / 4096 + d.pages == highest
  {
    highest := 0;
    for i := 0 to |descriptors|
      invariant forall d :: d in descriptors[..i] ==> d.physicalStart / 4096 + d.pages <= highest
      invariant highest > 0 ==> exists d :: d in descriptors && d.physicalStart / 4096 + d.pages == highest
    {
      var endPage := descriptors[i].physicalStart / 4096 + descriptors[i].pages;
      if endPage > highest {
        highest := endPage;
      }
    }
  }

  /** The size of the bitmap in bytes: the least number of whole pages that has a bit for every page. */
  function BitmapSize(highestPage: nat): (size: nat)
    ensures highestPage <= 8 * size && size % 4096 == 0
    ensures forall other: nat :: highestPage <= 8 * other && other % 4096 == 0 ==> size <= other
  {
    ((highestPage + 7) / 8 + 4095) / 4096 * 4096
  }

  predicate Apart(a: Entry, b: Entry) {
    a.base + a.length <= b.base || b.base + b.length <= a.base
  }

  /** Different entries describe different bytes. */
  ghost predicate Disjoint(entries: seq<Entry>) {
    forall a, b :: a in entries && b in entries && a != b && Accepted(a) && Accepted(b) ==> Apart(a, b)
  }

  /** Page p lies wholly inside the usable entry e, whose first whole page is at 1 MiB or above. */
  predicate WhollyIn(e: Entry, p: nat) {
    && Accepted(e) && e.kind == 1 && e.base <= 4096 * p && 4096 * p + 4096 <= e.base + e.length
    && PageUp(e.base) * 4096 >= ONE_MIB
  }

  ghost predicate PageUsable(entries: seq<Entry>, p: nat) {
    exists e :: e in entries && WhollyIn(e, p)
  }

  /** A descriptor covers a page: wholly inside the entry if that is usable, else overlapping it. */
  lemma YieldCovers(e: Entry, d: Descriptor, p: nat)
    requires Yields(e, d)
    ensures Covers(d, p) ==> if e.kind == 1 then e.base <= 4096 * p && 4096 * p + 4096 <= e.base + e.length
                             else e.base < 4096 * p + 4096 && 4096 * p < e.base + e.length
    ensures Covers(d, p) && Usable(d) <==> WhollyIn(e, p)
  {
    assert d.physicalStart / 4096 == FirstPage(e);
  }

  lemma WhollyInYields(e: Entry, p: nat) returns (d: Descriptor)
    requires WhollyIn(e, p)
    ensures Yields(e, d) && Covers(d, p) && Usable(d)
  {
    d := Descriptor(EfiTypeOf(e.kind), FirstPage(e) * 4096, EndPage(e) - FirstPage(e));
    assert FirstPage(e) <= p < EndPage(e);
    YieldCovers(e, d, p);
  }

  /** Descriptors of disjoint entries that share a page are both usable or both not. */
  lemma CoveringBoth(a: Entry, d: Descriptor, b: Entry, e: Descriptor, p: nat)
    requires Yields(a, d) && Yields(b, e) && Covers(d, p) && Covers(e, p) && (a == b || Apart(a, b))
    ensures Usable(d) <==> Usable(e)
  {
    YieldCovers(a, d, p);
    YieldCovers(b, e, p);
  }

  lemma DisjointIsConsistent(entries: seq<Entry>, p: nat)
    requires Disjoint(entries)
    ensures Consistent(Converted(entries), p)
  {
    var ds := Converted(entries);
    forall d, e | d in ds && e in ds && Covers(d, p) && Covers(e, p) ensures Usable(d) <==> Usable(e) {
      ConvertedYields(entries, d);
      ConvertedYields(entries, e);
      var a :| a in entries && Yields(a, d);
      var b :| b in entries && Yields(b, e);
      CoveringBoth(a, d, b, e, p);
    }
  }

  /** Conversion and release together: page p is released exactly when it lies wholly inside one usable entry from
      1 MiB on. */
  lemma ReleasedIffUsable(entries: seq<Entry>, p: nat)
    requires Disjoint(entries)
    ensures Released(Converted(entries), p) <==> PageUsable(entries, p)
  {
    DisjointIsConsistent(entries, p);
    ReleasedInAnyOrder(Converted(entries), p);
    if Released(Converted(entries), p) {
      var d :| d in Converted(entries) && Covers(d, p) && Usable(d);
      ConvertedYields(entries, d);
      var e :| e in entries && Yields(e, d);
      YieldCovers(e, d, p);
    }
    if PageUsable(entries, p) {
      var e :| e in entries && WhollyIn(e, p);
      var d := WhollyInYields(e, p);
      ConvertedYields(entries, d);
    }
  }

  /** Whatever order the BIOS lists its entries in, the same pages are released. */
  lemma OrderDoesNotMatter(entries: seq<Entry>, shuffled: seq<Entry>, p: nat)
    requires Disjoint(entries) && multiset(entries) == multiset(shuffled)
    ensures Released(Converted(entries), p) <==> Released(Converted(shuffled), p)
  {
    forall e ensures e in entries <==> e in shuffled {
      assert e in entries <==> e in multiset(entries);
      assert e in shuffled <==> e in multiset(shuffled);
    }
    ReleasedIffUsable(entries, p);
    ReleasedIffUsable(shuffled, p);
  }

  /** Both stages: a page is free at the end exactly when it is usable memory and not the kernel's. */
  method Boot(entries: seq<Entry>, kernelStart: nat, kernelEnd: nat) returns (frames: FrameAllocator)
    requires Disjoint(Head(entries)) && kernelStart <= kernelEnd
    // the kernel is loaded into memory that the map describes
    requires exists d :: d in Converted(Head(entries)) &&
               kernelStart / 4096 + KernelPages(kernelStart, kernelEnd) <= d.physicalStart / 4096 + d.pages
    ensures frames.Valid()
    ensures forall p: nat :: p in frames.free <==>
              PageUsable(Head(entries), p) && !InInterval(p, kernelStart / 4096, KernelPages(kernelStart, kernelEnd))
  {
    var descriptors := ConvertE820ToEfi(entries);
    var highest := FindHighestPage(descriptors);
    var size := BitmapSize(highest);
    var bitmap := new Byte[size + 1](_ => Zeros(8));
    frames := new FrameAllocator(bitmap, descriptors, kernelStart, kernelEnd, size);
    forall p: nat
      ensures p in ReleasedPages(descriptors, size) <==> PageUsable(Head(entries), p)
    {
      ReleasedIffUsable(Head(entries), p);
      if PageUsable(Head(entries), p) {
        var e :| e in Head(entries) && WhollyIn(e, p);
        var d := WhollyInYields(e, p);
        ConvertedYields(Head(entries), d);
      }
    }
  }
}
