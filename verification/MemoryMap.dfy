// The memory map that stage4.c hands to the kernel: page ranges with EFI memory types.
module MemoryMap {
  datatype EfiType = ReservedMemory | ConventionalMemory | AcpiReclaimMemory | AcpiMemoryNvs | UnusableMemory | PersistentMemory

  /** EFI_MEMORY_DESCRIPTOR; the other fields are always 0. */
  datatype Descriptor = Descriptor(kind: EfiType, physicalStart: nat, pages: nat)

  const ONE_MIB := 0x10_0000

  predicate Covers(d: Descriptor, p: nat) {
    d.physicalStart / 4096 <= p < d.physicalStart / 4096 + d.pages
  }

  /** What allocator_init releases: conventional memory from 1 MiB on. */
  predicate Usable(d: Descriptor) {
    d.kind == ConventionalMemory && d.physicalStart >= ONE_MIB
  }

  /** Whether page p is released once all descriptors were handled in order: the last one that covers it decides. */
  predicate Released(descriptors: seq<Descriptor>, p: nat)
    decreases |descriptors|
  {
    descriptors != [] &&
    var d := descriptors[|descriptors| - 1];
    if Covers(d, p) then Usable(d) else Released(descriptors[..|descriptors| - 1], p)
  }

  /** No page belongs to a usable descriptor and to another one that takes it back. */
  ghost predicate Consistent(descriptors: seq<Descriptor>, p: nat) {
    forall d, e :: d in descriptors && e in descriptors && Covers(d, p) && Covers(e, p) ==> (Usable(d) <==> Usable(e))
  }

  /** Then the order of the descriptors does not matter. */
  lemma {:induction false} ReleasedInAnyOrder(descriptors: seq<Descriptor>, p: nat)
    requires Consistent(descriptors, p)
    ensures Released(descriptors, p) <==> exists d :: d in descriptors && Covers(d, p) && Usable(d)
    decreases |descriptors|
  {
    if descriptors != [] {
      var rest, d := descriptors[..|descriptors| - 1], descriptors[|descriptors| - 1];
      assert forall e :: e in descriptors <==> e in rest || e == d;
      ReleasedInAnyOrder(rest, p);
    }
  }
}
