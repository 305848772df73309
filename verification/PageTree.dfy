// Four-level page tables in physical memory (section 4.5 of the Intel SDM, volume 3A) as paging.c keeps
// them: what one entry write, one new table and one freed table do to every translation.
// Addresses are page numbers: virtual address / 4096 restricted to its 48 translated bits.
module PageTree {
  import opened Options

  /** One 64-bit entry: frame number, the attribute bits 0..11 without bit 7, and bit 7 (page size). */
  datatype Entry = Entry(frame: nat, attributes: nat, huge: bool)

  const ZERO := Entry(0, 0, false)

  predicate Present(e: Entry) { e.attributes % 2 == 1 }

  predicate IsTable(e: Entry) { Present(e) && !e.huge }

  /** The result of a translation: the 4 KiB frame, its attributes and the level of the leaf (3 is 1 GiB, 2 is 2 MiB). */
  datatype Mapping = Mapping(frame: nat, attributes: nat, level: nat)

  /** A place in the tree: the table of a level that translates the page numbers w with Prefix(w, level) == n. */
  datatype Pos = Pos(level: nat, n: nat)

  const ROOT := Pos(4, 0)

  function Up(p: Pos): Pos { Pos(p.level + 1, p.n / 512) }

  function Down(p: Pos, x: nat): Pos
    requires p.level > 0
  {
    Pos(p.level - 1, p.n * 512 + x)
  }

  /** A page number without its lowest 9 * level bits. */
  function Prefix(w: nat, level: nat): nat {
    if level == 0 then w
    else if level == 1 then w / 512
    else if level == 2 then w / 512 / 512
    else if level == 3 then w / 512 / 512 / 512
    else 0
  }

  /** Number of 4 KiB pages behind one entry of a table of this level. */
  function Span(level: nat): (s: nat)
    ensures s > 0
  {
    if level <= 1 then 1 else if level == 2 then 512 else 262144
  }

  /** A leaf of this level may start at this page or frame. */
  predicate Aligned(w: nat, level: nat) {
    if level == 2 then w % 512 == 0 else level == 3 ==> w % 262144 == 0
  }

  const PAGES := 0x10_0000_0000 // 2^36 page numbers

  predicate Page(w: nat) { w < PAGES }

  const HALF := 0x8_0000_0000

  /** The addresses of the pages are canonical and follow each other: the range does not go on from the lower half of the
      address space into the upper one. */
  predicate InOneHalf(virtual: nat, pages: nat) { virtual + pages <= PAGES && (virtual < HALF ==> virtual + pages <= HALF) }

  // ----- blocks of pages -----

  lemma InBlock512(w: nat, r: nat)
    requires 512 * r <= w < 512 * r + 512
    ensures w / 512 == r && w - w % 512 == 512 * r
  {}

  lemma InBlock262144(w: nat, r: nat)
    requires 262144 * r <= w < 262144 * r + 262144
    ensures w / 262144 == r && w - w % 262144 == 262144 * r
  {}

  lemma BlocksNest(w: nat)
    ensures w / 512 / 512 == w / 262144
  {}

  lemma Coarse(lo: nat)
    requires lo % 262144 == 0
    ensures lo % 512 == 0
  {
    var k := 512 * (lo / 262144);
    assert lo == 512 * k;
    InBlock512(lo, k);
  }

  type Memory = map<nat, seq<Entry>>

  function Read(m: Memory, f: nat, x: nat): Entry {
    if f in m && x < |m[f]| then m[f][x] else ZERO
  }

  /** The page walk of the processor. */
  function Translate(m: Memory, root: nat, w: nat): Option<Mapping> {
    var e4 := Read(m, root, Prefix(w, 3) % 512);
    if !Present(e4) then None else
    var e3 := Read(m, e4.frame, Prefix(w, 2) % 512);
    if !Present(e3) then None else
    if e3.huge then Some(Mapping(e3.frame + w % Span(3), e3.attributes, 3)) else
    var e2 := Read(m, e3.frame, Prefix(w, 1) % 512);
    if !Present(e2) then None else
    if e2.huge then Some(Mapping(e2.frame + w % Span(2), e2.attributes, 2)) else
    var e1 := Read(m, e2.frame, w % 512);
    if !Present(e1) then None else Some(Mapping(e1.frame, e1.attributes, 1))
  }

  /** The tables and, for the proof, where each table frame sits in the tree. */
  datatype Tables = Tables(mem: Memory, root: nat, gb: bool, node: map<Pos, nat>, owner: map<nat, Pos>)

  /** What holds of one place, one link, one entry and one frame; Shape says that it holds of all of them. */
  ghost predicate NodeOk(t: Tables, p: Pos) {
    p in t.node ==>
      && 1 <= p.level <= 4 && (p.level == 4 ==> p == ROOT)
      && t.node[p] in t.mem && |t.mem[t.node[p]]| == 512
      && t.node[p] in t.owner && t.owner[t.node[p]] == p
  }

  ghost predicate LinkOk(t: Tables, p: Pos) {
    p in t.node && p.level < 4 ==>
      && Up(p) in t.node
      && IsTable(Read(t.mem, t.node[Up(p)], p.n % 512))
      && Read(t.mem, t.node[Up(p)], p.n % 512).frame == t.node[p]
  }

  ghost predicate EntryOk(t: Tables, p: Pos, x: nat) {
    p in t.node && x < 512 ==>
      var e := Read(t.mem, t.node[p], x);
      e == ZERO ||
      (Present(e) &&
       if e.huge then (p.level == 2 || (p.level == 3 && t.gb)) && Aligned(e.frame, p.level)
       else p.level == 1 || (p.level > 1 && Down(p, x) in t.node && t.node[Down(p, x)] == e.frame))
  }

  ghost predicate FrameOk(t: Tables, f: nat) {
    f in t.mem ==> f in t.owner && t.owner[f] in t.node && t.node[t.owner[f]] == f
  }

  /** The tables form a tree under the root, no frame is shared, and every frame is a table of the tree. */
  ghost predicate Shape(t: Tables) {
    && ROOT in t.node && t.node[ROOT] == t.root
    && (forall p {:trigger NodeOk(t, p)} :: NodeOk(t, p))
    && (forall p {:trigger LinkOk(t, p)} :: LinkOk(t, p))
    && (forall p, x: nat {:trigger EntryOk(t, p, x)} :: EntryOk(t, p, x))
    && (forall f {:trigger FrameOk(t, f)} :: FrameOk(t, f))
  }

  /** Page w is translated through entry x of the table at p. */
  predicate Under(w: nat, p: Pos, x: nat) {
    p.level > 0 && Prefix(w, p.level - 1) == p.n * 512 + x
  }

  /** What page w sees through entry e of a table of the given level, when e is no table. */
  function Leaf(e: Entry, level: nat, w: nat): Option<Mapping> {
    if Present(e) then Some(Mapping(e.frame + w % Span(level), e.attributes, level)) else None
  }

  /** A leaf or empty entry that a table of this level may hold. */
  predicate LeafOk(e: Entry, level: nat, gb: bool) {
    e == ZERO || (Present(e) && (if e.huge then (level == 2 || (level == 3 && gb)) && Aligned(e.frame, level) else level == 1))
  }

  function Put(m: Memory, f: nat, x: nat, e: Entry): Memory
    requires f in m && x < |m[f]|
  {
    m[f := m[f][x := e]]
  }

  /** The entry that translates page w at a level, through the tree instead of the walk; ZERO when there is no table. */
  ghost function EntryAt(t: Tables, w: nat, level: nat): Entry
    requires 1 <= level <= 4
  {
    var p := Pos(level, Prefix(w, level));
    if p in t.node then Read(t.mem, t.node[p], Prefix(w, level - 1) % 512) else ZERO
  }

  ghost function Seen(t: Tables, w: nat): Option<Mapping> {
    if EntryAt(t, w, 3).huge then Leaf(EntryAt(t, w, 3), 3, w)
    else if EntryAt(t, w, 2).huge then Leaf(EntryAt(t, w, 2), 2, w)
    else Leaf(EntryAt(t, w, 1), 1, w)
  }

  /** The attributes in the entry that points to the table at q. */
  ghost function LinkBits(t: Tables, q: Pos): nat {
    if q.level < 4 && Up(q) in t.node then Read(t.mem, t.node[Up(q)], q.n % 512).attributes else 0
  }

  /** The entry that points to a table keeps its attributes as long as the table is there. */
  ghost predicate KeepsLink(t: Tables, t': Tables, q: Pos) {
    q in t.node && q in t'.node ==> LinkBits(t', q) == LinkBits(t, q)
  }

  /** A table sits on the path of w exactly when the entry above it is a table entry, and then they agree. */
  lemma PathStep(t: Tables, w: nat, level: nat)
    requires Shape(t) && Page(w) && 2 <= level <= 4
    ensures var q := Pos(level - 1, Prefix(w, level - 1));
            && (q in t.node <==> IsTable(EntryAt(t, w, level)))
            && (q in t.node ==> t.node[q] == EntryAt(t, w, level).frame)
            && (q !in t.node ==> EntryAt(t, w, level - 1) == ZERO)
    ensures EntryAt(t, w, level) == ZERO || Present(EntryAt(t, w, level))
    ensures level == 4 ==> !EntryAt(t, w, level).huge
  {
    var p, q := Pos(level, Prefix(w, level)), Pos(level - 1, Prefix(w, level - 1));
    var x := Prefix(w, level - 1) % 512;
    assert Up(q) == p && q.n % 512 == x;
    assert NodeOk(t, p) && EntryOk(t, p, x) && NodeOk(t, q) && LinkOk(t, q);
    if p in t.node {
      assert Down(p, x) == q;
    }
  }

  /** Above a table that exists on the path there are only table entries. */
  lemma AboveTable(t: Tables, w: nat, level: nat)
    requires Shape(t) && Page(w) && 1 <= level <= 2 && Pos(level, Prefix(w, level)) in t.node
    ensures !EntryAt(t, w, 3).huge && (level == 1 ==> !EntryAt(t, w, 2).huge)
  {
    PathStep(t, w, level + 1);
    PathStep(t, w, 3);
  }

  lemma LastStep(t: Tables, w: nat)
    requires Shape(t) && Page(w)
    ensures EntryAt(t, w, 1) == ZERO || (Present(EntryAt(t, w, 1)) && !EntryAt(t, w, 1).huge)
  {
    var p := Pos(1, Prefix(w, 1));
    assert NodeOk(t, p) && EntryOk(t, p, w % 512);
  }

  /** The processor's walk and the tree agree. */
  lemma WalkSeesTree(t: Tables, w: nat)
    requires Shape(t) && Page(w)
    ensures Translate(t.mem, t.root, w) == Seen(t, w)
  {
    PathStep(t, w, 4);
    PathStep(t, w, 3);
    PathStep(t, w, 2);
    LastStep(t, w);
    assert Pos(4, Prefix(w, 4)) == ROOT;
  }

  lemma WriteLeafShape(t: Tables, p: Pos, x: nat, e: Entry, t': Tables)
    requires Shape(t) && p in t.node && p.level < 4 && x < 512 && LeafOk(e, p.level, t.gb)
    requires p.level == 1 || !IsTable(Read(t.mem, t.node[p], x))
    requires t.node[p] in t.mem && |t.mem[t.node[p]]| == 512
    requires t' == t.(mem := Put(t.mem, t.node[p], x, e))
    ensures Shape(t')
  {
    assert NodeOk(t, p);
    forall q ensures NodeOk(t', q) && LinkOk(t', q) {
      assert LinkOk(t, q) && NodeOk(t, q) && NodeOk(t, Up(q));
    }
    forall q, y: nat ensures EntryOk(t', q, y) {
      assert EntryOk(t, q, y) && NodeOk(t, q);
    }
    forall f ensures FrameOk(t', f) {
      assert FrameOk(t, f);
    }
  }

  /** What a page sees is decided by the first entry on its path that is no table. */
  lemma SeesLeaf(t: Tables, w: nat, level: nat)
    requires Shape(t) && Page(w) && 1 <= level <= 3 && Pos(level, Prefix(w, level)) in t.node
    requires level == 1 || !IsTable(EntryAt(t, w, level))
    ensures Translate(t.mem, t.root, w) == Leaf(EntryAt(t, w, level), level, w)
  {
    WalkSeesTree(t, w);
    LastStep(t, w);
    PathStep(t, w, 2);
    PathStep(t, w, 3);
    if level < 3 { AboveTable(t, w, level); }
  }

  lemma SeesSame(t: Tables, t': Tables, w: nat)
    requires Shape(t) && Shape(t') && t.root == t'.root && Page(w)
    requires forall level :: 1 <= level <= 3 ==> EntryAt(t', w, level) == EntryAt(t, w, level)
    ensures Translate(t'.mem, t.root, w) == Translate(t.mem, t.root, w)
  {
    WalkSeesTree(t, w);
    WalkSeesTree(t', w);
  }

  /** Entry x of the table at p is a place where a leaf or nothing may be written. */
  ghost predicate Slot(t: Tables, p: Pos, x: nat) {
    p in t.node && 1 <= p.level < 4 && x < 512 && t.node[p] in t.mem && |t.mem[t.node[p]]| == 512
  }

  /** After the write of e at entry x of p: e decides the pages under it and every other page is translated as before. */
  ghost predicate Overwritten(t: Tables, p: Pos, x: nat, e: Entry, t': Tables) {
    forall w: nat {:trigger Page(w)} :: Page(w) ==>
      Translate(t'.mem, t'.root, w) == if Under(w, p, x) then Leaf(e, p.level, w) else Translate(t.mem, t.root, w)
  }

  /** Overwriting an entry that is not a table. */
  lemma WriteLeaf(t: Tables, p: Pos, x: nat, e: Entry, t': Tables)
    requires Shape(t) && Slot(t, p, x) && LeafOk(e, p.level, t.gb)
    requires p.level == 1 || !IsTable(Read(t.mem, t.node[p], x))
    requires t' == t.(mem := Put(t.mem, t.node[p], x, e))
    ensures Shape(t') && Overwritten(t, p, x, e, t')
  {
    WriteLeafShape(t, p, x, e, t');
    assert NodeOk(t, p);
    forall w: nat | Page(w)
      ensures Translate(t'.mem, t.root, w) == if Under(w, p, x) then Leaf(e, p.level, w) else Translate(t.mem, t.root, w)
    {
      if Under(w, p, x) {
        assert p == Pos(p.level, Prefix(w, p.level));
        SeesLeaf(t', w, p.level);
      } else {
        forall level | 1 <= level <= 3 ensures EntryAt(t', w, level) == EntryAt(t, w, level) {
          assert NodeOk(t, Pos(level, Prefix(w, level)));
        }
        SeesSame(t, t', w);
      }
    }
  }

  lemma WriteKeepsLink(t: Tables, p: Pos, x: nat, e: Entry, t': Tables, q: Pos)
    requires Shape(t) && Slot(t, p, x) && (p.level == 1 || !IsTable(Read(t.mem, t.node[p], x)))
    requires t' == t.(mem := Put(t.mem, t.node[p], x, e))
    ensures KeepsLink(t, t', q)
  {
    assert NodeOk(t, q) && LinkOk(t, q) && NodeOk(t, Up(q)) && NodeOk(t, p);
  }

  function ZeroTable(): (r: seq<Entry>)
    ensures |r| == 512 && forall x :: 0 <= x < 512 ==> r[x] == ZERO
  {
    seq(512, _ => ZERO)
  }

  /** A zeroed PML4 alone is a tree that translates nothing. */
  lemma EmptyTree(f: nat, gb: bool)
    ensures var t := Tables(map[f := ZeroTable()], f, gb, map[ROOT := f], map[f := ROOT]);
            Shape(t) && forall w: nat {:trigger Page(w)} :: Page(w) ==> Translate(t.mem, f, w) == None
  {
    var t := Tables(map[f := ZeroTable()], f, gb, map[ROOT := f], map[f := ROOT]);
    forall p, x: nat ensures EntryOk(t, p, x) {
      if p in t.node && x < 512 { assert Read(t.mem, f, x) == ZERO; }
    }
    assert Shape(t);
    forall w: nat | Page(w) ensures Translate(t.mem, f, w) == None {
      assert Read(t.mem, f, Prefix(w, 3) % 512) == ZERO;
    }
  }

  ghost function Linked(t: Tables, p: Pos, x: nat, f: nat, attributes: nat): Tables
    requires p.level > 0 && p in t.node && t.node[p] in t.mem && x < |t.mem[t.node[p]]| && f !in t.mem
  {
    t.(mem := Put(t.mem[f := ZeroTable()], t.node[p], x, Entry(f, attributes, false)),
       node := t.node[Down(p, x) := f],
       owner := t.owner[f := Down(p, x)])
  }

  lemma LinkShape(t: Tables, p: Pos, x: nat, f: nat, attributes: nat)
    requires Shape(t) && p in t.node && 2 <= p.level <= 4 && x < 512 && f !in t.mem && attributes % 2 == 1
    requires t.node[p] in t.mem && |t.mem[t.node[p]]| == 512
    requires !IsTable(Read(t.mem, t.node[p], x))
    ensures Shape(Linked(t, p, x, f, attributes))
  {
    var q, t' := Down(p, x), Linked(t, p, x, f, attributes);
    assert NodeOk(t, p) && NodeOk(t, q) && LinkOk(t, q) && FrameOk(t, f);
    assert Up(q) == p && q.n % 512 == x;
    assert q !in t.node;
    forall r ensures NodeOk(t', r) && LinkOk(t', r) {
      assert LinkOk(t, r) && NodeOk(t, r) && NodeOk(t, Up(r));
    }
    forall r, y: nat ensures EntryOk(t', r, y) {
      assert EntryOk(t, r, y) && NodeOk(t, r);
    }
    forall g ensures FrameOk(t', g) {
      assert FrameOk(t, g);
    }
  }

  /** A fresh zeroed table replaces an empty entry or a leaf: everything under it becomes unmapped. */
  lemma LinkTable(t: Tables, p: Pos, x: nat, f: nat, attributes: nat)
    requires Shape(t) && p in t.node && 2 <= p.level <= 4 && x < 512 && f !in t.mem && attributes % 2 == 1
    requires t.node[p] in t.mem && |t.mem[t.node[p]]| == 512
    requires !IsTable(Read(t.mem, t.node[p], x))
    ensures Shape(Linked(t, p, x, f, attributes)) && Overwritten(t, p, x, ZERO, Linked(t, p, x, f, attributes))
  {
    var q, t' := Down(p, x), Linked(t, p, x, f, attributes);
    LinkShape(t, p, x, f, attributes);
    assert NodeOk(t, p) && NodeOk(t, q) && LinkOk(t, q) && FrameOk(t, f);
    forall w: nat | Page(w)
      ensures Translate(t'.mem, t.root, w) == if Under(w, p, x) then None else Translate(t.mem, t.root, w)
    {
      if Under(w, p, x) {
        assert q == Pos(q.level, Prefix(w, q.level));
        SeesLeaf(t', w, q.level);
      } else {
        forall level | 1 <= level <= 3 ensures EntryAt(t', w, level) == EntryAt(t, w, level) {
          assert NodeOk(t, Pos(level, Prefix(w, level)));
        }
        SeesSame(t, t', w);
      }
    }
  }

  lemma LinkKeepsLink(t: Tables, p: Pos, x: nat, f: nat, attributes: nat, q: Pos)
    requires Shape(t) && p in t.node && 2 <= p.level <= 4 && x < 512 && f !in t.mem
    requires t.node[p] in t.mem && |t.mem[t.node[p]]| == 512 && Down(p, x) !in t.node
    ensures KeepsLink(t, Linked(t, p, x, f, attributes), q)
    ensures LinkBits(Linked(t, p, x, f, attributes), Down(p, x)) == attributes
  {
    assert NodeOk(t, q) && LinkOk(t, q) && NodeOk(t, Up(q)) && NodeOk(t, p);
    assert Up(Down(p, x)) == p && Down(p, x).n % 512 == x;
  }

  /** The place q and, when q is a level 2 table, the places below it. */
  predicate Gone(q: Pos, r: Pos) {
    r == q || (q.level == 2 && r.level == 1 && Up(r) == q)
  }

  /** The frames of the tables that leave the tree with the table at q. */
  ghost function GoneFrames(t: Tables, q: Pos): set<nat>
    requires t.mem.Keys <= t.owner.Keys
  {
    set f | f in t.mem && Gone(q, t.owner[f])
  }

  ghost function Unlinked(t: Tables, p: Pos, x: nat, e: Entry): Tables
    requires p.level > 0 && p in t.node && t.node[p] in t.mem && x < |t.mem[t.node[p]]|
    requires t.mem.Keys <= t.owner.Keys && t.owner[t.node[p]] == p
  {
    var gone := GoneFrames(t, Down(p, x));
    t.(mem := Put(t.mem - gone, t.node[p], x, e),
       node := map r | r in t.node && !Gone(Down(p, x), r) :: t.node[r],
       owner := t.owner - gone)
  }

  lemma UnlinkShape(t: Tables, p: Pos, x: nat, e: Entry)
    requires Shape(t) && Slot(t, p, x) && p.level >= 2 && LeafOk(e, p.level, t.gb)
    requires t.mem.Keys <= t.owner.Keys && t.owner[t.node[p]] == p
    ensures Shape(Unlinked(t, p, x, e))
  {
    var q, t' := Down(p, x), Unlinked(t, p, x, e);
    assert NodeOk(t, p) && NodeOk(t, q) && NodeOk(t, ROOT);
    forall r ensures NodeOk(t', r) && LinkOk(t', r) {
      assert LinkOk(t, r) && NodeOk(t, r) && NodeOk(t, Up(r));
    }
    forall r, y: nat ensures EntryOk(t', r, y) {
      assert EntryOk(t, r, y) && NodeOk(t, r);
    }
    forall g ensures FrameOk(t', g) {
      assert FrameOk(t, g);
    }
  }

  lemma UnlinkKeepsLink(t: Tables, p: Pos, x: nat, e: Entry, q: Pos)
    requires Shape(t) && Slot(t, p, x) && p.level >= 2
    requires t.mem.Keys <= t.owner.Keys && t.owner[t.node[p]] == p
    ensures KeepsLink(t, Unlinked(t, p, x, e), q)
  {
    assert NodeOk(t, q) && LinkOk(t, q) && NodeOk(t, Up(q)) && NodeOk(t, p);
  }

  /** A table entry is overwritten by a leaf or cleared, and the tables behind it leave the tree. */
  lemma UnlinkTable(t: Tables, p: Pos, x: nat, e: Entry)
    requires Shape(t) && Slot(t, p, x) && p.level >= 2 && LeafOk(e, p.level, t.gb)
    requires t.mem.Keys <= t.owner.Keys && t.owner[t.node[p]] == p
    ensures Shape(Unlinked(t, p, x, e)) && Overwritten(t, p, x, e, Unlinked(t, p, x, e))
  {
    var q, t' := Down(p, x), Unlinked(t, p, x, e);
    UnlinkShape(t, p, x, e);
    assert NodeOk(t, p);
    forall w: nat | Page(w)
      ensures Translate(t'.mem, t.root, w) == if Under(w, p, x) then Leaf(e, p.level, w) else Translate(t.mem, t.root, w)
    {
      if Under(w, p, x) {
        assert p == Pos(p.level, Prefix(w, p.level));
        SeesLeaf(t', w, p.level);
      } else {
        forall level | 1 <= level <= 3 ensures EntryAt(t', w, level) == EntryAt(t, w, level) {
          assert NodeOk(t, Pos(level, Prefix(w, level)));
        }
        SeesSame(t, t', w);
      }
    }
  }
}
