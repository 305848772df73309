// How many frames can still be found after create_mapping: one less for each table that was missing on the range.
module PageSupply {
  import opened FrameAllocation
  import opened PageTree
  import opened PageEffects

  /** The tables that page walks into [lo, hi) need and that do not exist. */
  ghost function Missing(t: Tables, lo: nat, hi: nat): set<Pos> {
    set l: nat, n: nat | 1 <= l <= 3 && n <= hi && Lacks(t, Pos(l, n), lo, hi) :: Pos(l, n)
  }

  lemma InMissing(t: Tables, lo: nat, hi: nat, q: Pos)
    ensures q in Missing(t, lo, hi) <==> Lacks(t, q, lo, hi)
  {
    if Lacks(t, q, lo, hi) {
      assert First(q) < hi && q.n <= hi;
      assert q == Pos(q.level, q.n);
    }
  }

  ghost function Made(t: Tables, t': Tables): set<Pos> {
    t'.node.Keys - t.node.Keys
  }

  lemma {:induction false} Injection(a: set<nat>, b: set<Pos>, f: map<nat, Pos>)
    requires forall x :: x in a ==> x in f && f[x] in b
    requires forall x, y :: x in a && y in a && f[x] == f[y] ==> x == y
    ensures |a| <= |b|
  {
    if a != {} {
      var x :| x in a;
      Injection(a - {x}, b - {f[x]}, f);
    }
  }

  lemma SubsetCard<T>(a: set<T>, b: set<T>)
    requires a <= b
    ensures |a| <= |b|
  {
    assert b == a + (b - a);
  }

  /** Every frame that became a table sits at a place that had no table. */
  lemma NewFrames(s: Snapshot, s': Snapshot, lo: nat, hi: nat)
    requires Shape(s.t) && Shape(s'.t) && Reshapes(s, s', lo, hi)
    ensures |s'.t.mem.Keys - s.t.mem.Keys| <= |Made(s.t, s'.t)|
  {
    var a := s'.t.mem.Keys - s.t.mem.Keys;
    forall f | f in a ensures f in s'.t.owner && s'.t.owner[f] in Made(s.t, s'.t) && s'.t.node[s'.t.owner[f]] == f {
      var q := if f in s'.t.owner then s'.t.owner[f] else ROOT;
      assert FrameOk(s'.t, f) && Fate(s, s', lo, hi, q) && NodeOk(s.t, q);
    }
    Injection(a, Made(s.t, s'.t), s'.t.owner);
  }

  /** The frames at or above c that are left after work on [lo, hi). */
  lemma SupplyAfter(s: Snapshot, s': Snapshot, lo: nat, hi: nat, c: nat)
    requires Shape(s.t) && Shape(s'.t) && Reshapes(s, s', lo, hi)
    requires forall f :: f in Above(s.free, c) ==> s.hint <= f && f !in s.t.mem
    ensures |Above(s.free, c)| <= |Above(s'.free, c)| + |Made(s.t, s'.t)|
    ensures forall f :: f in Above(s'.free, c) ==> s'.hint <= f || f in s'.t.mem
  {
    var before, after, tables := Above(s.free, c), Above(s'.free, c), s'.t.mem.Keys - s.t.mem.Keys;
    forall f | f in before ensures f in after + tables {
      assert FrameFate(s, s', f);
    }
    SubsetCard(before, after + tables);
    NewFrames(s, s', lo, hi);
    forall f | f in after ensures s'.hint <= f || f in s'.t.mem {
      assert FrameFate(s, s', f);
    }
  }
}
