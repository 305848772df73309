// The back buffer of vga.c: drawing goes to memory and marks 8 by 16 pixel tiles, present copies the marked tiles to
// the frame buffer. The frame buffer must end up as if everything had been drawn there.
module Vga {
  /** Pixel (x, y) in a buffer of the given pitch. */
  function Index(pitch: nat, x: nat, y: nat): nat { y * pitch + x }

  lemma IndexInBounds(pitch: nat, lines: nat, x: nat, y: nat)
    requires x < pitch && y < lines
    ensures Index(pitch, x, y) < pitch * lines
  {
    assert (y + 1) * pitch <= lines * pitch;
  }

  lemma IndexInverts(pitch: nat, x: nat, y: nat)
    requires x < pitch
    ensures Index(pitch, x, y) / pitch == y && Index(pitch, x, y) % pitch == x
  {
    var i := Index(pitch, x, y);
    var q, r := i / pitch, i % pitch;
    assert (q - y) * pitch == x - r;
    Multiples(q - y, pitch);
  }

  lemma Multiples(k: int, pitch: nat)
    requires -(pitch as int) < k * pitch < pitch
    ensures k == 0
  {}

  lemma IndexInjective(pitch: nat, x: nat, y: nat, u: nat, v: nat)
    requires x < pitch && u < pitch && Index(pitch, x, y) == Index(pitch, u, v)
    ensures x == u && y == v
  {
    IndexInverts(pitch, x, y);
    IndexInverts(pitch, u, v);
  }

  /** A picture: the colour of every pixel of the buffer, on screen or not. */
  type Picture = seq<nat>

  /** A colour in the byte order of the screen: red and blue change places for BGR. */
  function Encode(color: nat, bgr: bool): nat {
    if bgr then color % 0x100 * 0x1_0000 + color / 0x100 % 0x100 * 0x100 + color / 0x1_0000 % 0x100 else color
  }

  lemma EncodeSwaps(r: nat, g: nat, b: nat)
    requires r < 0x100 && g < 0x100 && b < 0x100
    ensures Encode(r * 0x1_0000 + g * 0x100 + b, true) == b * 0x1_0000 + g * 0x100 + r
  {
    var c := r * 0x1_0000 + g * 0x100 + b;
    assert c / 0x1_0000 == r;
    assert c / 0x100 == r * 0x100 + g;
  }

  lemma EncodeBlack(bgr: bool)
    ensures Encode(0, bgr) == 0
  {}

  const VGA16: seq<nat> := [0x000000, 0x0000aa, 0x00aa00, 0x00aaaa, 0xaa0000, 0xaa00aa, 0xaa5500, 0xaaaaaa,
                            0x555555, 0x5555ff, 0x55ff55, 0x55ffff, 0xff5555, 0xff55ff, 0xffff55, 0xffffff]

  type ColorIndex = i: nat | i < 16

  datatype Op = Draw(x: int, y: int, color: nat) | Draw16(x: int, y: int, index: ColorIndex) | ScrollUp

  class Screen {
    const hres: nat
    const vres: nat
    const pitch: nat
    const columns: nat
    const rows: nat
    const bgr: bool
    const back: array<nat>
    const shown: array<nat>
    const diff: array<bool>
    /** The tiles that were ever marked. Elsewhere the screen still shows what it showed before vga_init. */
    ghost var touched: set<nat>

    predicate Visible(x: int, y: int) { 0 <= x < hres && 0 <= y < vres }

    function Tile(x: nat, y: nat): nat { Index(columns, x / 8, y / 16) }

    ghost predicate Sizes() {
      && hres <= pitch && columns == (hres + 7) / 8 && rows == (vres + 15) / 16
      && back.Length == shown.Length == pitch * vres && diff.Length == columns * rows
      && back != shown
    }

    /** A pixel that differs lies in a marked tile or was never drawn, and then it is black; p is the back buffer,
        q the screen, d the marks and tiles what was ever marked. */
    ghost predicate Tracked(p: Picture, q: Picture, d: seq<bool>, tiles: set<nat>, x: int, y: int) {
      Visible(x, y) ==>
        && Index(pitch, x, y) < |p| && Index(pitch, x, y) < |q| && Tile(x, y) < |d|
        && (d[Tile(x, y)] ==> Tile(x, y) in tiles)
        && if Tile(x, y) in tiles then p[Index(pitch, x, y)] != q[Index(pitch, x, y)] ==> d[Tile(x, y)]
           else p[Index(pitch, x, y)] == 0
    }

    ghost predicate AllTracked(p: Picture, q: Picture, d: seq<bool>, tiles: set<nat>) {
      forall x, y {:trigger Tracked(p, q, d, tiles, x, y)} :: Tracked(p, q, d, tiles, x, y)
    }

    ghost predicate Valid()
      reads this, back, shown, diff
    {
      Sizes() && AllTracked(back[..], shown[..], diff[..], touched)
    }

    /** The marks and the tiles touched once pixel (x, y) is marked. */
    function Marked(d: seq<bool>, x: int, y: int): seq<bool> {
      if Visible(x, y) && Tile(x, y) < |d| then d[Tile(x, y) := true] else d
    }

    ghost function Touching(tiles: set<nat>, x: int, y: int): set<nat> {
      if Visible(x, y) then tiles + {Tile(x, y)} else tiles
    }

    /** A cell may change if its pixel is marked. */
    lemma CellKeeps(p: Picture, q: Picture, d: seq<bool>, tiles: set<nat>, x: nat, y: nat, c: nat)
      requires AllTracked(p, q, d, tiles) && Index(pitch, x, y) < |p| && x < pitch && hres <= pitch
      ensures AllTracked(p[Index(pitch, x, y) := c], q, Marked(d, x, y), Touching(tiles, x, y))
    {
      var p' := p[Index(pitch, x, y) := c];
      assert Tracked(p, q, d, tiles, x, y);
      forall u, v ensures Tracked(p', q, Marked(d, x, y), Touching(tiles, x, y), u, v) {
        assert Tracked(p, q, d, tiles, u, v);
        if Visible(u, v) && Index(pitch, u, v) == Index(pitch, x, y) { IndexInjective(pitch, u, v, x, y); }
      }
    }

    lemma MarkKeeps(p: Picture, q: Picture, d: seq<bool>, tiles: set<nat>, x: int, y: int)
      requires AllTracked(p, q, d, tiles)
      ensures AllTracked(p, q, Marked(d, x, y), Touching(tiles, x, y))
    {
      assert Tracked(p, q, d, tiles, x, y);
      forall u, v ensures Tracked(p, q, Marked(d, x, y), Touching(tiles, x, y), u, v) {
        assert Tracked(p, q, d, tiles, u, v);
      }
    }

    /** Tile indices are in bounds, and a tile's index gives back its column and row. */
    lemma TileInBounds(x: nat, y: nat)
      requires Sizes() && Visible(x, y)
      ensures Index(pitch, x, y) < pitch * vres && Tile(x, y) < columns * rows
      ensures Tile(x, y) % columns == x / 8 && Tile(x, y) / columns == y / 16
    {
      IndexInBounds(pitch, vres, x, y);
      IndexInBounds(columns, rows, x / 8, y / 16);
      IndexInverts(columns, x / 8, y / 16);
    }

    /** vga_init: a black back buffer and no marked tile, whatever the screen shows. */
    constructor (shown: array<nat>, hres: nat, vres: nat, pitch: nat, bgr: bool)
      requires hres <= pitch && shown.Length == pitch * vres
      ensures Valid() && touched == {} && this.shown == shown && fresh(back) && fresh(diff)
      ensures this.hres == hres && this.vres == vres && this.pitch == pitch && this.bgr == bgr
      ensures forall i :: 0 <= i < back.Length ==> back[i] == 0
      ensures forall i :: 0 <= i < diff.Length ==> !diff[i]
    {
      this.shown, this.hres, this.vres, this.pitch, this.bgr, touched := shown, hres, vres, pitch, bgr, {};
      columns, rows := (hres + 7) / 8, (vres + 15) / 16;
      back := new nat[pitch * vres](_ => 0);
      diff := new bool[(hres + 7) / 8 * ((vres + 15) / 16)](_ => false);
      new;
      forall x, y ensures Tracked(back[..], shown[..], diff[..], touched, x, y) {
        if Visible(x, y) { TileInBounds(x, y); }
      }
    }

    /** update_diff. */
    method UpdateDiff(x: int, y: int)
      requires Sizes()
      modifies this, diff
      ensures diff[..] == Marked(old(diff[..]), x, y) && touched == Touching(old(touched), x, y)
    {
      if x < 0 || x >= hres || y < 0 || y >= vres {
        return;
      }
      TileInBounds(x, y);
      var place := y / 16 * columns + x / 8;
      diff[place] := true;
      touched := touched + {place};
    }

    /** draw_pixel: the picture in the back buffer changes in this pixel if it is on the screen. */
    method DrawPixel(x: int, y: int, color: nat)
      requires Valid()
      modifies this, back, diff
      ensures Valid() && shown[..] == old(shown[..]) && touched == Touching(old(touched), x, y)
      ensures back[..] == Drawn(old(back[..]), x, y, Encode(color, bgr))
    {
      if x < 0 || x >= hres || y < 0 || y >= vres {
        return;
      }
      var addr := y * pitch + x;
      TileInBounds(x, y);
      CellKeeps(back[..], shown[..], diff[..], touched, x, y, Encode(color, bgr));
      UpdateDiff(x, y);
      if addr < pitch * vres {
        back[addr] := Encode(color, bgr);
      }
    }

    function Drawn(p: Picture, x: int, y: int, code: nat): (q: Picture)
      ensures |q| == |p|
    {
      if Visible(x, y) && Index(pitch, x, y) < |p| then p[Index(pitch, x, y) := code] else p
    }

    /** The lines above the last sixteen. */
    function Kept(): nat { if vres < 16 then 0 else vres - 16 }

    /** The first n cells of the buffer take what is sixteen lines further on. */
    function Shifted(p: Picture, n: nat): (q: Picture)
      requires n + 16 * pitch <= |p| || n == 0
      ensures |q| == |p|
    {
      seq(|p|, i requires 0 <= i < |p| => if i < n then p[i + 16 * pitch] else p[i])
    }

    /** The cells from `from` up to n are blackened as far as they are on the screen. */
    function Blackened(p: Picture, from: nat, n: nat): (q: Picture)
      requires |p| > 0 ==> pitch > 0
      ensures |q| == |p|
    {
      seq(|p|, i requires 0 <= i < |p| => if from <= i < n && i % pitch < hres then 0 else p[i])
    }

    function Scrolled(p: Picture): (q: Picture)
      requires |p| == pitch * vres
      ensures |q| == |p|
    {
      ScrollFits();
      Blackened(Shifted(p, Kept() * pitch), Kept() * pitch, |p|)
    }

    lemma ScrollFits()
      ensures vres >= 16 ==> Kept() * pitch + 16 * pitch == pitch * vres
      ensures Kept() * pitch <= pitch * vres
    {
      assert Kept() <= vres;
      if vres >= 16 { assert (Kept() + 16) * pitch == Kept() * pitch + 16 * pitch; }
    }

    /** What scrolling is for: a pixel shows what was a text row below it, the last text row is black. */
    lemma ScrolledAt(p: Picture, x: nat, y: nat)
      requires |p| == pitch * vres && hres <= pitch && Visible(x, y)
      ensures Index(pitch, x, y) < |p| && (y + 16 < vres ==> Index(pitch, x, y + 16) < |p|)
      ensures Scrolled(p)[Index(pitch, x, y)] == if y + 16 < vres then p[Index(pitch, x, y + 16)] else 0
    {
      var i, from := Index(pitch, x, y), Kept() * pitch;
      IndexInBounds(pitch, vres, x, y);
      IndexInverts(pitch, x, y);
      ScrollFits();
      WhichHalf(x, y);
      assert i % pitch == x && (i < from <==> y + 16 < vres) && i < |p|;
      ScrolledCell(p, i, from);
    }

    lemma WhichHalf(x: nat, y: nat)
      requires hres <= pitch && Visible(x, y)
      ensures Index(pitch, x, y) < Kept() * pitch <==> y + 16 < vres
      ensures y + 16 < vres ==> Index(pitch, x, y + 16) == Index(pitch, x, y) + 16 * pitch < pitch * vres
    {
      if y + 16 < vres {
        IndexInBounds(pitch, vres, x, y + 16);
        assert (y + 16) * pitch == y * pitch + 16 * pitch;
        IndexInBounds(pitch, Kept(), x, y);
      } else {
        assert Kept() * pitch <= y * pitch;
      }
    }

    lemma ScrolledCell(p: Picture, i: nat, from: nat)
      requires |p| == pitch * vres && i < |p| && from == Kept() * pitch
      ensures i < from ==> i + 16 * pitch < |p| && Scrolled(p)[i] == p[i + 16 * pitch]
      ensures i >= from && i % pitch < hres ==> Scrolled(p)[i] == 0
    {
      ScrollFits();
    }

    /** One cell of the first loop of scroll. */
    method ShiftCell(x: nat, y: nat)
      requires Valid() && x < pitch && y + 16 < vres
      modifies this, back, diff
      ensures Valid() && shown[..] == old(shown[..]) && touched == Touching(old(touched), x, y)
      ensures Index(pitch, x, y) + 16 * pitch < |old(back[..])|
      ensures back[..] == old(back[..])[Index(pitch, x, y) := old(back[..])[Index(pitch, x, y) + 16 * pitch]]
    {
      IndexInBounds(pitch, vres, x, y + 16);
      assert (y + 16) * pitch == y * pitch + 16 * pitch;
      CellKeeps(back[..], shown[..], diff[..], touched, x, y, back[(y + 16) * pitch + x]);
      back[y * pitch + x] := back[(y + 16) * pitch + x];
      UpdateDiff(x, y);
    }

    lemma ShiftStep(p: Picture, x: nat, y: nat)
      requires |p| == pitch * vres && x < pitch && y + 16 < vres
      ensures Index(pitch, x, y) + 16 * pitch < |p|
      ensures var n, q := Index(pitch, x, y), Shifted(p, Index(pitch, x, y));
              Shifted(p, n + 1) == q[n := q[n + 16 * pitch]]
    {
      IndexInBounds(pitch, vres, x, y + 16);
      assert (y + 16) * pitch == y * pitch + 16 * pitch;
    }

    lemma BlackStep(p: Picture, from: nat, x: nat, y: nat, n: nat)
      requires |p| == pitch * vres && hres <= pitch && x < pitch && y < vres && from <= n == Index(pitch, x, y)
      ensures Blackened(p, from, n + 1) == Drawn(Blackened(p, from, n), x, y, 0)
    {
      IndexInBounds(pitch, vres, x, y);
      IndexInverts(pitch, x, y);
    }

    /** All pixels of the first lines, and of line `line` those left of column x, have been touched. */
    ghost predicate TouchedTo(tiles: set<nat>, line: int, x: int) {
      forall u, v {:trigger Tile(u, v)} :: Visible(u, v) && (v < line || (v == line && u < x)) ==> Tile(u, v) in tiles
    }

    /** The first loop of scroll. */
    method ShiftLines()
      requires Valid()
      modifies this, back, diff
      ensures Valid() && shown[..] == old(shown[..]) && old(touched) <= touched && TouchedTo(touched, Kept(), 0)
      ensures Kept() * pitch + 16 * pitch <= |old(back[..])| || Kept() * pitch == 0
      ensures back[..] == Shifted(old(back[..]), Kept() * pitch)
    {
      ghost var p := back[..];
      ScrollFits();
      assert back[..] == Shifted(p, 0);
      for y := 0 to Kept()
        invariant Valid() && shown[..] == old(shown[..]) && old(touched) <= touched && TouchedTo(touched, y, 0)
        invariant y * pitch + 16 * pitch <= |p| || y * pitch == 0
        invariant back[..] == Shifted(p, y * pitch)
      {
        LineFits(y);
        ShiftLine(y, p, y * pitch);
        NextLine(y);
      }
    }

    method ShiftLine(y: nat, ghost p: Picture, ghost from: nat)
      requires Valid() && y < Kept() && from == y * pitch && from + pitch + 16 * pitch <= |p| == pitch * vres
      requires back[..] == Shifted(p, from) && TouchedTo(touched, y, 0)
      modifies this, back, diff
      ensures Valid() && shown[..] == old(shown[..]) && old(touched) <= touched && TouchedTo(touched, y + 1, 0)
      ensures back[..] == Shifted(p, from + pitch)
    {
      for x := 0 to pitch
        invariant Valid() && shown[..] == old(shown[..]) && old(touched) <= touched && TouchedTo(touched, y, x)
        invariant back[..] == Shifted(p, from + x)
      {
        ShiftStep(p, x, y);
        ShiftCell(x, y);
      }
    }

    lemma LineFits(y: nat)
      requires y < Kept()
      ensures y * pitch + pitch + 16 * pitch <= pitch * vres
    {
      assert (y + 17) * pitch <= vres * pitch;
    }

    /** Its second loop; on a screen of less than sixteen lines it starts above the screen. */
    method BlackenLines()
      requires Valid() && TouchedTo(touched, Kept(), 0)
      modifies this, back, diff
      ensures Valid() && shown[..] == old(shown[..]) && old(touched) <= touched && TouchedTo(touched, vres, 0)
      ensures |old(back[..])| > 0 ==> pitch > 0
      ensures back[..] == Blackened(old(back[..]), Kept() * pitch, pitch * vres)
    {
      ghost var p, from := back[..], Kept() * pitch;
      ghost var n: nat := from;
      FirstLine();
      assert back[..] == Blackened(p, from, from);
      for y := vres - 16 to vres
        invariant Valid() && shown[..] == old(shown[..]) && old(touched) <= touched && TouchedTo(touched, y, 0)
        invariant from <= n && (if y < 0 then n == 0 else n == y * pitch) && back[..] == Blackened(p, from, n)
      {
        BlackenLine(y, p, from, n);
        NextLine(y);
        n := if y < 0 then n else n + pitch;
      }
    }

    lemma FirstLine()
      ensures if vres < 16 then Kept() * pitch == 0 else Kept() == vres - 16
      ensures vres * pitch == pitch * vres
    {}

    lemma NextLine(y: int)
      ensures (y + 1) * pitch == y * pitch + pitch
      ensures y == -1 ==> (y + 1) * pitch == 0
    {}

    method BlackenLine(y: int, ghost p: Picture, ghost from: nat, ghost start: nat)
      requires Valid() && y < vres && |p| == pitch * vres && from <= start && (y >= 0 ==> start == y * pitch)
      requires back[..] == Blackened(p, from, start) && TouchedTo(touched, y, 0)
      modifies this, back, diff
      ensures Valid() && shown[..] == old(shown[..]) && old(touched) <= touched && TouchedTo(touched, y + 1, 0)
      ensures back[..] == Blackened(p, from, if y < 0 then start else start + pitch)
    {
      ghost var n := start;
      for x := 0 to pitch
        invariant Valid() && shown[..] == old(shown[..]) && old(touched) <= touched && TouchedTo(touched, y, x)
        invariant n == (if y < 0 then start else start + x) && back[..] == Blackened(p, from, n)
      {
        BlackenCell(x, y, p, from, n);
        n := if y < 0 then n else n + 1;
      }
    }

    method BlackenCell(x: nat, y: int, ghost p: Picture, ghost from: nat, ghost n: nat)
      requires Valid() && y < vres && x < pitch && |p| == pitch * vres && back[..] == Blackened(p, from, n)
      requires y >= 0 ==> from <= n == Index(pitch, x, y)
      modifies this, back, diff
      ensures Valid() && shown[..] == old(shown[..]) && touched == Touching(old(touched), x, y)
      ensures back[..] == Blackened(p, from, if y < 0 then n else n + 1)
    {
      if y >= 0 {
        BlackStep(p, from, x, y, n);
      }
      EncodeBlack(bgr);
      DrawPixel(x, y, 0);
      MarkKeeps(back[..], shown[..], diff[..], touched, x, y);
      UpdateDiff(x, y);
    }

    /** The picture after scroll, which ends with a present: the whole screen shows it. */
    method Scroll()
      requires Valid()
      modifies this, back, diff, shown
      ensures Valid() && back[..] == Scrolled(old(back[..])) && old(touched) <= touched && TouchedTo(touched, vres, 0)
      ensures Shows(shown[..], back[..], old(shown[..]), touched)
    {
      ShiftLines();
      BlackenLines();
      Present();
    }

    /** A pixel of a touched tile is the one of the back buffer p; the others are what the screen showed before. */
    ghost predicate ShowsAt(q: Picture, p: Picture, before: Picture, tiles: set<nat>, x: int, y: int) {
      Visible(x, y) ==>
        && Index(pitch, x, y) < |q| && Index(pitch, x, y) < |p| && Index(pitch, x, y) < |before|
        && q[Index(pitch, x, y)] == if Tile(x, y) in tiles then p[Index(pitch, x, y)] else before[Index(pitch, x, y)]
    }

    ghost predicate Shows(q: Picture, p: Picture, before: Picture, tiles: set<nat>) {
      forall x, y {:trigger ShowsAt(q, p, before, tiles, x, y)} :: ShowsAt(q, p, before, tiles, x, y)
    }

    /** Two screens that agree where nothing was touched. */
    ghost predicate Untouched(q: Picture, before: Picture, tiles: set<nat>) {
      forall x, y {:trigger Tile(x, y)} ::
        Visible(x, y) && Tile(x, y) !in tiles && Index(pitch, x, y) < |q| && Index(pitch, x, y) < |before| ==>
          q[Index(pitch, x, y)] == before[Index(pitch, x, y)]
    }

    /** Pixel (x, y) lies in the tile at column tx and row ty. */
    predicate InTile(x: int, y: int, tx: nat, ty: nat) { Visible(x, y) && x / 8 == tx && y / 16 == ty }

    /** present: the marked tiles are copied and unmarked; then the screen shows the back buffer where it was touched. */
    method Present()
      requires Valid()
      modifies diff, shown
      ensures Valid() && Shows(shown[..], back[..], old(shown[..]), touched)
      ensures forall k :: 0 <= k < diff.Length ==> !diff[k]
    {
      ghost var was := shown[..];
      for i := 0 to diff.Length
        invariant Valid() && forall k :: 0 <= k < i ==> !diff[k]
        invariant Untouched(shown[..], was, touched)
      {
        if diff[i] {
          PresentTile(i);
        }
      }
      forall x, y ensures ShowsAt(shown[..], back[..], was, touched, x, y) {
        assert Tracked(back[..], shown[..], diff[..], touched, x, y);
      }
    }

    method PresentTile(i: nat)
      requires Valid() && i < diff.Length && diff[i]
      modifies diff, shown
      ensures Valid() && diff[..] == old(diff[..])[i := false]
      ensures Untouched(shown[..], old(shown[..]), touched)
    {
      ghost var was, d := shown[..], diff[..];
      diff[i] := false;
      CopyTile(i % columns, i / columns);
      CopyKeeps(back[..], was, shown[..], d, touched, i);
    }

    lemma CopyKeepsAt(p: Picture, q: Picture, q': Picture, d: seq<bool>, tiles: set<nat>, i: nat, x: nat, y: nat)
      requires Sizes() && Visible(x, y) && Tracked(p, q, d, tiles, x, y) && i < |d| == columns * rows && d[i]
      requires Index(pitch, x, y) < |q'|
      requires q'[Index(pitch, x, y)] == if Tile(x, y) == i then p[Index(pitch, x, y)] else q[Index(pitch, x, y)]
      ensures Tracked(p, q', d[i := false], tiles, x, y)
      ensures Tile(x, y) !in tiles ==> q'[Index(pitch, x, y)] == q[Index(pitch, x, y)]
    {
    }

    lemma InTileIff(x: nat, y: nat, i: nat)
      requires Sizes() && Visible(x, y) && columns > 0
      ensures InTile(x, y, i % columns, i / columns) <==> Tile(x, y) == i
    {
      TileInBounds(x, y);
    }

    /** Copying a marked tile keeps track, and changes no tile that was never touched. */
    lemma CopyKeeps(p: Picture, q: Picture, q': Picture, d: seq<bool>, tiles: set<nat>, i: nat)
      requires Sizes() && AllTracked(p, q, d, tiles) && |p| == |q| == |q'| == pitch * vres && i < |d| == columns * rows && d[i]
      requires CopiedTo(p, q', q, i % columns, i / columns, vres, 0)
      ensures AllTracked(p, q', d[i := false], tiles) && Untouched(q', q, tiles)
    {
      forall x, y
        ensures Tracked(p, q', d[i := false], tiles, x, y)
        ensures Visible(x, y) && Tile(x, y) !in tiles ==> q'[Index(pitch, x, y)] == q[Index(pitch, x, y)]
      {
        assert Tracked(p, q, d, tiles, x, y);
        if Visible(x, y) {
          InTileIff(x, y, i);
          CopyKeepsAt(p, q, q', d, tiles, i, x, y);
        }
      }
    }

    /** The two inner loops of present. */
    method CopyTile(tx: nat, ty: nat)
      requires Sizes()
      modifies shown
      ensures CopiedTo(back[..], shown[..], old(shown[..]), tx, ty, vres, 0)
    {
      var i := 16 * ty;
      forall x, y | Visible(x, y) ensures Index(pitch, x, y) < shown.Length { TileInBounds(x, y); }
      while i < 16 * ty + 16 && i < vres
        invariant 16 * ty <= i <= 16 * ty + 16
        invariant CopiedTo(back[..], shown[..], old(shown[..]), tx, ty, i, 0)
      {
        CopyTileLine(tx, ty, i, old(shown[..]));
        i := i + 1;
      }
    }

    /** Of the tile, the lines above i have been copied from p to q, and in line i the columns left of j. */
    ghost predicate CopiedTo(p: Picture, q: Picture, was: Picture, tx: nat, ty: nat, i: nat, j: nat) {
      forall x, y {:trigger Visible(x, y)} :: Visible(x, y) ==>
        Index(pitch, x, y) < |was| && Index(pitch, x, y) < |p| && Index(pitch, x, y) < |q| &&
        q[Index(pitch, x, y)] ==
          if InTile(x, y, tx, ty) && (y < i || (y == i && x < j)) then p[Index(pitch, x, y)] else was[Index(pitch, x, y)]
    }

    method CopyTileLine(tx: nat, ty: nat, i: nat, ghost was: Picture)
      requires Sizes() && i / 16 == ty && i < vres && CopiedTo(back[..], shown[..], was, tx, ty, i, 0)
      modifies shown
      ensures CopiedTo(back[..], shown[..], was, tx, ty, i + 1, 0)
    {
      var j := 8 * tx;
      while j < 8 * tx + 8 && j < hres
        invariant 8 * tx <= j <= 8 * tx + 8
        invariant CopiedTo(back[..], shown[..], was, tx, ty, i, j)
      {
        CopyCell(tx, ty, i, j, was);
        j := j + 1;
      }
    }

    method CopyCell(tx: nat, ty: nat, i: nat, j: nat, ghost was: Picture)
      requires Sizes() && i / 16 == ty && i < vres && j / 8 == tx && j < hres
      requires CopiedTo(back[..], shown[..], was, tx, ty, i, j)
      modifies shown
      ensures CopiedTo(back[..], shown[..], was, tx, ty, i, j + 1)
    {
      IndexInBounds(pitch, vres, j, i);
      var place := i * pitch + j;
      CopyStep(back[..], shown[..], was, tx, ty, i, j);
      shown[place] := back[place];
    }

    lemma CopyStep(p: Picture, q: Picture, was: Picture, tx: nat, ty: nat, i: nat, j: nat)
      requires hres <= pitch && i / 16 == ty && i < vres && j / 8 == tx && j < hres
      requires CopiedTo(p, q, was, tx, ty, i, j) && Index(pitch, j, i) < |p| && Index(pitch, j, i) < |q|
      ensures CopiedTo(p, q[Index(pitch, j, i) := p[Index(pitch, j, i)]], was, tx, ty, i, j + 1)
    {
      var q' := q[Index(pitch, j, i) := p[Index(pitch, j, i)]];
      forall x, y | Visible(x, y)
        ensures Index(pitch, x, y) < |was| && Index(pitch, x, y) < |p| && Index(pitch, x, y) < |q'|
        ensures q'[Index(pitch, x, y)] ==
          if InTile(x, y, tx, ty) && (y < i || (y == i && x < j + 1)) then p[Index(pitch, x, y)] else was[Index(pitch, x, y)]
      {
        if Index(pitch, x, y) == Index(pitch, j, i) { IndexInjective(pitch, x, y, j, i); }
      }
    }

    /** draw_16color. */
    method Draw16Color(x: int, y: int, colorIndex: ColorIndex)
      requires Valid()
      modifies this, back, diff
      ensures Valid() && shown[..] == old(shown[..]) && touched == Touching(old(touched), x, y)
      ensures back[..] == Drawn(old(back[..]), x, y, Encode(VGA16[colorIndex], bgr))
    {
      DrawPixel(x, y, VGA16[colorIndex]);
    }

    /** The picture after some draws and scrolls, each done on the picture itself. */
    function Painted(p: Picture, ops: seq<Op>): (q: Picture)
      requires |p| == pitch * vres
      ensures |q| == |p|
      decreases |ops|
    {
      if ops == [] then p else PaintOne(Painted(p, ops[..|ops| - 1]), ops[|ops| - 1])
    }

    function PaintOne(p: Picture, op: Op): (q: Picture)
      requires |p| == pitch * vres
      ensures |q| == |p|
    {
      match op
      case Draw(x, y, color) => Drawn(p, x, y, Encode(color, bgr))
      case Draw16(x, y, index) => Drawn(p, x, y, Encode(VGA16[index], bgr))
      case ScrollUp => Scrolled(p)
    }

    /** The operations touch the tile of this pixel: scrolling touches every tile. */
    predicate Reaches(ops: seq<Op>, x: nat, y: nat) {
      exists k :: 0 <= k < |ops| && (!ops[k].ScrollUp? ==> Visible(ops[k].x, ops[k].y) && Tile(ops[k].x, ops[k].y) == Tile(x, y))
    }

    lemma ReachesStep(ops: seq<Op>, i: nat, x: nat, y: nat)
      requires i < |ops|
      ensures Reaches(ops[..i + 1], x, y) <==>
        Reaches(ops[..i], x, y) || (!ops[i].ScrollUp? ==> Visible(ops[i].x, ops[i].y) && Tile(ops[i].x, ops[i].y) == Tile(x, y))
    {
      if Reaches(ops[..i], x, y) {
        var k :| 0 <= k < i && (!ops[k].ScrollUp? ==> Visible(ops[k].x, ops[k].y) && Tile(ops[k].x, ops[k].y) == Tile(x, y));
        assert ops[..i + 1][k] == ops[k];
      }
      assert ops[..i + 1][i] == ops[i];
    }

    /** The tiles touched are those touched before and those the operations reach. */
    ghost predicate TouchedBy(tiles: set<nat>, before: set<nat>, ops: seq<Op>) {
      forall x, y {:trigger Tile(x, y)} :: Visible(x, y) ==>
        (Tile(x, y) in tiles <==> Tile(x, y) in before || Reaches(ops, x, y))
    }

    lemma TouchedStep(tiles: set<nat>, tiles': set<nat>, before: set<nat>, ops: seq<Op>, i: nat)
      requires i < |ops| && TouchedBy(tiles, before, ops[..i])
      requires !ops[i].ScrollUp? ==> tiles' == Touching(tiles, ops[i].x, ops[i].y)
      requires ops[i].ScrollUp? ==> TouchedTo(tiles', vres, 0)
      ensures TouchedBy(tiles', before, ops[..i + 1])
    {
      forall x, y | Visible(x, y)
        ensures Tile(x, y) in tiles' <==> Tile(x, y) in before || Reaches(ops[..i + 1], x, y)
      {
        ReachesStep(ops, i, x, y);
      }
    }

    lemma UntouchedStep(q: Picture, q1: Picture, q2: Picture, tiles1: set<nat>, tiles2: set<nat>)
      requires |q| == |q1| == |q2| && tiles1 <= tiles2 && Untouched(q1, q, tiles1) && Untouched(q2, q1, tiles2)
      ensures Untouched(q2, q, tiles2)
    {}

    lemma ShowsBefore(q: Picture, q1: Picture, q2: Picture, p: Picture, tiles: set<nat>)
      requires |q| == |q1| == |q2| && Untouched(q1, q, tiles) && Shows(q2, p, q1, tiles)
      ensures Shows(q2, p, q, tiles)
    {
      forall x, y ensures ShowsAt(q2, p, q, tiles, x, y) { assert ShowsAt(q2, p, q1, tiles, x, y); }
    }

    /** A tile never touched is black in the picture. */
    lemma UntouchedIsBlack(p: Picture, q: Picture, d: seq<bool>, tiles: set<nat>)
      requires AllTracked(p, q, d, tiles)
      ensures Untouched(p, seq(|p|, _ => 0), tiles)
    {
      forall x, y | Visible(x, y) && Tile(x, y) !in tiles && Index(pitch, x, y) < |p| ensures p[Index(pitch, x, y)] == 0 {
        assert Tracked(p, q, d, tiles, x, y);
      }
    }

    /** One drawing operation on the buffers, and the same on the picture. */
    method Apply(op: Op)
      requires Valid()
      modifies this, back, diff, shown
      ensures Valid() && back[..] == PaintOne(old(back[..]), op)
      ensures !op.ScrollUp? ==> touched == Touching(old(touched), op.x, op.y)
      ensures op.ScrollUp? ==> TouchedTo(touched, vres, 0)
      ensures old(touched) <= touched && Untouched(shown[..], old(shown[..]), touched)
    {
      match op
      case Draw(x, y, color) => DrawPixel(x, y, color);
      case Draw16(x, y, index) => Draw16Color(x, y, index);
      case ScrollUp => Scroll();
    }

    /** After any sequence of draws and scrolls, and a present, the screen shows what direct drawing on a black picture
        would have left, where something was drawn; elsewhere, where that picture is black, it shows what it did before. */
    method Paint(ops: seq<Op>)
      requires Valid()
      modifies this, back, diff, shown
      ensures Valid() && back[..] == Painted(old(back[..]), ops)
      ensures TouchedBy(touched, old(touched), ops)
      ensures Shows(shown[..], Painted(old(back[..]), ops), old(shown[..]), touched)
      ensures Untouched(Painted(old(back[..]), ops), seq(back.Length, _ => 0), touched)
    {
      for i := 0 to |ops|
        invariant Valid() && back[..] == Painted(old(back[..]), ops[..i])
        invariant TouchedBy(touched, old(touched), ops[..i]) && Untouched(shown[..], old(shown[..]), touched)
      {
        assert ops[..i + 1][..i] == ops[..i];
        ghost var tiles, q := touched, shown[..];
        Apply(ops[i]);
        TouchedStep(tiles, touched, old(touched), ops, i);
        UntouchedStep(old(shown[..]), q, shown[..], tiles, touched);
      }
      assert ops[..|ops|] == ops;
      ghost var q := shown[..];
      UntouchedIsBlack(back[..], q, diff[..], touched);
      Present();
      ShowsBefore(old(shown[..]), q, shown[..], back[..], touched);
    }
  }
}
