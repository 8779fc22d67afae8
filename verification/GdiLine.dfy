/** The integer line rasteriser: it ends exactly at its target, after as many steps as
    the longer side is long, and stays within half a pixel of the ideal line. */
module GdiLine {
  import opened Words

  datatype Line = Line(x0: int, y0: int, x1: int, y1: int) {
    function Adx(): (d: int)
      ensures d >= 0
    {
      if x1 < x0 then x0 - x1 else x1 - x0
    }

    function Ady(): (d: int)
      ensures d >= 0
    {
      if y1 < y0 then y0 - y1 else y1 - y0
    }

    function Sx(): int {
      if x1 < x0 then -1 else 1
    }

    function Sy(): int {
      if y1 < y0 then -1 else 1
    }

    function Steps(): nat {
      if Adx() > Ady() then Adx() else Ady()
    }
  }

  /** The loop's three variables. */
  datatype Cursor = Cursor(x: int, y: int, err: int)

  /** C's division rounds toward zero. */
  function Half(n: int): int {
    if n < 0 then -(-n / 2) else n / 2
  }

  function Start(l: Line): Cursor {
    Cursor(l.x0, l.y0, Half(if l.Adx() > l.Ady() then l.Adx() else -l.Ady()))
  }

  function Next(l: Line, c: Cursor): Cursor {
    var c1 := if c.err > -l.Adx() then Cursor(c.x + l.Sx(), c.y, c.err - l.Ady()) else c;
    if c.err < l.Ady() then Cursor(c1.x, c1.y + l.Sy(), c1.err + l.Adx()) else c1
  }

  function At(l: Line, k: nat): Cursor {
    if k == 0 then Start(l) else Next(l, At(l, k - 1))
  }

  lemma NextCursor(l: Line, k: nat, c: Cursor, c': Cursor)
    requires c == At(l, k) && c' == Next(l, c)
    ensures c' == At(l, k + 1)
  {
  }

  /** The cursor after i moves along x and j along y. */
  function Moved(l: Line, i: nat, j: nat): Cursor {
    Cursor(l.x0 + l.Sx() * i, l.y0 + l.Sy() * j, Start(l).err - i * l.Ady() + j * l.Adx())
  }

  /** The error term stays in a window as wide as the longer side. */
  predicate InWindow(l: Line, err: int) {
    if l.Adx() > l.Ady() then 0 <= err < l.Adx() else -l.Ady() < err <= 0 || l.Ady() == 0
  }

  lemma Products(i: nat, j: nat, a: int, b: int)
    ensures (i + 1) * a == i * a + a && (j + 1) * b == j * b + b
  {
  }

  /** One step moves along the longer side, and along the other one when the error term
      says so. */
  lemma StepMoves(l: Line, i: nat, j: nat)
    requires l.Steps() > 0 && InWindow(l, Moved(l, i, j).err)
    ensures var e := Moved(l, i, j).err;
            var i' := if e > -l.Adx() then i + 1 else i;
            var j' := if e < l.Ady() then j + 1 else j;
            && Next(l, Moved(l, i, j)) == Moved(l, i', j') && InWindow(l, Moved(l, i', j').err)
            && (l.Adx() > l.Ady() ==> i' == i + 1) && (l.Adx() <= l.Ady() ==> j' == j + 1)
  {
    Products(i, j, l.Ady(), l.Adx());
    Products(i, j, l.Sx(), l.Sy());
  }

  /** After k steps the longer coordinate has moved by k. */
  lemma {:induction false} Along(l: Line, k: nat) returns (i: nat, j: nat)
    requires l.Steps() > 0
    ensures At(l, k) == Moved(l, i, j) && InWindow(l, Moved(l, i, j).err)
    ensures if l.Adx() > l.Ady() then i == k else j == k
  {
    if k == 0 {
      i, j := 0, 0;
    } else {
      i, j := Along(l, k - 1);
      i, j := OneStep(l, i, j);
    }
  }

  lemma OneStep(l: Line, i: nat, j: nat) returns (i': nat, j': nat)
    requires l.Steps() > 0 && InWindow(l, Moved(l, i, j).err)
    ensures Next(l, Moved(l, i, j)) == Moved(l, i', j') && InWindow(l, Moved(l, i', j').err)
    ensures if l.Adx() > l.Ady() then i' == i + 1 else j' == j + 1
  {
    StepMoves(l, i, j);
    var e := Moved(l, i, j).err;
    i', j' := if e > -l.Adx() then i + 1 else i, if e < l.Ady() then j + 1 else j;
  }

  /** Counts close enough to a multiple are the multiple. */
  lemma Exact(j: nat, m: nat, n: int)
    requires n > 0 && 2 * (j * n - m * n) <= n && 2 * (m * n - j * n) <= n
    ensures j == m
  {
    if j != m {
      MulSubtract(j, m, n);
      FarApart(j - m, n, j * n - m * n);
    }
  }

  /** The window of the error term is half a pixel to either side. */
  lemma WindowIsHalf(l: Line, i: nat, j: nat)
    requires l.Steps() > 0 && InWindow(l, Moved(l, i, j).err)
    ensures 2 * (j * l.Adx() - i * l.Ady()) <= l.Steps() && 2 * (i * l.Ady() - j * l.Adx()) <= l.Steps()
  {
  }

  /** The loop reaches its end: after exactly max(|dx|, |dy|) steps, and not before. */
  lemma ReachesEnd(l: Line, k: nat)
    requires k <= l.Steps()
    ensures At(l, k).x == l.x1 && At(l, k).y == l.y1 <==> k == l.Steps()
  {
    if l.Steps() > 0 {
      var i, j := Along(l, k);
      WindowIsHalf(l, i, j);
      if k == l.Steps() {
        AtTheEnd(l, i, j);
      } else {
        NotYet(l, i, j);
      }
    }
  }

  lemma AtTheEnd(l: Line, i: nat, j: nat)
    requires l.Steps() > 0 && if l.Adx() > l.Ady() then i == l.Adx() else j == l.Ady()
    requires 2 * (j * l.Adx() - i * l.Ady()) <= l.Steps() && 2 * (i * l.Ady() - j * l.Adx()) <= l.Steps()
    ensures Moved(l, i, j).x == l.x1 && Moved(l, i, j).y == l.y1
  {
    MulCommute(l.Adx(), l.Ady());
    if l.Adx() > l.Ady() {
      Exact(j, l.Ady(), l.Adx());
    } else {
      Exact(i, l.Adx(), l.Ady());
    }
  }

  lemma NotYet(l: Line, i: nat, j: nat)
    requires if l.Adx() > l.Ady() then i < l.Adx() else j < l.Ady()
    ensures Moved(l, i, j).x != l.x1 || Moved(l, i, j).y != l.y1
  {
  }

  function Abs(x: int): nat {
    if x < 0 then -x else x
  }

  lemma Signs(s: int, t: int, i: int, j: int, a: int, b: int)
    requires (s == 1 || s == -1) && (t == 1 || t == -1)
    ensures (t * j) * (s * a) - (s * i) * (t * b) == (s * t) * (j * a - i * b)
    ensures Abs((s * t) * (j * a - i * b)) == Abs(j * a - i * b)
  {
  }

  /** Every pixel is within half a pixel of the ideal line, measured along the shorter
      side: twice the cross product is at most the longer side. */
  lemma WithinHalfAPixel(l: Line, k: nat)
    requires k <= l.Steps()
    ensures var c := At(l, k);
            && 2 * Abs((c.y - l.y0) * (l.x1 - l.x0) - (c.x - l.x0) * (l.y1 - l.y0)) <= l.Steps()
            && (if l.Adx() > l.Ady() then Abs(c.x - l.x0) else Abs(c.y - l.y0)) == k
  {
    if l.Steps() > 0 {
      var i, j := Along(l, k);
      WindowIsHalf(l, i, j);
      Signs(l.Sx(), l.Sy(), i, j, l.Adx(), l.Ady());
      assert l.x1 - l.x0 == l.Sx() * l.Adx() && l.y1 - l.y0 == l.Sy() * l.Ady();
    }
  }

  /** The k-th pixel outright: k along the longer side, and along the shorter one the
      nearest whole number, of two equally near ones the smaller. */
  lemma PixelAt(l: Line, k: nat)
    requires l.Steps() > 0
    ensures var long, short := l.Steps(), if l.Adx() > l.Ady() then l.Ady() else l.Adx();
            var minor := (k * short - long / 2 + long - 1) / long;
            var c := At(l, k);
            if l.Adx() > l.Ady() then c.x == l.x0 + l.Sx() * k && c.y == l.y0 + l.Sy() * minor
            else c.y == l.y0 + l.Sy() * k && c.x == l.x0 + l.Sx() * minor
  {
    var i, j := Along(l, k);
    if l.Adx() > l.Ady() {
      Nearest(k, j, l.Ady(), l.Adx());
    } else {
      Nearest(k, i, l.Adx(), l.Ady());
    }
  }

  lemma Nearest(k: nat, m: nat, short: nat, long: nat)
    requires long > 0 && 0 <= long / 2 - k * short + m * long < long
    ensures m == (k * short - long / 2 + long - 1) / long
  {
    DivModUnique(k * short - long / 2 + long - 1, long, m, k * short - long / 2 + long - 1 - m * long);
  }

  /** Consecutive pixels touch. */
  lemma Connected(l: Line, k: nat)
    ensures Abs(At(l, k + 1).x - At(l, k).x) <= 1 && Abs(At(l, k + 1).y - At(l, k).y) <= 1
  {
  }

  // ---- Drawing ----

  function PutPx(fb: seq<int>, w: nat, h: nat, x: int, y: int, rgba: int): (r: seq<int>)
    requires w * h <= |fb|
    ensures |r| == |fb|
  {
    if x < 0 || y < 0 || x >= w || y >= h then fb
    else
      PixelInside(w, h, x, y);
      fb[y * w + x := rgba]
  }

  lemma PixelInside(w: nat, h: nat, x: nat, y: nat)
    requires x < w && y < h
    ensures 0 <= y * w + x < w * h
  {
    RowFits(y, h, w);
    MulCommute(w, h);
  }

  lemma RowFits(y: nat, h: nat, w: nat)
    requires y < h
    ensures 0 <= y * w && y * w + w <= h * w
  {
    Products(y, 0, w, 0);
    MulMonotone(y + 1, h, w);
    MulMonotone(0, y, w);
  }

  /** The framebuffer after the first n pixels of the line. */
  function Drawn(fb: seq<int>, w: nat, h: nat, l: Line, n: nat, rgba: int): (r: seq<int>)
    requires w * h <= |fb|
    ensures |r| == |fb|
    decreases n
  {
    if n == 0 then fb else PutPx(Drawn(fb, w, h, l, n - 1, rgba), w, h, At(l, n - 1).x, At(l, n - 1).y, rgba)
  }

  predicate Visits(l: Line, n: nat, x: int, y: int) {
    exists k | 0 <= k < n :: At(l, k).x == x && At(l, k).y == y
  }

  lemma DrawnNext(fb: seq<int>, w: nat, h: nat, l: Line, k: nat, rgba: int, before: seq<int>, after: seq<int>, x: int, y: int)
    requires w * h <= |fb| && before == Drawn(fb, w, h, l, k, rgba) && At(l, k).x == x && At(l, k).y == y
    requires after == PutPx(before, w, h, x, y, rgba)
    ensures after == Drawn(fb, w, h, l, k + 1, rgba)
  {
  }

  lemma SamePixel(w: nat, x: nat, y: nat, x': nat, y': nat)
    requires x < w && x' < w && y * w + x == y' * w + x'
    ensures x == x' && y == y'
  {
    if y != y' {
      MulSubtract(y, y', w);
      FarApart(y - y', w, x' - x);
    }
  }

  /** Exactly the visited pixels inside the window get the colour. */
  lemma {:induction false} OnlyTheLine(fb: seq<int>, w: nat, h: nat, l: Line, n: nat, rgba: int, x: nat, y: nat)
    requires w * h <= |fb| && x < w && y < h
    ensures 0 <= y * w + x < |fb|
    ensures Drawn(fb, w, h, l, n, rgba)[y * w + x] == if Visits(l, n, x, y) then rgba else fb[y * w + x]
    decreases n
  {
    PixelInside(w, h, x, y);
    if n > 0 {
      OnlyTheLine(fb, w, h, l, n - 1, rgba, x, y);
      var c := At(l, n - 1);
      if 0 <= c.x < w && 0 <= c.y < h {
        PixelInside(w, h, c.x, c.y);
        if c.y * w + c.x == y * w + x {
          SamePixel(w, c.x, c.y, x, y);
        }
      }
      assert Visits(l, n, x, y) <==> Visits(l, n - 1, x, y) || (c.x == x && c.y == y);
    }
  }

  /** A device context, as far as lines go. */
  class DeviceContext {
    var curX: int
    var curY: int

    constructor ()
      ensures curX == 0 && curY == 0
    {
      curX, curY := 0, 0;
    }

    method MoveTo(x: int, y: int)
      modifies this
      ensures curX == x && curY == y
    {
      curX, curY := x, y;
    }

    /** wg_gdi_line_to on the framebuffer of a w by h window. */
    method LineTo(fb: array<int>, w: nat, h: nat, x: int, y: int, rgba: int)
      requires w * h <= fb.Length
      modifies this, fb
      ensures curX == x && curY == y
      ensures var l := Line(old(curX), old(curY), x, y);
              fb[..] == Drawn(old(fb[..]), w, h, l, l.Steps() + 1, rgba)
    {
      ghost var l, k := Line(curX, curY, x, y), 0;
      var x0, y0 := curX, curY;
      var dx, dy := x - x0, y - y0;
      var adx, ady := if dx < 0 then -dx else dx, if dy < 0 then -dy else dy;
      var sx, sy := if dx < 0 then -1 else 1, if dy < 0 then -1 else 1;
      var err := Half(if adx > ady then adx else -ady);
      var done := false;
      while !done
        invariant k <= l.Steps() && Cursor(x0, y0, err) == At(l, k)
        invariant fb[..] == Drawn(old(fb[..]), w, h, l, if done then k + 1 else k, rgba)
        invariant done ==> k == l.Steps()
        decreases l.Steps() - k, !done
      {
        ReachesEnd(l, k);
        ghost var before := fb[..];
        PutPixel(fb, w, h, x0, y0, rgba);
        DrawnNext(old(fb[..]), w, h, l, k, rgba, before, fb[..], x0, y0);
        if x0 == x && y0 == y {
          done := true;
        } else {
          ghost var c := Cursor(x0, y0, err);
          var e2 := err;
          if e2 > -adx {
            err, x0 := err - ady, x0 + sx;
          }
          if e2 < ady {
            err, y0 := err + adx, y0 + sy;
          }
          NextCursor(l, k, c, Cursor(x0, y0, err));
          k := k + 1;
        }
      }
      curX, curY := x, y;
    }

    method PutPixel(fb: array<int>, w: nat, h: nat, x: int, y: int, rgba: int)
      requires w * h <= fb.Length
      modifies fb
      ensures fb[..] == PutPx(old(fb[..]), w, h, x, y, rgba)
    {
      if x < 0 || y < 0 || x >= w || y >= h {
        return;
      }
      PixelInside(w, h, x, y);
      fb[y * w + x] := rgba;
    }
  }
}
