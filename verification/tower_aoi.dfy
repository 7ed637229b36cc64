/**
 * The tower area-of-interest grid: an m x n array of towers covering the map,
 * absolute-to-grid coordinate translation, the shift-then-clamp square window
 * around a grid cell, the old-window/new-window cell diff, and the object and
 * watcher operations built on them.
 *
 * Grid coordinates and absolute coordinates are both `Pos`; every helper that
 * works on grid coordinates says so.
 */
module TowerAoi {
  import opened Wrappers
  import opened Towers

  datatype Pos = Pos(x: int, y: int)

  /**
   * The configuration: the map rectangle, the tower rectangle, and the range
   * limit (0 means unset).
   */
  datatype Config = Config(mapWidth: int, mapHeight: int, towerWidth: int, towerHeight: int, limit: int)

  /** An inclusive rectangle of grid coordinates, from `start` to `end`. */
  datatype Window = Window(start: Pos, end: Pos)

  /** The range limit used when the configuration leaves it 0. */
  const DefaultRangeLimit := 5

  /** The radius cap hard-coded in `GetIdsByPos` and the watcher operations. */
  const RadiusCap := 5

  /** Tower dimensions are positive (a zero one would divide by zero); map dimensions are not negative. */
  predicate ValidConfig(cfg: Config) {
    cfg.mapWidth >= 0 && cfg.mapHeight >= 0 && cfg.towerWidth > 0 && cfg.towerHeight > 0
  }

  function Min(a: int, b: int): int {
    if a < b then a else b
  }

  /** The largest grid coordinate on each axis; the remainder strip past m * towerWidth has no column. */
  function GridMax(cfg: Config): Pos
    requires ValidConfig(cfg)
  {
    Pos(cfg.mapWidth / cfg.towerWidth - 1, cfg.mapHeight / cfg.towerHeight - 1)
  }

  /** Whether an absolute position lies on the map. */
  predicate CheckPos(cfg: Config, pos: Pos) {
    !(pos.x < 0 || pos.y < 0 || pos.x >= cfg.mapWidth || pos.y >= cfg.mapHeight)
  }

  /** Absolute position to grid position: floor division by the tower dimensions. */
  function TransPos(cfg: Config, pos: Pos): (p: Pos)
    requires ValidConfig(cfg)
  {
    Pos(pos.x / cfg.towerWidth, pos.y / cfg.towerHeight)
  }

  /** Whether `pos` lies in the inclusive rectangle from `start` to `end`. */
  predicate IsInRect(pos: Pos, start: Pos, end: Pos) {
    pos.x >= start.x && pos.x <= end.x && pos.y >= start.y && pos.y <= end.y
  }

  /** Whether `pos` lies in window `w`. */
  predicate InWindow(pos: Pos, w: Window) {
    IsInRect(pos, w.start, w.end)
  }

  /** Whether two windows cover the same grid cells. */
  ghost predicate SameCells(a: Window, b: Window) {
    forall c :: InWindow(c, a) <==> InWindow(c, b)
  }

  // ---------------------------------------------------------------------------
  // Coordinate translation
  // ---------------------------------------------------------------------------

  /** Multiplication by a non-negative factor is monotone. */
  lemma {:induction false} MulMonotone(d: int, x: int, y: int)
    requires d >= 0 && x <= y
    ensures d * x <= d * y
    decreases d
  {
    if d > 0 {
      MulMonotone(d - 1, x, y);
      assert d * x == (d - 1) * x + x && d * y == (d - 1) * y + y;
    }
  }

  /** A quotient is the only q with d * q <= a < d * q + d. */
  lemma DivUnique(a: int, d: int, q: int)
    requires d > 0 && d * q <= a < d * q + d
    ensures a / d == q
  {
    var q0 := a / d;
    assert d * q0 <= a < d * q0 + d;
    if q0 < q {
      MulMonotone(d, q0 + 1, q);
    } else if q0 > q {
      MulMonotone(d, q + 1, q0);
    }
  }

  lemma DivMonotone(a: int, b: int, d: int)
    requires 0 <= a <= b && d > 0
    ensures 0 <= a / d <= b / d
  {
    var qa, qb := a / d, b / d;
    assert d * qa <= a && b < d * qb + d;
    if qa < 0 {
      MulMonotone(d, qa + 1, 0);
    }
    if qa > qb {
      MulMonotone(d, qb + 1, qa);
    }
  }

  lemma DivBelowMultiple(a: int, b: int, d: int)
    requires 0 <= a < b && d > 0 && b % d == 0
    ensures a / d < b / d
  {
    var qa, qb := a / d, b / d;
    assert d * qa <= a && b == d * qb;
    if qa >= qb {
      MulMonotone(d, qb, qa);
    }
  }

  lemma DivOfRemainderEnd(b: int, d: int)
    requires b > 0 && d > 0 && b % d != 0
    ensures (b - 1) / d == b / d
  {
    var q := b / d;
    assert d * q < b < d * q + d;
    DivUnique(b - 1, d, q);
  }

  /**
   * The bounds check accepts exactly the points of the map's rectangle, from the
   * origin to (mapWidth - 1, mapHeight - 1); an empty map accepts none.
   */
  lemma CheckPosIsMapRect(cfg: Config, pos: Pos)
    ensures CheckPos(cfg, pos) <==> IsInRect(pos, Pos(0, 0), Pos(cfg.mapWidth - 1, cfg.mapHeight - 1))
    ensures CheckPos(cfg, pos) ==> cfg.mapWidth > 0 && cfg.mapHeight > 0
  {
  }

  /** A rectangle holds some point exactly when it is non-empty on both axes; its start corner is then one. */
  lemma IsInRectNonEmpty(start: Pos, end: Pos)
    ensures (exists q :: IsInRect(q, start, end)) <==> start.x <= end.x && start.y <= end.y
    ensures start.x <= end.x && start.y <= end.y ==> IsInRect(start, start, end) && IsInRect(end, start, end)
  {
    if start.x <= end.x && start.y <= end.y {
      assert IsInRect(start, start, end);
    }
  }

  /**
   * `TransPos` is floor division, negative coordinates included: the grid
   * position's tower is the one whose absolute extent contains `pos`.
   */
  lemma TransPosIsFloor(cfg: Config, pos: Pos)
    requires ValidConfig(cfg)
    ensures var p := TransPos(cfg, pos);
      && cfg.towerWidth * p.x <= pos.x < cfg.towerWidth * (p.x + 1)
      && cfg.towerHeight * p.y <= pos.y < cfg.towerHeight * (p.y + 1)
  {
  }

  /**
   * A position on the map translates to a grid position at most one past `max`
   * on each axis: column m and row n are reached only by the remainder strip.
   */
  lemma TransPosBounds(cfg: Config, pos: Pos)
    requires ValidConfig(cfg) && CheckPos(cfg, pos)
    ensures var p := TransPos(cfg, pos); var max := GridMax(cfg);
      0 <= p.x <= max.x + 1 && 0 <= p.y <= max.y + 1
  {
    DivMonotone(pos.x, cfg.mapWidth, cfg.towerWidth);
    DivMonotone(pos.y, cfg.mapHeight, cfg.towerHeight);
  }

  /** When the tower dimensions divide the map dimensions, every map position lands on the grid. */
  lemma TransPosInGrid(cfg: Config, pos: Pos)
    requires ValidConfig(cfg) && CheckPos(cfg, pos)
    requires cfg.mapWidth % cfg.towerWidth == 0 && cfg.mapHeight % cfg.towerHeight == 0
    ensures IsInRect(TransPos(cfg, pos), Pos(0, 0), GridMax(cfg))
  {
    DivMonotone(0, pos.x, cfg.towerWidth);
    DivMonotone(0, pos.y, cfg.towerHeight);
    DivBelowMultiple(pos.x, cfg.mapWidth, cfg.towerWidth);
    DivBelowMultiple(pos.y, cfg.mapHeight, cfg.towerHeight);
  }

  /**
   * When a tower dimension does not divide the map dimension, the last map
   * column (row) passes `CheckPos` but translates to column m (row n), one past
   * the grid.
   */
  lemma RemainderStripOffGrid(cfg: Config)
    requires ValidConfig(cfg) && cfg.mapWidth > 0 && cfg.mapHeight > 0
    ensures cfg.mapWidth % cfg.towerWidth != 0 ==>
      var pos := Pos(cfg.mapWidth - 1, 0);
      CheckPos(cfg, pos) && TransPos(cfg, pos).x == GridMax(cfg).x + 1
    ensures cfg.mapHeight % cfg.towerHeight != 0 ==>
      var pos := Pos(0, cfg.mapHeight - 1);
      CheckPos(cfg, pos) && TransPos(cfg, pos).y == GridMax(cfg).y + 1
  {
    if cfg.mapWidth % cfg.towerWidth != 0 {
      DivOfRemainderEnd(cfg.mapWidth, cfg.towerWidth);
    }
    if cfg.mapHeight % cfg.towerHeight != 0 {
      DivOfRemainderEnd(cfg.mapHeight, cfg.towerHeight);
    }
  }

  // ---------------------------------------------------------------------------
  // The window around a cell
  // ---------------------------------------------------------------------------

  /**
   * One axis of the window on grid coordinates: shift [c - r, c + r] inward when
   * it sticks out on either side, then clamp both ends into [0, mx].
   */
  function ShiftClamp(c: int, r: int, mx: int): (span: (int, int))
    ensures 0 <= span.0 && span.1 <= mx
    ensures r >= 0 && mx >= -1 ==> span.0 <= span.1 + 1
    ensures r >= 0 && mx >= 0 ==> span.1 - span.0 + 1 == Min(2 * r + 1, mx + 1)
    ensures r >= 0 && 0 <= c <= mx ==> span.0 <= c <= span.1
    ensures 0 <= c - r && c + r <= mx ==> span == (c - r, c + r)
  {
    var (lo, hi) :=
      if c - r < 0 then (0, 2 * r)
      else if c + r > mx then (mx - 2 * r, mx)
      else (c - r, c + r);
    (if lo < 0 then 0 else lo, if hi > mx then mx else hi)
  }

  /**
   * The square window of radius `r` around grid position `pos`, shifted to stay
   * on the grid [0, max.x] x [0, max.y] and clamped when the grid is smaller
   * than the window.
   */
  function GetPosLimit(pos: Pos, r: int, max: Pos): (w: Window)
    ensures 0 <= w.start.x && w.end.x <= max.x && 0 <= w.start.y && w.end.y <= max.y
    ensures r >= 0 && max.x >= -1 && max.y >= -1 ==> w.start.x <= w.end.x + 1 && w.start.y <= w.end.y + 1
    ensures r >= 0 && max.x >= 0 ==> w.end.x - w.start.x + 1 == Min(2 * r + 1, max.x + 1)
    ensures r >= 0 && max.y >= 0 ==> w.end.y - w.start.y + 1 == Min(2 * r + 1, max.y + 1)
    ensures r >= 0 && IsInRect(pos, Pos(0, 0), max) ==> InWindow(pos, w)
    ensures 0 <= pos.x - r && pos.x + r <= max.x && 0 <= pos.y - r && pos.y + r <= max.y ==>
      w == Window(Pos(pos.x - r, pos.y - r), Pos(pos.x + r, pos.y + r))
  {
    var (sx, ex) := ShiftClamp(pos.x, r, max.x);
    var (sy, ey) := ShiftClamp(pos.y, r, max.y);
    Window(Pos(sx, sy), Pos(ex, ey))
  }

  /** Two non-empty windows cover the same cells exactly when they are the same window. */
  lemma SameCellsIffEqual(a: Window, b: Window)
    requires a.start.x <= a.end.x && a.start.y <= a.end.y
    requires b.start.x <= b.end.x && b.start.y <= b.end.y
    ensures SameCells(a, b) <==> a == b
  {
    if SameCells(a, b) {
      assert InWindow(a.start, a) && InWindow(a.end, a);
      assert InWindow(b.start, b) && InWindow(b.end, b);
    }
  }

  // ---------------------------------------------------------------------------
  // The window diff
  // ---------------------------------------------------------------------------

  /**
   * A tower list as `getChangedTowers` builds it: nil when nothing was appended,
   * otherwise a leading nil placeholder followed by the appended towers.
   */
  predicate Placeheld(s: seq<Option<Pos>>) {
    s == [] || (|s| >= 2 && s[0] == None && forall k :: 1 <= k < |s| ==> s[k].Some?)
  }

  /** Strict x-major, then y, order of grid positions. */
  predicate Before(a: Pos, b: Pos) {
    a.x < b.x || (a.x == b.x && a.y < b.y)
  }

  /** The listed positions are in strictly increasing x-major order (so none is listed twice). */
  predicate XMajor(s: seq<Option<Pos>>) {
    forall k, l :: 1 <= k < l < |s| && s[k].Some? && s[l].Some? ==> Before(s[k].value, s[l].value)
  }

  /** Every listed position comes before `p`. */
  predicate AllBefore(s: seq<Option<Pos>>, p: Pos) {
    forall k :: 1 <= k < |s| && s[k].Some? ==> Before(s[k].value, p)
  }

  /**
   * Appends a tower to a diff list, first appending the nil placeholder when
   * the list is still empty.
   */
  function Appended(s: seq<Option<Pos>>, p: Pos): (s': seq<Option<Pos>>)
    requires Placeheld(s) && XMajor(s) && AllBefore(s, p)
    ensures Placeheld(s') && XMajor(s')
    ensures forall c :: Some(c) in s' <==> Some(c) in s || c == p
    ensures forall b :: Before(p, b) ==> AllBefore(s', b)
  {
    (if s == [] then [None] else s) + [Some(p)]
  }

  /**
   * The towers (named by grid position) of the old window that the new window
   * no longer covers, of the new window that the old one did not cover, and of
   * both windows.
   */
  method GetChangedTowers(p1: Pos, p2: Pos, oldRange: int, newRange: int, max: Pos)
    returns (removed: seq<Option<Pos>>, added: seq<Option<Pos>>, kept: seq<Option<Pos>>)
    ensures Placeheld(removed) && Placeheld(added) && Placeheld(kept)
    ensures XMajor(removed) && XMajor(added) && XMajor(kept)
    ensures forall c :: Some(c) in removed <==>
      InWindow(c, GetPosLimit(p1, oldRange, max)) && !InWindow(c, GetPosLimit(p2, newRange, max))
    ensures forall c :: Some(c) in kept <==>
      InWindow(c, GetPosLimit(p1, oldRange, max)) && InWindow(c, GetPosLimit(p2, newRange, max))
    ensures forall c :: Some(c) in added <==>
      InWindow(c, GetPosLimit(p2, newRange, max)) && !InWindow(c, GetPosLimit(p1, oldRange, max))
  {
    var w1 := GetPosLimit(p1, oldRange, max);
    var w2 := GetPosLimit(p2, newRange, max);
    removed, kept := ScanOldWindow(w1, w2);
    added := ScanNewWindow(w1, w2);
  }

  /** An x-major list names each position at most once: entry `k` is not among the entries before it. */
  lemma ListedOnce(s: seq<Option<Pos>>, k: int)
    requires Placeheld(s) && XMajor(s) && 1 <= k < |s| && s[k].Some?
    ensures s[k] !in s[..k]
  {
    forall l | 0 <= l < k
      ensures s[l] != s[k]
    {
      if l >= 1 && s[l].Some? {
        assert Before(s[l].value, s[k].value);
      }
    }
  }

  /**
   * Both change lists of two windows are empty exactly when the windows
   * cover the same cells: a non-empty list holds a real cell after its
   * placeholder, and that cell lies in one window only.
   */
  lemma NoChangeIffSameCells(removed: seq<Option<Pos>>, added: seq<Option<Pos>>, w1: Window, w2: Window)
    requires Placeheld(removed) && Placeheld(added)
    requires forall c :: Some(c) in removed <==> InWindow(c, w1) && !InWindow(c, w2)
    requires forall c :: Some(c) in added <==> InWindow(c, w2) && !InWindow(c, w1)
    ensures removed == [] && added == [] <==> SameCells(w1, w2)
  {
    if added != [] {
      assert Some(added[1].value) in added;
    } else if removed != [] {
      assert Some(removed[1].value) in removed;
    } else {
      forall c ensures InWindow(c, w1) <==> InWindow(c, w2) {
        assert Some(c) !in added && Some(c) !in removed;
      }
    }
  }

  /** Whether `s` lists, in x-major order, exactly the cells of `w` before `p` whose membership in `other` is `inOther`. */
  ghost predicate ListsBefore(s: seq<Option<Pos>>, w: Window, other: Window, inOther: bool, p: Pos) {
    && Placeheld(s) && XMajor(s) && AllBefore(s, p)
    && forall c :: Some(c) in s <==> InWindow(c, w) && InWindow(c, other) == inOther && Before(c, p)
  }

  /** The first double loop of `getChangedTowers`: the old window's towers, split by whether the new window covers them. */
  method ScanOldWindow(w1: Window, w2: Window) returns (removed: seq<Option<Pos>>, kept: seq<Option<Pos>>)
    ensures Placeheld(removed) && XMajor(removed) && Placeheld(kept) && XMajor(kept)
    ensures forall c :: Some(c) in removed <==> InWindow(c, w1) && !InWindow(c, w2)
    ensures forall c :: Some(c) in kept <==> InWindow(c, w1) && InWindow(c, w2)
  {
    removed, kept := [], [];
    var x := w1.start.x;
    while x <= w1.end.x
      invariant x == w1.start.x || w1.start.x <= x <= w1.end.x + 1
      invariant ListsBefore(removed, w1, w2, false, Pos(x, w1.start.y))
      invariant ListsBefore(kept, w1, w2, true, Pos(x, w1.start.y))
    {
      var y := w1.start.y;
      while y <= w1.end.y
        invariant y == w1.start.y || w1.start.y <= y <= w1.end.y + 1
        invariant ListsBefore(removed, w1, w2, false, Pos(x, y))
        invariant ListsBefore(kept, w1, w2, true, Pos(x, y))
      {
        if IsInRect(Pos(x, y), w2.start, w2.end) {
          kept := Appended(kept, Pos(x, y));
        } else {
          removed := Appended(removed, Pos(x, y));
        }
        y := y + 1;
      }
      x := x + 1;
    }
  }

  /** The second double loop of `getChangedTowers`: the new window's towers the old window does not cover. */
  method ScanNewWindow(w1: Window, w2: Window) returns (added: seq<Option<Pos>>)
    ensures Placeheld(added) && XMajor(added)
    ensures forall c :: Some(c) in added <==> InWindow(c, w2) && !InWindow(c, w1)
  {
    added := [];
    var x := w2.start.x;
    while x <= w2.end.x
      invariant x == w2.start.x || w2.start.x <= x <= w2.end.x + 1
      invariant ListsBefore(added, w2, w1, false, Pos(x, w2.start.y))
    {
      var y := w2.start.y;
      while y <= w2.end.y
        invariant y == w2.start.y || w2.start.y <= y <= w2.end.y + 1
        invariant ListsBefore(added, w2, w1, false, Pos(x, y))
      {
        if !IsInRect(Pos(x, y), w1.start, w1.end) {
          added := Appended(added, Pos(x, y));
        }
        y := y + 1;
      }
      x := x + 1;
    }
  }

  // ---------------------------------------------------------------------------
  // Result accumulation
  // ---------------------------------------------------------------------------

  /**
   * Appends the ids of a tower's id map to `result`, in the map's (unspecified)
   * iteration order.
   */
  method AddMap(result: seq<int>, m: set<int>) returns (r: seq<int>)
    ensures exists chunk :: r == result + chunk && multiset(chunk) == multiset(m)
    ensures multiset(r) == multiset(result) + multiset(m)
  {
    var chunk: seq<int> := [];
    var rest := m;
    while rest != {}
      invariant rest <= m
      invariant multiset(chunk) + multiset(rest) == multiset(m)
      invariant |chunk| + |rest| == |m|
      decreases |rest|
    {
      assert exists v :: v in rest by {
        if forall v :: v !in rest {
          assert false;
        }
      }
      var v :| v in rest;
      assert multiset(rest) == multiset(rest - {v}) + multiset{v};
      chunk := chunk + [v];
      rest := rest - {v};
    }
    r := result + chunk;
  }

  /**
   * Merges one tower's by-type id maps into `result`: for every requested type
   * the tower has a bucket for, the type gets an entry and the bucket's ids are
   * added to it.
   */
  method AddMapByTypes(result: map<int, set<int>>, m: map<int, set<int>>, types: seq<int>)
    returns (r: map<int, set<int>>)
    ensures r.Keys == result.Keys + (set t | t in types && t in m)
    ensures forall t :: t in r ==>
      r[t] == Bucket(result, t) + (if t in types && t in m then m[t] else {})
  {
    r := result;
    var i := 0;
    while i < |types|
      invariant 0 <= i <= |types|
      invariant r.Keys == result.Keys + (set t | t in types[..i] && t in m)
      invariant forall t :: t in r ==>
        r[t] == Bucket(result, t) + (if t in types[..i] && t in m then m[t] else {})
    {
      var t := types[i];
      assert types[..i + 1] == types[..i] + [t];
      if t in m {
        if t !in r {
          r := r[t := {}];
        }
        r := r[t := r[t] + m[t]];
      }
      i := i + 1;
    }
    assert types[..i] == types;
  }

  // ---------------------------------------------------------------------------
  // Aggregates over a snapshot of the grid
  // ---------------------------------------------------------------------------

  /** The tower states of a grid as a value, indexed [x][y]. */
  type Grid = seq<seq<TowerState>>

  /** `g` has the columns 0 to `mx.x`, each with the rows 0 to `mx.y`. */
  predicate Rect(g: Grid, mx: Pos) {
    |g| == mx.x + 1 && forall a :: 0 <= a < |g| ==> |g[a]| == mx.y + 1
  }

  /** Whether window `w` lies on the grid [0, mx.x] x [0, mx.y]. */
  predicate WindowOn(w: Window, mx: Pos) {
    0 <= w.start.x && w.end.x <= mx.x && 0 <= w.start.y && w.end.y <= mx.y
  }

  /** The ids of column `x`, rows `y0` to `y1 - 1`, as a bag. */
  function ColumnBag(g: Grid, mx: Pos, x: int, y0: int, y1: int): multiset<int>
    requires Rect(g, mx) && 0 <= x <= mx.x && 0 <= y0 && y1 <= mx.y + 1
    decreases y1 - y0
  {
    if y1 <= y0 then multiset{} else ColumnBag(g, mx, x, y0, y1 - 1) + multiset(g[x][y1 - 1].ids)
  }

  /** The ids of columns `x0` to `x1 - 1`, rows `y0` to `y1 - 1`, as a bag (each tower's ids once). */
  function RangeBag(g: Grid, mx: Pos, x0: int, x1: int, y0: int, y1: int): multiset<int>
    requires Rect(g, mx) && 0 <= x0 && x1 <= mx.x + 1 && 0 <= y0 && y1 <= mx.y + 1
    decreases x1 - x0
  {
    if x1 <= x0 then multiset{} else RangeBag(g, mx, x0, x1 - 1, y0, y1) + ColumnBag(g, mx, x1 - 1, y0, y1)
  }

  /** The ids of window `w`'s towers, as a bag. */
  function WindowBag(g: Grid, mx: Pos, w: Window): multiset<int>
    requires Rect(g, mx) && WindowOn(w, mx)
  {
    RangeBag(g, mx, w.start.x, w.end.x + 1, w.start.y, w.end.y + 1)
  }

  /** The types with a bucket in some tower of column `x`, rows `y0` to `y1 - 1`. */
  function ColumnTypes(g: Grid, mx: Pos, x: int, y0: int, y1: int): set<int>
    requires Rect(g, mx) && 0 <= x <= mx.x && 0 <= y0 && y1 <= mx.y + 1
    decreases y1 - y0
  {
    if y1 <= y0 then {} else ColumnTypes(g, mx, x, y0, y1 - 1) + g[x][y1 - 1].typeMap.Keys
  }

  /** The types with a bucket in some tower of columns `x0` to `x1 - 1`, rows `y0` to `y1 - 1`. */
  function RangeTypes(g: Grid, mx: Pos, x0: int, x1: int, y0: int, y1: int): set<int>
    requires Rect(g, mx) && 0 <= x0 && x1 <= mx.x + 1 && 0 <= y0 && y1 <= mx.y + 1
    decreases x1 - x0
  {
    if x1 <= x0 then {} else RangeTypes(g, mx, x0, x1 - 1, y0, y1) + ColumnTypes(g, mx, x1 - 1, y0, y1)
  }

  /** The types with a bucket in some tower of window `w`. */
  function WindowTypes(g: Grid, mx: Pos, w: Window): set<int>
    requires Rect(g, mx) && WindowOn(w, mx)
  {
    RangeTypes(g, mx, w.start.x, w.end.x + 1, w.start.y, w.end.y + 1)
  }

  /** The union of the type-`t` buckets of column `x`, rows `y0` to `y1 - 1`; empty unless the column has type `t`. */
  function ColumnIds(g: Grid, mx: Pos, t: int, x: int, y0: int, y1: int): (ids: set<int>)
    requires Rect(g, mx) && 0 <= x <= mx.x && 0 <= y0 && y1 <= mx.y + 1
    ensures ids != {} ==> t in ColumnTypes(g, mx, x, y0, y1)
    decreases y1 - y0
  {
    if y1 <= y0 then {} else ColumnIds(g, mx, t, x, y0, y1 - 1) + Bucket(g[x][y1 - 1].typeMap, t)
  }

  /** The union of the type-`t` buckets of columns `x0` to `x1 - 1`, rows `y0` to `y1 - 1`; empty unless the range has type `t`. */
  function RangeIds(g: Grid, mx: Pos, t: int, x0: int, x1: int, y0: int, y1: int): (ids: set<int>)
    requires Rect(g, mx) && 0 <= x0 && x1 <= mx.x + 1 && 0 <= y0 && y1 <= mx.y + 1
    ensures ids != {} ==> t in RangeTypes(g, mx, x0, x1, y0, y1)
    decreases x1 - x0
  {
    if x1 <= x0 then {} else RangeIds(g, mx, t, x0, x1 - 1, y0, y1) + ColumnIds(g, mx, t, x1 - 1, y0, y1)
  }

  /** `m` maps each requested type with a bucket in columns `x0` to `x1 - 1`, rows `y0` to `y1 - 1`, to the union of those buckets. */
  ghost predicate TypedIds(g: Grid, mx: Pos, types: seq<int>, m: map<int, set<int>>, x0: int, x1: int, y0: int, y1: int)
    requires Rect(g, mx) && 0 <= x0 && x1 <= mx.x + 1 && 0 <= y0 && y1 <= mx.y + 1
  {
    && (forall t :: t in m <==> t in types && t in RangeTypes(g, mx, x0, x1, y0, y1))
    && (forall t :: t in m ==> m[t] == RangeIds(g, mx, t, x0, x1, y0, y1))
  }

  /** `m` maps each requested type with a bucket in window `w` to the union of that type's buckets over `w`. */
  ghost predicate WindowTyped(g: Grid, mx: Pos, types: seq<int>, m: map<int, set<int>>, w: Window)
    requires Rect(g, mx) && WindowOn(w, mx)
  {
    && (forall t :: t in m <==> t in types && t in WindowTypes(g, mx, w))
    && (forall t :: t in m ==> m[t] == WindowIds(g, mx, t, w))
  }

  /** Merging the requested buckets of tower (x, j) extends a column merge over rows `y0` to `j - 1` to rows `y0` to `j`. */
  lemma ColumnMergeStep(g: Grid, mx: Pos, types: seq<int>, acc: map<int, set<int>>, m: map<int, set<int>>,
                        m': map<int, set<int>>, x: int, y0: int, j: int)
    requires Rect(g, mx) && 0 <= x <= mx.x && 0 <= y0 <= j <= mx.y
    requires forall t :: t in m <==> t in acc || (t in types && t in ColumnTypes(g, mx, x, y0, j))
    requires forall t :: t in m ==> m[t] == Bucket(acc, t) + (if t in types then ColumnIds(g, mx, t, x, y0, j) else {})
    requires m'.Keys == m.Keys + (set t | t in types && t in g[x][j].typeMap)
    requires forall t :: t in m' ==> m'[t] == Bucket(m, t) + (if t in types then Bucket(g[x][j].typeMap, t) else {})
    ensures forall t :: t in m' <==> t in acc || (t in types && t in ColumnTypes(g, mx, x, y0, j + 1))
    ensures forall t :: t in m' ==> m'[t] == Bucket(acc, t) + (if t in types then ColumnIds(g, mx, t, x, y0, j + 1) else {})
  {
  }

  /** A map for the full column and row range of `w` is the map for window `w`. */
  lemma WindowTypedOfRange(g: Grid, mx: Pos, types: seq<int>, m: map<int, set<int>>, w: Window)
    requires Rect(g, mx) && WindowOn(w, mx)
    requires TypedIds(g, mx, types, m, w.start.x, w.end.x + 1, w.start.y, w.end.y + 1)
    ensures WindowTyped(g, mx, types, m, w)
  {
  }

  /** Merging column `x` into a map for columns `x0` to `x - 1` gives the map for columns `x0` to `x`. */
  lemma TypedIdsStep(g: Grid, mx: Pos, types: seq<int>, m: map<int, set<int>>, m': map<int, set<int>>, x0: int, x: int, y0: int, y1: int)
    requires Rect(g, mx) && 0 <= x0 <= x <= mx.x && 0 <= y0 && y1 <= mx.y + 1
    requires TypedIds(g, mx, types, m, x0, x, y0, y1)
    requires forall t :: t in m' <==> t in m || (t in types && t in ColumnTypes(g, mx, x, y0, y1))
    requires forall t :: t in m' ==> m'[t] == Bucket(m, t) + (if t in types then ColumnIds(g, mx, t, x, y0, y1) else {})
    ensures TypedIds(g, mx, types, m', x0, x + 1, y0, y1)
  {
  }

  /** The union of the type-`t` buckets of window `w`. */
  function WindowIds(g: Grid, mx: Pos, t: int, w: Window): set<int>
    requires Rect(g, mx) && WindowOn(w, mx)
  {
    RangeIds(g, mx, t, w.start.x, w.end.x + 1, w.start.y, w.end.y + 1)
  }

  /** An id is in a column's bag exactly when one of the column's towers holds it. */
  lemma {:induction false} ColumnBagHolds(g: Grid, mx: Pos, x: int, y0: int, y1: int, id: int)
    requires Rect(g, mx) && 0 <= x <= mx.x && 0 <= y0 && y1 <= mx.y + 1
    ensures id in ColumnBag(g, mx, x, y0, y1) <==> exists y :: y0 <= y < y1 && id in g[x][y].ids
  {
    if y1 > y0 {
      ColumnBagHolds(g, mx, x, y0, y1 - 1, id);
    }
  }

  /** An id is in a range's bag exactly when one of the range's towers holds it. */
  lemma {:induction false} RangeBagHolds(g: Grid, mx: Pos, x0: int, x1: int, y0: int, y1: int, id: int)
    requires Rect(g, mx) && 0 <= x0 && x1 <= mx.x + 1 && 0 <= y0 && y1 <= mx.y + 1
    ensures id in RangeBag(g, mx, x0, x1, y0, y1) <==>
      exists x, y :: x0 <= x < x1 && y0 <= y < y1 && id in g[x][y].ids
  {
    if x1 > x0 {
      RangeBagHolds(g, mx, x0, x1 - 1, y0, y1, id);
      ColumnBagHolds(g, mx, x1 - 1, y0, y1, id);
      if id in ColumnBag(g, mx, x1 - 1, y0, y1) {
        var y :| y0 <= y < y1 && id in g[x1 - 1][y].ids;
      } else if id in RangeBag(g, mx, x0, x1 - 1, y0, y1) {
        var x, y :| x0 <= x < x1 - 1 && y0 <= y < y1 && id in g[x][y].ids;
      }
    }
  }

  /** The bag of a one-tower window is that tower's ids. */
  lemma SingleCellBag(g: Grid, mx: Pos, c: Pos)
    requires Rect(g, mx) && 0 <= c.x <= mx.x && 0 <= c.y <= mx.y
    ensures WindowBag(g, mx, Window(c, c)) == multiset(g[c.x][c.y].ids)
  {
    assert RangeBag(g, mx, c.x, c.x + 1, c.y, c.y + 1) == ColumnBag(g, mx, c.x, c.y, c.y + 1);
  }

  /** An id is in a window's bag exactly when one of the window's towers holds it. */
  lemma WindowBagHolds(g: Grid, mx: Pos, w: Window, id: int)
    requires Rect(g, mx) && WindowOn(w, mx)
    ensures id in WindowBag(g, mx, w) <==> exists q :: InWindow(q, w) && id in g[q.x][q.y].ids
  {
    RangeBagHolds(g, mx, w.start.x, w.end.x + 1, w.start.y, w.end.y + 1, id);
    if id in WindowBag(g, mx, w) {
      var x, y :| w.start.x <= x <= w.end.x && w.start.y <= y <= w.end.y && id in g[x][y].ids;
      assert InWindow(Pos(x, y), w);
    }
  }

  /** A column has a type exactly when one of its towers has a bucket for it. */
  lemma {:induction false} ColumnTypesHold(g: Grid, mx: Pos, x: int, y0: int, y1: int, t: int)
    requires Rect(g, mx) && 0 <= x <= mx.x && 0 <= y0 && y1 <= mx.y + 1
    ensures t in ColumnTypes(g, mx, x, y0, y1) <==> exists y :: y0 <= y < y1 && t in g[x][y].typeMap
  {
    if y1 > y0 {
      ColumnTypesHold(g, mx, x, y0, y1 - 1, t);
    }
  }

  /** A range has a type exactly when one of its towers has a bucket for it. */
  lemma {:induction false} RangeTypesHold(g: Grid, mx: Pos, x0: int, x1: int, y0: int, y1: int, t: int)
    requires Rect(g, mx) && 0 <= x0 && x1 <= mx.x + 1 && 0 <= y0 && y1 <= mx.y + 1
    ensures t in RangeTypes(g, mx, x0, x1, y0, y1) <==>
      exists x, y :: x0 <= x < x1 && y0 <= y < y1 && t in g[x][y].typeMap
  {
    if x1 > x0 {
      RangeTypesHold(g, mx, x0, x1 - 1, y0, y1, t);
      ColumnTypesHold(g, mx, x1 - 1, y0, y1, t);
      if t in ColumnTypes(g, mx, x1 - 1, y0, y1) {
        var y :| y0 <= y < y1 && t in g[x1 - 1][y].typeMap;
      } else if t in RangeTypes(g, mx, x0, x1 - 1, y0, y1) {
        var x, y :| x0 <= x < x1 - 1 && y0 <= y < y1 && t in g[x][y].typeMap;
      }
    }
  }

  /** A type is among a window's types exactly when one of the window's towers has a bucket for it. */
  lemma WindowTypesHold(g: Grid, mx: Pos, w: Window, t: int)
    requires Rect(g, mx) && WindowOn(w, mx)
    ensures t in WindowTypes(g, mx, w) <==> exists q :: InWindow(q, w) && t in g[q.x][q.y].typeMap
  {
    RangeTypesHold(g, mx, w.start.x, w.end.x + 1, w.start.y, w.end.y + 1, t);
    if t in WindowTypes(g, mx, w) {
      var x, y :| w.start.x <= x <= w.end.x && w.start.y <= y <= w.end.y && t in g[x][y].typeMap;
      assert InWindow(Pos(x, y), w);
    }
  }

  /** A column's type-`t` union holds an id exactly when one of its towers' type-`t` buckets does. */
  lemma {:induction false} ColumnIdsHold(g: Grid, mx: Pos, t: int, x: int, y0: int, y1: int, id: int)
    requires Rect(g, mx) && 0 <= x <= mx.x && 0 <= y0 && y1 <= mx.y + 1
    ensures id in ColumnIds(g, mx, t, x, y0, y1) <==> exists y :: y0 <= y < y1 && id in Bucket(g[x][y].typeMap, t)
  {
    if y1 > y0 {
      ColumnIdsHold(g, mx, t, x, y0, y1 - 1, id);
    }
  }

  /** A range's type-`t` union holds an id exactly when one of its towers' type-`t` buckets does. */
  lemma {:induction false} RangeIdsHold(g: Grid, mx: Pos, t: int, x0: int, x1: int, y0: int, y1: int, id: int)
    requires Rect(g, mx) && 0 <= x0 && x1 <= mx.x + 1 && 0 <= y0 && y1 <= mx.y + 1
    ensures id in RangeIds(g, mx, t, x0, x1, y0, y1) <==>
      exists x, y :: x0 <= x < x1 && y0 <= y < y1 && id in Bucket(g[x][y].typeMap, t)
  {
    if x1 > x0 {
      RangeIdsHold(g, mx, t, x0, x1 - 1, y0, y1, id);
      ColumnIdsHold(g, mx, t, x1 - 1, y0, y1, id);
      if id in ColumnIds(g, mx, t, x1 - 1, y0, y1) {
        var y :| y0 <= y < y1 && id in Bucket(g[x1 - 1][y].typeMap, t);
      } else if id in RangeIds(g, mx, t, x0, x1 - 1, y0, y1) {
        var x, y :| x0 <= x < x1 - 1 && y0 <= y < y1 && id in Bucket(g[x][y].typeMap, t);
      }
    }
  }

  /** An id is in a window's type-`t` union exactly when one of the window's towers holds it under type `t`. */
  lemma WindowIdsHold(g: Grid, mx: Pos, t: int, w: Window, id: int)
    requires Rect(g, mx) && WindowOn(w, mx)
    ensures id in WindowIds(g, mx, t, w) <==> exists q :: InWindow(q, w) && id in Bucket(g[q.x][q.y].typeMap, t)
  {
    RangeIdsHold(g, mx, t, w.start.x, w.end.x + 1, w.start.y, w.end.y + 1, id);
    if id in WindowIds(g, mx, t, w) {
      var x, y :| w.start.x <= x <= w.end.x && w.start.y <= y <= w.end.y && id in Bucket(g[x][y].typeMap, t);
      assert InWindow(Pos(x, y), w);
    }
  }

  /**
   * One tower under a watcher's move: a tower that was watched exactly when it
   * lay in the old window is, after the add/remove/keep step, watched exactly
   * when it lies in the new window.
   */
  lemma HandOver(s: TowerState, w: Object, inOld: bool, inNew: bool)
    requires w.objType != 0 && (Watching(s, w) <==> inOld)
    ensures var s' := if inNew && !inOld then WatcherAdded(s, w) else if inOld && !inNew then WatcherRemoved(s, w) else s;
      Watching(s', w) <==> inNew
  {
    WatcherAddedEffect(s, w);
    WatcherRemovedEffect(s, w);
  }

  /** What `UpdateWatcher` ends in: a returned flag, or a panic on a nil tower. */
  datatype UpdateOutcome = Returned(ok: bool) | Panicked

  // ---------------------------------------------------------------------------
  // The grid
  // ---------------------------------------------------------------------------

  class TowerAOI {
    const config: Config
    const rangeLimit: int
    const max: Pos
    const towers: seq<seq<Tower>>
    /** The grid position of every tower; it makes the towers pairwise distinct. */
    ghost const Coord: map<Tower, Pos>

    ghost predicate Valid() {
      && ValidConfig(config)
      && max == GridMax(config)
      && |towers| == max.x + 1
      && (forall a :: 0 <= a < |towers| ==> |towers[a]| == max.y + 1)
      && (forall a, b :: 0 <= a < |towers| && 0 <= b < |towers[a]| ==>
            towers[a][b] in Coord && Coord[towers[a][b]] == Pos(a, b))
    }

    /** Whether a grid position names a tower. */
    predicate InGrid(p: Pos) {
      IsInRect(p, Pos(0, 0), max)
    }

    /** The state of the tower at grid position `p`. */
    ghost function At(p: Pos): TowerState
      requires Valid() && InGrid(p)
      reads towers[p.x][p.y]
    {
      towers[p.x][p.y].State()
    }

    /** Different grid positions hold different towers. */
    lemma TowersDistinct(p: Pos, q: Pos)
      requires Valid() && InGrid(p) && InGrid(q) && p != q
      ensures towers[p.x][p.y] != towers[q.x][q.y]
    {
      assert Coord[towers[p.x][p.y]] == p && Coord[towers[q.x][q.y]] == q;
    }

    /** The window a watcher at absolute position `pos` covers: the radius is capped at 5. */
    function WatchWindow(pos: Pos, r: int): Window
      requires ValidConfig(config)
    {
      GetPosLimit(TransPos(config, pos), Min(r, RadiusCap), max)
    }

    /** `CreateTowerAOI` / `Init`: an m x n grid of fresh, empty towers. */
    constructor (cfg: Config)
      requires ValidConfig(cfg)
      ensures Valid() && config == cfg
      ensures rangeLimit == if cfg.limit != 0 then cfg.limit else DefaultRangeLimit
      ensures max == Pos(cfg.mapWidth / cfg.towerWidth - 1, cfg.mapHeight / cfg.towerHeight - 1)
      ensures forall t :: t in Coord ==> fresh(t)
      ensures forall p :: InGrid(p) ==> At(p) == EmptyTower
    {
      config := cfg;
      rangeLimit := if cfg.limit != 0 then cfg.limit else DefaultRangeLimit;
      var m := cfg.mapWidth / cfg.towerWidth;
      var n := cfg.mapHeight / cfg.towerHeight;
      max := Pos(m - 1, n - 1);
      var rows: seq<seq<Tower>> := [];
      ghost var coord: map<Tower, Pos> := map[];
      var i := 0;
      while i < m
        invariant 0 <= i <= m && |rows| == i
        invariant forall a :: 0 <= a < i ==> |rows[a]| == n
        invariant forall a, b :: 0 <= a < i && 0 <= b < n ==> rows[a][b] in coord && coord[rows[a][b]] == Pos(a, b)
        invariant forall t :: t in coord ==>
          0 <= coord[t].x < i && 0 <= coord[t].y < n && rows[coord[t].x][coord[t].y] == t
        invariant forall t :: t in coord ==> fresh(t) && t.State() == EmptyTower
      {
        var row, rowCoord := NewRow(i, n);
        coord := coord + rowCoord;
        rows := rows + [row];
        i := i + 1;
      }
      towers := rows;
      Coord := coord;
    }

    /** One column of `Init`: `n` fresh, empty towers, with their grid positions in column `i`. */
    static method NewRow(i: int, n: int) returns (row: seq<Tower>, ghost rowCoord: map<Tower, Pos>)
      requires n >= 0
      ensures |row| == n
      ensures forall b :: 0 <= b < n ==> row[b] in rowCoord && rowCoord[row[b]] == Pos(i, b)
      ensures forall t :: t in rowCoord ==>
        fresh(t) && t.State() == EmptyTower && rowCoord[t].x == i && 0 <= rowCoord[t].y < n && row[rowCoord[t].y] == t
    {
      row, rowCoord := [], map[];
      var j := 0;
      while j < n
        invariant 0 <= j <= n && |row| == j
        invariant forall b :: 0 <= b < j ==> row[b] in rowCoord && rowCoord[row[b]] == Pos(i, b)
        invariant forall t :: t in rowCoord ==>
          fresh(t) && t.State() == EmptyTower && rowCoord[t].x == i && 0 <= rowCoord[t].y < j && row[rowCoord[t].y] == t
      {
        var tower := new Tower();
        row := row + [tower];
        rowCoord := rowCoord[tower := Pos(i, j)];
        j := j + 1;
      }
    }

    /** The states of the towers of column `a`, rows 0 to `n - 1`. */
    ghost function ColumnStates(a: int, n: int): (col: seq<TowerState>)
      requires Valid() && 0 <= a <= max.x && 0 <= n <= max.y + 1
      reads Coord.Keys
      ensures |col| == n
    {
      if n == 0 then [] else ColumnStates(a, n - 1) + [At(Pos(a, n - 1))]
    }

    /** The states of the towers of columns 0 to `k - 1`. */
    ghost function Columns(k: int): (g: Grid)
      requires Valid() && 0 <= k <= max.x + 1
      reads Coord.Keys
      ensures |g| == k && forall a :: 0 <= a < k ==> |g[a]| == max.y + 1
    {
      if k == 0 then [] else Columns(k - 1) + [ColumnStates(k - 1, max.y + 1)]
    }

    /** The tower states as a value, indexed [x][y]. */
    ghost function Snapshot(): (g: Grid)
      requires Valid()
      reads Coord.Keys
      ensures Rect(g, max)
    {
      Columns(max.x + 1)
    }

    /** Row `b` of `ColumnStates(a, n)` is the state of the tower at (a, b). */
    lemma {:induction false} ColumnStatesAt(a: int, n: int, b: int)
      requires Valid() && 0 <= a <= max.x && 0 <= b < n <= max.y + 1
      ensures ColumnStates(a, n)[b] == At(Pos(a, b))
      decreases n
    {
      if b < n - 1 {
        ColumnStatesAt(a, n - 1, b);
      }
    }

    /** Column `a` of `Columns(k)` is `ColumnStates(a, max.y + 1)`. */
    lemma {:induction false} ColumnsAt(k: int, a: int)
      requires Valid() && 0 <= a < k <= max.x + 1
      ensures Columns(k)[a] == ColumnStates(a, max.y + 1)
      decreases k
    {
      if a < k - 1 {
        ColumnsAt(k - 1, a);
      }
    }

    /** Cell (i, j) of the snapshot is the current state of the tower there. */
    lemma SnapshotAt(i: int, j: int)
      requires Valid() && 0 <= i <= max.x && 0 <= j <= max.y
      ensures Snapshot()[i][j] == towers[i][j].State()
    {
      ColumnsAt(max.x + 1, i);
      ColumnStatesAt(i, max.y + 1, j);
    }

    /**
     * Object ids of the requested types within radius `r` of `pos`: nil when
     * `pos` is off the map or `r` is outside [0, rangeLimit]; otherwise one
     * entry per requested type some tower of the window has a bucket for,
     * holding the union of that type's buckets over the window's towers.
     */
    method GetIdsByRange(pos: Pos, r: int, types: seq<int>) returns (res: Option<map<int, set<int>>>)
      requires Valid()
      ensures res.None? <==> !CheckPos(config, pos) || r < 0 || r > rangeLimit
      ensures res.Some? ==> WindowTyped(Snapshot(), max, types, res.value, GetPosLimit(TransPos(config, pos), r, max))
    {
      if !CheckPos(config, pos) || r < 0 || r > rangeLimit {
        return None;
      }
      var p := TransPos(config, pos);
      var w := GetPosLimit(p, r, max);
      ghost var g: Grid := Snapshot();
      var result := MergeWindow(g, types, w);
      WindowTypedOfRange(g, max, types, result, w);
      assert g == Snapshot();
      return Some(result);
    }

    /** The outer loop of `GetIdsByRange`: merges the typed buckets of window `w`, column by column. */
    method MergeWindow(ghost g: Grid, types: seq<int>, w: Window) returns (res: map<int, set<int>>)
      requires Valid() && g == Snapshot() && WindowOn(w, max)
      requires w.start.x <= w.end.x + 1 && w.start.y <= w.end.y + 1
      ensures TypedIds(g, max, types, res, w.start.x, w.end.x + 1, w.start.y, w.end.y + 1)
    {
      res := map[];
      var i := w.start.x;
      while i <= w.end.x
        invariant w.start.x <= i <= w.end.x + 1
        invariant TypedIds(g, max, types, res, w.start.x, i, w.start.y, w.end.y + 1)
      {
        var merged := MergeColumn(g, res, types, i, w.start.y, w.end.y);
        TypedIdsStep(g, max, types, res, merged, w.start.x, i, w.start.y, w.end.y + 1);
        res := merged;
        i := i + 1;
      }
    }

    /** The inner loop of `GetIdsByRange`: merges the typed buckets of column `i`, rows `y0` to `y1`. */
    method MergeColumn(ghost g: Grid, acc: map<int, set<int>>, types: seq<int>, i: int, y0: int, y1: int)
      returns (res: map<int, set<int>>)
      requires Valid() && g == Snapshot() && 0 <= i <= max.x && 0 <= y0 <= y1 + 1 && y1 <= max.y
      ensures forall t :: t in res <==> t in acc || (t in types && t in ColumnTypes(g, max, i, y0, y1 + 1))
      ensures forall t :: t in res ==>
        res[t] == Bucket(acc, t) + (if t in types then ColumnIds(g, max, t, i, y0, y1 + 1) else {})
    {
      res := acc;
      var j := y0;
      while j <= y1
        invariant y0 <= j <= y1 + 1
        invariant g == Snapshot()
        invariant forall t :: t in res <==> t in acc || (t in types && t in ColumnTypes(g, max, i, y0, j))
        invariant forall t :: t in res ==>
          res[t] == Bucket(acc, t) + (if t in types then ColumnIds(g, max, t, i, y0, j) else {})
      {
        var merged := MergeTower(g, res, types, i, j);
        ColumnMergeStep(g, max, types, acc, res, merged, i, y0, j);
        res := merged;
        j := j + 1;
      }
    }

    /** The body of `GetIdsByRange`'s inner loop: merges the requested buckets of the tower at (i, j) into `m`. */
    method MergeTower(ghost g: Grid, m: map<int, set<int>>, types: seq<int>, i: int, j: int) returns (merged: map<int, set<int>>)
      requires Valid() && g == Snapshot() && 0 <= i <= max.x && 0 <= j <= max.y
      ensures merged.Keys == m.Keys + (set t | t in types && t in g[i][j].typeMap)
      ensures forall t :: t in merged ==> merged[t] == Bucket(m, t) + (if t in types then Bucket(g[i][j].typeMap, t) else {})
    {
      SnapshotAt(i, j);
      var byTypes := towers[i][j].GetIdsByTypes(types);
      merged := AddMapByTypes(m, byTypes, types);
    }

    /** The scan of `GetIdsByPos`: every tower's ids, column by column, appended to one slice. */
    method CollectIds(w: Window) returns (res: seq<int>)
      requires Valid() && WindowOn(w, max)
      requires w.start.x <= w.end.x + 1 && w.start.y <= w.end.y + 1
      ensures multiset(res) == WindowBag(Snapshot(), max, w)
    {
      res := [];
      var i := w.start.x;
      while i <= w.end.x
        invariant w.start.x <= i <= w.end.x + 1
        invariant multiset(res) == RangeBag(Snapshot(), max, w.start.x, i, w.start.y, w.end.y + 1)
      {
        res := CollectColumn(res, i, w.start.y, w.end.y);
        i := i + 1;
      }
    }

    /** The inner loop of `GetIdsByPos`: the ids of column `i`, rows `y0` to `y1`, appended to `acc`. */
    method CollectColumn(acc: seq<int>, i: int, y0: int, y1: int) returns (res: seq<int>)
      requires Valid() && 0 <= i <= max.x && 0 <= y0 <= y1 + 1 && y1 <= max.y
      ensures multiset(res) == multiset(acc) + ColumnBag(Snapshot(), max, i, y0, y1 + 1)
    {
      ghost var g: Grid := Snapshot();
      res := acc;
      var j := y0;
      while j <= y1
        invariant y0 <= j <= y1 + 1
        invariant multiset(res) == multiset(acc) + ColumnBag(g, max, i, y0, j)
      {
        SnapshotAt(i, j);
        var ids := towers[i][j].GetIds();
        res := AddMap(res, ids);
        j := j + 1;
      }
    }

    /**
     * All object ids near `pos`, as written: the bounds test is inverted, so
     * every position on the map yields nil; for a position off the map the
     * radius is capped at 5 and the ids of the window's towers are returned.
     */
    method GetIdsByPos(pos: Pos, r: int) returns (res: seq<int>)
      requires Valid()
      ensures CheckPos(config, pos) || r < 0 ==> res == []
      ensures !CheckPos(config, pos) && r >= 0 ==> multiset(res) == WindowBag(Snapshot(), max, WatchWindow(pos, r))
    {
      if CheckPos(config, pos) || r < 0 {
        return [];
      }
      var rr := Min(r, RadiusCap);
      var p := TransPos(config, pos);
      var w := GetPosLimit(p, rr, max);
      assert w == WatchWindow(pos, r);
      res := CollectIds(w);
    }

    /**
     * `GetIdsByPos` with the bounds test the right way round: nil off the map
     * or for a negative radius, otherwise the ids of the window's towers.
     */
    method GetIdsByPosIntended(pos: Pos, r: int) returns (res: seq<int>)
      requires Valid()
      ensures !CheckPos(config, pos) || r < 0 ==> res == []
      ensures CheckPos(config, pos) && r >= 0 ==> multiset(res) == WindowBag(Snapshot(), max, WatchWindow(pos, r))
    {
      if !CheckPos(config, pos) || r < 0 {
        return [];
      }
      var rr := Min(r, RadiusCap);
      var p := TransPos(config, pos);
      var w := GetPosLimit(p, rr, max);
      assert w == WatchWindow(pos, r);
      res := CollectIds(w);
    }

    /**
     * Adds an object to the tower under `pos`; returns whether `pos` is on the
     * map, whatever the tower's own `Add` answered.
     */
    method AddObject(obj: Object, pos: Pos) returns (ok: bool)
      requires Valid()
      requires CheckPos(config, pos) ==> InGrid(TransPos(config, pos))
      modifies Coord.Keys
      ensures ok == CheckPos(config, pos)
      ensures forall q :: InGrid(q) ==>
        At(q) == if ok && q == TransPos(config, pos) then Added(old(At(q)), obj) else old(At(q))
    {
      if CheckPos(config, pos) {
        var p := TransPos(config, pos);
        var accepted := towers[p.x][p.y].Add(obj);
        return true;
      }
      return false;
    }

    /** Removes an object from the tower under `pos`; returns whether `pos` is on the map. */
    method RemoveObject(obj: Object, pos: Pos) returns (ok: bool)
      requires Valid()
      requires CheckPos(config, pos) ==> InGrid(TransPos(config, pos))
      modifies Coord.Keys
      ensures ok == CheckPos(config, pos)
      ensures forall q :: InGrid(q) ==>
        At(q) == if ok && q == TransPos(config, pos) then Removed(old(At(q)), obj) else old(At(q))
    {
      if CheckPos(config, pos) {
        var p := TransPos(config, pos);
        towers[p.x][p.y].Remove(obj);
        return true;
      }
      return false;
    }

    /**
     * Moves an object: false when either position is off the map; no change
     * when both positions are under the same tower; otherwise removed from the
     * old tower and added to the new one.
     */
    method UpdateObject(obj: Object, oldPos: Pos, newPos: Pos) returns (ok: bool)
      requires Valid()
      requires CheckPos(config, oldPos) && CheckPos(config, newPos) &&
               TransPos(config, oldPos) != TransPos(config, newPos) ==>
               InGrid(TransPos(config, oldPos)) && InGrid(TransPos(config, newPos))
      modifies Coord.Keys
      ensures ok == (CheckPos(config, oldPos) && CheckPos(config, newPos))
      ensures forall q :: InGrid(q) ==>
        At(q) ==
          if ok && TransPos(config, oldPos) != TransPos(config, newPos) && q == TransPos(config, oldPos)
          then Removed(old(At(q)), obj)
          else if ok && TransPos(config, oldPos) != TransPos(config, newPos) && q == TransPos(config, newPos)
          then Added(old(At(q)), obj)
          else old(At(q))
    {
      if !CheckPos(config, oldPos) || !CheckPos(config, newPos) {
        return false;
      }
      var p1 := TransPos(config, oldPos);
      var p2 := TransPos(config, newPos);
      if p1 == p2 {
        return true;
      }
      var oldTower := towers[p1.x][p1.y];
      var newTower := towers[p2.x][p2.y];
      oldTower.Remove(obj);
      var accepted := newTower.Add(obj);
      return true;
    }

    /** `AddWatcher` on the one tower at grid position `c`. */
    method WatchOne(watcher: Object, c: Pos)
      requires Valid() && InGrid(c)
      modifies Coord.Keys
      ensures forall q :: InGrid(q) ==> At(q) == if q == c then WatcherAdded(old(At(q)), watcher) else old(At(q))
    {
      towers[c.x][c.y].AddWatcher(watcher);
      forall q | InGrid(q) && q != c
        ensures At(q) == old(At(q))
      {
        TowersDistinct(q, c);
      }
    }

    /** `RemoveWatcher` on the one tower at grid position `c`. */
    method UnwatchOne(watcher: Object, c: Pos)
      requires Valid() && InGrid(c)
      modifies Coord.Keys
      ensures forall q :: InGrid(q) ==> At(q) == if q == c then WatcherRemoved(old(At(q)), watcher) else old(At(q))
    {
      towers[c.x][c.y].RemoveWatcher(watcher);
      forall q | InGrid(q) && q != c
        ensures At(q) == old(At(q))
      {
        TowersDistinct(q, c);
      }
    }

    /** The inner loop of `AddWatcher`: column `i` of window `w`, row by row. */
    method WatchColumn(watcher: Object, w: Window, i: int)
      requires Valid() && 0 <= i <= max.x && 0 <= w.start.y && w.end.y <= max.y
      modifies Coord.Keys
      ensures forall q :: InGrid(q) ==>
        At(q) == if q.x == i && w.start.y <= q.y <= w.end.y then WatcherAdded(old(At(q)), watcher) else old(At(q))
    {
      var j := w.start.y;
      while j <= w.end.y
        invariant j == w.start.y || w.start.y <= j <= w.end.y + 1
        invariant forall q :: InGrid(q) ==>
          At(q) == if q.x == i && w.start.y <= q.y < j then WatcherAdded(old(At(q)), watcher) else old(At(q))
      {
        WatchOne(watcher, Pos(i, j));
        j := j + 1;
      }
    }

    /**
     * Subscribes a watcher to every tower of the window around `pos` (radius
     * capped at 5, no bounds check on `pos`); a negative radius does nothing.
     */
    method AddWatcher(watcher: Object, pos: Pos, r: int)
      requires Valid()
      modifies Coord.Keys
      ensures forall q :: InGrid(q) ==>
        At(q) == if r >= 0 && InWindow(q, WatchWindow(pos, r)) then WatcherAdded(old(At(q)), watcher) else old(At(q))
    {
      if r < 0 {
        return;
      }
      var w := WatchWindow(pos, r);
      var i := w.start.x;
      while i <= w.end.x
        invariant w.start.x <= i <= w.end.x + 1
        invariant forall q :: InGrid(q) ==>
          At(q) == if InWindow(q, w) && q.x < i then WatcherAdded(old(At(q)), watcher) else old(At(q))
      {
        WatchColumn(watcher, w, i);
        i := i + 1;
      }
    }

    /** The inner loop of `RemoveWatcher`: column `i` of window `w`, row by row. */
    method UnwatchColumn(watcher: Object, w: Window, i: int)
      requires Valid() && 0 <= i <= max.x && 0 <= w.start.y && w.end.y <= max.y
      modifies Coord.Keys
      ensures forall q :: InGrid(q) ==>
        At(q) == if q.x == i && w.start.y <= q.y <= w.end.y then WatcherRemoved(old(At(q)), watcher) else old(At(q))
    {
      var j := w.start.y;
      while j <= w.end.y
        invariant j == w.start.y || w.start.y <= j <= w.end.y + 1
        invariant forall q :: InGrid(q) ==>
          At(q) == if q.x == i && w.start.y <= q.y < j then WatcherRemoved(old(At(q)), watcher) else old(At(q))
      {
        UnwatchOne(watcher, Pos(i, j));
        j := j + 1;
      }
    }

    /**
     * Unsubscribes a watcher from every tower of the window around `pos` (radius
     * capped at 5, no bounds check on `pos`); a negative radius does nothing.
     */
    method RemoveWatcher(watcher: Object, pos: Pos, r: int)
      requires Valid()
      modifies Coord.Keys
      ensures forall q :: InGrid(q) ==>
        At(q) == if r >= 0 && InWindow(q, WatchWindow(pos, r)) then WatcherRemoved(old(At(q)), watcher) else old(At(q))
    {
      if r < 0 {
        return;
      }
      var w := WatchWindow(pos, r);
      var i := w.start.x;
      while i <= w.end.x
        invariant w.start.x <= i <= w.end.x + 1
        invariant forall q :: InGrid(q) ==>
          At(q) == if InWindow(q, w) && q.x < i then WatcherRemoved(old(At(q)), watcher) else old(At(q))
      {
        UnwatchColumn(watcher, w, i);
        i := i + 1;
      }
    }

    /**
     * Moves a watcher, as written. False when either position is off the map;
     * true with no change when both positions are under the same tower (the
     * radii are not even looked at); false for a negative radius. Otherwise the
     * radii are capped at 5 and the diff lists are walked, but each non-empty
     * list starts with its nil placeholder, so the walk panics on its first
     * element unless both lists are empty, i.e. the two windows cover the same
     * towers. No tower is ever changed.
     */
    method UpdateWatcher(watcher: Object, oldPos: Pos, newPos: Pos, oldRange: int, newRange: int)
      returns (res: UpdateOutcome)
      requires Valid()
      ensures res == Returned(false) <==>
        || !CheckPos(config, oldPos) || !CheckPos(config, newPos)
        || (TransPos(config, oldPos) != TransPos(config, newPos) && (oldRange < 0 || newRange < 0))
      ensures res == Returned(true) <==>
        && CheckPos(config, oldPos) && CheckPos(config, newPos)
        && (|| TransPos(config, oldPos) == TransPos(config, newPos)
            || (oldRange >= 0 && newRange >= 0 &&
                SameCells(WatchWindow(oldPos, oldRange), WatchWindow(newPos, newRange))))
    {
      if !CheckPos(config, oldPos) || !CheckPos(config, newPos) {
        return Returned(false);
      }
      var p1 := TransPos(config, oldPos);
      var p2 := TransPos(config, newPos);
      if p1 == p2 {
        return Returned(true);
      }
      if oldRange < 0 || newRange < 0 {
        return Returned(false);
      }
      var r1 := Min(oldRange, RadiusCap);
      var r2 := Min(newRange, RadiusCap);
      var removed, added, kept := GetChangedTowers(p1, p2, r1, r2, max);
      NoChangeIffSameCells(removed, added, GetPosLimit(p1, r1, max), GetPosLimit(p2, r2, max));
      if |added| > 0 {
        // the first iteration calls AddWatcher and GetIds on the nil placeholder
        return Panicked;
      }
      if |removed| > 0 {
        // the first iteration calls RemoveWatcher and GetIds on the nil placeholder
        return Panicked;
      }
      return Returned(true);
    }

    /**
     * `UpdateWatcher` with the nil placeholders skipped: the watcher is
     * subscribed to the towers only the new window covers and unsubscribed from
     * those only the old window covers; the towers of both windows keep their
     * subscription.
     */
    method UpdateWatcherIntended(watcher: Object, oldPos: Pos, newPos: Pos, oldRange: int, newRange: int)
      returns (ok: bool)
      requires Valid()
      modifies Coord.Keys
      ensures ok <==>
        && CheckPos(config, oldPos) && CheckPos(config, newPos)
        && (TransPos(config, oldPos) == TransPos(config, newPos) || (oldRange >= 0 && newRange >= 0))
      ensures forall q :: InGrid(q) ==>
        At(q) ==
          if !ok || TransPos(config, oldPos) == TransPos(config, newPos) then old(At(q))
          else if InWindow(q, WatchWindow(newPos, newRange)) && !InWindow(q, WatchWindow(oldPos, oldRange))
          then WatcherAdded(old(At(q)), watcher)
          else if InWindow(q, WatchWindow(oldPos, oldRange)) && !InWindow(q, WatchWindow(newPos, newRange))
          then WatcherRemoved(old(At(q)), watcher)
          else old(At(q))
      ensures ok && TransPos(config, oldPos) != TransPos(config, newPos) && watcher.objType != 0 &&
              old(SubscribedExactly(watcher, WatchWindow(oldPos, oldRange))) ==>
              SubscribedExactly(watcher, WatchWindow(newPos, newRange))
    {
      if !CheckPos(config, oldPos) || !CheckPos(config, newPos) {
        return false;
      }
      var p1 := TransPos(config, oldPos);
      var p2 := TransPos(config, newPos);
      if p1 == p2 {
        return true;
      }
      if oldRange < 0 || newRange < 0 {
        return false;
      }
      var r1 := Min(oldRange, RadiusCap);
      var r2 := Min(newRange, RadiusCap);
      var removed, added, kept := GetChangedTowers(p1, p2, r1, r2, max);
      ApplyChanges(watcher, removed, added, GetPosLimit(p1, r1, max), GetPosLimit(p2, r2, max));
      if watcher.objType != 0 && old(SubscribedExactly(watcher, WatchWindow(oldPos, oldRange))) {
        forall q | InGrid(q)
          ensures Watching(At(q), watcher) <==> InWindow(q, WatchWindow(newPos, newRange))
        {
          HandOver(old(At(q)), watcher, InWindow(q, WatchWindow(oldPos, oldRange)), InWindow(q, WatchWindow(newPos, newRange)));
        }
      }
      return true;
    }

    /** The two loops of the corrected `UpdateWatcher`, over the diff lists of windows `w1` (old) and `w2` (new). */
    method ApplyChanges(watcher: Object, removed: seq<Option<Pos>>, added: seq<Option<Pos>>, ghost w1: Window, ghost w2: Window)
      requires Valid() && WindowOn(w1, max) && WindowOn(w2, max)
      requires Placeheld(removed) && XMajor(removed) && Placeheld(added) && XMajor(added)
      requires forall c :: Some(c) in removed <==> InWindow(c, w1) && !InWindow(c, w2)
      requires forall c :: Some(c) in added <==> InWindow(c, w2) && !InWindow(c, w1)
      modifies Coord.Keys
      ensures forall q :: InGrid(q) ==>
        At(q) ==
          if InWindow(q, w2) && !InWindow(q, w1) then WatcherAdded(old(At(q)), watcher)
          else if InWindow(q, w1) && !InWindow(q, w2) then WatcherRemoved(old(At(q)), watcher)
          else old(At(q))
    {
      WatchListed(watcher, added);
      label subscribed:
      UnwatchListed(watcher, removed);
      forall q | InGrid(q)
        ensures At(q) ==
          if InWindow(q, w2) && !InWindow(q, w1) then WatcherAdded(old(At(q)), watcher)
          else if InWindow(q, w1) && !InWindow(q, w2) then WatcherRemoved(old(At(q)), watcher)
          else old(At(q))
      {
        assert old@subscribed(At(q)) == if Some(q) in added then WatcherAdded(old(At(q)), watcher) else old(At(q));
      }
    }

    /** The first loop of the corrected `UpdateWatcher`: subscribes the watcher to every listed tower, skipping the placeholder. */
    method WatchListed(watcher: Object, list: seq<Option<Pos>>)
      requires Valid() && Placeheld(list) && XMajor(list)
      requires forall c :: Some(c) in list ==> InGrid(c)
      modifies Coord.Keys
      ensures forall q :: InGrid(q) ==>
        At(q) == if Some(q) in list then WatcherAdded(old(At(q)), watcher) else old(At(q))
    {
      var k := 0;
      while k < |list|
        invariant 0 <= k <= |list|
        invariant forall q :: InGrid(q) ==>
          At(q) == if Some(q) in list[..k] then WatcherAdded(old(At(q)), watcher) else old(At(q))
      {
        assert list[..k + 1] == list[..k] + [list[k]];
        if list[k].Some? {
          var c := list[k].value;
          ListedOnce(list, k);
          WatchOne(watcher, c);
        }
        k := k + 1;
      }
      assert list[..k] == list;
    }

    /** The second loop of the corrected `UpdateWatcher`: unsubscribes the watcher from every listed tower, skipping the placeholder. */
    method UnwatchListed(watcher: Object, list: seq<Option<Pos>>)
      requires Valid() && Placeheld(list) && XMajor(list)
      requires forall c :: Some(c) in list ==> InGrid(c)
      modifies Coord.Keys
      ensures forall q :: InGrid(q) ==>
        At(q) == if Some(q) in list then WatcherRemoved(old(At(q)), watcher) else old(At(q))
    {
      var k := 0;
      while k < |list|
        invariant 0 <= k <= |list|
        invariant forall q :: InGrid(q) ==>
          At(q) == if Some(q) in list[..k] then WatcherRemoved(old(At(q)), watcher) else old(At(q))
      {
        assert list[..k + 1] == list[..k] + [list[k]];
        if list[k].Some? {
          var c := list[k].value;
          ListedOnce(list, k);
          UnwatchOne(watcher, c);
        }
        k := k + 1;
      }
      assert list[..k] == list;
    }

    /** Whether the subscription of watcher `w` on the grid is exactly the towers of window `win`. */
    ghost predicate SubscribedExactly(w: Object, win: Window)
      requires Valid()
      reads Coord.Keys
    {
      forall q :: InGrid(q) ==> (Watching(At(q), w) <==> InWindow(q, win))
    }

    /**
     * The watchers of the requested types registered on the single tower under
     * `pos`; nil when `pos` is off the map.
     */
    method GetWatchers(pos: Pos, types: seq<int>) returns (res: Option<map<int, set<int>>>)
      requires Valid()
      requires CheckPos(config, pos) ==> InGrid(TransPos(config, pos))
      ensures res.None? <==> !CheckPos(config, pos)
      ensures res.Some? ==>
        && res.value.Keys == (set t | t in types && t in At(TransPos(config, pos)).watchers)
        && forall t :: t in res.value ==> res.value[t] == At(TransPos(config, pos)).watchers[t]
    {
      if CheckPos(config, pos) {
        var p := TransPos(config, pos);
        var watchers := towers[p.x][p.y].GetWatchers(types);
        return Some(watchers);
      }
      return None;
    }
  }

  // ---------------------------------------------------------------------------
  // Scenarios
  // ---------------------------------------------------------------------------

  /** `testTowerAOI`: a 10000 x 10000 map cut into 100 x 100 towers gives a 100 x 100 grid of empty towers. */
  method WorldScenario() returns (aoi: TowerAOI)
    ensures aoi.Valid() && aoi.max == Pos(99, 99) && aoi.rangeLimit == DefaultRangeLimit
    ensures forall p :: aoi.InGrid(p) ==> aoi.At(p) == EmptyTower
  {
    aoi := new TowerAOI(Config(10000, 10000, 100, 100, 0));
  }

  /**
   * One tower, one object. As written, the lookup by position finds nothing at
   * a position on the map, but finds the object from a position off the map;
   * the corrected lookup finds it from the position on the map.
   */
  method InBoundsQueryScenario() returns (inside: seq<int>, outside: seq<int>, intended: seq<int>)
    ensures inside == []
    ensures multiset(outside) == multiset{100}
    ensures multiset(intended) == multiset{100}
  {
    var aoi := new TowerAOI(Config(100, 100, 100, 100, 0));
    var ok := aoi.AddObject(Object(100, 1), Pos(50, 50));
    assert aoi.At(Pos(0, 0)).ids == {100};
    aoi.SnapshotAt(0, 0);
    SingleCellBag(aoi.Snapshot(), aoi.max, Pos(0, 0));
    assert aoi.WatchWindow(Pos(50, 50), 1) == Window(Pos(0, 0), Pos(0, 0));
    assert aoi.WatchWindow(Pos(150, 50), 0) == Window(Pos(0, 0), Pos(0, 0));
    inside := aoi.GetIdsByPos(Pos(50, 50), 1);
    outside := aoi.GetIdsByPos(Pos(150, 50), 0);
    intended := aoi.GetIdsByPosIntended(Pos(50, 50), 1);
  }

  /**
   * A row of three towers; a watcher of radius 0 moves from the first tower to
   * the third. As written the move panics; the corrected move hands the
   * subscription from the first tower over to the third.
   */
  method MoveScenario() returns (asWritten: UpdateOutcome, ok: bool, aoi: TowerAOI)
    ensures asWritten == Panicked
    ensures ok && aoi.Valid() && aoi.max == Pos(2, 0)
    ensures !Watching(aoi.At(Pos(0, 0)), Object(201, 21))
    ensures !Watching(aoi.At(Pos(1, 0)), Object(201, 21))
    ensures Watching(aoi.At(Pos(2, 0)), Object(201, 21))
  {
    var watcher := Object(201, 21);
    aoi := new TowerAOI(Config(300, 100, 100, 100, 0));
    aoi.AddWatcher(watcher, Pos(50, 50), 0);
    asWritten := aoi.UpdateWatcher(watcher, Pos(50, 50), Pos(250, 50), 0, 0);
    ok := aoi.UpdateWatcherIntended(watcher, Pos(50, 50), Pos(250, 50), 0, 0);
  }
}
