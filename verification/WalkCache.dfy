/**
 A creature's walk cache (server/src/creature.cpp): a two-dimensional array around the creature
 that says where it can walk. A step shifts the array in place and reads only the new edge and
 the tile just left; a rescan reads every tile. `Walk` is what a tile's queryAdd would answer.
 */
module WalkCache {
  import opened Basics

  datatype Pos = Pos(x: int, y: int, z: int)

  /** The tiles that can be walked on. */
  type Walk = set<Pos>

  predicate Can(walk: Walk, p: Pos)
  {
    p in walk
  }

  datatype Off = Off(x: int, y: int)

  /** A cache as a value: the offsets from the creature that it shows as walkable. */
  type Grid = iset<Off>

  ghost predicate At(g: Grid, ox: int, oy: int)
  {
    Off(ox, oy) in g
  }

  predicate InRange(w: nat, h: nat, ox: int, oy: int)
  {
    0 - w <= ox <= w && 0 - h <= oy <= h
  }

  function Offset(p: Pos, ox: int, oy: int): Pos
  {
    Pos(p.x + ox, p.y + oy, p.z)
  }

  /** The end of -n..n that `d` points to. */
  function Edge(d: int, n: nat): int
  {
    if d < 0 then 0 - n else n
  }

  /** The step from `p` to `q` stays on the floor and moves to a neighbouring tile. */
  predicate OneStep(p: Pos, q: Pos)
  {
    p.z == q.z && Abs(q.x - p.x) <= 1 && Abs(q.y - p.y) <= 1 && p != q
  }

  /** The eight ways to step. */
  lemma OneStepMeans(p: Pos, q: Pos)
    ensures OneStep(p, q) <==>
              q in {Offset(p, 1, 0), Offset(p, 0 - 1, 0), Offset(p, 0, 1), Offset(p, 0, 0 - 1),
                    Offset(p, 1, 1), Offset(p, 1, 0 - 1), Offset(p, 0 - 1, 1), Offset(p, 0 - 1, 0 - 1)}
  {
  }

  predicate SouthDiagonal(p: Pos, q: Pos)
  {
    q.y == p.y + 1 && q.x != p.x
  }

  // ----- What a step leaves in the cache, cell by cell -----

  /** The cell after the move north or south: old rows shifted, the new edge row read afresh. */
  ghost function AfterRows(h: nat, was: Grid, walk: Walk, p: Pos, dy: int, ox: int, oy: int): bool
  {
    if dy == 0 then At(was, ox, oy)
    else if oy == Edge(dy, h) then Can(walk, Offset(p, ox, oy))
    else At(was, ox, oy + dy)
  }

  /** The cell after the move east or west, which leaves the first |dy| rows alone. */
  ghost function AfterColumns(w: nat, h: nat, was: Grid, walk: Walk, p: Pos, dx: int, dy: int, ox: int, oy: int): bool
  {
    if dx == 0 then AfterRows(h, was, walk, p, dy, ox, oy)
    else if ox == Edge(dx, w) then Can(walk, Offset(p, ox, oy))
    else if oy < Abs(dy) - h then AfterRows(h, was, walk, p, dy, ox, oy)
    else AfterRows(h, was, walk, p, dy, ox + dx, oy)
  }

  /** The cell after the whole step to `p`. */
  ghost function AfterStep(w: nat, h: nat, was: Grid, walk: Walk, p: Pos, dx: int, dy: int, ox: int, oy: int): bool
  {
    if ox == 0 - dx && oy == 0 - dy then Can(walk, Offset(p, ox, oy))
    else AfterColumns(w, h, was, walk, p, dx, dy, ox, oy)
  }

  /** The cache `g` answers as a rescan at `p` would, the creature's own tile apart. */
  ghost predicate Exact(w: nat, h: nat, g: Grid, walk: Walk, p: Pos)
  {
    forall ox, oy | InRange(w, h, ox, oy) && (ox != 0 || oy != 0) :: At(g, ox, oy) == Can(walk, Offset(p, ox, oy))
  }

  /** Only the tiles `p` and `q` may have changed. */
  ghost predicate ChangedAt(walk: Walk, walk': Walk, p: Pos, q: Pos)
  {
    forall r: Pos | r != p && r != q :: Can(walk', r) == Can(walk, r)
  }

  ghost predicate Stepped(w: nat, h: nat, was: Grid, g: Grid, walk': Walk, p: Pos, p': Pos)
  {
    forall ox, oy | InRange(w, h, ox, oy) ::
      At(g, ox, oy) == AfterStep(w, h, was, walk', p', p'.x - p.x, p'.y - p.y, ox, oy)
  }

  /** A row the diagonal step south gets wrong holds, at `ox`, the answer for the tile beside it. */
  ghost function Beside(h: nat, dx: int, ox: int, oy: int): int
  {
    if oy == 0 - h then ox - dx else if oy == h then ox + dx else ox
  }

  /** The cells of the first and last row that are not read afresh, as the new column and the tile left are. */
  predicate Doubtful(w: nat, h: nat, dx: int, ox: int, oy: int)
  {
    && InRange(w, h, ox, oy) && (oy == 0 - h || oy == h)
    && ox != Edge(dx, w) && !(ox == 0 - dx && oy == -1)
  }

  /**
   What a doubtful cell shows: the tile beside it or, one row above a cache of three rows, what the
   cache showed for the creature's own tile.
   */
  ghost predicate Shown(h: nat, own: bool, walk: Walk, p: Pos, dx: int, ox: int, oy: int)
  {
    if h == 1 && ox == 0 && oy == -1 then own else Can(walk, Offset(p, Beside(h, dx, ox, oy), oy))
  }

  /** The doubtful cells happen to show the right answer. */
  ghost predicate EdgesRepeat(w: nat, h: nat, own: bool, walk: Walk, p: Pos, dx: int)
  {
    forall ox, oy | Doubtful(w, h, dx, ox, oy) :: Shown(h, own, walk, p, dx, ox, oy) == Can(walk, Offset(p, ox, oy))
  }

  /** A step that is not a diagonal step south keeps the cache exact. */
  lemma {:induction false} StepKeepsExact(w: nat, h: nat, was: Grid, g: Grid, walk: Walk, walk': Walk, p: Pos, p': Pos)
    requires w >= 1 && h >= 1 && OneStep(p, p') && !SouthDiagonal(p, p')
    requires Exact(w, h, was, walk, p) && ChangedAt(walk, walk', p, p') && Stepped(w, h, was, g, walk', p, p')
    ensures Exact(w, h, g, walk', p')
  {
    var dx, dy := p'.x - p.x, p'.y - p.y;
    forall ox, oy | InRange(w, h, ox, oy) && (ox != 0 || oy != 0)
      ensures At(g, ox, oy) == Can(walk', Offset(p', ox, oy))
    {
      if (ox != 0 - dx || oy != 0 - dy) && InRange(w, h, ox + dx, oy + dy) {
        assert At(was, ox + dx, oy + dy) == Can(walk, Offset(p, ox + dx, oy + dy));
        assert Offset(p, ox + dx, oy + dy) == Offset(p', ox, oy);
      }
    }
  }

  /**
   A diagonal step south is exact on all rows but the first and last; there the cache repeats the
   tile beside, so the whole is exact if and only if those rows agree with their neighbours.
   */
  lemma {:induction false} SouthDiagonalStep(
      w: nat, h: nat, was: Grid, g: Grid, walk: Walk, walk': Walk, p: Pos, p': Pos)
    requires w >= 1 && h >= 1 && OneStep(p, p') && SouthDiagonal(p, p')
    requires Exact(w, h, was, walk, p) && ChangedAt(walk, walk', p, p') && Stepped(w, h, was, g, walk', p, p')
    ensures forall ox, oy | InRange(w, h, ox, oy) && (ox != 0 || oy != 0) && !Doubtful(w, h, p'.x - p.x, ox, oy) ::
              At(g, ox, oy) == Can(walk', Offset(p', ox, oy))
    ensures forall ox, oy | InRange(w, h, ox, oy) && (ox != 0 || oy != 0) && 0 - h < oy < h ::
              At(g, ox, oy) == Can(walk', Offset(p', ox, oy))
    ensures forall ox, oy | Doubtful(w, h, p'.x - p.x, ox, oy) ::
              At(g, ox, oy) == Shown(h, At(was, 0, 0), walk', p', p'.x - p.x, ox, oy)
    ensures Exact(w, h, g, walk', p') <==> EdgesRepeat(w, h, At(was, 0, 0), walk', p', p'.x - p.x)
  {
    var dx := p'.x - p.x;
    forall ox, oy | InRange(w, h, ox, oy) && (ox != 0 || oy != 0)
      ensures At(g, ox, oy) == if Doubtful(w, h, dx, ox, oy) then Shown(h, At(was, 0, 0), walk', p', dx, ox, oy)
                           else Can(walk', Offset(p', ox, oy))
    {
      SouthDiagonalCell(w, h, was, walk, walk', p, p', ox, oy);
    }
    assert forall ox, oy | Doubtful(w, h, dx, ox, oy) :: InRange(w, h, ox, oy) && oy != 0;
  }

  lemma {:induction false} SouthDiagonalCell(
      w: nat, h: nat, was: Grid, walk: Walk, walk': Walk, p: Pos, p': Pos, ox: int, oy: int)
    requires w >= 1 && h >= 1 && OneStep(p, p') && SouthDiagonal(p, p')
    requires Exact(w, h, was, walk, p) && ChangedAt(walk, walk', p, p')
    requires InRange(w, h, ox, oy) && (ox != 0 || oy != 0)
    ensures AfterStep(w, h, was, walk', p', p'.x - p.x, 1, ox, oy)
         == if Doubtful(w, h, p'.x - p.x, ox, oy) then Shown(h, At(was, 0, 0), walk', p', p'.x - p.x, ox, oy)
            else Can(walk', Offset(p', ox, oy))
  {
    var dx := p'.x - p.x;
    if (ox != 0 - dx || oy != -1) && oy < h {
      var sx := if oy == 0 - h then ox else ox + dx;
      if InRange(w, h, sx, oy + 1) && (sx != 0 || oy != -1) {
        assert At(was, sx, oy + 1) == Can(walk, Offset(p, sx, oy + 1));
        assert Offset(p, sx, oy + 1) == Offset(p', sx - dx, oy);
      }
    }
  }

  /**
   In an unchanging world where the creature can stand on both tiles, one step south-east or
   south-west can make the cache wrong.
   */
  lemma {:induction false} SouthDiagonalGoesWrong(w: nat, h: nat, p: Pos, p': Pos)
    returns (walk: Walk, was: Grid, g: Grid)
    requires w >= 1 && h >= 1 && OneStep(p, p') && SouthDiagonal(p, p')
    ensures Can(walk, p) && Can(walk, p')
    ensures Exact(w, h, was, walk, p) && Stepped(w, h, was, g, walk, p, p')
    ensures !Exact(w, h, g, walk, p')
  {
    var dx := p'.x - p.x;
    var free := Offset(p', 0, h);
    walk := {free, p, p'};
    was := iset o: Off | Offset(p, o.x, o.y) in walk;
    g := iset o: Off | AfterStep(w, h, was, walk, p', dx, 1, o.x, o.y);
    assert Beside(h, dx, 0, h) == dx && Doubtful(w, h, dx, 0, h);
    assert Can(walk, Offset(p', 0, h)) && !Can(walk, Offset(p', dx, h));
    SouthDiagonalStep(w, h, was, g, walk, walk, p, p');
  }

  /** The flags of an item type that decide about a refresh. */
  datatype Blocking = Blocking(solid: bool, path: bool, ground: bool)

  class Creature {
    const halfWidth: nat
    const halfHeight: nat
    const useCacheMap: bool
    const cache: array2<bool>
    var pos: Pos
    var isMapLoaded: bool

    ghost predicate Valid()
    {
      cache.Length0 == 2 * halfHeight + 1 && cache.Length1 == 2 * halfWidth + 1
    }

    ghost function Contents(): Grid
      requires Valid()
      reads cache
    {
      iset o: Off | InRange(halfWidth, halfHeight, o.x, o.y) && cache[halfHeight + o.y, halfWidth + o.x]
    }

    ghost predicate Agrees(walk: Walk, at: Pos)
      requires Valid()
      reads cache
    {
      Exact(halfWidth, halfHeight, Contents(), walk, at)
    }

    constructor (w: nat, h: nat, use: bool, at: Pos)
      ensures Valid() && fresh(cache) && !isMapLoaded && pos == at
      ensures halfWidth == w && halfHeight == h && useCacheMap == use
    {
      halfWidth, halfHeight, useCacheMap, pos, isMapLoaded := w, h, use, at, false;
      cache := new bool[2 * h + 1, 2 * w + 1]((r, c) => false);
    }

    /** Creature::updateTileCache with offsets: out of range it does nothing. */
    method UpdateTileOffset(walkable: bool, dx: int, dy: int)
      requires Valid()
      modifies cache
      ensures forall ox, oy | InRange(halfWidth, halfHeight, ox, oy) ::
                At(Contents(), ox, oy) == if ox == dx && oy == dy then walkable else At(old(Contents()), ox, oy)
    {
      ghost var was := Contents();
      if Abs(dx) <= halfWidth && Abs(dy) <= halfHeight {
        cache[halfHeight + dy, halfWidth + dx] := walkable;
      }
    }

    method UpdateTileCache(walk: Walk, p: Pos)
      requires Valid()
      modifies cache
      ensures forall ox, oy | InRange(halfWidth, halfHeight, ox, oy) ::
                At(Contents(), ox, oy) == if Offset(pos, ox, oy) == p then Can(walk, p) else At(old(Contents()), ox, oy)
    {
      if p.z == pos.z {
        UpdateTileOffset(Can(walk, p), p.x - pos.x, p.y - pos.y);
      }
    }

    /** Creature::updateMapCache: the full rescan. */
    method UpdateMapCache(walk: Walk)
      requires Valid()
      modifies cache
      ensures Agrees(walk, pos)
    {
      var y := 0 - halfHeight;
      while y <= halfHeight
        invariant 0 - halfHeight <= y <= halfHeight + 1
        invariant forall ox, oy | InRange(halfWidth, halfHeight, ox, oy) && oy < y ::
                    At(Contents(), ox, oy) == Can(walk, Offset(pos, ox, oy))
      {
        FillRow(walk, y);
        y := y + 1;
      }
    }

    method FillRow(walk: Walk, y: int)
      requires Valid() && 0 - halfHeight <= y <= halfHeight
      modifies cache
      ensures forall ox, oy | InRange(halfWidth, halfHeight, ox, oy) ::
                At(Contents(), ox, oy)
                == if oy == y then Can(walk, Offset(pos, ox, oy)) else At(old(Contents()), ox, oy)
    {
      var x := 0 - halfWidth;
      while x <= halfWidth
        invariant 0 - halfWidth <= x <= halfWidth + 1
        invariant forall ox, oy | InRange(halfWidth, halfHeight, ox, oy) ::
                    At(Contents(), ox, oy)
                    == if oy == y && ox < x then Can(walk, Offset(pos, ox, oy)) else At(old(Contents()), ox, oy)
      {
        UpdateTileOffset(Can(walk, Offset(pos, x, y)), x, y);
        x := x + 1;
      }
    }

    method FillColumn(walk: Walk, x: int)
      requires Valid() && 0 - halfWidth <= x <= halfWidth
      modifies cache
      ensures forall ox, oy | InRange(halfWidth, halfHeight, ox, oy) ::
                At(Contents(), ox, oy)
                == if ox == x then Can(walk, Offset(pos, ox, oy)) else At(old(Contents()), ox, oy)
    {
      var y := 0 - halfHeight;
      while y <= halfHeight
        invariant 0 - halfHeight <= y <= halfHeight + 1
        invariant forall ox, oy | InRange(halfWidth, halfHeight, ox, oy) ::
                    At(Contents(), ox, oy)
                    == if ox == x && oy < y then Can(walk, Offset(pos, ox, oy)) else At(old(Contents()), ox, oy)
      {
        UpdateTileOffset(Can(walk, Offset(pos, x, y)), x, y);
        y := y + 1;
      }
    }

    method CopyRow(to: nat, from: nat)
      requires Valid() && to < cache.Length0 && from < cache.Length0 && to != from
      modifies cache
      ensures forall c | 0 <= c < cache.Length1 :: cache[to, c] == old(cache[from, c])
      ensures forall r, c | 0 <= r < cache.Length0 && r != to && 0 <= c < cache.Length1 ::
                cache[r, c] == old(cache[r, c])
    {
      var x := 0;
      while x < cache.Length1
        invariant x <= cache.Length1
        invariant forall c | 0 <= c < x :: cache[to, c] == old(cache[from, c])
        invariant forall r, c | 0 <= r < cache.Length0 && r != to && 0 <= c < cache.Length1 ::
                    cache[r, c] == old(cache[r, c])
      {
        cache[to, x] := cache[from, x];
        x := x + 1;
      }
    }

    /** The rows after a step north: each takes the row above it, the first row stays. */
    method ShiftRowsDown()
      requires Valid()
      modifies cache
      ensures forall r, c | 0 < r < cache.Length0 && 0 <= c < cache.Length1 :: cache[r, c] == old(cache[r - 1, c])
    {
      var y := cache.Length0 - 1;
      while y > 0
        invariant 0 <= y <= cache.Length0 - 1
        invariant forall r, c | y < r < cache.Length0 && 0 <= c < cache.Length1 :: cache[r, c] == old(cache[r - 1, c])
        invariant forall r, c | 0 <= r <= y && 0 <= c < cache.Length1 :: cache[r, c] == old(cache[r, c])
      {
        y := y - 1;
        CopyRow(y + 1, y);
      }
    }

    method ShiftRowsUp()
      requires Valid()
      modifies cache
      ensures forall r, c | 0 <= r < cache.Length0 - 1 && 0 <= c < cache.Length1 :: cache[r, c] == old(cache[r + 1, c])
    {
      var y := 0;
      while y <= cache.Length0 - 2
        invariant 0 <= y <= cache.Length0 - 1
        invariant forall r, c | 0 <= r < y && 0 <= c < cache.Length1 :: cache[r, c] == old(cache[r + 1, c])
        invariant forall r, c | y <= r < cache.Length0 && 0 <= c < cache.Length1 :: cache[r, c] == old(cache[r, c])
      {
        CopyRow(y, y + 1);
        y := y + 1;
      }
    }

    /** One row after a step east: each cell takes the one to its right. */
    method ShiftRowLeft(y: nat)
      requires Valid() && y < cache.Length0
      modifies cache
      ensures forall c | 0 <= c < cache.Length1 - 1 :: cache[y, c] == old(cache[y, c + 1])
      ensures cache[y, cache.Length1 - 1] == old(cache[y, cache.Length1 - 1])
      ensures forall r, c | 0 <= r < cache.Length0 && r != y && 0 <= c < cache.Length1 ::
                cache[r, c] == old(cache[r, c])
    {
      var x := 0;
      while x <= cache.Length1 - 2
        invariant 0 <= x <= cache.Length1 - 1
        invariant forall c | 0 <= c < x :: cache[y, c] == old(cache[y, c + 1])
        invariant forall c | x <= c < cache.Length1 :: cache[y, c] == old(cache[y, c])
        invariant forall r, c | 0 <= r < cache.Length0 && r != y && 0 <= c < cache.Length1 ::
                    cache[r, c] == old(cache[r, c])
      {
        cache[y, x] := cache[y, x + 1];
        x := x + 1;
      }
    }

    method ShiftRowRight(y: nat)
      requires Valid() && y < cache.Length0
      modifies cache
      ensures forall c | 0 < c < cache.Length1 :: cache[y, c] == old(cache[y, c - 1])
      ensures cache[y, 0] == old(cache[y, 0])
      ensures forall r, c | 0 <= r < cache.Length0 && r != y && 0 <= c < cache.Length1 ::
                cache[r, c] == old(cache[r, c])
    {
      var x := cache.Length1 - 1;
      while x > 0
        invariant 0 <= x <= cache.Length1 - 1
        invariant forall c | x < c < cache.Length1 :: cache[y, c] == old(cache[y, c - 1])
        invariant forall c | 0 <= c <= x :: cache[y, c] == old(cache[y, c])
        invariant forall r, c | 0 <= r < cache.Length0 && r != y && 0 <= c < cache.Length1 ::
                    cache[r, c] == old(cache[r, c])
      {
        x := x - 1;
        cache[y, x + 1] := cache[y, x];
      }
    }

    /** The columns after a step east, from row `starty` on. */
    method ShiftColumnsLeft(starty: nat)
      requires Valid() && starty <= cache.Length0
      modifies cache
      ensures forall ox, oy {:trigger At(Contents(), ox, oy)} | InRange(halfWidth, halfHeight, ox, oy) ::
                At(Contents(), ox, oy)
                == if oy >= starty - halfHeight && ox < halfWidth then At(old(Contents()), ox + 1, oy)
                   else At(old(Contents()), ox, oy)
    {
      var y := starty;
      while y < cache.Length0
        invariant starty <= y <= cache.Length0
        invariant forall r, c | starty <= r < y && 0 <= c < cache.Length1 - 1 :: cache[r, c] == old(cache[r, c + 1])
        invariant forall r, c | 0 <= r < cache.Length0 && 0 <= c < cache.Length1
                    && (r < starty || y <= r || c == cache.Length1 - 1) :: cache[r, c] == old(cache[r, c])
      {
        ShiftRowLeft(y);
        y := y + 1;
      }
      forall ox, oy | InRange(halfWidth, halfHeight, ox, oy) && oy >= starty - halfHeight && ox < halfWidth
        ensures cache[halfHeight + oy, halfWidth + ox] == old(cache[halfHeight + oy, halfWidth + (ox + 1)])
      {
        assert halfWidth + ox + 1 == halfWidth + (ox + 1);
      }
    }

    method ShiftColumnsRight(starty: nat)
      requires Valid() && starty <= cache.Length0
      modifies cache
      ensures forall ox, oy {:trigger At(Contents(), ox, oy)} | InRange(halfWidth, halfHeight, ox, oy) ::
                At(Contents(), ox, oy)
                == if oy >= starty - halfHeight && ox > 0 - halfWidth then At(old(Contents()), ox - 1, oy)
                   else At(old(Contents()), ox, oy)
    {
      var y := starty;
      while y < cache.Length0
        invariant starty <= y <= cache.Length0
        invariant forall r, c | starty <= r < y && 0 < c < cache.Length1 :: cache[r, c] == old(cache[r, c - 1])
        invariant forall r | starty <= r < y :: cache[r, 0] == old(cache[r, 0])
        invariant forall r, c | 0 <= r < cache.Length0 && (r < starty || y <= r) && 0 <= c < cache.Length1 ::
                    cache[r, c] == old(cache[r, c])
      {
        ShiftRowRight(y);
        y := y + 1;
      }
      forall ox, oy | InRange(halfWidth, halfHeight, ox, oy) && oy >= starty - halfHeight && ox > 0 - halfWidth
        ensures cache[halfHeight + oy, halfWidth + ox] == old(cache[halfHeight + oy, halfWidth + (ox - 1)])
      {
        assert halfWidth + ox - 1 == halfWidth + (ox - 1);
      }
    }

    /** Creature::getWalkCache. */
    function GetWalkCache(p: Pos): int
      requires Valid()
      reads this, cache
    {
      if !useCacheMap then 2
      else if pos.z != p.z then 0
      else if p == pos then 1
      else if Abs(p.x - pos.x) <= halfWidth && Abs(p.y - pos.y) <= halfHeight then
        if cache[halfHeight + (p.y - pos.y), halfWidth + (p.x - pos.x)] then 1 else 0
      else 2
    }

    /**
     An exact cache answers every query as the map itself would: 1 for a tile that can be walked on,
     as the creature's own always can, and 0 for one that cannot. Other floors count as unwalkable,
     and 2 says that the cache does not know.
     */
    lemma {:induction false} AnswersLikeTheMap(walk: Walk, p: Pos)
      requires Valid() && (useCacheMap ==> Agrees(walk, pos))
      ensures GetWalkCache(p) == 2 <==>
                !useCacheMap || (p.z == pos.z && !InRange(halfWidth, halfHeight, p.x - pos.x, p.y - pos.y))
      ensures GetWalkCache(p) == 1 <==>
                && useCacheMap && p.z == pos.z
                && (p == pos || (InRange(halfWidth, halfHeight, p.x - pos.x, p.y - pos.y) && Can(walk, p)))
      ensures GetWalkCache(p) == 0 <==> GetWalkCache(p) != 1 && GetWalkCache(p) != 2
    {
      if useCacheMap && p.z == pos.z && p != pos && InRange(halfWidth, halfHeight, p.x - pos.x, p.y - pos.y) {
        assert At(Contents(), p.x - pos.x, p.y - pos.y) == Can(walk, Offset(pos, p.x - pos.x, p.y - pos.y));
      }
    }

    /** The first half of a step: the rows. */
    method MoveRows(walk: Walk, oldPos: Pos)
      requires Valid() && OneStep(oldPos, pos)
      modifies cache
      ensures forall ox, oy | InRange(halfWidth, halfHeight, ox, oy) ::
                At(Contents(), ox, oy) == AfterRows(halfHeight, old(Contents()), walk, pos, pos.y - oldPos.y, ox, oy)
    {
      ghost var was := Contents();
      if oldPos.y > pos.y {
        ShiftRowsDown();
        FillRow(walk, 0 - halfHeight);
      } else if oldPos.y < pos.y {
        ShiftRowsUp();
        FillRow(walk, halfHeight);
      }
    }

    /** The second half: the columns. A distance is never negative, so only the first rows are skipped. */
    method MoveColumns(walk: Walk, oldPos: Pos, ghost was: Grid)
      requires Valid() && OneStep(oldPos, pos)
      requires forall ox, oy | InRange(halfWidth, halfHeight, ox, oy) ::
                 At(Contents(), ox, oy) == AfterRows(halfHeight, was, walk, pos, pos.y - oldPos.y, ox, oy)
      modifies cache
      ensures forall ox, oy | InRange(halfWidth, halfHeight, ox, oy) ::
                At(Contents(), ox, oy)
                == AfterColumns(halfWidth, halfHeight, was, walk, pos, pos.x - oldPos.x, pos.y - oldPos.y, ox, oy)
    {
      hide AfterRows, Creature.Contents, At, Can;
      var starty := Abs(oldPos.y - pos.y);
      if oldPos.x < pos.x {
        ShiftColumnsLeft(starty);
        FillColumn(walk, halfWidth);
      } else if oldPos.x > pos.x {
        ShiftColumnsRight(starty);
        FillColumn(walk, 0 - halfWidth);
      }
    }

    /** The cache part of Creature::onCreatureMove for the creature's own move to `pos`. */
    method OnOwnMove(ghost before: Walk, walk: Walk, oldPos: Pos, teleport: bool)
      requires Valid() && halfWidth >= 1 && halfHeight >= 1
      requires (isMapLoaded ==> Agrees(before, oldPos)) && ChangedAt(before, walk, oldPos, pos)
      requires teleport || oldPos.z != pos.z || OneStep(oldPos, pos)
      modifies cache
      ensures !isMapLoaded ==> Contents() == old(Contents())
      ensures isMapLoaded && (teleport || oldPos.z != pos.z || !SouthDiagonal(oldPos, pos)) ==> Agrees(walk, pos)
      ensures isMapLoaded && !teleport && oldPos.z == pos.z && SouthDiagonal(oldPos, pos) ==>
                && (forall ox, oy {:trigger At(Contents(), ox, oy)} |
                      InRange(halfWidth, halfHeight, ox, oy) && (ox != 0 || oy != 0) ::
                      At(Contents(), ox, oy)
                      == if Doubtful(halfWidth, halfHeight, pos.x - oldPos.x, ox, oy)
                         then Shown(halfHeight, At(old(Contents()), 0, 0), walk, pos, pos.x - oldPos.x, ox, oy)
                         else Can(walk, Offset(pos, ox, oy)))
                && (Agrees(walk, pos)
                    <==> EdgesRepeat(halfWidth, halfHeight, At(old(Contents()), 0, 0), walk, pos, pos.x - oldPos.x))
    {
      hide AfterColumns, AfterRows, Exact, Creature.Contents, EdgesRepeat, Shown, Doubtful;
      ghost var was := Contents();
      if !isMapLoaded {
        return;
      } else if teleport || oldPos.z != pos.z {
        UpdateMapCache(walk);
      } else {
        MoveRows(walk, oldPos);
        MoveColumns(walk, oldPos, was);
        UpdateTileCache(walk, oldPos);
        ghost var g := Contents();
        assert Stepped(halfWidth, halfHeight, was, g, walk, oldPos, pos);
        if !SouthDiagonal(oldPos, pos) {
          StepKeepsExact(halfWidth, halfHeight, was, g, before, walk, oldPos, pos);
        } else {
          SouthDiagonalStep(halfWidth, halfHeight, was, g, before, walk, oldPos, pos);
        }
      }
    }

    /** The cache part of Creature::onCreatureMove for another creature's move. */
    method OnOtherMove(ghost before: Walk, walk: Walk, newPos: Pos, oldPos: Pos)
      requires Valid() && (isMapLoaded ==> Agrees(before, pos)) && ChangedAt(before, walk, oldPos, newPos)
      modifies cache
      ensures if isMapLoaded then Agrees(walk, pos) else Contents() == old(Contents())
    {
      if isMapLoaded && newPos.z == pos.z {
        UpdateTileCache(walk, newPos);
      }
      if isMapLoaded && oldPos.z == pos.z {
        UpdateTileCache(walk, oldPos);
      }
    }

    /** A tile whose answer the cache is asked for. */
    predicate Covers(p: Pos)
      reads this
    {
      p.z == pos.z && InRange(halfWidth, halfHeight, p.x - pos.x, p.y - pos.y) && p != pos
    }

    /**
     The refresh after a change of the items on a tile. Where it is skipped, the cache stays exact
     if and only if it does not cover the tile or the tile's answer is what it was.
     */
    method OnTileChange(ghost before: Walk, walk: Walk, p: Pos, refreshes: bool)
      requires Valid() && (isMapLoaded ==> Agrees(before, pos)) && ChangedAt(before, walk, p, p)
      modifies cache
      ensures !isMapLoaded ==> Contents() == old(Contents())
      ensures isMapLoaded ==>
                (Agrees(walk, pos) <==> refreshes || !Covers(p) || Can(walk, p) == Can(before, p))
    {
      if isMapLoaded && refreshes && p.z == pos.z {
        UpdateTileCache(walk, p);
      }
      if isMapLoaded && !refreshes && Covers(p) {
        assert Offset(pos, p.x - pos.x, p.y - pos.y) == p;
        assert At(Contents(), p.x - pos.x, p.y - pos.y) == Can(before, p);
      }
    }

    /** Creature::onAddTileItem. */
    method OnAddTileItem(ghost before: Walk, walk: Walk, p: Pos)
      requires Valid() && (isMapLoaded ==> Agrees(before, pos)) && ChangedAt(before, walk, p, p)
      modifies cache
      ensures if isMapLoaded then Agrees(walk, pos) else Contents() == old(Contents())
    {
      OnTileChange(before, walk, p, true);
    }

    /** Creature::onUpdateTileItem, which looks at two flags of the old and the new type. */
    method OnUpdateTileItem(ghost before: Walk, walk: Walk, p: Pos, oldType: Blocking, newType: Blocking)
      requires Valid() && (isMapLoaded ==> Agrees(before, pos)) && ChangedAt(before, walk, p, p)
      modifies cache
      ensures !isMapLoaded ==> Contents() == old(Contents())
      ensures isMapLoaded ==>
                (Agrees(walk, pos)
                 <==> oldType.solid || oldType.path || newType.solid || newType.path
                      || !Covers(p) || Can(walk, p) == Can(before, p))
    {
      OnTileChange(before, walk, p, oldType.solid || oldType.path || newType.path || newType.solid);
    }

    /** Creature::onRemoveTileItem, which looks at two flags and at whether the item was the ground. */
    method OnRemoveTileItem(ghost before: Walk, walk: Walk, p: Pos, iType: Blocking)
      requires Valid() && (isMapLoaded ==> Agrees(before, pos)) && ChangedAt(before, walk, p, p)
      modifies cache
      ensures !isMapLoaded ==> Contents() == old(Contents())
      ensures isMapLoaded ==>
                (Agrees(walk, pos)
                 <==> iType.solid || iType.path || iType.ground || !Covers(p) || Can(walk, p) == Can(before, p))
    {
      OnTileChange(before, walk, p, iType.solid || iType.path || iType.ground);
    }

    /** The first rescan, when the creature appears or first thinks. */
    method LoadMap(walk: Walk)
      requires Valid()
      modifies this`isMapLoaded, cache
      ensures isMapLoaded == (old(isMapLoaded) || useCacheMap)
      ensures !old(isMapLoaded) && useCacheMap ==> Agrees(walk, pos)
      ensures old(isMapLoaded) || !useCacheMap ==> forall ox, oy | InRange(halfWidth, halfHeight, ox, oy) ::
                At(Contents(), ox, oy) == At(old(Contents()), ox, oy)
    {
      if !isMapLoaded && useCacheMap {
        isMapLoaded := true;
        UpdateMapCache(walk);
      }
    }
  }
}
