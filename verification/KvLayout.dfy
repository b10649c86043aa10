/** Where the bytes of a block are.  The pool is `planes` K or V pools, two for each layer, of
    `nBlocks` units; the kernels keep block b of plane q at unit q * nBlocks + b.  Eviction and
    reload copy the b-th run of `planes` consecutive units instead.  The megakernel writes plane
    positions directly, without a block table. */
module KvLayout {
  import opened Arithmetic

  type Unit = int

  // ---- eviction and the kernels ----

  ghost predicate EvictedUnit(planes: nat, b: nat, u: nat) {
    b * planes <= u < (b + 1) * planes
  }

  ghost predicate KernelUnit(nBlocks: nat, planes: nat, b: nat, u: nat) {
    exists q :: 0 <= q < planes && u == q * nBlocks + b
  }

  /** With a K and a V plane per layer, eviction moves the units the kernels use for a block
      exactly when the pool has a single block. */
  lemma LayoutsAgreeIff(nBlocks: nat, layers: nat, b: nat)
    requires b < nBlocks && layers >= 1
    ensures (forall u: nat :: EvictedUnit(2 * layers, b, u) <==> KernelUnit(nBlocks, 2 * layers, b, u))
      <==> nBlocks == 1
  {
    var planes := 2 * layers;
    if nBlocks == 1 {
      forall u: nat | EvictedUnit(planes, b, u) ensures KernelUnit(nBlocks, planes, b, u) {
        assert u == u * nBlocks + b;
      }
    } else {
      var x: nat := b * planes;
      assert EvictedUnit(planes, b, x) && EvictedUnit(planes, b, x + 1);
      if KernelUnit(nBlocks, planes, b, x) && KernelUnit(nBlocks, planes, b, x + 1) {
        var p :| 0 <= p < planes && x == p * nBlocks + b;
        var q :| 0 <= q < planes && x + 1 == q * nBlocks + b;
        assert (q - p) * nBlocks == 1;
        MultipleBound(q - p, nBlocks);
        assert false;
      }
    }
  }

  predicate PoolOf(pool: seq<Unit>, nBlocks: nat, planes: nat) {
    |pool| == planes * nBlocks
  }

  lemma UnitInPool(q: nat, planes: nat, b: nat, nBlocks: nat)
    requires q < planes && b < nBlocks
    ensures 0 <= q * nBlocks + b < planes * nBlocks
  {
    MultipleBound(planes - q, nBlocks);
    assert planes * nBlocks == q * nBlocks + (planes - q) * nBlocks;
  }

  lemma RunInPool(b: nat, nBlocks: nat, planes: nat)
    requires b < nBlocks
    ensures 0 <= b * planes <= b * planes + planes <= planes * nBlocks
  {
    MultipleBound(nBlocks - b, planes);
    assert planes * nBlocks == b * planes + (nBlocks - b) * planes;
  }

  function UnitAt(pool: seq<Unit>, nBlocks: nat, planes: nat, q: nat, b: nat): Unit
    requires PoolOf(pool, nBlocks, planes) && q < planes && b < nBlocks
  {
    UnitInPool(q, planes, b, nBlocks);
    pool[q * nBlocks + b]
  }

  /** What eviction copies out for block b. */
  function Run(pool: seq<Unit>, nBlocks: nat, planes: nat, b: nat): (run: seq<Unit>)
    requires PoolOf(pool, nBlocks, planes) && b < nBlocks
    ensures |run| == planes
  {
    RunInPool(b, nBlocks, planes);
    pool[b * planes..b * planes + planes]
  }

  /** The pool after a reload has copied `run` into block b. */
  function Put(pool: seq<Unit>, nBlocks: nat, planes: nat, b: nat, run: seq<Unit>): (after: seq<Unit>)
    requires PoolOf(pool, nBlocks, planes) && b < nBlocks && |run| == planes
    ensures PoolOf(after, nBlocks, planes)
  {
    RunInPool(b, nBlocks, planes);
    pool[..b * planes] + run + pool[b * planes + planes..]
  }

  lemma PutUnit(pool: seq<Unit>, nBlocks: nat, planes: nat, b: nat, run: seq<Unit>, u: nat)
    requires PoolOf(pool, nBlocks, planes) && b < nBlocks && |run| == planes && u < planes * nBlocks
    ensures Put(pool, nBlocks, planes, b, run)[u] ==
      if b * planes <= u < b * planes + planes then run[u - b * planes] else pool[u]
  {
    RunInPool(b, nBlocks, planes);
  }

  /** The kernels see in block b of one pool what they see in block a of another. */
  ghost predicate SameBlock(pool: seq<Unit>, a: nat, pool': seq<Unit>, b: nat, nBlocks: nat, planes: nat)
    requires PoolOf(pool, nBlocks, planes) && PoolOf(pool', nBlocks, planes) && a < nBlocks && b < nBlocks
  {
    forall q :: 0 <= q < planes ==> UnitAt(pool', nBlocks, planes, q, b) == UnitAt(pool, nBlocks, planes, q, a)
  }

  /** Evicting block a and reloading it as block b, whatever the pool holds by then, gives the
      kernels the block's contents back for all contents. */
  ghost predicate ReloadRestores(nBlocks: nat, planes: nat, a: nat, b: nat)
    requires a < nBlocks && b < nBlocks
  {
    forall pool, between :: PoolOf(pool, nBlocks, planes) && PoolOf(between, nBlocks, planes) ==>
      SameBlock(pool, a, Put(between, nBlocks, planes, b, Run(pool, nBlocks, planes, a)), b, nBlocks, planes)
  }

  /** Over the pool's units, reload restores a block exactly when the pool has a single block. */
  lemma UnitReloadIff(nBlocks: nat, layers: nat, a: nat, b: nat)
    requires a < nBlocks && b < nBlocks && layers >= 1
    ensures ReloadRestores(nBlocks, 2 * layers, a, b) <==> nBlocks == 1
  {
    var planes := 2 * layers;
    if nBlocks == 1 {
      forall pool, between | PoolOf(pool, nBlocks, planes) && PoolOf(between, nBlocks, planes)
        ensures SameBlock(pool, a, Put(between, nBlocks, planes, b, Run(pool, nBlocks, planes, a)), b, nBlocks, planes)
      {
        assert Put(between, nBlocks, planes, b, Run(pool, nBlocks, planes, a)) == pool;
      }
    } else {
      ReloadLosesUnits(nBlocks, planes, a, b);
    }
  }

  lemma ReloadLosesUnits(nBlocks: nat, planes: nat, a: nat, b: nat)
    requires a < nBlocks && b < nBlocks && nBlocks >= 2 && planes >= 2
    ensures !ReloadRestores(nBlocks, planes, a, b)
  {
    RunInPool(0, nBlocks, planes);
    var pool: seq<Unit>, between: seq<Unit> := seq(planes * nBlocks, i => 0), seq(planes * nBlocks, i => 1);
    assert PoolOf(pool, nBlocks, planes) && PoolOf(between, nBlocks, planes);
    var after := Put(between, nBlocks, planes, b, Run(pool, nBlocks, planes, a));
    var q := UnitOutsideRun(nBlocks, planes, b);
    UnitInPool(q, planes, b, nBlocks);
    UnitInPool(q, planes, a, nBlocks);
    PutUnit(between, nBlocks, planes, b, Run(pool, nBlocks, planes, a), q * nBlocks + b);
    assert UnitAt(after, nBlocks, planes, q, b) == 1 && UnitAt(pool, nBlocks, planes, q, a) == 0;
    assert !SameBlock(pool, a, after, b, nBlocks, planes);
  }

  /** The kernels' units of a block are spread too wide for a run. */
  lemma UnitOutsideRun(nBlocks: nat, planes: nat, b: nat) returns (q: nat)
    requires b < nBlocks && nBlocks >= 2 && planes >= 2
    ensures q < planes && !(b * planes <= q * nBlocks + b < b * planes + planes)
  {
    var last := planes - 1;
    MultipleBound(nBlocks - 1, last);
    assert last * nBlocks == last + (nBlocks - 1) * last;
    assert (last * nBlocks + b) - b >= planes;
    q := if b * planes <= b < b * planes + planes then last else 0;
  }

  /** A reload into block b leaves every other block as it was, for all contents. */
  ghost predicate ReloadSparesOthers(nBlocks: nat, planes: nat, b: nat)
    requires b < nBlocks
  {
    forall pool, run, c :: PoolOf(pool, nBlocks, planes) && |run| == planes && 0 <= c < nBlocks && c != b ==>
      SameBlock(pool, c, Put(pool, nBlocks, planes, b, run), c, nBlocks, planes)
  }

  /** Over the pool's units, a reload spares the other blocks exactly when there are none. */
  lemma SparesOthersIff(nBlocks: nat, layers: nat, b: nat)
    requires b < nBlocks && layers >= 1
    ensures ReloadSparesOthers(nBlocks, 2 * layers, b) <==> nBlocks == 1
  {
    if nBlocks >= 2 {
      ReloadHitsAnother(nBlocks, 2 * layers, b);
    }
  }

  lemma ReloadHitsAnother(nBlocks: nat, planes: nat, b: nat)
    requires b < nBlocks && nBlocks >= 2 && planes >= 2
    ensures !ReloadSparesOthers(nBlocks, planes, b)
  {
    RunInPool(0, nBlocks, planes);
    var pool: seq<Unit>, run: seq<Unit> := seq(planes * nBlocks, i => 0), seq(planes, i => 1);
    assert PoolOf(pool, nBlocks, planes);
    var q, c := StrangerInRun(nBlocks, planes, b);
    var after := Put(pool, nBlocks, planes, b, run);
    UnitInPool(q, planes, c, nBlocks);
    PutUnit(pool, nBlocks, planes, b, run, q * nBlocks + c);
    assert UnitAt(after, nBlocks, planes, q, c) == 1 && UnitAt(pool, nBlocks, planes, q, c) == 0;
    assert !SameBlock(pool, c, after, c, nBlocks, planes);
  }

  /** A run holds a unit of a block that is not its own. */
  lemma StrangerInRun(nBlocks: nat, planes: nat, b: nat) returns (q: nat, c: nat)
    requires b < nBlocks && nBlocks >= 2 && planes >= 2
    ensures q < planes && c < nBlocks && c != b && b * planes <= q * nBlocks + c < b * planes + planes
  {
    RunInPool(b, nBlocks, planes);
    var u := AnotherResidue(b * planes, nBlocks, b);
    q, c := u / nBlocks, u % nBlocks;
    BelowCapacity(u, planes, nBlocks);
    DivisionOf(u, nBlocks);
  }

  lemma AnotherResidue(start: nat, n: nat, b: nat) returns (u: nat)
    requires n >= 2
    ensures start <= u <= start + 1 && u % n != b
  {
    NextResidue(start, n);
    u := if start % n == b then start + 1 else start;
  }

  // ---- the megakernel ----

  /** A K or V plane: nBlocks blocks of `width` bytes per element, one with an FP8 cache and else two. */
  datatype Plane = Plane(nHeads: nat, headDim: nat, nBlocks: nat, blockSize: nat, width: nat)
  {
    predicate Valid() {
      nHeads > 0 && headDim > 0 && blockSize > 0 && (width == 1 || width == 2)
    }

    function Positions(): nat {
      nBlocks * blockSize
    }

    function BlockBytes(): nat {
      nHeads * headDim * blockSize * width
    }

    function Bytes(): nat {
      nBlocks * BlockBytes()
    }

    /** Where the megakernel writes head h of position pos: heads are a whole pool of positions apart,
        and its elements always have two bytes. */
    function Start(h: nat, pos: nat): nat {
      (h * Positions() + pos) * (2 * headDim)
    }

    predicate Writes(h: nat, pos: nat, x: nat) {
      Start(h, pos) <= x < Start(h, pos) + 2 * headDim
    }

    predicate InBlock(x: nat, b: nat) {
      b * BlockBytes() <= x < (b + 1) * BlockBytes()
    }

    /** A launch that writes positions offset..total stays inside the plane. */
    ghost predicate Holds(offset: nat, total: nat) {
      forall h: nat, pos: nat, x: nat :: h < nHeads && offset <= pos < total && Writes(h, pos, x) ==> x < Bytes()
    }

    /** It touches blocks of `own` only. */
    ghost predicate LaunchStaysIn(own: seq<nat>, offset: nat, total: nat) {
      forall h: nat, pos: nat, x: nat, b: nat ::
        h < nHeads && offset <= pos < total && Writes(h, pos, x) && InBlock(x, b) ==> b in own
    }

    /** For each head, every block that reaches into the stretch of its positions is one of `own`. */
    ghost predicate OwnsLaunchBlocks(own: seq<nat>, offset: nat, total: nat) {
      forall h: nat, b: nat :: h < nHeads && Reaches(h, offset, total, b) ==> b in own
    }

    predicate Reaches(h: nat, offset: nat, total: nat, b: nat) {
      b * BlockBytes() < Start(h, total) && Start(h, offset) < (b + 1) * BlockBytes()
    }

    /** The plane is large enough for two-byte elements up to position `total`. */
    predicate RoomFor(total: nat) {
      width == 2 || (nHeads == 1 && 2 * total <= Positions())
    }
  }

  lemma StartNext(p: Plane, h: nat, pos: nat)
    ensures p.Start(h, pos) + 2 * p.headDim == p.Start(h, pos + 1)
  {
  }

  lemma StartGrows(p: Plane, h: nat, pos: nat, pos': nat)
    requires pos <= pos'
    ensures p.Start(h, pos) <= p.Start(h, pos')
  {
    ScaledAtMost(h * p.Positions() + pos, h * p.Positions() + pos', 2 * p.headDim);
  }

  /** The bytes a launch writes of a head are one stretch: each is written for some position. */
  lemma WriterOf(p: Plane, h: nat, offset: nat, total: nat, x: nat) returns (pos: nat)
    requires p.Valid() && p.Start(h, offset) <= x < p.Start(h, total)
    ensures offset <= pos < total && p.Writes(h, pos, x)
  {
    hide Plane.Positions;
    var base := h * p.Positions();
    QuotientIn(x, 2 * p.headDim, base + offset, base + total);
    pos := x / (2 * p.headDim) - base;
  }

  lemma QuotientIn(x: nat, n: nat, lo: nat, hi: nat)
    requires n > 0 && lo * n <= x < hi * n
    ensures lo <= x / n < hi && x / n * n <= x < x / n * n + n
  {
    DivisionOf(x, n);
    BelowCapacity(x, hi, n);
    if x / n < lo {
      ScaledLess(x / n, lo, n);
    }
  }

  /** Some byte of a head's stretch falls into each block that reaches into it. */
  lemma BlockReached(p: Plane, h: nat, offset: nat, total: nat, b: nat) returns (pos: nat, x: nat)
    requires p.Valid() && offset < total && p.Reaches(h, offset, total, b)
    ensures offset <= pos < total && p.Writes(h, pos, x) && p.InBlock(x, b)
  {
    hide Plane.Start;
    BlockNotEmpty(p);
    StartNext(p, h, offset);
    StartGrows(p, h, offset + 1, total);
    assert (b + 1) * p.BlockBytes() == b * p.BlockBytes() + p.BlockBytes();
    x := if p.Start(h, offset) < b * p.BlockBytes() then b * p.BlockBytes() else p.Start(h, offset);
    pos := WriterOf(p, h, offset, total, x);
  }

  lemma ReachedBy(p: Plane, h: nat, offset: nat, total: nat, pos: nat, x: nat, b: nat)
    requires p.Valid() && offset <= pos < total && p.Writes(h, pos, x) && p.InBlock(x, b)
    ensures p.Reaches(h, offset, total, b)
  {
    hide Plane.Start, Plane.BlockBytes;
    StartNext(p, h, pos);
    StartGrows(p, h, offset, pos);
    StartGrows(p, h, pos + 1, total);
  }

  lemma BlockNotEmpty(p: Plane)
    requires p.Valid()
    ensures p.BlockBytes() > 0
  {
    assert p.nHeads * p.headDim > 0;
    assert p.nHeads * p.headDim * p.blockSize > 0;
  }

  /** A launch stays in its sequence's blocks exactly when the sequence owns, for each head, every
      block that reaches into the head's stretch, which nothing in the launch's arguments ensures. */
  lemma LaunchStaysInIff(p: Plane, own: seq<nat>, offset: nat, total: nat)
    requires p.Valid() && offset < total
    ensures p.LaunchStaysIn(own, offset, total) <==> p.OwnsLaunchBlocks(own, offset, total)
  {
    hide Plane.Reaches, Plane.Writes, Plane.InBlock;
    if p.LaunchStaysIn(own, offset, total) {
      forall h: nat, b: nat | h < p.nHeads && p.Reaches(h, offset, total, b) ensures b in own {
        var pos, x := BlockReached(p, h, offset, total, b);
      }
    }
    if p.OwnsLaunchBlocks(own, offset, total) {
      forall h: nat, pos: nat, x: nat, b: nat |
        h < p.nHeads && offset <= pos < total && p.Writes(h, pos, x) && p.InBlock(x, b)
        ensures b in own
      {
        ReachedBy(p, h, offset, total, pos, x, b);
      }
    }
  }

  /** A position of head h is a position of the plane, if its elements had two bytes. */
  lemma HeadPosition(p: Plane, h: nat, pos: nat)
    requires h < p.nHeads && pos < p.Positions()
    ensures h * p.Positions() + pos + 1 <= p.nHeads * p.Positions()
  {
    ScaledLess(h, p.nHeads, p.Positions());
  }

  /** How many bytes a plane has, in vectors of two-byte elements. */
  lemma PlaneBytes(p: Plane)
    ensures p.width == 2 ==> p.Bytes() == p.nHeads * p.Positions() * (2 * p.headDim)
    ensures p.width == 1 ==> 2 * p.Bytes() == p.nHeads * p.Positions() * (2 * p.headDim)
  {
    Reordered(p.nHeads, p.headDim, p.nBlocks, p.blockSize);
    var elements := p.nHeads * p.headDim * p.blockSize;
    assert p.nBlocks * (elements * 2) == p.nBlocks * elements * 2;
  }

  lemma Reordered(h: nat, d: nat, n: nat, s: nat)
    ensures n * (h * d * s) == h * (n * s) * d
    ensures h * (n * s) * (2 * d) == 2 * (h * (n * s) * d)
  {
    assert h * d * s == h * s * d;
    assert n * (h * s * d) == n * (h * s) * d;
    assert n * (h * s) == h * (n * s);
  }

  /** Within the pool's positions, a launch stays inside its plane exactly when the cache has two-byte
      elements, or one head and twice the positions: a megakernel does not fit an FP8 cache. */
  lemma LaunchInPlaneIff(p: Plane, offset: nat, total: nat)
    requires p.Valid() && offset < total <= p.Positions()
    ensures p.Holds(offset, total) <==> p.RoomFor(total)
  {
    hide Plane.Writes, Plane.RoomFor;
    if p.RoomFor(total) {
      forall h: nat, pos: nat, x: nat | h < p.nHeads && offset <= pos < total && p.Writes(h, pos, x)
        ensures x < p.Bytes()
      {
        WriteFits(p, total, h, pos, x);
      }
    } else {
      LastWrite(p, offset, total);
    }
  }

  lemma WriteFits(p: Plane, total: nat, h: nat, pos: nat, x: nat)
    requires p.Valid() && total <= p.Positions() && p.RoomFor(total)
    requires h < p.nHeads && pos < total && p.Writes(h, pos, x)
    ensures x < p.Bytes()
  {
    hide Plane.Positions, Plane.BlockBytes, Plane.Bytes;
    PlaneBytes(p);
    StartNext(p, h, pos);
    var vector, positions := 2 * p.headDim, p.nHeads * p.Positions();
    if p.width == 2 {
      HeadPosition(p, h, pos);
      ScaledAtMost(h * p.Positions() + pos + 1, positions, vector);
    } else {
      assert h == 0 && positions == p.Positions();
      ScaledAtMost(2 * (pos + 1), positions, vector);
    }
  }

  /** Without room the last head's last position ends beyond the plane. */
  lemma LastWrite(p: Plane, offset: nat, total: nat)
    requires p.Valid() && offset < total <= p.Positions() && !p.RoomFor(total)
    ensures !p.Holds(offset, total)
  {
    hide Plane.Positions, Plane.BlockBytes;
    PlaneBytes(p);
    var vector, positions := 2 * p.headDim, p.nHeads * p.Positions();
    var h, pos := p.nHeads - 1, total - 1;
    StartNext(p, h, pos);
    var x := p.Start(h, total) - 1;
    assert h * p.Positions() == positions - p.Positions();
    if h > 0 {
      ScaledLess(1, p.nHeads, p.Positions());
    }
    ScaledLess(positions, 2 * (h * p.Positions() + total), vector);
    assert p.Writes(h, pos, x);
  }

  /** With two-byte elements a position's vector lies in one block, the one of its place in the plane. */
  lemma VectorInBlock(p: Plane, h: nat, pos: nat, x: nat, b: nat)
    requires p.Valid() && p.width == 2 && p.Writes(h, pos, x)
    ensures var place, n := h * p.Positions() + pos, p.nHeads * p.blockSize;
      p.InBlock(x, b) <==> b * n <= place < (b + 1) * n
  {
    hide Plane.Positions, Plane.BlockBytes, Plane.Start, Plane.Writes;
    var q := VectorPlace(p, h, pos, x);
    SameBlockNumber(h * p.Positions() + pos, p.nHeads * p.blockSize, x, p.BlockBytes(), q, b);
  }

  lemma VectorPlace(p: Plane, h: nat, pos: nat, x: nat) returns (q: nat)
    requires p.Valid() && p.width == 2 && p.Writes(h, pos, x)
    ensures p.nHeads * p.blockSize > 0 && p.BlockBytes() > 0
    ensures q * (p.nHeads * p.blockSize) <= h * p.Positions() + pos < (q + 1) * (p.nHeads * p.blockSize)
    ensures q * p.BlockBytes() <= x < (q + 1) * p.BlockBytes()
  {
    hide Plane.Positions, Plane.BlockBytes;
    BlockVectors(p);
    BlockNotEmpty(p);
    q := InStretch(h * p.Positions() + pos, p.nHeads * p.blockSize, 2 * p.headDim, p.BlockBytes(), x);
  }

  lemma SameBlockNumber(place: nat, n: nat, x: nat, block: nat, q: nat, b: nat)
    requires n > 0 && q * n <= place < (q + 1) * n
    requires block > 0 && q * block <= x < (q + 1) * block
    ensures b * block <= x < (b + 1) * block <==> b * n <= place < (b + 1) * n
  {
    BlockIs(x, block, q, b);
    BlockIs(place, n, q, b);
  }

  lemma BlockVectors(p: Plane)
    requires p.Valid() && p.width == 2
    ensures p.nHeads * p.blockSize > 0 && p.BlockBytes() == p.nHeads * p.blockSize * (2 * p.headDim)
  {
    Reordered(p.nHeads, p.headDim, 1, p.blockSize);
  }

  lemma InStretch(place: nat, n: nat, vector: nat, block: nat, x: nat) returns (q: nat)
    requires n > 0 && place * vector <= x < place * vector + vector && block == n * vector
    ensures q * n <= place < (q + 1) * n && q * block <= x < (q + 1) * block
  {
    q := place / n;
    DivisionOf(place, n);
    var first := q * n;
    Regroup(q, n, vector);
    Within(place, first, n, vector, x);
  }

  lemma Regroup(q: nat, n: nat, vector: nat)
    ensures q * n * vector == q * (n * vector) && (q * n + n) * vector == (q + 1) * (n * vector)
    ensures (q + 1) * n == q * n + n
  {
  }

  lemma Within(place: nat, first: nat, n: nat, vector: nat, x: nat)
    requires first <= place < first + n && place * vector <= x < place * vector + vector
    ensures first * vector <= x < (first + n) * vector
  {
    ScaledAtMost(first, place, vector);
    ScaledLess(place, first + n, vector);
  }

  lemma BlockIs(x: nat, n: nat, q: nat, b: nat)
    requires n > 0 && q * n <= x < (q + 1) * n
    ensures b * n <= x < (b + 1) * n <==> q == b
  {
    if b * n <= x < (b + 1) * n {
      QuotientIs(x, n, b);
      QuotientIs(x, n, q);
    }
  }

  /** With one-byte elements even the first position of one head spills into the next block. */
  lemma SpillsOver()
    ensures var p := Plane(1, 1, 2, 1, 1); p.Holds(0, 1) && !p.LaunchStaysIn([0], 0, 1)
  {
    var p := Plane(1, 1, 2, 1, 1);
    assert p.Writes(0, 0, 1) && p.InBlock(1, 1);
  }

  /** Every prefill writes physical block 0. */
  lemma PrefillWritesBlockZero(p: Plane, own: seq<nat>, total: nat)
    requires p.Valid() && total > 0 && p.LaunchStaysIn(own, 0, total)
    ensures 0 in own
  {
    BlockNotEmpty(p);
    assert p.Writes(0, 0, 0) && p.InBlock(0, 0);
  }
}
