/** What the generated move lists contain, stated without the loops: each
    generator of the Rules module is proved equal to a declarative
    description of the moves it allows, and the side-wide lists, make_turn
    and the score are related to those descriptions. */
module RuleFacts {
  import opened Moves
  import opened Grids
  import opened Rules

  /** (i, j) holds a piece of the other parity than the one at (x, y). */
  predicate IsEnemy(g: Grid, x: int, y: int, i: int, j: int)
    requires InBounds(x, y)
  {
    InBounds(i, j) && g[i][j] != 0 && g[i][j] % 2 != g[x][y] % 2
  }

  // ---------------------------------------------------------------------
  // Men
  // ---------------------------------------------------------------------

  /** A man's capture: two cells diagonally in any of the four directions,
      onto an empty cell, over an enemy recorded as the captured cell. */
  predicate IsManJump(g: Grid, x: int, y: int, m: MovePos)
    requires InBounds(x, y)
  {
    m.x == x && m.y == y && (m.x2 == x - 2 || m.x2 == x + 2) && (m.y2 == y - 2 || m.y2 == y + 2)
    && InBounds(m.x2, m.y2) && g[m.x2][m.y2] == 0
    && 2 * m.xb == x + m.x2 && 2 * m.yb == y + m.y2 && IsEnemy(g, x, y, m.xb, m.yb)
  }

  lemma ManJumpsExact(g: Grid, x: int, y: int, m: MovePos)
    requires InBounds(x, y)
    ensures m in ManJumps(g, x, y) <==> IsManJump(g, x, y, m)
  {
    assert ManJumps(g, x, y) == ManJump(g, x, y, x - 2, y - 2) + ManJump(g, x, y, x - 2, y + 2)
                              + (ManJump(g, x, y, x + 2, y - 2) + ManJump(g, x, y, x + 2, y + 2));
  }

  /** A man's simple move: one row forward for its colour, one column either
      way, onto an empty cell of the board. */
  predicate IsManStep(g: Grid, x: int, y: int, m: MovePos)
    requires InBounds(x, y)
  {
    m.x == x && m.y == y && m.x2 == Forward(g[x][y], x) && (m.y2 == y - 1 || m.y2 == y + 1)
    && InBounds(m.x2, m.y2) && g[m.x2][m.y2] == 0 && m.xb == -1 && m.yb == -1
  }

  lemma ManStepsExact(g: Grid, x: int, y: int, m: MovePos)
    requires InBounds(x, y)
    ensures m in ManSteps(g, x, y) <==> IsManStep(g, x, y, m)
  {
  }

  // ---------------------------------------------------------------------
  // Kings
  // ---------------------------------------------------------------------

  /** The coordinate t cells from a in direction d. */
  function Along(a: int, d: int, t: int): int {
    if d == 1 then a + t else a - t
  }

  /** How many cells b lies from a in direction d. */
  function Dist(a: int, b: int, d: int): int {
    if d == 1 then b - a else a - b
  }

  function Sign(v: int): int {
    if v > 0 then 1 else -1
  }

  /** The cells at distances lo .. hi-1 along direction (di, dj) from (x, y),
      except distance skip, are on the board and empty. */
  predicate EmptyRun(g: Grid, x: int, y: int, di: int, dj: int, lo: int, hi: int, skip: int) {
    forall t :: lo <= t < hi && t != skip ==>
      InBounds(Along(x, di, t), Along(y, dj, t)) && g[Along(x, di, t)][Along(y, dj, t)] == 0
  }

  /** A king's capture in direction (di, dj): the enemy k cells away is the
      first piece on the diagonal, and the king lands on one of the empty
      cells l > k beyond it, every cell in between being empty. */
  predicate IsKingJumpAlong(g: Grid, x: int, y: int, di: int, dj: int, m: MovePos)
    requires InBounds(x, y)
  {
    var k, l := Dist(x, m.xb, di), Dist(x, m.x2, di);
    m.x == x && m.y == y && 1 <= k < l
    && m.x2 == Along(x, di, l) && m.y2 == Along(y, dj, l) && m.xb == Along(x, di, k) && m.yb == Along(y, dj, k)
    && InBounds(m.x2, m.y2) && IsEnemy(g, x, y, m.xb, m.yb) && EmptyRun(g, x, y, di, dj, 1, l + 1, k)
  }

  /** A king's capture in the direction its landing cell lies in. */
  predicate IsKingJump(g: Grid, x: int, y: int, m: MovePos)
    requires InBounds(x, y)
  {
    IsKingJumpAlong(g, x, y, Sign(m.x2 - x), Sign(m.y2 - y), m)
  }

  lemma EmptyRunGrow(g: Grid, x: int, y: int, di: int, dj: int, lo: int, hi: int, skip: int)
    requires EmptyRun(g, x, y, di, dj, lo, hi, skip)
    requires InBounds(Along(x, di, hi), Along(y, dj, hi)) && g[Along(x, di, hi)][Along(y, dj, hi)] == 0
    ensures EmptyRun(g, x, y, di, dj, lo, hi + 1, skip)
  {
  }

  lemma EmptyRunSkipLast(g: Grid, x: int, y: int, di: int, dj: int, hi: int)
    requires EmptyRun(g, x, y, di, dj, 1, hi, 0)
    ensures EmptyRun(g, x, y, di, dj, 1, hi + 1, hi)
  {
  }

  /** The scan state entering distance s: no enemy passed and every earlier
      cell empty, or the enemy at distance k < s passed and every other
      earlier cell empty. */
  predicate ScanState(g: Grid, x: int, y: int, di: int, dj: int, s: int, xb: int, yb: int)
    requires InBounds(x, y)
  {
    if xb == -1 then EmptyRun(g, x, y, di, dj, 1, s, 0)
    else
      var k := Dist(x, xb, di);
      1 <= k < s && xb == Along(x, di, k) && yb == Along(y, dj, k)
      && IsEnemy(g, x, y, xb, yb) && EmptyRun(g, x, y, di, dj, 1, s, k)
  }

  /** A capture in direction (di, dj) landing at least s cells away. */
  predicate LandsFrom(g: Grid, x: int, y: int, di: int, dj: int, s: int, m: MovePos)
    requires InBounds(x, y)
  {
    IsKingJumpAlong(g, x, y, di, dj, m) && Dist(x, m.x2, di) >= s
  }

  /** Past the edge of the board the scan ends and no capture lands s or
      more cells away. */
  lemma KingJumpRayOut(g: Grid, x: int, y: int, di: int, dj: int, s: int, xb: int, yb: int, m: MovePos)
    requires InBounds(x, y) && IsDir(di) && IsDir(dj) && s >= 1
    requires -1 <= Along(x, di, s) <= 8 && -1 <= Along(y, dj, s) <= 8
    requires InBounds(Along(x, di, s - 1), Along(y, dj, s - 1))
    requires !InBounds(Along(x, di, s), Along(y, dj, s))
    requires xb == -1 || InBounds(xb, yb)
    ensures KingJumpRay(g, x, y, di, dj, Along(x, di, s), Along(y, dj, s), xb, yb) == []
    ensures !LandsFrom(g, x, y, di, dj, s, m)
  {
  }

  /** A blocking piece at distance s ends the scan, and no capture lands s
      or more cells away. */
  lemma KingJumpRayBlocked(g: Grid, x: int, y: int, di: int, dj: int, s: int, xb: int, yb: int, m: MovePos)
    requires InBounds(x, y) && IsDir(di) && IsDir(dj) && s >= 1
    requires InBounds(Along(x, di, s), Along(y, dj, s))
    requires ScanState(g, x, y, di, dj, s, xb, yb)
    requires RayBlocked(g, x, y, Along(x, di, s), Along(y, dj, s), xb)
    ensures xb == -1 || InBounds(xb, yb)
    ensures KingJumpRay(g, x, y, di, dj, Along(x, di, s), Along(y, dj, s), xb, yb) == []
    ensures !LandsFrom(g, x, y, di, dj, s, m)
  {
    KingJumpRayUnfold(g, x, y, di, dj, Along(x, di, s), Along(y, dj, s), xb, yb);
    LandsPastOpen(g, x, y, di, dj, s, xb, yb, m);
  }

  /** A capture landing s or more cells away leaves the cell at distance s
      open to the scan: the enemy it jumps is the one the scan passed, if
      any. */
  lemma LandsPastOpen(g: Grid, x: int, y: int, di: int, dj: int, s: int, xb: int, yb: int, m: MovePos)
    requires InBounds(x, y) && IsDir(di) && IsDir(dj) && s >= 1
    requires InBounds(Along(x, di, s), Along(y, dj, s))
    requires ScanState(g, x, y, di, dj, s, xb, yb)
    ensures LandsFrom(g, x, y, di, dj, s, m) ==> !RayBlocked(g, x, y, Along(x, di, s), Along(y, dj, s), xb)
  {
    if LandsFrom(g, x, y, di, dj, s, m) && xb != -1 {
      var k0 := Dist(x, xb, di);
      assert g[Along(x, di, k0)][Along(y, dj, k0)] != 0;
      assert k0 == Dist(x, m.xb, di);
    }
  }

  /** Passing distance s leaves a valid scan state at s + 1. */
  lemma KingJumpRayPassState(g: Grid, x: int, y: int, di: int, dj: int, s: int, xb: int, yb: int)
    requires InBounds(x, y) && IsDir(di) && IsDir(dj) && s >= 1
    requires InBounds(Along(x, di, s), Along(y, dj, s))
    requires ScanState(g, x, y, di, dj, s, xb, yb)
    requires !RayBlocked(g, x, y, Along(x, di, s), Along(y, dj, s), xb)
    ensures var i2, j2 := Along(x, di, s), Along(y, dj, s);
      ScanState(g, x, y, di, dj, s + 1, PassedRow(g, i2, j2, xb), PassedCol(g, i2, j2, yb))
  {
    if g[Along(x, di, s)][Along(y, dj, s)] != 0 {
      EmptyRunSkipLast(g, x, y, di, dj, s);
    } else {
      EmptyRunGrow(g, x, y, di, dj, 1, s, if xb == -1 then 0 else Dist(x, xb, di));
    }
  }

  /** The capture the scan records at distance s is exactly the capture
      landing there. */
  lemma KingJumpRayPassHead(g: Grid, x: int, y: int, di: int, dj: int, s: int, xb: int, yb: int, m: MovePos)
    requires InBounds(x, y) && IsDir(di) && IsDir(dj) && s >= 1
    requires InBounds(Along(x, di, s), Along(y, dj, s))
    requires ScanState(g, x, y, di, dj, s, xb, yb)
    requires !RayBlocked(g, x, y, Along(x, di, s), Along(y, dj, s), xb)
    ensures var i2, j2 := Along(x, di, s), Along(y, dj, s);
      m in RayCapture(x, y, i2, j2, PassedRow(g, i2, j2, xb), PassedCol(g, i2, j2, yb))
      <==> IsKingJumpAlong(g, x, y, di, dj, m) && Dist(x, m.x2, di) == s
  {
    var i2, j2 := Along(x, di, s), Along(y, dj, s);
    if m in RayCapture(x, y, i2, j2, PassedRow(g, i2, j2, xb), PassedCol(g, i2, j2, yb)) {
      RecordedHeadLands(g, x, y, di, dj, s, xb, yb, m);
    }
    if IsKingJumpAlong(g, x, y, di, dj, m) && Dist(x, m.x2, di) == s {
      LandingHeadRecorded(g, x, y, di, dj, s, xb, yb, m);
    }
  }

  lemma RecordedHeadLands(g: Grid, x: int, y: int, di: int, dj: int, s: int, xb: int, yb: int, m: MovePos)
    requires InBounds(x, y) && IsDir(di) && IsDir(dj) && s >= 1
    requires InBounds(Along(x, di, s), Along(y, dj, s))
    requires ScanState(g, x, y, di, dj, s, xb, yb)
    requires var i2, j2 := Along(x, di, s), Along(y, dj, s);
      m in RayCapture(x, y, i2, j2, PassedRow(g, i2, j2, xb), PassedCol(g, i2, j2, yb))
    ensures IsKingJumpAlong(g, x, y, di, dj, m) && Dist(x, m.x2, di) == s
  {
    var i2, j2 := Along(x, di, s), Along(y, dj, s);
    assert g[i2][j2] == 0 && xb != -1 && m == MovePos(x, y, i2, j2, xb, yb);
    EmptyRunGrow(g, x, y, di, dj, 1, s, Dist(x, xb, di));
  }

  lemma LandingHeadRecorded(g: Grid, x: int, y: int, di: int, dj: int, s: int, xb: int, yb: int, m: MovePos)
    requires InBounds(x, y) && IsDir(di) && IsDir(dj) && s >= 1
    requires InBounds(Along(x, di, s), Along(y, dj, s))
    requires ScanState(g, x, y, di, dj, s, xb, yb)
    requires IsKingJumpAlong(g, x, y, di, dj, m) && Dist(x, m.x2, di) == s
    ensures var i2, j2 := Along(x, di, s), Along(y, dj, s);
      m in RayCapture(x, y, i2, j2, PassedRow(g, i2, j2, xb), PassedCol(g, i2, j2, yb))
  {
    var i2, j2 := Along(x, di, s), Along(y, dj, s);
    assert g[m.x2][m.y2] == 0;
    var k := Dist(x, m.xb, di);
    assert g[Along(x, di, k)][Along(y, dj, k)] != 0;
    if xb == -1 {
      assert false;
    }
    var k0 := Dist(x, xb, di);
    assert g[Along(x, di, k0)][Along(y, dj, k0)] != 0;
    assert k0 == k;
  }

  /** Passing distance s: the scan's result from s is exactly the captures
      landing s or more cells away, given that it is so from s + 1. */
  lemma KingJumpRayPass(g: Grid, x: int, y: int, di: int, dj: int, s: int, xb: int, yb: int, m: MovePos)
    requires InBounds(x, y) && IsDir(di) && IsDir(dj) && s >= 1
    requires InBounds(Along(x, di, s), Along(y, dj, s))
    requires ScanState(g, x, y, di, dj, s, xb, yb)
    requires !RayBlocked(g, x, y, Along(x, di, s), Along(y, dj, s), xb)
    requires var i2, j2 := Along(x, di, s), Along(y, dj, s);
      var xb', yb' := PassedRow(g, i2, j2, xb), PassedCol(g, i2, j2, yb);
      (xb' == -1 || InBounds(xb', yb'))
      && -1 <= Along(x, di, s + 1) <= 8 && -1 <= Along(y, dj, s + 1) <= 8
      && (m in KingJumpRay(g, x, y, di, dj, Along(x, di, s + 1), Along(y, dj, s + 1), xb', yb')
          <==> LandsFrom(g, x, y, di, dj, s + 1, m))
    ensures xb == -1 || InBounds(xb, yb)
    ensures m in KingJumpRay(g, x, y, di, dj, Along(x, di, s), Along(y, dj, s), xb, yb) <==> LandsFrom(g, x, y, di, dj, s, m)
  {
    KingJumpRayPassUnfold(g, x, y, di, dj, s, xb, yb);
    KingJumpRayPassHead(g, x, y, di, dj, s, xb, yb, m);
    assert LandsFrom(g, x, y, di, dj, s, m)
        <==> (IsKingJumpAlong(g, x, y, di, dj, m) && Dist(x, m.x2, di) == s) || LandsFrom(g, x, y, di, dj, s + 1, m);
  }

  /** One step of the scan at distance s, restated with distances. */
  lemma KingJumpRayPassUnfold(g: Grid, x: int, y: int, di: int, dj: int, s: int, xb: int, yb: int)
    requires InBounds(x, y) && IsDir(di) && IsDir(dj) && s >= 1
    requires InBounds(Along(x, di, s), Along(y, dj, s))
    requires xb == -1 || InBounds(xb, yb)
    requires !RayBlocked(g, x, y, Along(x, di, s), Along(y, dj, s), xb)
    ensures var i2, j2 := Along(x, di, s), Along(y, dj, s);
      var xb', yb' := PassedRow(g, i2, j2, xb), PassedCol(g, i2, j2, yb);
      (xb' == -1 || InBounds(xb', yb'))
      && -1 <= Along(x, di, s + 1) <= 8 && -1 <= Along(y, dj, s + 1) <= 8
      && KingJumpRay(g, x, y, di, dj, i2, j2, xb, yb)
         == RayCapture(x, y, i2, j2, xb', yb') + KingJumpRay(g, x, y, di, dj, Along(x, di, s + 1), Along(y, dj, s + 1), xb', yb')
  {
    var i2, j2 := Along(x, di, s), Along(y, dj, s);
    assert Along(x, di, s + 1) == i2 + di && Along(y, dj, s + 1) == j2 + dj;
    KingJumpRayUnfold(g, x, y, di, dj, i2, j2, xb, yb);
  }

  /** The ray scan from distance s on yields exactly the captures landing s
      or more cells away. */
  lemma {:induction false} KingJumpRayExact(g: Grid, x: int, y: int, di: int, dj: int, s: int, xb: int, yb: int, m: MovePos)
    requires InBounds(x, y) && IsDir(di) && IsDir(dj) && s >= 1
    requires -1 <= Along(x, di, s) <= 8 && -1 <= Along(y, dj, s) <= 8
    requires InBounds(Along(x, di, s - 1), Along(y, dj, s - 1))
    requires ScanState(g, x, y, di, dj, s, xb, yb)
    ensures xb == -1 || InBounds(xb, yb)
    ensures m in KingJumpRay(g, x, y, di, dj, Along(x, di, s), Along(y, dj, s), xb, yb) <==> LandsFrom(g, x, y, di, dj, s, m)
    decreases 9 - s
  {
    var i2, j2 := Along(x, di, s), Along(y, dj, s);
    if !InBounds(i2, j2) {
      KingJumpRayOut(g, x, y, di, dj, s, xb, yb, m);
    } else if RayBlocked(g, x, y, i2, j2, xb) {
      KingJumpRayBlocked(g, x, y, di, dj, s, xb, yb, m);
    } else {
      var xb', yb' := PassedRow(g, i2, j2, xb), PassedCol(g, i2, j2, yb);
      assert ScanState(g, x, y, di, dj, s + 1, xb', yb') by {
        KingJumpRayPassState(g, x, y, di, dj, s, xb, yb);
      }
      assert -1 <= Along(x, di, s + 1) <= 8 && -1 <= Along(y, dj, s + 1) <= 8;
      KingJumpRayExact(g, x, y, di, dj, s + 1, xb', yb', m);
      KingJumpRayPass(g, x, y, di, dj, s, xb, yb, m);
    }
  }

  lemma KingJumpDirExact(g: Grid, x: int, y: int, di: int, dj: int, m: MovePos)
    requires InBounds(x, y) && IsDir(di) && IsDir(dj)
    ensures m in KingJumpDir(g, x, y, di, dj) <==> IsKingJumpAlong(g, x, y, di, dj, m)
  {
    assert Along(x, di, 1) == x + di && Along(y, dj, 1) == y + dj && Along(x, di, 0) == x && Along(y, dj, 0) == y;
    KingJumpRayExact(g, x, y, di, dj, 1, -1, -1, m);
  }

  /** The direction of a capture is the one its landing cell lies in. */
  lemma KingJumpAlongDirection(g: Grid, x: int, y: int, di: int, dj: int, m: MovePos)
    requires InBounds(x, y) && IsDir(di) && IsDir(dj) && IsKingJumpAlong(g, x, y, di, dj, m)
    ensures Sign(m.x2 - x) == di && Sign(m.y2 - y) == dj
  {
  }

  /** A king's captures are exactly the flying captures of one enemy in any
      of the four diagonal directions. */
  lemma KingJumpsExact(g: Grid, x: int, y: int, m: MovePos)
    requires InBounds(x, y)
    ensures m in KingJumps(g, x, y) <==> IsKingJump(g, x, y, m)
  {
    assert KingJumps(g, x, y) == KingJumpDir(g, x, y, -1, -1) + KingJumpDir(g, x, y, -1, 1)
                               + (KingJumpDir(g, x, y, 1, -1) + KingJumpDir(g, x, y, 1, 1));
    KingJumpDirExact(g, x, y, -1, -1, m);
    KingJumpDirExact(g, x, y, -1, 1, m);
    KingJumpDirExact(g, x, y, 1, -1, m);
    KingJumpDirExact(g, x, y, 1, 1, m);
    var di, dj := Sign(m.x2 - x), Sign(m.y2 - y);
    if IsKingJumpAlong(g, x, y, -1, -1, m) { KingJumpAlongDirection(g, x, y, -1, -1, m); }
    if IsKingJumpAlong(g, x, y, -1, 1, m) { KingJumpAlongDirection(g, x, y, -1, 1, m); }
    if IsKingJumpAlong(g, x, y, 1, -1, m) { KingJumpAlongDirection(g, x, y, 1, -1, m); }
    if IsKingJumpAlong(g, x, y, 1, 1, m) { KingJumpAlongDirection(g, x, y, 1, 1, m); }
  }

  /** A king's simple move in direction (di, dj): any cell l >= 1 away with
      every cell up to and including it empty. */
  predicate IsKingSlideAlong(g: Grid, x: int, y: int, di: int, dj: int, m: MovePos) {
    var l := Dist(x, m.x2, di);
    m.x == x && m.y == y && m.xb == -1 && m.yb == -1 && l >= 1
    && m.x2 == Along(x, di, l) && m.y2 == Along(y, dj, l) && EmptyRun(g, x, y, di, dj, 1, l + 1, 0)
  }

  predicate IsKingSlide(g: Grid, x: int, y: int, m: MovePos) {
    IsKingSlideAlong(g, x, y, Sign(m.x2 - x), Sign(m.y2 - y), m)
  }

  lemma {:induction false} KingSlideRayExact(g: Grid, x: int, y: int, di: int, dj: int, s: int, m: MovePos)
    requires InBounds(x, y) && IsDir(di) && IsDir(dj) && s >= 1
    requires -1 <= Along(x, di, s) <= 8 && -1 <= Along(y, dj, s) <= 8
    requires InBounds(Along(x, di, s - 1), Along(y, dj, s - 1))
    requires EmptyRun(g, x, y, di, dj, 1, s, 0)
    ensures m in KingSlideRay(g, x, y, di, dj, Along(x, di, s), Along(y, dj, s))
            <==> IsKingSlideAlong(g, x, y, di, dj, m) && Dist(x, m.x2, di) >= s
    decreases 9 - s
  {
    var i2, j2 := Along(x, di, s), Along(y, dj, s);
    if !InBounds(i2, j2) || g[i2][j2] != 0 {
      KingSlideRayStop(g, x, y, di, dj, s, m);
    } else {
      assert EmptyRun(g, x, y, di, dj, 1, s + 1, 0) by {
        EmptyRunGrow(g, x, y, di, dj, 1, s, 0);
      }
      assert Along(x, di, s + 1) == i2 + di && Along(y, dj, s + 1) == j2 + dj;
      KingSlideRayExact(g, x, y, di, dj, s + 1, m);
      KingSlideRayPass(g, x, y, di, dj, s, m);
    }
  }

  /** An edge or an occupied cell at distance s ends the slide scan, and no
      slide lands s or more cells away. */
  lemma KingSlideRayStop(g: Grid, x: int, y: int, di: int, dj: int, s: int, m: MovePos)
    requires InBounds(x, y) && IsDir(di) && IsDir(dj) && s >= 1
    requires -1 <= Along(x, di, s) <= 8 && -1 <= Along(y, dj, s) <= 8
    requires !InBounds(Along(x, di, s), Along(y, dj, s)) || g[Along(x, di, s)][Along(y, dj, s)] != 0
    ensures KingSlideRay(g, x, y, di, dj, Along(x, di, s), Along(y, dj, s)) == []
    ensures !(IsKingSlideAlong(g, x, y, di, dj, m) && Dist(x, m.x2, di) >= s)
  {
    assert IsKingSlideAlong(g, x, y, di, dj, m) && Dist(x, m.x2, di) >= s ==> EmptyRun(g, x, y, di, dj, s, s + 1, 0);
  }

  /** An empty cell at distance s is a slide, followed by the slides the
      scan finds from s + 1 on. */
  lemma KingSlideRayPass(g: Grid, x: int, y: int, di: int, dj: int, s: int, m: MovePos)
    requires InBounds(x, y) && IsDir(di) && IsDir(dj) && s >= 1
    requires InBounds(Along(x, di, s), Along(y, dj, s)) && g[Along(x, di, s)][Along(y, dj, s)] == 0
    requires EmptyRun(g, x, y, di, dj, 1, s + 1, 0)
    requires var i2, j2 := Along(x, di, s), Along(y, dj, s);
      m in KingSlideRay(g, x, y, di, dj, i2 + di, j2 + dj) <==> IsKingSlideAlong(g, x, y, di, dj, m) && Dist(x, m.x2, di) >= s + 1
    ensures m in KingSlideRay(g, x, y, di, dj, Along(x, di, s), Along(y, dj, s))
            <==> IsKingSlideAlong(g, x, y, di, dj, m) && Dist(x, m.x2, di) >= s
  {
    var i2, j2 := Along(x, di, s), Along(y, dj, s);
    assert KingSlideRay(g, x, y, di, dj, i2, j2)
        == [MovePos(x, y, i2, j2, -1, -1)] + KingSlideRay(g, x, y, di, dj, i2 + di, j2 + dj);
  }

  lemma KingSlideDirExact(g: Grid, x: int, y: int, di: int, dj: int, m: MovePos)
    requires InBounds(x, y) && IsDir(di) && IsDir(dj)
    ensures m in KingSlideDir(g, x, y, di, dj) <==> IsKingSlideAlong(g, x, y, di, dj, m)
  {
    assert Along(x, di, 1) == x + di && Along(y, dj, 1) == y + dj && Along(x, di, 0) == x && Along(y, dj, 0) == y;
    KingSlideRayExact(g, x, y, di, dj, 1, m);
  }

  /** A king's simple moves are exactly the empty cells along the four
      diagonals up to the first occupied one. */
  lemma KingSlidesExact(g: Grid, x: int, y: int, m: MovePos)
    requires InBounds(x, y)
    ensures m in KingSlides(g, x, y) <==> IsKingSlide(g, x, y, m)
  {
    assert KingSlides(g, x, y) == KingSlideDir(g, x, y, -1, -1) + KingSlideDir(g, x, y, -1, 1)
                                + (KingSlideDir(g, x, y, 1, -1) + KingSlideDir(g, x, y, 1, 1));
    KingSlideDirExact(g, x, y, -1, -1, m);
    KingSlideDirExact(g, x, y, -1, 1, m);
    KingSlideDirExact(g, x, y, 1, -1, m);
    KingSlideDirExact(g, x, y, 1, 1, m);
  }

  // ---------------------------------------------------------------------
  // One piece
  // ---------------------------------------------------------------------

  /** The captures the rules allow the piece at (x, y); values other than 1
      and 2 (the empty cell too) move as kings. */
  predicate IsCaptureOf(g: Grid, x: int, y: int, m: MovePos)
    requires InBounds(x, y)
  {
    if IsMan(g[x][y]) then IsManJump(g, x, y, m) else IsKingJump(g, x, y, m)
  }

  predicate IsStepOf(g: Grid, x: int, y: int, m: MovePos)
    requires InBounds(x, y)
  {
    if IsMan(g[x][y]) then IsManStep(g, x, y, m) else IsKingSlide(g, x, y, m)
  }

  lemma PieceMovesExact(g: Grid, x: int, y: int, m: MovePos)
    requires InBounds(x, y)
    ensures m in PieceMoves(g, x, y, Captures) <==> IsCaptureOf(g, x, y, m)
    ensures m in PieceMoves(g, x, y, Steps) <==> IsStepOf(g, x, y, m)
  {
    ManJumpsExact(g, x, y, m);
    ManStepsExact(g, x, y, m);
    KingJumpsExact(g, x, y, m);
    KingSlidesExact(g, x, y, m);
  }

  /** Captures start at the piece and record a captured cell; simple moves
      start at the piece and record none. */
  lemma MoveShapes(g: Grid, x: int, y: int, m: MovePos)
    requires InBounds(x, y)
    ensures IsCaptureOf(g, x, y, m) ==> m.x == x && m.y == y && IsCapture(m)
    ensures IsStepOf(g, x, y, m) ==> m.x == x && m.y == y && !IsCapture(m)
  {
  }

  /** Some capture is open to the piece at (x, y). */
  ghost predicate CanCapture(g: Grid, x: int, y: int)
    requires InBounds(x, y)
  {
    exists m :: IsCaptureOf(g, x, y, m)
  }

  lemma CanCaptureExact(g: Grid, x: int, y: int)
    requires InBounds(x, y)
    ensures CanCapture(g, x, y) <==> PieceMoves(g, x, y, Captures) != []
  {
    if PieceMoves(g, x, y, Captures) != [] {
      var m := PieceMoves(g, x, y, Captures)[0];
      PieceMovesExact(g, x, y, m);
    }
    if CanCapture(g, x, y) {
      var m :| IsCaptureOf(g, x, y, m);
      PieceMovesExact(g, x, y, m);
    }
  }

  /** The per-piece query returns the captures when there is any and the
      simple moves otherwise: captures are never mixed with simple moves. */
  lemma PieceTurnsExact(g: Grid, x: int, y: int, m: MovePos)
    requires InBounds(x, y)
    ensures m in PieceTurns(g, x, y) <==>
      if CanCapture(g, x, y) then IsCaptureOf(g, x, y, m) else IsStepOf(g, x, y, m)
  {
    CanCaptureExact(g, x, y);
    PieceMovesExact(g, x, y, m);
  }

  // ---------------------------------------------------------------------
  // A whole side
  // ---------------------------------------------------------------------

  lemma PieceMovesSource(g: Grid, x: int, y: int, kind: Kind, m: MovePos)
    requires InBounds(x, y) && m in PieceMoves(g, x, y, kind)
    ensures m.x == x && m.y == y
  {
    PieceMovesExact(g, x, y, m);
  }

  lemma CellMovesMember(g: Grid, color: bool, i: int, j: int, kind: Kind, m: MovePos)
    requires InBounds(i, j)
    ensures m in CellMoves(g, color, i, j, kind) <==>
      m.x == i && m.y == j && Owns(g[i][j], color) && m in PieceMoves(g, i, j, kind)
  {
    if m in PieceMoves(g, i, j, kind) {
      PieceMovesSource(g, i, j, kind, m);
    }
  }

  lemma {:induction false} RowMovesMember(g: Grid, color: bool, i: int, j: int, kind: Kind, m: MovePos)
    requires 0 <= i < 8 && 0 <= j <= 8
    ensures m in RowMoves(g, color, i, j, kind) <==>
      m.x == i && 0 <= m.y < j && Owns(g[i][m.y], color) && m in PieceMoves(g, i, m.y, kind)
  {
    if j > 0 {
      RowMovesMember(g, color, i, j - 1, kind, m);
      CellMovesMember(g, color, i, j - 1, kind, m);
      var rest, cell := RowMoves(g, color, i, j - 1, kind), CellMoves(g, color, i, j - 1, kind);
      assert RowMoves(g, color, i, j, kind) == rest + cell;
      assert m in RowMoves(g, color, i, j, kind) <==> m in rest || m in cell;
      if m.y == j - 1 {
        assert !(m in rest);
      } else {
        assert !(m in cell);
      }
    }
  }

  lemma {:induction false} RowsMovesMember(g: Grid, color: bool, i: int, kind: Kind, m: MovePos)
    requires 0 <= i <= 8
    ensures m in RowsMoves(g, color, i, kind) <==>
      0 <= m.x < i && 0 <= m.y < 8 && Owns(g[m.x][m.y], color) && m in PieceMoves(g, m.x, m.y, kind)
  {
    if i > 0 {
      RowsMovesMember(g, color, i - 1, kind, m);
      RowMovesMember(g, color, i - 1, 8, kind, m);
    }
  }

  /** The side-wide list of one kind holds exactly the moves of that kind of
      the pieces the side owns. */
  lemma SideMovesOfExact(g: Grid, color: bool, kind: Kind, m: MovePos)
    ensures m in SideMovesOf(g, color, kind) <==>
      InBounds(m.x, m.y) && Owns(g[m.x][m.y], color) && m in PieceMoves(g, m.x, m.y, kind)
  {
    RowsMovesMember(g, color, 8, kind, m);
  }

  /** Some piece of the side has a capture. */
  ghost predicate SideCanCapture(g: Grid, color: bool) {
    exists m: MovePos :: InBounds(m.x, m.y) && Owns(g[m.x][m.y], color) && IsCaptureOf(g, m.x, m.y, m)
  }

  lemma SideHasBeatsExact(g: Grid, color: bool)
    ensures SideHasBeats(g, color) <==> SideCanCapture(g, color)
  {
    if SideHasBeats(g, color) {
      var m := SideMovesOf(g, color, Captures)[0];
      SideMovesOfExact(g, color, Captures, m);
      PieceMovesExact(g, m.x, m.y, m);
    }
    if SideCanCapture(g, color) {
      var m: MovePos :| InBounds(m.x, m.y) && Owns(g[m.x][m.y], color) && IsCaptureOf(g, m.x, m.y, m);
      PieceMovesExact(g, m.x, m.y, m);
      SideMovesOfExact(g, color, Captures, m);
    }
  }

  /** Mandatory capture: when some piece of the side can capture, the side's
      moves are exactly all captures of all its pieces; otherwise they are
      exactly all simple moves of all its pieces. */
  lemma SideMovesExact(g: Grid, color: bool, m: MovePos)
    ensures m in SideMoves(g, color) <==>
      InBounds(m.x, m.y) && Owns(g[m.x][m.y], color)
      && if SideCanCapture(g, color) then IsCaptureOf(g, m.x, m.y, m) else IsStepOf(g, m.x, m.y, m)
  {
    SideHasBeatsExact(g, color);
    SideMovesOfExact(g, color, Captures, m);
    SideMovesOfExact(g, color, Steps, m);
    if InBounds(m.x, m.y) {
      PieceMovesExact(g, m.x, m.y, m);
    }
  }

  // ---------------------------------------------------------------------
  // Generated moves can be applied
  // ---------------------------------------------------------------------

  /** Every move generated for a non-empty cell passes move_piece's checks:
      after the captured cell is emptied the destination is empty and the
      source is not. */
  lemma PieceMoveApplicable(g: Grid, x: int, y: int, kind: Kind, m: BoardMove)
    requires InBounds(x, y) && g[x][y] != 0 && m in PieceMoves(g, x, y, kind)
    ensures m.x == x && m.y == y && Applicable(g, m)
  {
    PieceMovesExact(g, x, y, m);
    if IsCapture(m) && !IsMan(g[x][y]) {
      var di := Sign(m.x2 - x);
      var k := Dist(x, m.xb, di);
      assert g[Along(x, di, Dist(x, m.x2, di))][Along(m.y, Sign(m.y2 - y), Dist(x, m.x2, di))] == 0;
    }
  }

  lemma PieceTurnApplicable(g: Grid, x: int, y: int, m: BoardMove)
    requires InBounds(x, y) && g[x][y] != 0 && m in PieceTurns(g, x, y)
    ensures m.x == x && m.y == y && Applicable(g, m)
  {
    if PieceMoves(g, x, y, Captures) != [] {
      PieceMoveApplicable(g, x, y, Captures, m);
    } else {
      PieceMoveApplicable(g, x, y, Steps, m);
    }
  }

  /** Every move of the side-wide list starts on one of the side's pieces
      and passes move_piece's checks. */
  lemma SideMoveApplicable(g: Grid, color: bool, m: BoardMove)
    requires m in SideMoves(g, color)
    ensures InBounds(m.x, m.y) && Owns(g[m.x][m.y], color) && Applicable(g, m)
  {
    var kind := if SideHasBeats(g, color) then Captures else Steps;
    SideMovesOfExact(g, color, kind, m);
    PieceMoveApplicable(g, m.x, m.y, kind, m);
  }

  // ---------------------------------------------------------------------
  // make_turn
  // ---------------------------------------------------------------------

  /** make_turn's result cell by cell: the source is empty, the destination
      holds the moved piece (promoted on reaching the far row), the captured
      cell is empty and every other cell is unchanged. */
  lemma MakeTurnCells(g: Grid, m: BoardMove)
    ensures var r := MakeTurn(g, m);
      r[m.x][m.y] == 0
      && ((m.x2, m.y2) != (m.x, m.y) ==> r[m.x2][m.y2] == Promote(ClearCaptured(g, m)[m.x][m.y], m.x2))
      && (IsCapture(m) && (m.xb, m.yb) != (m.x2, m.y2) ==> r[m.xb][m.yb] == 0)
      && forall i, j ::
           InBounds(i, j) && (i, j) != (m.x, m.y) && (i, j) != (m.x2, m.y2) && (!IsCapture(m) || (i, j) != (m.xb, m.yb))
           ==> r[i][j] == g[i][j]
  {
  }

  /** After a move that passes move_piece's checks the destination holds a
      piece: the one that moved. */
  lemma MakeTurnLands(g: Grid, m: BoardMove)
    requires Applicable(g, m)
    ensures MakeTurn(g, m)[m.x2][m.y2] != 0
  {
    MakeTurnCells(g, m);
  }

  /** For a move that passes the checks, the piece keeps its colour and
      becomes a king exactly when it is a man reaching its far row. */
  lemma MakeTurnPromotes(g: Grid, m: BoardMove)
    requires Applicable(g, m) && (!IsCapture(m) || (m.xb, m.yb) != (m.x, m.y))
    ensures var v, r := g[m.x][m.y], MakeTurn(g, m)[m.x2][m.y2];
      r % 2 == v % 2 && r != 0
      && (r > 2 <==> v > 2 || (v == 1 && m.x2 == 0) || (v == 2 && m.x2 == 7))
  {
  }

  // ---------------------------------------------------------------------
  // Material
  // ---------------------------------------------------------------------

  lemma {:induction false} CountRowBound(row: seq<Cell>, v: Cell)
    ensures CountRow(row, v) <= |row|
  {
    if row != [] {
      CountRowBound(row[..|row| - 1], v);
    }
  }

  lemma {:induction false} CountRowsBound(rows: seq<seq<Cell>>, v: Cell)
    requires forall i :: 0 <= i < |rows| ==> |rows[i]| == 8
    ensures CountRows(rows, v) <= 8 * |rows|
  {
    if rows != [] {
      CountRowsBound(rows[..|rows| - 1], v);
      CountRowBound(rows[|rows| - 1], v);
    }
  }

  lemma {:induction false} CountRowUpdate(row: seq<Cell>, j: int, c: Cell, v: Cell)
    requires 0 <= j < |row|
    ensures CountRow(row[j := c], v) + (if row[j] == v then 1 else 0)
            == CountRow(row, v) + (if c == v then 1 else 0)
  {
    var n := |row| - 1;
    if j < n {
      assert row[j := c][..n] == row[..n][j := c];
      CountRowUpdate(row[..n], j, c, v);
    } else {
      assert row[j := c][..n] == row[..n];
    }
  }

  lemma {:induction false} CountRowsUpdate(rows: seq<seq<Cell>>, i: int, row: seq<Cell>, v: Cell)
    requires 0 <= i < |rows|
    ensures CountRows(rows[i := row], v) + CountRow(rows[i], v) == CountRows(rows, v) + CountRow(row, v)
  {
    var n := |rows| - 1;
    if i < n {
      assert rows[i := row][..n] == rows[..n][i := row];
      CountRowsUpdate(rows[..n], i, row, v);
    } else {
      assert rows[i := row][..n] == rows[..n];
    }
  }

  /** Overwriting one cell changes each value's count by what left and what
      arrived. */
  lemma CountSet(g: Grid, x: int, y: int, c: Cell, v: Cell)
    requires InBounds(x, y)
    ensures Count(Set(g, x, y, c), v) + (if g[x][y] == v then 1 else 0) == Count(g, v) + (if c == v then 1 else 0)
  {
    var row: seq<Cell> := g[x][y := c];
    CountRowUpdate(g[x], y, c, v);
    CountRowsUpdate(g, x, row, v);
  }

  /** The number of pieces the side owns. */
  function Pieces(g: Grid, color: bool): nat {
    if color then Count(g, 2) + Count(g, 4) else Count(g, 1) + Count(g, 3)
  }

  /** Men count 1 and kings 4. */
  function Material(g: Grid, color: bool): nat {
    if color then Count(g, 2) + 4 * Count(g, 4) else Count(g, 1) + 4 * Count(g, 3)
  }

  lemma PiecesSet(g: Grid, x: int, y: int, c: Cell, color: bool)
    requires InBounds(x, y)
    ensures Pieces(Set(g, x, y, c), color) + (if Owns(g[x][y], color) then 1 else 0)
            == Pieces(g, color) + (if Owns(c, color) then 1 else 0)
  {
    CountSet(g, x, y, c, 1);
    CountSet(g, x, y, c, 2);
    CountSet(g, x, y, c, 3);
    CountSet(g, x, y, c, 4);
  }

  /** Applying a move of one of the side's pieces that jumps, if at all,
      over an opponent's piece standing apart from both ends. */
  lemma MakeTurnMaterial(g: Grid, color: bool, m: BoardMove)
    requires Applicable(g, m) && Owns(g[m.x][m.y], color)
    requires IsCapture(m) ==> Owns(g[m.xb][m.yb], !color) && (m.xb, m.yb) != (m.x, m.y) && (m.xb, m.yb) != (m.x2, m.y2)
    ensures Pieces(MakeTurn(g, m), color) == Pieces(g, color)
    ensures Pieces(MakeTurn(g, m), !color) == Pieces(g, !color) - (if IsCapture(m) then 1 else 0)
  {
    var c := ClearCaptured(g, m);
    if IsCapture(m) {
      PiecesSet(g, m.xb, m.yb, 0, color);
      PiecesSet(g, m.xb, m.yb, 0, !color);
    }
    var p := Promote(c[m.x][m.y], m.x2);
    var moved := Set(c, m.x2, m.y2, p);
    PiecesSet(c, m.x2, m.y2, p, color);
    PiecesSet(c, m.x2, m.y2, p, !color);
    PiecesSet(moved, m.x, m.y, 0, color);
    PiecesSet(moved, m.x, m.y, 0, !color);
  }

  /** A generated capture jumps over an opponent's piece standing apart from
      both ends of the move. */
  lemma SideMoveJumpsEnemy(g: Grid, color: bool, m: BoardMove)
    requires m in SideMoves(g, color) && IsCapture(m)
    ensures Owns(g[m.xb][m.yb], !color) && (m.xb, m.yb) != (m.x, m.y) && (m.xb, m.yb) != (m.x2, m.y2)
  {
    SideMovesExact(g, color, m);
    PieceMovesExact(g, m.x, m.y, m);
    assert IsEnemy(g, m.x, m.y, m.xb, m.yb);
  }

  /** A generated move keeps every piece of the mover, and a capture removes
      exactly one piece of the opponent while a simple move removes none. */
  lemma SideMoveMaterial(g: Grid, color: bool, m: BoardMove)
    requires m in SideMoves(g, color)
    ensures Pieces(MakeTurn(g, m), color) == Pieces(g, color)
    ensures Pieces(MakeTurn(g, m), !color) == Pieces(g, !color) - (if IsCapture(m) then 1 else 0)
  {
    SideMoveApplicable(g, color, m);
    if IsCapture(m) {
      SideMoveJumpsEnemy(g, color, m);
    }
    MakeTurnMaterial(g, color, m);
  }

  // ---------------------------------------------------------------------
  // calc_score
  // ---------------------------------------------------------------------

  lemma CountBound(g: Grid, v: Cell)
    ensures Count(g, v) <= 64
  {
    CountRowsBound(g, v);
  }

  lemma RatioBelow(a: real, b: real)
    requires 0.0 <= a && 1.0 <= b
    ensures 0.0 <= a / b <= a
  {
    assert a / b * b == a;
  }

  /** The score seen from side c: INF exactly when the other side has no
      piece; otherwise 0 exactly when c has no piece, and else c's material
      over the other side's, men counting 1 and kings 4. */
  lemma CalcScoreMeaning(g: Grid, c: bool)
    ensures CalcScore(g, c) == INF <==> Pieces(g, !c) == 0
    ensures Pieces(g, !c) > 0 ==> (CalcScore(g, c) == 0.0 <==> Pieces(g, c) == 0)
    ensures Pieces(g, !c) > 0 && Pieces(g, c) > 0 ==>
              CalcScore(g, c) == Material(g, c) as real / Material(g, !c) as real
    ensures 0.0 <= CalcScore(g, c) <= INF
  {
    CountBound(g, 2);
    CountBound(g, 4);
    CountBound(g, 1);
    CountBound(g, 3);
    if Pieces(g, !c) > 0 && Pieces(g, c) > 0 {
      RatioBelow(Material(g, c) as real, Material(g, !c) as real);
      assert Material(g, c) as real / Material(g, !c) as real > 0.0;
    }
  }

  /** With both sides on the board, the two sides' scores are reciprocal. */
  lemma CalcScoreReciprocal(g: Grid)
    requires Pieces(g, true) > 0 && Pieces(g, false) > 0
    ensures CalcScore(g, true) * CalcScore(g, false) == 1.0
  {
    CalcScoreMeaning(g, true);
    CalcScoreMeaning(g, false);
    var a, b := Material(g, true) as real, Material(g, false) as real;
    assert (a / b) * (b / a) == 1.0;
  }

  // ---------------------------------------------------------------------
  // The best-chain walk
  // ---------------------------------------------------------------------

  /** The chain read from state cur starts with that state's move, is no
      longer than the states from cur on, and every later move comes from a
      later state and holds a move (x != -1). */
  lemma {:induction false} BestChainShape(nextMove: seq<MovePos>, nextState: seq<int>, cur: int)
    requires ForwardLinks(nextMove, nextState) && 0 <= cur < |nextMove|
    ensures var c := BestChain(nextMove, nextState, cur);
      1 <= |c| <= |nextMove| - cur && c[0] == nextMove[cur]
      && forall k :: 1 <= k < |c| ==> c[k].x != -1 && c[k] in nextMove[cur + 1..]
    decreases |nextMove| - cur
  {
    var next := nextState[cur];
    if next != -1 && nextMove[next].x != -1 {
      BestChainShape(nextMove, nextState, next);
      var rest := BestChain(nextMove, nextState, next);
      assert BestChain(nextMove, nextState, cur) == [nextMove[cur]] + rest;
      forall k | 0 <= k < |rest|
        ensures rest[k].x != -1 && rest[k] in nextMove[cur + 1..]
      {
        if k == 0 {
          assert rest[0] == nextMove[next] == nextMove[cur + 1..][next - cur - 1];
        } else {
          assert rest[k] in nextMove[next + 1..];
          assert nextMove[next + 1..] == nextMove[cur + 1..][next - cur..];
        }
      }
    }
  }
}
