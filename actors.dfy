/** The turn rules of the two kinds of actor: how an NPC picks the cell it
    heads for (erratic, greedy towards the remembered PC position, or down
    a distance field), tunneling erosion, and the PC's single-key commands.
    NPC::doTurn and PC::doTurn of Dungeon.cpp are the canonical rules;
    do_monster_movement and handle_pc_input of DungeonGeneration.c are
    kept as the variants NpcTurnC and PcInputC. */
module Actors {
  import opened Grid
  import opened PathField
  import opened Level

  // ---------------------------------------------------------------- steps

  /** The erratic move table (ddx/ddy): entry 0 stays put. */
  const DDX: seq<int> := [0, -1, 1, 0, 0, -1, -1, 1, 1]
  const DDY: seq<int> := [0, 0, 0, -1, 1, -1, 1, -1, 1]

  /** An erratic step with draw r = rand() % 9. */
  function RandomStep(x: int, y: int, r: int): (t: (int, int))
    requires 0 <= r < 9
    ensures -1 <= t.0 - x <= 1 && -1 <= t.1 - y <= 1
    ensures t == (x, y) <==> r == 0
  {
    (x + DDX[r], y + DDY[r])
  }

  /** The nine draws reach the nine cells of the 3x3 square around (x, y). */
  lemma RandomStepCovers(x: int, y: int, dx: int, dy: int)
    requires -1 <= dx <= 1 && -1 <= dy <= 1
    ensures exists r :: 0 <= r < 9 && RandomStep(x, y, r) == (x + dx, y + dy)
  {
    var r := if dx == 0 && dy == 0 then 0
      else if dx == -1 && dy == 0 then 1
      else if dx == 1 && dy == 0 then 2
      else if dx == 0 && dy == -1 then 3
      else if dx == 0 && dy == 1 then 4
      else if dx == -1 && dy == -1 then 5
      else if dx == -1 && dy == 1 then 6
      else if dx == 1 && dy == -1 then 7
      else 8;
    assert RandomStep(x, y, r) == (x + dx, y + dy);
  }

  /** (a > b) ? 1 : ((a < b) ? -1 : 0). */
  function Toward(a: int, b: int): (s: int)
    ensures -1 <= s <= 1
    ensures s * (a - b) >= 0 && (s == 0 <==> a == b)
  {
    if a > b then 1 else if a < b then -1 else 0
  }

  /** Chebyshev (king-move) distance. */
  function King(x1: int, y1: int, x2: int, y2: int): int {
    if Abs(x1 - x2) >= Abs(y1 - y2) then Abs(x1 - x2) else Abs(y1 - y2)
  }

  /** The greedy step of a non-intelligent monster towards (px, py). */
  function GreedyStep(px: int, py: int, x: int, y: int): (t: (int, int))
    ensures -1 <= t.0 - x <= 1 && -1 <= t.1 - y <= 1
    ensures King(t.0, t.1, px, py) == if King(x, y, px, py) == 0 then 0 else King(x, y, px, py) - 1
  {
    (x + Toward(px, x), y + Toward(py, y))
  }

  /** A greedy step never leaves the box spanned by the monster and its
      target, so it stays on the grid when both are on it. */
  lemma GreedyStepInBounds(px: int, py: int, x: int, y: int)
    requires InBounds(px, py) && InBounds(x, y)
    ensures InBounds(GreedyStep(px, py, x, y).0, GreedyStep(px, py, x, y).1)
  {
  }

  // ------------------------------------------------------- intelligent scan

  /** The scan order of the intelligent monster: rank r is the
      neighbour (x + SX[r], y + SY[r]); rows i = -1..1 outer, columns
      j = -1..1 inner, so rank 4 is the monster's own cell. */
  const SX: seq<int> := [-1, 0, 1, -1, 0, 1, -1, 0, 1]
  const SY: seq<int> := [-1, -1, -1, 0, 0, 0, 1, 1, 1]

  /** Rank r names an in-bounds neighbour the scan looks at. */
  predicate Scanned(x: int, y: int, r: int)
    requires 0 <= r < 9
  {
    r != 4 && InBounds(x + SX[r], y + SY[r])
  }

  function ScanCell(x: int, y: int, r: int): int
    requires 0 <= r < 9 && Scanned(x, y, r)
  {
    Idx(x + SX[r], y + SY[r])
  }

  /** After scanning ranks below k, (tx, ty) is the first neighbour of
      strictly smallest distance below INT32_MAX, or the monster's own cell
      when every scanned distance is INT32_MAX or more. */
  ghost predicate ScanResult(dist: seq<int>, x: int, y: int, k: int, tx: int, ty: int)
    requires |dist| == CELLS && 0 <= k <= 9
  {
    ((tx, ty) == (x, y) && forall r | 0 <= r < k && Scanned(x, y, r) :: dist[ScanCell(x, y, r)] >= INF) ||
    (exists b | 0 <= b < k && Scanned(x, y, b) :: PicksRank(dist, x, y, k, b, tx, ty))
  }

  ghost predicate PicksRank(dist: seq<int>, x: int, y: int, k: int, b: int, tx: int, ty: int)
    requires |dist| == CELLS && 0 <= b < k <= 9 && Scanned(x, y, b)
  {
    tx == x + SX[b] && ty == y + SY[b] && dist[ScanCell(x, y, b)] < INF &&
    (forall r | 0 <= r < b && Scanned(x, y, r) :: dist[ScanCell(x, y, r)] > dist[ScanCell(x, y, b)]) &&
    (forall r | b < r < k && Scanned(x, y, r) :: dist[ScanCell(x, y, r)] >= dist[ScanCell(x, y, b)])
  }

  /** ScanResult with the chosen rank b named (-1 when none was chosen). */
  ghost predicate ScanAt(dist: seq<int>, x: int, y: int, k: int, b: int, tx: int, ty: int)
    requires |dist| == CELLS && 0 <= k <= 9
  {
    if b == -1 then (tx, ty) == (x, y) && forall r | 0 <= r < k && Scanned(x, y, r) :: dist[ScanCell(x, y, r)] >= INF
    else 0 <= b < k && Scanned(x, y, b) && PicksRank(dist, x, y, k, b, tx, ty)
  }

  /** Whether the scan keeps tx/ty and bestDist = INT32_MAX (b = -1) or the
      neighbour of rank b and its distance. */
  ghost predicate Best(dist: seq<int>, x: int, y: int, k: int, b: int, tx: int, ty: int, bestDist: int)
    requires |dist| == CELLS && 0 <= k <= 9
  {
    ScanAt(dist, x, y, k, b, tx, ty) && bestDist == if b == -1 then INF else dist[ScanCell(x, y, b)]
  }

  /** The neighbour scan of the intelligent monster over a distance field. */
  method IntelligentStep(dist: array<int>, x: int, y: int) returns (tx: int, ty: int)
    requires dist.Length == CELLS
    ensures ScanResult(dist[..], x, y, 9, tx, ty)
  {
    ghost var b := -1;
    var bestDist := INF;
    tx, ty := x, y;
    var i := -1;
    while i <= 1
      invariant -1 <= i <= 2
      invariant Best(dist[..], x, y, 3 * (i + 1), b, tx, ty, bestDist)
    {
      var j := -1;
      while j <= 1
        invariant -1 <= j <= 2
        invariant Best(dist[..], x, y, 3 * (i + 1) + (j + 1), b, tx, ty, bestDist)
      {
        RankTable(i, j);
        tx, ty, bestDist, b := ScanRank(dist, x, y, i, j, b, tx, ty, bestDist);
        j := j + 1;
      }
      i := i + 1;
    }
    if b != -1 {
      assert PicksRank(dist[..], x, y, 9, b, tx, ty);
    }
  }

  /** The body of the scan for the neighbour (x + j, y + i). */
  method ScanRank(dist: array<int>, x: int, y: int, i: int, j: int, ghost b: int, tx: int, ty: int, bestDist: int)
    returns (tx': int, ty': int, bestDist': int, ghost b': int)
    requires dist.Length == CELLS && -1 <= i <= 1 && -1 <= j <= 1
    requires Best(dist[..], x, y, 3 * (i + 1) + (j + 1), b, tx, ty, bestDist)
    ensures Best(dist[..], x, y, 3 * (i + 1) + (j + 1) + 1, b', tx', ty', bestDist')
  {
    ghost var k := 3 * (i + 1) + (j + 1);
    RankTable(i, j);
    var nx, ny := x + j, y + i;
    var take := !(i == 0 && j == 0) && InBounds(nx, ny) && dist[Idx(nx, ny)] < bestDist;
    assert Scanned(x, y, k) <==> !(i == 0 && j == 0) && InBounds(nx, ny);
    ScanStep(dist[..], x, y, k, b, tx, ty, take);
    if take {
      tx', ty', bestDist', b' := nx, ny, dist[Idx(nx, ny)], k;
    } else {
      tx', ty', bestDist', b' := tx, ty, bestDist, b;
    }
  }

  lemma RankTable(i: int, j: int)
    requires -1 <= i <= 1 && -1 <= j <= 1
    ensures SX[3 * (i + 1) + (j + 1)] == j && SY[3 * (i + 1) + (j + 1)] == i
    ensures 3 * (i + 1) + (j + 1) == 4 <==> i == 0 && j == 0
  {
    if i == -1 {
      if j == -1 {} else if j == 0 {} else {}
    } else if i == 0 {
      if j == -1 {} else if j == 0 {} else {}
    } else {
      if j == -1 {} else if j == 0 {} else {}
    }
  }

  /** One rank of the scan: the neighbour is taken exactly when it is
      scanned and strictly closer than the best so far. */
  lemma ScanStep(dist: seq<int>, x: int, y: int, r: int, b: int, tx: int, ty: int, take: bool)
    requires |dist| == CELLS && 0 <= r < 9
    requires ScanAt(dist, x, y, r, b, tx, ty)
    requires take <==> Scanned(x, y, r) && dist[ScanCell(x, y, r)] < if b == -1 then INF else dist[ScanCell(x, y, b)]
    ensures take ==> ScanAt(dist, x, y, r + 1, r, x + SX[r], y + SY[r])
    ensures !take ==> ScanAt(dist, x, y, r + 1, b, tx, ty)
  {
    if take {
      assert PicksRank(dist, x, y, r + 1, r, x + SX[r], y + SY[r]);
    } else if b != -1 {
      assert PicksRank(dist, x, y, r + 1, b, tx, ty);
    }
  }

  /** The scan's choice is determined by the field: two results of the scan
      agree. */
  lemma ScanResultUnique(dist: seq<int>, x: int, y: int, t1: int, u1: int, t2: int, u2: int)
    requires |dist| == CELLS
    requires ScanResult(dist, x, y, 9, t1, u1) && ScanResult(dist, x, y, 9, t2, u2)
    ensures t1 == t2 && u1 == u2
  {
    if b1 :| 0 <= b1 < 9 && Scanned(x, y, b1) && PicksRank(dist, x, y, 9, b1, t1, u1) {
      var b2 :| 0 <= b2 < 9 && Scanned(x, y, b2) && PicksRank(dist, x, y, 9, b2, t2, u2);
    }
  }

  /** Where each of the eight Dijkstra steps falls in the scan order. */
  const RANK: seq<int> := [3, 5, 1, 7, 0, 6, 2, 8]

  lemma RankOfStep(k: int)
    requires 0 <= k < 8
    ensures 0 <= RANK[k] < 9 && RANK[k] != 4 && SX[RANK[k]] == DX[k] && SY[RANK[k]] == DY[k]
  {
  }

  /** An intelligent monster on a reached cell other than the field's source
      steps to a neighbour strictly closer to the source: the field's
      predecessor of its cell is among the scanned neighbours. */
  lemma IntelligentDescends(t: bool, h: seq<int>, d: seq<int>, src: int, x: int, y: int, tx: int, ty: int)
    requires IsDistanceField(t, h, d, src) && InBounds(x, y) && Idx(x, y) != src && d[Idx(x, y)] < INF
    requires ScanResult(d, x, y, 9, tx, ty)
    ensures (tx, ty) != (x, y) && InBounds(tx, ty) && d[Idx(tx, ty)] < d[Idx(x, y)]
  {
    var i := Idx(x, y);
    assert HasPred(t, h, d, i);
    var k :| 0 <= k < 8 && HasNbr(i, k) && d[Nbr(i, k)] + Cost(t, h[i]) <= d[i];
    XYIdx(x, y);
    RankOfStep(k);
    var r := RANK[k];
    assert Scanned(x, y, r) && ScanCell(x, y, r) == Nbr(i, k);
    assert d[ScanCell(x, y, r)] < d[i];
    var b :| 0 <= b < 9 && Scanned(x, y, b) && PicksRank(d, x, y, 9, b, tx, ty);
    assert d[ScanCell(x, y, b)] <= d[ScanCell(x, y, r)];
    assert ScanCell(x, y, b) == Idx(tx, ty);
  }

  // ------------------------------------------------------------ NPC turns

  /** The behaviour bits of btype: 0x1 intelligence, 0x4 tunneling, 0x8
      erratic (0x2, telepathy, is read but never used). */
  predicate Intelligent(btype: int) {
    btype % 2 == 1
  }

  predicate Tunneling(btype: int) {
    (btype / 4) % 2 == 1
  }

  predicate Erratic(btype: int) {
    (btype / 8) % 2 == 1
  }

  /** The cell an NPC heads for this turn, and the draws it consumes: an
      erratic monster flips a coin (one draw) and on 0 takes a random step
      (a second draw); otherwise it steps greedily towards (pcX, pcY), or,
      when intelligent, scans the distance field of its kind. */
  ghost predicate NpcTarget(c: Character, pcX: int, pcY: int, distT: seq<int>, distN: seq<int>,
                            rnd: nat -> nat, pos: nat, next: nat, tx: int, ty: int)
    requires |distT| == CELLS && |distN| == CELLS
  {
    if Erratic(c.btype) && rnd(pos) % 2 == 0 then
      next == pos + 2 && (tx, ty) == RandomStep(c.x, c.y, rnd(pos + 1) % 9)
    else
      next == pos + (if Erratic(c.btype) then 1 else 0) &&
      if !Intelligent(c.btype) then (tx, ty) == GreedyStep(pcX, pcY, c.x, c.y)
      else ScanResult(if Tunneling(c.btype) then distT else distN, c.x, c.y, 9, tx, ty)
  }

  /** The random step, when one is drawn, stays on the grid: the source
      indexes the hardness grid with it unchecked. */
  predicate ErraticOnGrid(c: Character, rnd: nat -> nat, pos: nat) {
    Erratic(c.btype) && rnd(pos) % 2 == 0 ==> InBounds(RandomStep(c.x, c.y, rnd(pos + 1) % 9).0, RandomStep(c.x, c.y, rnd(pos + 1) % 9).1)
  }

  /** The first half of NPC::doTurn (and of do_monster_movement). */
  method ChooseTarget(d: Dungeon, c: Character, rnd: nat -> nat, pos: nat) returns (next: nat, tx: int, ty: int)
    requires d.Valid()
    ensures NpcTarget(c, d.pcX, d.pcY, d.disTunneling[..], d.disNonTunneling[..], rnd, pos, next, tx, ty)
    ensures InBounds(c.x, c.y) && InBounds(d.pcX, d.pcY) && ErraticOnGrid(c, rnd, pos) ==> InBounds(tx, ty)
  {
    next := pos;
    var doRandom := false;
    if Erratic(c.btype) {
      doRandom := rnd(pos) % 2 == 0;
      next := pos + 1;
    }
    if doRandom {
      var rr := rnd(next) % 9;
      next := next + 1;
      tx, ty := c.x + DDX[rr], c.y + DDY[rr];
    } else if !Intelligent(c.btype) {
      tx, ty := c.x + Toward(d.pcX, c.x), c.y + Toward(d.pcY, c.y);
    } else {
      tx, ty := IntelligentStep(if Tunneling(c.btype) then d.disTunneling else d.disNonTunneling, c.x, c.y);
      ghost var dist := if Tunneling(c.btype) then d.disTunneling[..] else d.disNonTunneling[..];
      if b :| 0 <= b < 9 && Scanned(c.x, c.y, b) && PicksRank(dist, c.x, c.y, 9, b, tx, ty) {
        assert InBounds(tx, ty);
      }
    }
  }

  /** A tunneler's blow on hardness h (0 < h < 255), clamped at zero. */
  function Erode(h: int): int {
    if h - 85 < 0 then 0 else h - 85
  }

  /** Each blow opens the rock or takes off 85; three blows open any rock
      short of the immutable border. */
  lemma ErodeFacts(h: int)
    requires 0 < h < 255
    ensures 0 <= Erode(h) < h
    ensures Erode(h) == 0 <==> h <= 85
    ensures Erode(Erode(Erode(h))) == 0
  {
  }

  /** The hardness after n blows. */
  function ErodeN(h: int, n: nat): int {
    if n == 0 then h else Erode(ErodeN(h, n - 1))
  }

  lemma {:induction false} ErodeNValue(h: int, n: nat)
    requires 0 <= h
    ensures ErodeN(h, n) == if h <= 85 * n then 0 else h - 85 * n
  {
    if n > 0 {
      ErodeNValue(h, n - 1);
    }
  }

  /** Rock of hardness 0 < h < 255 is open after exactly the first n blows
      with 85 * n >= h: its n-th erosion is zero precisely then. */
  lemma {:induction false} ErodeCount(h: int, n: nat)
    requires 0 < h < 255
    ensures ErodeN(h, n) == 0 <==> n * 85 >= h
    ensures 0 < n ==> ErodeN(h, n) < ErodeN(h, n - 1) || ErodeN(h, n - 1) == 0
  {
    ErodeNValue(h, n);
    if 0 < n {
      ErodeNValue(h, n - 1);
    }
  }

  /** NPC::doTurn: choose a target; a tunneler facing diggable rock erodes it
      and stays; otherwise the NPC moves there, killing the PC when the target
      is the recorded PC position (pc_x, pc_y). */
  method NpcTurn(d: Dungeon, self: int, rnd: nat -> nat, pos: nat) returns (next: nat, tx: int, ty: int)
    requires d.Valid() && 0 <= self < |d.characters| && d.characters[self].kind == NPCKind
    requires d.characters[self].alive ==>
      InBounds(d.characters[self].x, d.characters[self].y) && InBounds(d.pcX, d.pcY) && ErraticOnGrid(d.characters[self], rnd, pos)
    modifies d, d.hardness, d.baseMap
    ensures d.Valid() && d.SameLayout() && d.changedFloor == old(d.changedFloor) && |d.characters| == old(|d.characters|)
    ensures !old(d.characters[self].alive) ==>
      next == pos && d.characters == old(d.characters) && d.pcIsAlive == old(d.pcIsAlive) && unchanged(d.hardness, d.baseMap)
    ensures old(d.characters[self].alive) ==>
      InBounds(tx, ty) && NpcTarget(old(d.characters[self]), d.pcX, d.pcY, d.disTunneling[..], d.disNonTunneling[..], rnd, pos, next, tx, ty)
    ensures old(d.characters[self].alive) && InBounds(tx, ty) && Digs(old(d.characters[self].btype), old(d.hardness[Idx(tx, ty)])) ==>
      d.hardness[..] == old(d.hardness[..])[Idx(tx, ty) := Erode(old(d.hardness[Idx(tx, ty)]))] &&
      d.baseMap[..] == (if Erode(old(d.hardness[Idx(tx, ty)])) == 0 then old(d.baseMap[..])[Idx(tx, ty) := '#'] else old(d.baseMap[..])) &&
      d.characters == old(d.characters) && d.pcIsAlive == old(d.pcIsAlive)
    ensures old(d.characters[self].alive) && InBounds(tx, ty) && !Digs(old(d.characters[self].btype), old(d.hardness[Idx(tx, ty)])) ==>
      d.characters == old(d.characters)[self := old(d.characters[self]).(x := tx, y := ty)] &&
      d.pcIsAlive == (old(d.pcIsAlive) && !(tx == d.pcX && ty == d.pcY)) &&
      unchanged(d.hardness, d.baseMap)
  {
    var c := d.characters[self];
    if !c.alive {
      next, tx, ty := pos, c.x, c.y;
      return;
    }
    next, tx, ty := ChooseTarget(d, c, rnd, pos);
    var i := Idx(tx, ty);
    var h := d.hardness[i];
    if Digs(c.btype, h) {
      var e := Erode(h);
      PutHardness(d.hardness, i, e);
      if e == 0 {
        Put(d.baseMap, i, '#');
      }
      return;
    }
    if d.pcX == tx && d.pcY == ty {
      d.pcIsAlive := false;
    }
    d.characters := d.characters[self := c.(x := tx, y := ty)];
  }

  /** do_monster_movement, the C variant of NPC::doTurn: the blow is not
      clamped (hardness may go negative) and the monster moves as soon as the
      rock is at or below zero, leaving '#' only in the display; the PC dies
      when the target shows '@' in the display, and the display is redrawn
      under and at the monster. */
  method NpcTurnC(d: Dungeon, self: int, rnd: nat -> nat, pos: nat) returns (next: nat, tx: int, ty: int)
    requires d.Valid() && 0 <= self < |d.characters| && d.characters[self].kind == NPCKind
    requires d.characters[self].alive ==>
      InBounds(d.characters[self].x, d.characters[self].y) && InBounds(d.pcX, d.pcY) && ErraticOnGrid(d.characters[self], rnd, pos)
    modifies d, d.hardness, d.display
    ensures d.Valid() && d.SameLayout() && d.changedFloor == old(d.changedFloor) && |d.characters| == old(|d.characters|)
    ensures !old(d.characters[self].alive) ==>
      next == pos && d.characters == old(d.characters) && d.pcIsAlive == old(d.pcIsAlive) && unchanged(d.hardness, d.display)
    ensures old(d.characters[self].alive) ==>
      InBounds(tx, ty) && NpcTarget(old(d.characters[self]), d.pcX, d.pcY, d.disTunneling[..], d.disNonTunneling[..], rnd, pos, next, tx, ty)
    ensures old(d.characters[self].alive) && InBounds(tx, ty) && Digs(old(d.characters[self].btype), old(d.hardness[Idx(tx, ty)])) &&
            old(d.hardness[Idx(tx, ty)]) - 85 > 0 ==>
      d.hardness[..] == old(d.hardness[..])[Idx(tx, ty) := old(d.hardness[Idx(tx, ty)]) - 85] &&
      unchanged(d.display) && d.characters == old(d.characters) && d.pcIsAlive == old(d.pcIsAlive)
    ensures old(d.characters[self].alive) && InBounds(tx, ty) &&
            !(Digs(old(d.characters[self].btype), old(d.hardness[Idx(tx, ty)])) && old(d.hardness[Idx(tx, ty)]) - 85 > 0) ==>
      d.hardness[..] == (if Digs(old(d.characters[self].btype), old(d.hardness[Idx(tx, ty)]))
                         then old(d.hardness[..])[Idx(tx, ty) := old(d.hardness[Idx(tx, ty)]) - 85] else old(d.hardness[..])) &&
      d.characters == old(d.characters)[self := old(d.characters[self]).(x := tx, y := ty)] &&
      d.pcIsAlive == (old(d.pcIsAlive) &&
                      !(!Digs(old(d.characters[self].btype), old(d.hardness[Idx(tx, ty)])) && old(d.display[Idx(tx, ty)]) == '@')) &&
      d.display[..] == old(d.display[..])[Idx(old(d.characters[self].x), old(d.characters[self].y)) :=
                                          old(d.baseMap[Idx(d.characters[self].x, d.characters[self].y)])]
                                         [Idx(tx, ty) := old(d.characters[self].symbol)]
  {
    var c := d.characters[self];
    if !c.alive {
      next, tx, ty := pos, c.x, c.y;
      return;
    }
    next, tx, ty := ChooseTarget(d, c, rnd, pos);
    var i := Idx(tx, ty);
    var h := d.hardness[i];
    var digs := Digs(c.btype, h);
    if digs {
      PutHardness(d.hardness, i, h - 85);
      if h - 85 > 0 {
        return;
      }
      Put(d.display, i, '#');
    }
    StepOntoC(d, self, tx, ty);
  }

  /** The move half of do_monster_movement. */
  method StepOntoC(d: Dungeon, self: int, tx: int, ty: int)
    requires d.Valid() && 0 <= self < |d.characters| && InBounds(tx, ty)
    requires InBounds(d.characters[self].x, d.characters[self].y)
    modifies d, d.display
    ensures d.Valid() && d.SameLayout() && d.changedFloor == old(d.changedFloor)
    ensures d.characters == old(d.characters)[self := old(d.characters[self]).(x := tx, y := ty)]
    ensures d.pcIsAlive == (old(d.pcIsAlive) && old(d.display[Idx(tx, ty)]) != '@')
    ensures d.display[..] == old(d.display[..])[Idx(old(d.characters[self].x), old(d.characters[self].y)) :=
                                                old(d.baseMap[Idx(d.characters[self].x, d.characters[self].y)])]
                                               [Idx(tx, ty) := old(d.characters[self].symbol)]
  {
    var c := d.characters[self];
    var i := Idx(tx, ty);
    if d.display[i] == '@' {
      d.pcIsAlive := false;
    }
    var oi := Idx(c.x, c.y);
    Put(d.display, oi, d.baseMap[oi]);
    d.characters := d.characters[self := c.(x := tx, y := ty)];
    Put(d.display, i, c.symbol);
  }

  /** A tunneler whose target is diggable rock strikes it. */
  predicate Digs(btype: int, h: int) {
    Tunneling(btype) && 0 < h < 255
  }

  method PutHardness(grid: array<int>, i: int, v: int)
    requires 0 <= i < grid.Length
    modifies grid
    ensures grid[..] == old(grid[..])[i := v]
  {
    grid[i] := v;
  }
}
