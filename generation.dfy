/** Level generation: hardness initialisation, rooms by rejection
    sampling, L-shaped corridors between consecutive rooms, and stairs.

    Both versions of the engine run the same algorithms; the C++ version on
    its base map, the C version on its display grid (`dungeon`), which it
    copies to the base map afterwards. So every operation here takes the
    character grid and the hardness grid as arrays, and rand() is a stream
    `rnd` read from position `pos` on; each operation returns the position
    after the draws it consumed. */
module Generation {
  import opened Grid
  import opened Level
  import opened PathField

  /** The number of cells inside the border, one draw each. */
  const INTERIOR_CELLS: int := (WIDTH - 2) * (HEIGHT - 2)

  /** The index, in row-major order among interior cells, of interior cell
      (x, y): the draw that sets its hardness. */
  function InteriorRank(x: int, y: int): int {
    (y - 1) * (WIDTH - 2) + (x - 1)
  }

  /** The hardness the reset gives a cell: 255 on the border, otherwise
      rand() % 254 + 1. */
  function InitialHardness(rnd: nat -> nat, pos: nat, x: int, y: int): int
    requires InBounds(x, y)
  {
    if IsBorder(x, y) then 255 else rnd(pos + InteriorRank(x, y)) % 254 + 1
  }

  /** Border cells are immutable rock, interior cells get hardness 1..254,
      and distinct interior cells consume distinct draws. */
  lemma InitialHardnessRange(rnd: nat -> nat, pos: nat, x: int, y: int, x2: int, y2: int)
    requires InBounds(x, y) && InBounds(x2, y2)
    ensures IsBorder(x, y) ==> InitialHardness(rnd, pos, x, y) == 255
    ensures !IsBorder(x, y) ==> 1 <= InitialHardness(rnd, pos, x, y) <= 254 && 0 <= InteriorRank(x, y) < INTERIOR_CELLS
    ensures !IsBorder(x, y) && !IsBorder(x2, y2) && InteriorRank(x, y) == InteriorRank(x2, y2) ==> x == x2 && y == y2
  {
  }

  /** The number of interior cells before (x, y) in row-major order. */
  function DrawsBefore(y: int, x: int): int {
    if y <= 0 then 0
    else if y >= HEIGHT - 1 then INTERIOR_CELLS
    else (y - 1) * (WIDTH - 2) + (if x <= 1 then 0 else if x >= WIDTH - 1 then WIDTH - 2 else x - 1)
  }

  /** The grid reset of newLevel (Dungeon.cpp) and initializeDungeon (C):
      every cell blank, hardness as InitialHardness. */
  method InitGrid(grid: array<char>, hard: array<int>, rnd: nat -> nat, pos: nat) returns (next: nat)
    requires grid.Length == CELLS && hard.Length == CELLS
    modifies grid, hard
    ensures next == pos + INTERIOR_CELLS
    ensures forall x, y | InBounds(x, y) :: grid[Idx(x, y)] == ' ' && hard[Idx(x, y)] == InitialHardness(rnd, pos, x, y)
  {
    next := pos;
    for y := 0 to HEIGHT
      invariant next == pos + DrawsBefore(y, 0)
      invariant forall x', y' | InBounds(x', y') && y' < y ::
                  grid[Idx(x', y')] == ' ' && hard[Idx(x', y')] == InitialHardness(rnd, pos, x', y')
    {
      for x := 0 to WIDTH
        invariant next == pos + DrawsBefore(y, x)
        invariant forall x', y' | InBounds(x', y') && (y' < y || (y' == y && x' < x)) ::
                    grid[Idx(x', y')] == ' ' && hard[Idx(x', y')] == InitialHardness(rnd, pos, x', y')
      {
        if IsBorder(x, y) {
          hard[Idx(x, y)] := 255;
        } else {
          hard[Idx(x, y)] := rnd(next) % 254 + 1;
          next := next + 1;
        }
        grid[Idx(x, y)] := ' ';
      }
    }
  }

  // ---------------------------------------------------------------- rooms

  /** isValidRoom's test: positive size, clear of the right and bottom
      border, and every covered cell still blank. */
  ghost predicate RoomFits(grid: seq<char>, r: Room)
    requires |grid| == CELLS
  {
    0 <= r.x && 0 <= r.y && 1 <= r.w && 1 <= r.h && r.x + r.w < WIDTH - 1 && r.y + r.h < HEIGHT - 1 &&
    forall x, y | InRoom(r, x, y) :: grid[Idx(x, y)] == ' '
  }

  method IsValidRoom(grid: array<char>, w: int, h: int, x: int, y: int) returns (ok: bool)
    requires grid.Length == CELLS && 0 <= x && 0 <= y
    ensures ok <==> RoomFits(grid[..], Room(x, y, w, h))
  {
    if w < 1 || h < 1 || w + x >= WIDTH - 1 || h + y >= HEIGHT - 1 {
      return false;
    }
    for row := y to y + h
      invariant forall cx, cy | x <= cx < x + w && y <= cy < row :: grid[Idx(cx, cy)] == ' '
    {
      for col := x to x + w
        invariant forall cx, cy | x <= cx < x + w && y <= cy < row :: grid[Idx(cx, cy)] == ' '
        invariant forall cx | x <= cx < col :: grid[Idx(cx, row)] == ' '
      {
        if grid[Idx(col, row)] != ' ' {
          assert InRoom(Room(x, y, w, h), col, row);
          return false;
        }
      }
    }
    return true;
  }

  /** The grids after filling r into G/H: the rectangle is floor of
      hardness 0, all other cells as before. */
  ghost predicate Filled(grid: seq<char>, hard: seq<int>, G: seq<char>, H: seq<int>, r: Room)
    requires |grid| == CELLS && |hard| == CELLS && |G| == CELLS && |H| == CELLS
  {
    forall x, y | InBounds(x, y) ::
      grid[Idx(x, y)] == (if InRoom(r, x, y) then '.' else G[Idx(x, y)]) &&
      hard[Idx(x, y)] == (if InRoom(r, x, y) then 0 else H[Idx(x, y)])
  }

  /** fillRoom: the rectangle becomes floor of hardness 0; nothing else changes. */
  method FillRoom(grid: array<char>, hard: array<int>, r: Room)
    requires grid.Length == CELLS && hard.Length == CELLS
    requires 0 <= r.x && 0 <= r.y && r.x + r.w <= WIDTH && r.y + r.h <= HEIGHT
    modifies grid, hard
    ensures Filled(grid[..], hard[..], old(grid[..]), old(hard[..]), r)
  {
    var row := r.y;
    while row < r.y + r.h
      invariant r.y <= row && (r.h >= 0 ==> row <= r.y + r.h)
      invariant forall x, y | InBounds(x, y) ::
                  grid[Idx(x, y)] == (if InRoom(r, x, y) && y < row then '.' else old(grid[Idx(x, y)])) &&
                  hard[Idx(x, y)] == (if InRoom(r, x, y) && y < row then 0 else old(hard[Idx(x, y)]))
    {
      var col := r.x;
      while col < r.x + r.w
        invariant r.x <= col && (r.w >= 0 ==> col <= r.x + r.w)
        invariant forall x, y | InBounds(x, y) ::
                    grid[Idx(x, y)] == (if InRoom(r, x, y) && (y < row || (y == row && x < col)) then '.' else old(grid[Idx(x, y)])) &&
                    hard[Idx(x, y)] == (if InRoom(r, x, y) && (y < row || (y == row && x < col)) then 0 else old(hard[Idx(x, y)]))
      {
        grid[Idx(col, row)] := '.';
        hard[Idx(col, row)] := 0;
        col := col + 1;
      }
      row := row + 1;
    }
  }

  /** The room generateRooms draws from the four draws at k:
      w = rand() % 6 + 4, h = rand() % 4 + 3, x = rand() % (80 - w - 2) + 1,
      y = rand() % (21 - h - 2) + 1. */
  function DrawnRoom(rnd: nat -> nat, k: nat): Room {
    var w := rnd(k) % 6 + 4;
    var h := rnd(k + 1) % 4 + 3;
    Room(rnd(k + 2) % (WIDTH - w - 2) + 1, rnd(k + 3) % (HEIGHT - h - 2) + 1, w, h)
  }

  /** The sizes and positions a drawn room can have: inside the border,
      clear of the last interior column and row. */
  predicate RoomShape(r: Room) {
    4 <= r.w <= 9 && 3 <= r.h <= 6 && 1 <= r.x && r.x + r.w <= WIDTH - 2 && 1 <= r.y && r.y + r.h <= HEIGHT - 2
  }

  lemma DrawnRoomShape(rnd: nat -> nat, k: nat)
    ensures RoomShape(DrawnRoom(rnd, k))
  {
  }

  /** Two rectangles share no cell. */
  predicate Disjoint(a: Room, b: Room) {
    a.x + a.w <= b.x || b.x + b.w <= a.x || a.y + a.h <= b.y || b.y + b.h <= a.y
  }

  predicate InSomeRoom(rooms: seq<Room>, x: int, y: int) {
    exists k :: 0 <= k < |rooms| && InRoom(rooms[k], x, y)
  }

  /** The grids after carving `rooms` into g0/h0: room cells are floor of
      hardness 0, all others as before. */
  ghost predicate Carved(grid: seq<char>, hard: seq<int>, g0: seq<char>, h0: seq<int>, rooms: seq<Room>)
    requires |grid| == CELLS && |hard| == CELLS && |g0| == CELLS && |h0| == CELLS
  {
    forall x, y | InBounds(x, y) ::
      grid[Idx(x, y)] == (if InSomeRoom(rooms, x, y) then '.' else g0[Idx(x, y)]) &&
      hard[Idx(x, y)] == (if InSomeRoom(rooms, x, y) then 0 else h0[Idx(x, y)])
  }

  /** A room that fits where every earlier room is floor overlaps none of them. */
  lemma FittingRoomDisjoint(grid: seq<char>, rooms: seq<Room>, r: Room)
    requires |grid| == CELLS && RoomFits(grid, r)
    requires forall k | 0 <= k < |rooms| :: RoomShape(rooms[k])
    requires forall x, y | InBounds(x, y) && InSomeRoom(rooms, x, y) :: grid[Idx(x, y)] == '.'
    ensures forall k | 0 <= k < |rooms| :: Disjoint(rooms[k], r)
  {
    forall k | 0 <= k < |rooms| ensures Disjoint(rooms[k], r) {
      if !Disjoint(rooms[k], r) {
        var cx := if rooms[k].x < r.x then r.x else rooms[k].x;
        var cy := if rooms[k].y < r.y then r.y else rooms[k].y;
        assert InRoom(rooms[k], cx, cy) && InRoom(r, cx, cy);
        assert InSomeRoom(rooms, cx, cy);
        assert false;
      }
    }
  }

  lemma InSomeRoomAppend(rooms: seq<Room>, r: Room, x: int, y: int)
    ensures InSomeRoom(rooms + [r], x, y) <==> InSomeRoom(rooms, x, y) || InRoom(r, x, y)
  {
    if InSomeRoom(rooms, x, y) {
      var k :| 0 <= k < |rooms| && InRoom(rooms[k], x, y);
      assert (rooms + [r])[k] == rooms[k];
    }
    if InRoom(r, x, y) {
      assert (rooms + [r])[|rooms|] == r;
    }
  }

  lemma CarvedExtend(grid: seq<char>, hard: seq<int>, G: seq<char>, H: seq<int>, g0: seq<char>, h0: seq<int>,
                     rooms: seq<Room>, r: Room)
    requires |grid| == CELLS && |hard| == CELLS && |G| == CELLS && |H| == CELLS && |g0| == CELLS && |h0| == CELLS
    requires Carved(G, H, g0, h0, rooms) && Filled(grid, hard, G, H, r)
    ensures Carved(grid, hard, g0, h0, rooms + [r])
  {
    forall x, y | InBounds(x, y) ensures InSomeRoom(rooms + [r], x, y) <==> InSomeRoom(rooms, x, y) || InRoom(r, x, y) {
      InSomeRoomAppend(rooms, r, x, y);
    }
  }

  /** No drawn room touches the border. */
  lemma RoomsAvoidBorder(rooms: seq<Room>, x: int, y: int)
    requires forall k | 0 <= k < |rooms| :: RoomShape(rooms[k])
    requires InBounds(x, y) && IsBorder(x, y)
    ensures !InSomeRoom(rooms, x, y)
  {
  }

  /** Every room has a drawn shape and no two rooms overlap. */
  ghost predicate RoomsLayout(rooms: seq<Room>) {
    (forall k | 0 <= k < |rooms| :: RoomShape(rooms[k])) &&
    (forall a, b | 0 <= a < b < |rooms| :: Disjoint(rooms[a], rooms[b]))
  }

  /** One attempt of generateRooms on the drawn room r: keep it when it fits. */
  method TryRoom(grid: array<char>, hard: array<int>, r: Room, ghost rooms: seq<Room>, ghost g0: seq<char>, ghost h0: seq<int>)
    returns (kept: bool)
    requires grid.Length == CELLS && hard.Length == CELLS && |g0| == CELLS && |h0| == CELLS
    requires RoomShape(r) && RoomsLayout(rooms) && Carved(grid[..], hard[..], g0, h0, rooms)
    modifies grid, hard
    ensures kept <==> RoomFits(old(grid[..]), r)
    ensures kept ==> RoomsLayout(rooms + [r]) && Carved(grid[..], hard[..], g0, h0, rooms + [r])
    ensures !kept ==> grid[..] == old(grid[..]) && hard[..] == old(hard[..])
  {
    kept := IsValidRoom(grid, r.w, r.h, r.x, r.y);
    if kept {
      FittingRoomDisjoint(grid[..], rooms, r);
      ghost var G, H := grid[..], hard[..];
      FillRoom(grid, hard, r);
      CarvedExtend(grid[..], hard[..], G, H, g0, h0, rooms, r);
      var rs := rooms + [r];
      assert forall k | 0 <= k < |rooms| :: rs[k] == rooms[k];
    }
  }

  /** generateRooms: up to 2000 attempts of four draws each, stopping at
      six rooms; an attempt whose room fits is carved and kept. slots[k] is
      the position of the draws room k was built from. */
  method GenerateRooms(grid: array<char>, hard: array<int>, rnd: nat -> nat, pos: nat)
    returns (rooms: seq<Room>, next: nat, ghost slots: seq<nat>)
    requires grid.Length == CELLS && hard.Length == CELLS
    modifies grid, hard
    ensures |rooms| <= 6 && |slots| == |rooms|
    ensures pos <= next <= pos + 4 * 2000 && (next - pos) % 4 == 0
    ensures |rooms| < 6 ==> next == pos + 4 * 2000
    ensures forall k | 0 <= k < |rooms| :: pos <= slots[k] < next && rooms[k] == DrawnRoom(rnd, slots[k])
    ensures forall k | 0 <= k < |rooms| - 1 :: slots[k] < slots[k + 1]
    ensures RoomsLayout(rooms)
    ensures Carved(grid[..], hard[..], old(grid[..]), old(hard[..]), rooms)
  {
    ghost var g0, h0 := grid[..], hard[..];
    rooms, next, slots := [], pos, [];
    var attempts := 2000;
    while attempts > 0 && |rooms| < 6
      invariant 0 <= attempts <= 2000 && next == pos + 4 * (2000 - attempts)
      invariant |rooms| <= 6 && |slots| == |rooms|
      invariant forall k | 0 <= k < |rooms| :: pos <= slots[k] < next && rooms[k] == DrawnRoom(rnd, slots[k])
      invariant forall k | 0 <= k < |rooms| - 1 :: slots[k] < slots[k + 1]
      invariant RoomsLayout(rooms)
      invariant Carved(grid[..], hard[..], g0, h0, rooms)
    {
      var r := DrawnRoom(rnd, next);
      DrawnRoomShape(rnd, next);
      var kept := TryRoom(grid, hard, r, rooms, g0, h0);
      if kept {
        rooms, slots := rooms + [r], slots + [next];
      }
      next, attempts := next + 4, attempts - 1;
    }
  }

  // ------------------------------------------------------------ corridors

  /** v lies on the way from a toward b, b itself excluded. */
  predicate Between(a: int, b: int, v: int) {
    a <= v < b || b < v <= a
  }

  /** The cells connectRoomsViaCorridor visits from (x1, y1) to (x2, y2):
      along row y1 until column x2, then along column x2 until row y2. */
  predicate OnCorridor(x1: int, y1: int, x2: int, y2: int, x: int, y: int) {
    (y == y1 && Between(x1, x2, x)) || (x == x2 && Between(y1, y2, y))
  }

  /** The grids after digging the cells `on` selects into g0/h0: each
      selected cell that is not room floor becomes corridor of hardness 0. */
  ghost predicate DugCorridor(grid: seq<char>, hard: seq<int>, g0: seq<char>, h0: seq<int>,
                              x1: int, y1: int, x2: int, y2: int)
    requires |grid| == CELLS && |hard| == CELLS && |g0| == CELLS && |h0| == CELLS
  {
    forall x, y | InBounds(x, y) ::
      grid[Idx(x, y)] == (if OnCorridor(x1, y1, x2, y2, x, y) && g0[Idx(x, y)] != '.' then '#' else g0[Idx(x, y)]) &&
      hard[Idx(x, y)] == (if OnCorridor(x1, y1, x2, y2, x, y) && g0[Idx(x, y)] != '.' then 0 else h0[Idx(x, y)])
  }

  /** One corridor of connectRoomsViaCorridor, from (x1, y1) toward (x2, y2). */
  method DigCorridor(grid: array<char>, hard: array<int>, x1: int, y1: int, x2: int, y2: int)
    requires grid.Length == CELLS && hard.Length == CELLS
    modifies grid, hard
    ensures DugCorridor(grid[..], hard[..], old(grid[..]), old(hard[..]), x1, y1, x2, y2)
  {
    ghost var g0, h0 := grid[..], hard[..];
    var cx := x1;
    while cx != x2
      invariant Between(x1, x2, cx) || cx == x2
      invariant forall x, y | InBounds(x, y) ::
                  grid[Idx(x, y)] == (if y == y1 && Between(x1, cx, x) && g0[Idx(x, y)] != '.' then '#' else g0[Idx(x, y)]) &&
                  hard[Idx(x, y)] == (if y == y1 && Between(x1, cx, x) && g0[Idx(x, y)] != '.' then 0 else h0[Idx(x, y)])
      decreases if x2 > cx then x2 - cx else cx - x2
    {
      if InBounds(cx, y1) && grid[Idx(cx, y1)] != '.' {
        grid[Idx(cx, y1)] := '#';
        hard[Idx(cx, y1)] := 0;
      }
      cx := cx + (if x2 > cx then 1 else -1);
    }
    var cy := y1;
    while cy != y2
      invariant Between(y1, y2, cy) || cy == y2
      invariant forall x, y | InBounds(x, y) ::
                  grid[Idx(x, y)] == (if ((y == y1 && Between(x1, x2, x)) || (x == x2 && Between(y1, cy, y))) && g0[Idx(x, y)] != '.'
                                      then '#' else g0[Idx(x, y)]) &&
                  hard[Idx(x, y)] == (if ((y == y1 && Between(x1, x2, x)) || (x == x2 && Between(y1, cy, y))) && g0[Idx(x, y)] != '.'
                                      then 0 else h0[Idx(x, y)])
      decreases if y2 > cy then y2 - cy else cy - y2
    {
      if InBounds(x2, cy) && grid[Idx(x2, cy)] != '.' {
        grid[Idx(x2, cy)] := '#';
        hard[Idx(x2, cy)] := 0;
      }
      cy := cy + (if y2 > cy then 1 else -1);
    }
  }

  /** The centre of a room, where its corridors start and end. */
  function CentreX(r: Room): int { r.x + r.w / 2 }
  function CentreY(r: Room): int { r.y + r.h / 2 }

  /** Corridor k joins the centres of rooms k - 1 and k. */
  predicate OnLink(rooms: seq<Room>, k: int, x: int, y: int)
    requires 1 <= k < |rooms|
  {
    OnCorridor(CentreX(rooms[k - 1]), CentreY(rooms[k - 1]), CentreX(rooms[k]), CentreY(rooms[k]), x, y)
  }

  /** (x, y) is on one of the first n - 1 corridors. */
  predicate OnSomeLink(rooms: seq<Room>, n: int, x: int, y: int)
    requires n <= |rooms|
  {
    exists k :: 1 <= k < n && OnLink(rooms, k, x, y)
  }

  /** The grids after digging corridors 1 .. n - 1 into g0/h0. */
  ghost predicate Connected(grid: seq<char>, hard: seq<int>, g0: seq<char>, h0: seq<int>, rooms: seq<Room>, n: int)
    requires |grid| == CELLS && |hard| == CELLS && |g0| == CELLS && |h0| == CELLS && n <= |rooms|
  {
    forall x, y | InBounds(x, y) ::
      grid[Idx(x, y)] == (if OnSomeLink(rooms, n, x, y) && g0[Idx(x, y)] != '.' then '#' else g0[Idx(x, y)]) &&
      hard[Idx(x, y)] == (if OnSomeLink(rooms, n, x, y) && g0[Idx(x, y)] != '.' then 0 else h0[Idx(x, y)])
  }

  /** Digging one more corridor over the earlier ones gives the picture of
      all of them: a cell once dug stays corridor, room floor stays floor. */
  lemma ConnectedStep(grid: seq<char>, hard: seq<int>, G: seq<char>, H: seq<int>, g0: seq<char>, h0: seq<int>,
                      rooms: seq<Room>, n: int)
    requires |grid| == CELLS && |hard| == CELLS && |G| == CELLS && |H| == CELLS && |g0| == CELLS && |h0| == CELLS
    requires 1 <= n < |rooms|
    requires Connected(G, H, g0, h0, rooms, n)
    requires DugCorridor(grid, hard, G, H, CentreX(rooms[n - 1]), CentreY(rooms[n - 1]), CentreX(rooms[n]), CentreY(rooms[n]))
    ensures Connected(grid, hard, g0, h0, rooms, n + 1)
  {
    forall x, y | InBounds(x, y)
      ensures OnSomeLink(rooms, n + 1, x, y) <==> OnSomeLink(rooms, n, x, y) || OnLink(rooms, n, x, y)
    {
      if OnLink(rooms, n, x, y) {
        assert 1 <= n < n + 1;
      }
    }
  }

  /** connectRoomsViaCorridor: corridors between consecutive rooms. */
  method ConnectRooms(grid: array<char>, hard: array<int>, rooms: seq<Room>)
    requires grid.Length == CELLS && hard.Length == CELLS
    modifies grid, hard
    ensures Connected(grid[..], hard[..], old(grid[..]), old(hard[..]), rooms, |rooms|)
  {
    if |rooms| < 2 {
      return;
    }
    ghost var g0, h0 := grid[..], hard[..];
    for i := 1 to |rooms|
      invariant Connected(grid[..], hard[..], g0, h0, rooms, i)
    {
      ghost var G, H := grid[..], hard[..];
      DigCorridor(grid, hard, CentreX(rooms[i - 1]), CentreY(rooms[i - 1]), CentreX(rooms[i]), CentreY(rooms[i]));
      ConnectedStep(grid[..], hard[..], G, H, g0, h0, rooms, i);
    }
  }

  /** A walker that cannot tunnel gets from the centre of room a to the
      centre of room b. */
  ghost predicate Linked(hard: seq<int>, a: Room, b: Room) {
    InBounds(CentreX(a), CentreY(a)) && InBounds(CentreX(b), CentreY(b)) &&
    exists w :: IsWalk(false, hard, w, Idx(CentreX(a), CentreY(a))) && w[|w| - 1] == Idx(CentreX(b), CentreY(b))
  }

  /** Every two consecutive rooms are linked. */
  ghost predicate RoomsLinked(hard: seq<int>, rooms: seq<Room>) {
    forall k | 1 <= k < |rooms| :: Linked(hard, rooms[k - 1], rooms[k])
  }

  /** A walk ending at (x, y) goes on along row y to column x2 when every
      cell on the way is open floor. */
  lemma {:induction false} RowWalk(hard: seq<int>, p: seq<int>, src: int, x: int, y: int, x2: int)
    requires IsWalk(false, hard, p, src) && InBounds(x, y) && p[|p| - 1] == Idx(x, y)
    requires forall v | Between(x, x2, v) || v == x2 :: InBounds(v, y) && hard[Idx(v, y)] == 0
    ensures exists w :: IsWalk(false, hard, w, src) && w[|w| - 1] == Idx(x2, y)
    decreases if x2 > x then x2 - x else x - x2
  {
    if x == x2 {
      return;
    }
    var k := if x2 > x then 1 else 0;
    assert HasNbr(Idx(x, y), k) && Nbr(Idx(x, y), k) == Idx(x + DX[k], y) by {
      XYIdx(x, y);
    }
    var nx := x + DX[k];
    assert Between(x, x2, nx) || nx == x2;
    ExtendWalk(false, hard, p, src, Idx(nx, y));
    RowWalk(hard, p + [Idx(nx, y)], src, nx, y, x2);
  }

  /** The same along column x. */
  lemma {:induction false} ColumnWalk(hard: seq<int>, p: seq<int>, src: int, x: int, y: int, y2: int)
    requires IsWalk(false, hard, p, src) && InBounds(x, y) && p[|p| - 1] == Idx(x, y)
    requires forall v | Between(y, y2, v) || v == y2 :: InBounds(x, v) && hard[Idx(x, v)] == 0
    ensures exists w :: IsWalk(false, hard, w, src) && w[|w| - 1] == Idx(x, y2)
    decreases if y2 > y then y2 - y else y - y2
  {
    if y == y2 {
      return;
    }
    var k := if y2 > y then 3 else 2;
    assert HasNbr(Idx(x, y), k) && Nbr(Idx(x, y), k) == Idx(x, y + DY[k]) by {
      XYIdx(x, y);
    }
    var ny := y + DY[k];
    assert Between(y, y2, ny) || ny == y2;
    ExtendWalk(false, hard, p, src, Idx(x, ny));
    ColumnWalk(hard, p + [Idx(x, ny)], src, x, ny, y2);
  }

  /** After carving rooms into a grid without floor and digging the
      corridors, room floor and every cell of every corridor have
      hardness 0. */
  lemma OpenAfterDigging(g0: seq<char>, h0: seq<int>, g1: seq<char>, h1: seq<int>, g2: seq<char>, h2: seq<int>,
                         rooms: seq<Room>, x: int, y: int)
    requires |g0| == CELLS && |h0| == CELLS && |g1| == CELLS && |h1| == CELLS && |g2| == CELLS && |h2| == CELLS
    requires forall x, y | InBounds(x, y) :: g0[Idx(x, y)] != '.'
    requires Carved(g1, h1, g0, h0, rooms) && Connected(g2, h2, g1, h1, rooms, |rooms|)
    requires InBounds(x, y) && (InSomeRoom(rooms, x, y) || OnSomeLink(rooms, |rooms|, x, y))
    ensures h2[Idx(x, y)] == 0
  {
  }

  /** connectRoomsViaCorridor's promise: once the corridors are dug, a
      walker that cannot tunnel gets from each room's centre to the next
      one's, along the corridor between them. */
  lemma CorridorsLink(g0: seq<char>, h0: seq<int>, g1: seq<char>, h1: seq<int>, g2: seq<char>, h2: seq<int>,
                      rooms: seq<Room>)
    requires |g0| == CELLS && |h0| == CELLS && |g1| == CELLS && |h1| == CELLS && |g2| == CELLS && |h2| == CELLS
    requires RoomsLayout(rooms) && forall x, y | InBounds(x, y) :: g0[Idx(x, y)] != '.'
    requires Carved(g1, h1, g0, h0, rooms) && Connected(g2, h2, g1, h1, rooms, |rooms|)
    ensures RoomsLinked(h2, rooms)
  {
    forall k | 1 <= k < |rooms| ensures Linked(h2, rooms[k - 1], rooms[k]) {
      var a, b := rooms[k - 1], rooms[k];
      assert RoomShape(a) && RoomShape(b);
      var x1, y1, x2, y2 := CentreX(a), CentreY(a), CentreX(b), CentreY(b);
      assert InRoom(a, x1, y1) && InRoom(b, x2, y2);
      forall x, y | InBounds(x, y) && (OnLink(rooms, k, x, y) || (x == x2 && y == y2))
        ensures h2[Idx(x, y)] == 0
      {
        if x == x2 && y == y2 {
          assert InSomeRoom(rooms, x, y);
        } else {
          assert OnSomeLink(rooms, |rooms|, x, y);
        }
        OpenAfterDigging(g0, h0, g1, h1, g2, h2, rooms, x, y);
      }
      var src := Idx(x1, y1);
      assert IsWalk(false, h2, [src], src);
      RowWalk(h2, [src], src, x1, y1, x2);
      var p :| IsWalk(false, h2, p, src) && p[|p| - 1] == Idx(x2, y1);
      ColumnWalk(h2, p, src, x2, y1, y2);
    }
  }

  // --------------------------------------------------------------- stairs

  /** Where a staircase went: the cell and the position of the draws of
      the attempt that chose it. */
  datatype Stair = Unplaced | Placed(x: int, y: int, at: nat)

  predicate IsAt(s: Stair, x: int, y: int) {
    s.Placed? && s.x == x && s.y == y
  }

  /** A staircase may go on room floor or corridor. */
  predicate StairGround(c: char) {
    c == '.' || c == '#'
  }

  /** The grid after placing up and down on g0. */
  ghost predicate Staired(grid: seq<char>, g0: seq<char>, rnd: nat -> nat, up: Stair, down: Stair)
    requires |grid| == CELLS && |g0| == CELLS
  {
    (up.Placed? ==> InBounds(up.x, up.y) && up.x == rnd(up.at) % WIDTH && up.y == rnd(up.at + 1) % HEIGHT &&
                    grid[Idx(up.x, up.y)] == '<' && StairGround(g0[Idx(up.x, up.y)])) &&
    (down.Placed? ==> InBounds(down.x, down.y) && down.x == rnd(down.at + 2) % WIDTH &&
                      down.y == rnd(down.at + 3) % HEIGHT &&
                      grid[Idx(down.x, down.y)] == '>' && StairGround(g0[Idx(down.x, down.y)])) &&
    (up.Placed? && down.Placed? ==> (up.x, up.y) != (down.x, down.y)) &&
    (forall x, y | InBounds(x, y) && !IsAt(up, x, y) && !IsAt(down, x, y) :: grid[Idx(x, y)] == g0[Idx(x, y)])
  }

  /** placeStairs: four draws per attempt (an up cell, then a down cell);
      each staircase goes on the first drawn cell that is floor or corridor,
      the down one also not on this attempt's up cell. The source retries
      forever; here at most fuel attempts. */
  method PlaceStairs(grid: array<char>, rnd: nat -> nat, pos: nat, fuel: nat)
    returns (next: nat, attempts: nat, up: Stair, down: Stair)
    requires grid.Length == CELLS
    modifies grid
    ensures next == pos + 4 * attempts && attempts <= fuel
    ensures up.Placed? ==> pos <= up.at < next
    ensures down.Placed? ==> pos <= down.at < next
    ensures !(up.Placed? && down.Placed?) ==> attempts == fuel
    ensures Staired(grid[..], old(grid[..]), rnd, up, down)
  {
    ghost var g0 := grid[..];
    next, attempts, up, down := pos, 0, Unplaced, Unplaced;
    while (up.Unplaced? || down.Unplaced?) && attempts < fuel
      invariant next == pos + 4 * attempts && attempts <= fuel
      invariant up.Placed? ==> pos <= up.at < next
      invariant down.Placed? ==> pos <= down.at < next
      invariant Staired(grid[..], g0, rnd, up, down)
    {
      up, down := StairAttempt(grid, rnd, next, up, down, g0);
      next, attempts := next + 4, attempts + 1;
    }
  }

  /** One pass of placeStairs' loop, on the draws at k .. k + 3. */
  method StairAttempt(grid: array<char>, rnd: nat -> nat, k: nat, up: Stair, down: Stair, ghost g0: seq<char>)
    returns (up': Stair, down': Stair)
    requires grid.Length == CELLS && |g0| == CELLS && Staired(grid[..], g0, rnd, up, down)
    modifies grid
    ensures Staired(grid[..], g0, rnd, up', down')
    ensures up' == up || (up.Unplaced? && up'.Placed? && up'.at == k)
    ensures down' == down || (down.Unplaced? && down'.Placed? && down'.at == k)
  {
    up', down' := up, down;
    var ux, uy := rnd(k) % WIDTH, rnd(k + 1) % HEIGHT;
    var dx, dy := rnd(k + 2) % WIDTH, rnd(k + 3) % HEIGHT;
    if up.Unplaced? && StairGround(grid[Idx(ux, uy)]) {
      StairedPut(grid[..], g0, rnd, up, down, Placed(ux, uy, k), down);
      Put(grid, Idx(ux, uy), '<');
      up' := Placed(ux, uy, k);
    }
    if down.Unplaced? && StairGround(grid[Idx(dx, dy)]) && !(ux == dx && uy == dy) {
      StairedPut(grid[..], g0, rnd, up', down, up', Placed(dx, dy, k));
      Put(grid, Idx(dx, dy), '>');
      down' := Placed(dx, dy, k);
    }
  }

  /** Placing one staircase on a free floor or corridor cell keeps Staired. */
  lemma StairedPut(grid: seq<char>, g0: seq<char>, rnd: nat -> nat, up: Stair, down: Stair, up': Stair, down': Stair)
    requires |grid| == CELLS && |g0| == CELLS && Staired(grid, g0, rnd, up, down)
    requires (up' == up && down.Unplaced? && down'.Placed? && InBounds(down'.x, down'.y) &&
              down'.x == rnd(down'.at + 2) % WIDTH && down'.y == rnd(down'.at + 3) % HEIGHT &&
              StairGround(grid[Idx(down'.x, down'.y)]) && !IsAt(up, down'.x, down'.y)) ||
             (down' == down && up.Unplaced? && up'.Placed? && InBounds(up'.x, up'.y) &&
              up'.x == rnd(up'.at) % WIDTH && up'.y == rnd(up'.at + 1) % HEIGHT &&
              StairGround(grid[Idx(up'.x, up'.y)]))
    ensures up' == up ==> Staired(grid[Idx(down'.x, down'.y) := '>'], g0, rnd, up', down')
    ensures up' != up ==> Staired(grid[Idx(up'.x, up'.y) := '<'], g0, rnd, up', down')
  {
  }

  // ---------------------------------------------------------- whole level

  /** What a generated level looks like: a solid border, interior hardness
      below 255, at most six disjoint rooms of floor with hardness 0, and
      exactly one up and one down staircase on distinct cells; floor only in
      rooms, corridor always open and blank cells always rock. */
  ghost predicate GeneratedLevel(grid: seq<char>, hard: seq<int>, rooms: seq<Room>, ux: int, uy: int, dx: int, dy: int)
    requires |grid| == CELLS && |hard| == CELLS
  {
    |rooms| <= 6 && RoomsLayout(rooms) &&
    InBounds(ux, uy) && InBounds(dx, dy) && (ux, uy) != (dx, dy) &&
    forall x, y | InBounds(x, y) ::
      (IsBorder(x, y) ==> hard[Idx(x, y)] == 255 && grid[Idx(x, y)] == ' ') &&
      (!IsBorder(x, y) ==> 0 <= hard[Idx(x, y)] <= 254) &&
      (InSomeRoom(rooms, x, y) ==> hard[Idx(x, y)] == 0 && grid[Idx(x, y)] in ".<>") &&
      (grid[Idx(x, y)] == '<' <==> x == ux && y == uy) &&
      (grid[Idx(x, y)] == '>' <==> x == dx && y == dy) &&
      (grid[Idx(x, y)] == '.' ==> InSomeRoom(rooms, x, y)) &&
      (grid[Idx(x, y)] == '#' ==> hard[Idx(x, y)] == 0) &&
      (grid[Idx(x, y)] == ' ' ==> hard[Idx(x, y)] > 0) &&
      grid[Idx(x, y)] in " .#<>"
  }

  /** Corridors run between room centres, which lie inside the border. */
  lemma CorridorInterior(rooms: seq<Room>, x: int, y: int)
    requires RoomsLayout(rooms) && InBounds(x, y) && OnSomeLink(rooms, |rooms|, x, y)
    ensures !IsBorder(x, y)
  {
    var k :| 1 <= k < |rooms| && OnLink(rooms, k, x, y);
    assert RoomShape(rooms[k - 1]) && RoomShape(rooms[k]);
  }

  /** One cell of the level after the four phases of generation. */
  lemma GeneratedCell(g0: seq<char>, h0: seq<int>, g1: seq<char>, h1: seq<int>, g2: seq<char>, h2: seq<int>, g3: seq<char>,
                      rnd: nat -> nat, pos: nat, rooms: seq<Room>, up: Stair, down: Stair, x: int, y: int)
    requires |g0| == CELLS && |h0| == CELLS && |g1| == CELLS && |h1| == CELLS && |g2| == CELLS && |h2| == CELLS && |g3| == CELLS
    requires InBounds(x, y) && RoomsLayout(rooms)
    requires g0[Idx(x, y)] == ' ' && h0[Idx(x, y)] == InitialHardness(rnd, pos, x, y)
    requires Carved(g1, h1, g0, h0, rooms) && Connected(g2, h2, g1, h1, rooms, |rooms|)
    requires Staired(g3, g2, rnd, up, down) && up.Placed? && down.Placed?
    requires g2[Idx(up.x, up.y)] in ".#" && g2[Idx(down.x, down.y)] in ".#"
    ensures IsBorder(x, y) ==> h2[Idx(x, y)] == 255 && g3[Idx(x, y)] == ' '
    ensures !IsBorder(x, y) ==> 0 <= h2[Idx(x, y)] <= 254
    ensures InSomeRoom(rooms, x, y) ==> h2[Idx(x, y)] == 0 && g3[Idx(x, y)] in ".<>"
    ensures g2[Idx(x, y)] in " .#"
    ensures g3[Idx(x, y)] in " .#<>"
    ensures g3[Idx(x, y)] == '.' ==> InSomeRoom(rooms, x, y)
    ensures g3[Idx(x, y)] == '#' ==> h2[Idx(x, y)] == 0
    ensures g3[Idx(x, y)] == ' ' ==> h2[Idx(x, y)] > 0
  {
    InitialHardnessRange(rnd, pos, x, y, x, y);
    if IsBorder(x, y) {
      RoomsAvoidBorder(rooms, x, y);
      if OnSomeLink(rooms, |rooms|, x, y) {
        CorridorInterior(rooms, x, y);
      }
    }
  }

  /** The generation phases newLevel runs (both versions): reset the grids,
      place rooms, connect them, place the stairs. ok is false when the
      stair search ran out of fuel. */
  method Generate(grid: array<char>, hard: array<int>, rnd: nat -> nat, pos: nat, fuel: nat)
    returns (rooms: seq<Room>, up: Stair, down: Stair, next: nat, ok: bool)
    requires grid.Length == CELLS && hard.Length == CELLS
    modifies grid, hard
    ensures ok <==> up.Placed? && down.Placed?
    ensures |rooms| <= 6
    ensures ok ==> GeneratedLevel(grid[..], hard[..], rooms, up.x, up.y, down.x, down.y)
    ensures RoomsLinked(hard[..], rooms)
  {
    next := InitGrid(grid, hard, rnd, pos);
    ghost var g0, h0 := grid[..], hard[..];
    ghost var slots;
    rooms, next, slots := GenerateRooms(grid, hard, rnd, next);
    ghost var g1, h1 := grid[..], hard[..];
    ConnectRooms(grid, hard, rooms);
    ghost var g2, h2 := grid[..], hard[..];
    CorridorsLink(g0, h0, g1, h1, g2, h2, rooms);
    var attempts;
    next, attempts, up, down := PlaceStairs(grid, rnd, next, fuel);
    ok := up.Placed? && down.Placed?;
    if ok {
      ghost var g3 := grid[..];
      assert g2[Idx(up.x, up.y)] in ".#" && g2[Idx(down.x, down.y)] in ".#";
      forall x, y | InBounds(x, y)
        ensures (IsBorder(x, y) ==> h2[Idx(x, y)] == 255 && g3[Idx(x, y)] == ' ') &&
                (!IsBorder(x, y) ==> 0 <= h2[Idx(x, y)] <= 254) &&
                (InSomeRoom(rooms, x, y) ==> h2[Idx(x, y)] == 0 && g3[Idx(x, y)] in ".<>") &&
                (g3[Idx(x, y)] == '<' <==> IsAt(up, x, y)) &&
                (g3[Idx(x, y)] == '>' <==> IsAt(down, x, y)) &&
                (g3[Idx(x, y)] == '.' ==> InSomeRoom(rooms, x, y)) &&
                (g3[Idx(x, y)] == '#' ==> h2[Idx(x, y)] == 0) &&
                (g3[Idx(x, y)] == ' ' ==> h2[Idx(x, y)] > 0) &&
                g3[Idx(x, y)] in " .#<>"
      {
        GeneratedCell(g0, h0, g1, h1, g2, h2, g3, rnd, pos, rooms, up, down, x, y);
        if IsAt(up, x, y) || IsAt(down, x, y) {
        } else {
          assert g3[Idx(x, y)] == g2[Idx(x, y)];
        }
      }
    }
  }

  /** memcpy of one grid over another. */
  method CopyGrid(src: array<char>, dst: array<char>)
    requires src.Length == CELLS && dst.Length == CELLS && src != dst
    modifies dst
    ensures dst[..] == src[..]
  {
    for i := 0 to CELLS
      invariant forall j | 0 <= j < i :: dst[j] == src[j]
    {
      dst[i] := src[i];
    }
  }

  /** The roster newLevel builds: the PC first, on (pcX, pcY), then live
      NPCs, each standing on room floor of `base`. */
  ghost predicate FreshRoster(cs: seq<Character>, base: seq<char>, pcX: int, pcY: int)
    requires |base| == CELLS
  {
    |cs| >= 1 && cs[0] == NewPcCharacter(pcX, pcY) &&
    forall k | 1 <= k < |cs| ::
      cs[k].kind == NPCKind && cs[k].alive && InBounds(cs[k].x, cs[k].y) && base[Idx(cs[k].x, cs[k].y)] == '.' &&
      5 <= cs[k].speed <= 20 && cs[k].hp == 10 && 0 <= cs[k].btype < 16
  }

  /** The monster loop of newLevel: nummon calls of createMonster. */
  method CreateMonsters(d: Dungeon, nummon: nat, rnd: nat -> nat, pos: nat, fuel: nat) returns (next: nat, ok: bool)
    requires d.Valid() && FreshRoster(d.characters, d.baseMap[..], d.pcX, d.pcY)
    modifies d
    ensures d.Valid() && FreshRoster(d.characters, d.baseMap[..], d.pcX, d.pcY)
    ensures ok ==> |d.characters| == old(|d.characters|) + nummon
    ensures d.SameLayout() && d.pcIsAlive == old(d.pcIsAlive) && d.changedFloor == old(d.changedFloor)
  {
    next, ok := pos, true;
    for i := 0 to nummon
      invariant d.Valid() && |d.characters| == old(|d.characters|) + i && FreshRoster(d.characters, d.baseMap[..], d.pcX, d.pcY)
      invariant d.SameLayout() && d.pcIsAlive == old(d.pcIsAlive) && d.changedFloor == old(d.changedFloor)
    {
      var tries;
      next, ok, tries := d.CreateMonster(rnd, next, fuel);
      if !ok {
        return;
      }
      DrawnMonsterShape(rnd, next - 4);
    }
  }

  /** The second half of newLevel, once the grids and the PC position are
      set: display copy, PC, monsters, liveness and distance fields. */
  method Populate(d: Dungeon, nummon: nat, rnd: nat -> nat, pos: nat, fuel: nat) returns (next: nat, ok: bool)
    requires d.Valid() && InBounds(d.pcX, d.pcY) && d.characters == []
    modifies d, d.display, d.disTunneling, d.disNonTunneling, d.pc, d.pc.rememberedMap
    ensures d.Valid() && d.SameLayout() && unchanged(d.baseMap, d.hardness)
    ensures ok ==> |d.characters| == nummon + 1 && FreshRoster(d.characters, d.baseMap[..], d.pcX, d.pcY)
    ensures ok ==> d.display[..] == d.baseMap[..] && d.pcIsAlive
    ensures ok ==> IsDistanceField(true, d.hardness[..], d.disTunneling[..], Idx(d.pcX, d.pcY))
    ensures ok ==> IsDistanceField(false, d.hardness[..], d.disNonTunneling[..], Idx(d.pcX, d.pcY))
  {
    CopyGrid(d.baseMap, d.display);
    d.CreatePC(d.pcX, d.pcY);
    next, ok := CreateMonsters(d, nummon, rnd, pos, fuel);
    if !ok {
      return;
    }
    d.pcIsAlive := true;
    d.DijkstraForNonTunnel(d.pcX, d.pcY);
    d.DijkstraForTunnel(d.pcX, d.pcY);
  }

  /** The bookkeeping of new_level once generation succeeded: an empty roster, the rooms, one
      staircase of each kind, and the PC's starting cell (the top-left corner of the first room). */
  method RecordLayout(d: Dungeon, rooms: seq<Room>, up: Stair, down: Stair)
    requires d.Valid() && |rooms| <= 6 && up.Placed? && down.Placed?
    modifies d
    ensures d.Valid() && d.characters == [] && d.rooms == rooms
    ensures d.upX == up.x && d.upY == up.y && d.downX == down.x && d.downY == down.y && d.upCount == 1 && d.downCount == 1
    ensures if |rooms| > 0 then d.pcX == rooms[0].x && d.pcY == rooms[0].y else d.pcX == 1 && d.pcY == 1
  {
    var px := if |rooms| > 0 then rooms[0].x else 1;
    var py := if |rooms| > 0 then rooms[0].y else 1;
    d.characters, d.rooms, d.upX, d.upY, d.upCount, d.downX, d.downY, d.downCount, d.pcX, d.pcY :=
      [], rooms, up.x, up.y, 1, down.x, down.y, 1, px, py;
  }

  /** The generation half of new_level, on the dungeon's own grids. */
  method GenerateLevel(d: Dungeon, rnd: nat -> nat, pos: nat, fuel: nat) returns (next: nat, ok: bool)
    requires d.Valid()
    modifies d, d.hardness, d.baseMap
    ensures d.Valid() && d.characters == []
    ensures ok ==> GeneratedLevel(d.baseMap[..], d.hardness[..], d.rooms, d.upX, d.upY, d.downX, d.downY)
    ensures RoomsLinked(d.hardness[..], d.rooms)
    ensures ok ==> d.upCount == 1 && d.downCount == 1 && InBounds(d.pcX, d.pcY)
    ensures ok ==> if |d.rooms| > 0 then d.pcX == d.rooms[0].x && d.pcY == d.rooms[0].y else d.pcX == 1 && d.pcY == 1
  {
    var rooms, up, down;
    rooms, up, down, next, ok := Generate(d.baseMap, d.hardness, rnd, pos, fuel);
    if ok {
      RecordLayout(d, rooms, up, down);
    } else {
      d.characters, d.rooms, d.upCount, d.downCount := [], rooms, 0, 0;
    }
  }

  /** newLevel: clear the roster, generate the grids, put the PC on the
      corner of the first room (or on (1, 1)), copy the base map to the
      display, create the PC and nummon monsters, and compute both distance
      fields from the PC. ok is false when a retry loop ran out of fuel. */
  method NewLevel(d: Dungeon, nummon: nat, rnd: nat -> nat, pos: nat, fuel: nat) returns (next: nat, ok: bool)
    requires d.Valid()
    modifies d, d.hardness, d.baseMap, d.display, d.disTunneling, d.disNonTunneling, d.pc, d.pc.rememberedMap
    ensures d.Valid()
    ensures ok ==> GeneratedLevel(d.baseMap[..], d.hardness[..], d.rooms, d.upX, d.upY, d.downX, d.downY)
    ensures ok ==> RoomsLinked(d.hardness[..], d.rooms)
    ensures ok ==> d.upCount == 1 && d.downCount == 1 && InBounds(d.pcX, d.pcY)
    ensures ok ==> if |d.rooms| > 0 then d.pcX == d.rooms[0].x && d.pcY == d.rooms[0].y else d.pcX == 1 && d.pcY == 1
    ensures ok ==> |d.characters| == nummon + 1 && FreshRoster(d.characters, d.baseMap[..], d.pcX, d.pcY)
    ensures ok ==> d.display[..] == d.baseMap[..] && d.pcIsAlive
    ensures ok ==> IsDistanceField(true, d.hardness[..], d.disTunneling[..], Idx(d.pcX, d.pcY))
    ensures ok ==> IsDistanceField(false, d.hardness[..], d.disNonTunneling[..], Idx(d.pcX, d.pcY))
  {
    next, ok := GenerateLevel(d, rnd, pos, fuel);
    if !ok {
      return;
    }
    ghost var G, H := d.baseMap[..], d.hardness[..];
    next, ok := Populate(d, nummon, rnd, next, fuel);
    assert d.baseMap[..] == G && d.hardness[..] == H;
  }
}
