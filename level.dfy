/** The state of one dungeon level: the grids, the rooms and stairs, the
    roster of characters, and the member operations of the Dungeon and PC
    classes that do not belong to generation, turns or persistence.

    The source keeps the roster as a vector of pointers to a PC or NPC
    subclass; here each character is a value in a sequence, and the state
    only the PC subclass has (its fog memory, fog toggle and teleport cursor)
    is the class PC, of which a level holds exactly one. */
module Level {
  import opened Grid
  import opened PathField

  datatype Room = Room(x: int, y: int, w: int, h: int)

  predicate InRoom(r: Room, x: int, y: int) {
    r.x <= x < r.x + r.w && r.y <= y < r.y + r.h
  }

  datatype Kind = PCKind | NPCKind

  datatype Character = Character(kind: Kind, alive: bool, x: int, y: int, speed: int, hp: int,
                                 btype: int, symbol: char)

  const HEX_DIGITS: string := "0123456789abcdef"

  /** The NPC constructor: the symbol is the hex digit of the behaviour
      flags' low nibble (btype & 0x0F on the uint8_t flags). */
  function NewNpc(btype: int, x: int, y: int, speed: int, hp: int): (c: Character)
    requires 0 <= btype < 256
    ensures c.kind == NPCKind && c.alive && c.btype == btype
    ensures c.symbol in HEX_DIGITS
  {
    Character(NPCKind, true, x, y, speed, hp, btype, HEX_DIGITS[btype % 16])
  }

  /** Two NPCs look alike exactly when their flags agree in the low nibble. */
  lemma NpcSymbolNibble(b1: int, b2: int)
    requires 0 <= b1 < 256 && 0 <= b2 < 256
    ensures NewNpc(b1, 0, 0, 0, 0).symbol == NewNpc(b2, 0, 0, 0, 0).symbol <==> b1 % 16 == b2 % 16
  {
    var i, j := b1 % 16, b2 % 16;
    if i != j {
      assert HEX_DIGITS[i] != HEX_DIGITS[j] by {
        assert forall p, q :: 0 <= p < q < 16 ==> HEX_DIGITS[p] != HEX_DIGITS[q];
      }
    }
  }

  /** The roster entry of a freshly created PC (PC constructor and createPC). */
  function NewPcCharacter(x: int, y: int): Character {
    Character(PCKind, true, x, y, 10, 50, 0, '@')
  }

  /** The cells the PC lights, all within PC_LIGHT_RADIUS in Euclidean
      distance (PC::isVisible). */
  predicate IsVisible(px: int, py: int, x2: int, y2: int) {
    (x2 - px) * (x2 - px) + (y2 - py) * (y2 - py) <= PC_LIGHT_RADIUS * PC_LIGHT_RADIUS
  }

  /** A lit cell lies in the square of side 7 around the PC, so scanning that
      square, as updateRemembered does, finds every lit cell. */
  lemma VisibleWithinSquare(px: int, py: int, x2: int, y2: int)
    ensures IsVisible(px, py, x2, y2) ==> -3 <= x2 - px <= 3 && -3 <= y2 - py <= 3
  {
    var dx, dy := x2 - px, y2 - py;
    if dx > 3 || dx < -3 {
      assert dx * dx >= 16 by {
        if dx > 3 {
          assert dx * dx >= 4 * dx;
        } else {
          assert dx * dx >= -4 * dx;
        }
      }
    }
    if dy > 3 || dy < -3 {
      assert dy * dy >= 16 by {
        if dy > 3 {
          assert dy * dy >= 4 * dy;
        } else {
          assert dy * dy >= -4 * dy;
        }
      }
    }
    assert dx * dx >= 0 && dy * dy >= 0;
  }

  function Abs(v: int): int {
    if v < 0 then -v else v
  }

  /** The lit offsets without the squares: the 5 by 5 square and the four
      cells three steps away along an axis. */
  predicate LitOffset(dx: int, dy: int) {
    (Abs(dx) <= 2 && Abs(dy) <= 2) || (Abs(dx) == 3 && dy == 0) || (dx == 0 && Abs(dy) == 3)
  }

  lemma VisibleIsLit(px: int, py: int, x2: int, y2: int)
    ensures IsVisible(px, py, x2, y2) == LitOffset(x2 - px, y2 - py)
  {
    VisibleWithinSquare(px, py, x2, y2);
    var ax, ay := Abs(x2 - px), Abs(y2 - py);
    assert (x2 - px) * (x2 - px) == ax * ax && (y2 - py) * (y2 - py) == ay * ay;
    if 0 <= ax <= 3 && 0 <= ay <= 3 {
      assert ax == 0 || ax == 1 || ax == 2 || ax == 3;
      assert ay == 0 || ay == 1 || ay == 2 || ay == 3;
    }
  }

  predicate PcCanWalkOn(cell: char) {
    cell == '.' || cell == '#' || cell == '<' || cell == '>'
  }

  /** The number of live NPCs in a roster. */
  function NumAliveMonsters(cs: seq<Character>): nat {
    if cs == [] then 0
    else NumAliveMonsters(cs[..|cs| - 1]) + (if cs[|cs| - 1].kind == NPCKind && cs[|cs| - 1].alive then 1 else 0)
  }

  lemma {:induction false} NumAliveMonstersBound(cs: seq<Character>)
    ensures NumAliveMonsters(cs) <= |cs|
    ensures NumAliveMonsters(cs) == 0 <==> forall i :: 0 <= i < |cs| ==> !(cs[i].kind == NPCKind && cs[i].alive)
  {
    if cs != [] {
      var p := cs[..|cs| - 1];
      NumAliveMonstersBound(p);
      assert forall i :: 0 <= i < |p| ==> p[i] == cs[i];
    }
  }

  /** Killing one live NPC lowers the count by exactly one; any change that
      keeps every entry's kind and liveness keeps the count. */
  lemma {:induction false} NumAliveMonstersKill(cs: seq<Character>, i: int, c: Character)
    requires 0 <= i < |cs| && cs[i].kind == NPCKind && cs[i].alive && !c.alive
    ensures NumAliveMonsters(cs[i := c]) == NumAliveMonsters(cs) - 1
    decreases |cs|
  {
    var n := |cs| - 1;
    if i < n {
      assert cs[i := c][..n] == cs[..n][i := c];
      NumAliveMonstersKill(cs[..n], i, c);
    } else {
      assert cs[i := c][..n] == cs[..n];
    }
  }

  lemma {:induction false} NumAliveMonstersSame(cs: seq<Character>, i: int, c: Character)
    requires 0 <= i < |cs| && c.kind == cs[i].kind && c.alive == cs[i].alive
    ensures NumAliveMonsters(cs[i := c]) == NumAliveMonsters(cs)
    decreases |cs|
  {
    var n := |cs| - 1;
    if i < n {
      assert cs[i := c][..n] == cs[..n][i := c];
      NumAliveMonstersSame(cs[..n], i, c);
    } else {
      assert cs[i := c][..n] == cs[..n];
    }
  }

  /** What cell i shows after rebuildDisplay: the symbol of the last live
      character standing there, else the base map. */
  function Shown(base: seq<char>, cs: seq<Character>, i: int): char
    requires |base| == CELLS && 0 <= i < CELLS
  {
    if cs == [] then base[i]
    else
      var c := cs[|cs| - 1];
      if c.alive && InBounds(c.x, c.y) && Idx(c.x, c.y) == i then c.symbol else Shown(base, cs[..|cs| - 1], i)
  }

  /** A cell no live character stands on shows the base map; a cell a live
      character stands on shows the symbol of one of them. */
  lemma {:induction false} ShownCell(base: seq<char>, cs: seq<Character>, i: int)
    requires |base| == CELLS && 0 <= i < CELLS
    ensures (forall j :: 0 <= j < |cs| && cs[j].alive && InBounds(cs[j].x, cs[j].y) ==> Idx(cs[j].x, cs[j].y) != i)
            ==> Shown(base, cs, i) == base[i]
    ensures Shown(base, cs, i) == base[i] ||
            exists j :: 0 <= j < |cs| && cs[j].alive && InBounds(cs[j].x, cs[j].y) && Idx(cs[j].x, cs[j].y) == i &&
                        cs[j].symbol == Shown(base, cs, i)
  {
    if cs != [] {
      var p := cs[..|cs| - 1];
      ShownCell(base, p, i);
      assert forall j :: 0 <= j < |p| ==> p[j] == cs[j];
    }
  }

  /** The state only the PC subclass has. */
  class PC {
    /** What the PC remembers of the terrain, cell by cell. */
    const rememberedMap: array<char>
    var noFog: bool
    var teleporting: bool
    var teleportX: int
    var teleportY: int

    constructor ()
      ensures fresh(rememberedMap) && rememberedMap.Length == CELLS
      ensures forall i :: 0 <= i < CELLS ==> rememberedMap[i] == ' '
      ensures !noFog && !teleporting
    {
      rememberedMap := new char[CELLS](_ => ' ');
      noFog := false;
      teleporting := false;
    }

    /** updateRemembered: copy the base map for every lit in-bounds cell. */
    method UpdateRemembered(base: array<char>, x: int, y: int)
      requires base.Length == CELLS && rememberedMap.Length == CELLS && base != rememberedMap
      modifies rememberedMap
      ensures forall i :: 0 <= i < CELLS ==>
                rememberedMap[i] == if IsVisible(x, y, X(i), Y(i)) then base[i] else old(rememberedMap[i])
    {
      var ry := y - PC_LIGHT_RADIUS;
      while ry <= y + PC_LIGHT_RADIUS
        invariant y - PC_LIGHT_RADIUS <= ry <= y + PC_LIGHT_RADIUS + 1
        invariant forall i :: 0 <= i < CELLS ==>
                    rememberedMap[i] == if Y(i) < ry && LitOffset(X(i) - x, Y(i) - y) then base[i] else old(rememberedMap[i])
      {
        RememberRow(base, x, y, ry);
        ry := ry + 1;
      }
      forall i | 0 <= i < CELLS
        ensures rememberedMap[i] == if IsVisible(x, y, X(i), Y(i)) then base[i] else old(rememberedMap[i])
      {
        VisibleIsLit(x, y, X(i), Y(i));
      }
    }

    /** One row ry of updateRemembered's scan. */
    method RememberRow(base: array<char>, x: int, y: int, ry: int)
      requires base.Length == CELLS && rememberedMap.Length == CELLS && base != rememberedMap
      modifies rememberedMap
      ensures forall i :: 0 <= i < CELLS ==>
                rememberedMap[i] == if Y(i) == ry && LitOffset(X(i) - x, Y(i) - y) then base[i] else old(rememberedMap[i])
    {
      var rx := x - PC_LIGHT_RADIUS;
      while rx <= x + PC_LIGHT_RADIUS
        invariant x - PC_LIGHT_RADIUS <= rx <= x + PC_LIGHT_RADIUS + 1
        invariant forall i :: 0 <= i < CELLS ==>
                    rememberedMap[i] == if Y(i) == ry && X(i) < rx && LitOffset(X(i) - x, Y(i) - y)
                                        then base[i] else old(rememberedMap[i])
      {
        VisibleIsLit(x, y, rx, ry);
        if InBounds(rx, ry) && IsVisible(x, y, rx, ry) {
          XYIdx(rx, ry);
          rememberedMap[Idx(rx, ry)] := base[Idx(rx, ry)];
        }
        forall i | 0 <= i < CELLS && Y(i) == ry && X(i) == rx ensures i == Idx(rx, ry) {
          IdxXY(i);
        }
        rx := rx + 1;
      }
    }
  }

  class Dungeon {
    const hardness: array<int>
    const baseMap: array<char>
    /** The grid the source calls `dungeon`: the base map with characters drawn on it. */
    const display: array<char>
    const disTunneling: array<int>
    const disNonTunneling: array<int>
    const pc: PC

    var pcX: int
    var pcY: int
    var rooms: seq<Room>
    var upCount: int
    var downCount: int
    var upX: int
    var upY: int
    var downX: int
    var downY: int
    var characters: seq<Character>
    var pcIsAlive: bool
    var changedFloor: bool

    ghost predicate Valid()
      reads this, pc
    {
      hardness.Length == CELLS && baseMap.Length == CELLS && display.Length == CELLS &&
      disTunneling.Length == CELLS && disNonTunneling.Length == CELLS && pc.rememberedMap.Length == CELLS &&
      hardness != disTunneling && hardness != disNonTunneling && disTunneling != disNonTunneling &&
      baseMap != display && baseMap != pc.rememberedMap && display != pc.rememberedMap &&
      |rooms| <= MAX_ROOMS
    }

    constructor ()
      ensures Valid() && fresh(hardness) && fresh(baseMap) && fresh(display) && fresh(pc)
      ensures fresh(disTunneling) && fresh(disNonTunneling) && fresh(pc.rememberedMap)
      ensures forall i :: 0 <= i < CELLS ==>
                hardness[i] == 0 && baseMap[i] == ' ' && display[i] == ' ' &&
                disTunneling[i] == INF && disNonTunneling[i] == INF
      ensures pcIsAlive && !changedFloor && rooms == [] && characters == []
      ensures upCount == 0 && downCount == 0 && pcX == 0 && pcY == 0
    {
      hardness := new int[CELLS](_ => 0);
      baseMap := new char[CELLS](_ => ' ');
      display := new char[CELLS](_ => ' ');
      disTunneling := new int[CELLS](_ => INF);
      disNonTunneling := new int[CELLS](_ => INF);
      pc := new PC();
      pcX, pcY := 0, 0;
      rooms := [];
      upCount, downCount := 0, 0;
      upX, upY, downX, downY := 0, 0, 0, 0;
      characters := [];
      pcIsAlive := true;
      changedFloor := false;
    }

    /** Nothing but the roster and the liveness flags changed. */
    twostate predicate SameLayout()
      reads this
    {
      rooms == old(rooms) && pcX == old(pcX) && pcY == old(pcY) &&
      upCount == old(upCount) && downCount == old(downCount) &&
      upX == old(upX) && upY == old(upY) && downX == old(downX) && downY == old(downY)
    }

    /** Nothing but the roster, the liveness flags and the recorded PC
        position changed. */
    twostate predicate SameRoomsAndStairs()
      reads this
    {
      rooms == old(rooms) && upCount == old(upCount) && downCount == old(downCount) &&
      upX == old(upX) && upY == old(upY) && downX == old(downX) && downY == old(downY)
    }

    predicate IsImmutableRock(x: int, y: int)
      requires Valid() && InBounds(x, y)
      reads this, pc, hardness
    {
      hardness[Idx(x, y)] == 255
    }

    /** Every live character stands inside the grid. */
    ghost predicate RosterInBounds()
      reads this
    {
      forall j :: 0 <= j < |characters| && characters[j].alive ==> InBounds(characters[j].x, characters[j].y)
    }

    /** djikstraForTunnel: distances for monsters that dig. */
    method DijkstraForTunnel(x: int, y: int)
      requires Valid() && InBounds(x, y)
      modifies disTunneling
      ensures IsDistanceField(true, hardness[..], disTunneling[..], Idx(x, y))
    {
      Dijkstra(hardness, disTunneling, x, y, true);
    }

    /** djikstraForNonTunnel: distances over open floor only. */
    method DijkstraForNonTunnel(x: int, y: int)
      requires Valid() && InBounds(x, y)
      modifies disNonTunneling
      ensures IsDistanceField(false, hardness[..], disNonTunneling[..], Idx(x, y))
    {
      Dijkstra(hardness, disNonTunneling, x, y, false);
    }

    method CountMonsters() returns (count: nat)
      ensures count == NumAliveMonsters(characters)
    {
      count := 0;
      for i := 0 to |characters|
        invariant count == NumAliveMonsters(characters[..i])
      {
        assert characters[..i + 1][..i] == characters[..i];
        if characters[i].kind == NPCKind && characters[i].alive {
          count := count + 1;
        }
      }
      assert characters[..|characters|] == characters;
    }

    /** createPC: a fresh PC joins the end of the roster. */
    method CreatePC(px: int, py: int)
      requires Valid()
      modifies this, pc, pc.rememberedMap
      ensures Valid() && characters == old(characters) + [NewPcCharacter(px, py)]
      ensures forall i :: 0 <= i < CELLS ==> pc.rememberedMap[i] == ' '
      ensures !pc.noFog && !pc.teleporting
      ensures unchanged(hardness, baseMap, display, disTunneling, disNonTunneling)
      ensures SameLayout() && pcIsAlive == old(pcIsAlive) && changedFloor == old(changedFloor)
    {
      characters := characters + [NewPcCharacter(px, py)];
      pc.noFog := false;
      pc.teleporting := false;
      for i := 0 to CELLS
        invariant forall j :: 0 <= j < i ==> pc.rememberedMap[j] == ' '
        modifies pc.rememberedMap
      {
        pc.rememberedMap[i] := ' ';
      }
    }

    /** rebuildDisplay: the base map with every live character drawn on it. */
    method RebuildDisplay()
      requires Valid() && RosterInBounds()
      modifies display
      ensures forall i :: 0 <= i < CELLS ==> display[i] == Shown(baseMap[..], characters, i)
    {
      for i := 0 to CELLS
        invariant forall j :: 0 <= j < i ==> display[j] == baseMap[j]
      {
        display[i] := baseMap[i];
      }
      for k := 0 to |characters|
        invariant forall i :: 0 <= i < CELLS ==> display[i] == Shown(baseMap[..], characters[..k], i)
      {
        assert characters[..k + 1][..k] == characters[..k];
        var c := characters[k];
        if c.alive {
          display[Idx(c.x, c.y)] := c.symbol;
        }
      }
      assert characters[..|characters|] == characters;
    }

    /** createMonster: draw cells until one is room floor, then draw the
        flags and the speed; the new NPC joins the end of the roster. */
    method CreateMonster(rnd: nat -> nat, pos: nat, fuel: nat) returns (next: nat, ok: bool, tries: nat)
      requires Valid()
      modifies this
      ensures Valid() && pcIsAlive == old(pcIsAlive) && changedFloor == old(changedFloor)
      ensures SameLayout()
      ensures FloorDraws(baseMap[..], rnd, pos, tries)
      ensures ok ==> next == pos + 2 * tries + 4 && baseMap[DrawnCell(rnd, next - 4)] == '.' &&
                     characters == old(characters) + [DrawnMonster(rnd, next - 4)]
      ensures !ok ==> characters == old(characters) && tries == fuel && next == pos + 2 * fuel
    {
      next, ok, tries := DrawFloorCell(baseMap, rnd, pos, fuel);
      if ok {
        var at := next - 2;
        next := at + 4;
        characters := characters + [DrawnMonster(rnd, at)];
      }
    }

    /** The C create_monster: the same draws, but the cell is tested on the
        display grid (so monsters never share a cell) and the new monster's
        symbol is drawn there. */
    method CreateMonsterC(rnd: nat -> nat, pos: nat, fuel: nat) returns (next: nat, ok: bool, tries: nat)
      requires Valid()
      modifies this, display
      ensures Valid() && pcIsAlive == old(pcIsAlive) && changedFloor == old(changedFloor)
      ensures SameLayout()
      ensures FloorDraws(old(display[..]), rnd, pos, tries)
      ensures ok ==> next == pos + 2 * tries + 4 && old(display[DrawnCell(rnd, next - 4)]) == '.' &&
                     characters == old(characters) + [DrawnMonster(rnd, next - 4)] &&
                     display[..] == old(display[..])[DrawnCell(rnd, next - 4) := DrawnMonster(rnd, next - 4).symbol]
      ensures !ok ==> characters == old(characters) && tries == fuel && next == pos + 2 * fuel &&
                      display[..] == old(display[..])
    {
      next, ok, tries := DrawFloorCell(display, rnd, pos, fuel);
      if ok {
        var at := next - 2;
        var m, cell := DrawnMonster(rnd, at), DrawnCell(rnd, at);
        Put(display, cell, m.symbol);
        characters := characters + [m];
        next := at + 4;
      }
    }
  }

  /** One cell write, with the whole new contents stated. */
  method Put(grid: array<char>, i: int, c: char)
    requires 0 <= i < grid.Length
    modifies grid
    ensures grid[..] == old(grid[..])[i := c]
  {
    grid[i] := c;
  }

  /** The cell named by the draws at k and k + 1 (rand() % WIDTH, rand() % HEIGHT). */
  function DrawnCell(rnd: nat -> nat, k: nat): (i: int)
    ensures 0 <= i < CELLS
  {
    Idx(rnd(k) % WIDTH, rnd(k + 1) % HEIGHT)
  }

  /** The first `tries` cell draws from pos all missed room floor and, when
      the search succeeded, the next one hit it. */
  ghost predicate FloorDraws(grid: seq<char>, rnd: nat -> nat, pos: nat, tries: nat)
    requires |grid| == CELLS
  {
    forall t :: 0 <= t < tries ==> grid[DrawnCell(rnd, pos + 2 * t)] != '.'
  }

  /** The retry loop shared by the monster creators: draw cells until one
      shows room floor. The source retries forever; here at most fuel times,
      and ok is false when fuel runs out first. */
  method DrawFloorCell(grid: array<char>, rnd: nat -> nat, pos: nat, fuel: nat) returns (next: nat, ok: bool, tries: nat)
    requires grid.Length == CELLS
    ensures FloorDraws(grid[..], rnd, pos, tries)
    ensures ok ==> tries < fuel && next == pos + 2 * tries + 2 && grid[DrawnCell(rnd, pos + 2 * tries)] == '.'
    ensures !ok ==> tries == fuel && next == pos + 2 * fuel
  {
    next, tries := pos, 0;
    while tries < fuel
      invariant tries <= fuel && next == pos + 2 * tries
      invariant FloorDraws(grid[..], rnd, pos, tries)
    {
      var rx, ry := rnd(next) % WIDTH, rnd(next + 1) % HEIGHT;
      if grid[Idx(rx, ry)] == '.' {
        next, ok := next + 2, true;
        return;
      }
      next, tries := next + 2, tries + 1;
    }
    ok := false;
  }

  /** The monster createMonster builds from the draws at k .. k + 3: the
      cell, then rand() & 0x0F as flags, then rand() % 16 + 5 as speed. */
  function DrawnMonster(rnd: nat -> nat, k: nat): Character {
    NewNpc(rnd(k + 2) % 16, rnd(k) % WIDTH, rnd(k + 1) % HEIGHT, rnd(k + 3) % 16 + 5, 10)
  }

  /** A created monster is a live NPC on the drawn cell with a speed in
      [5, 20], 10 hit points, flags in [0, 15] and their hex digit as symbol. */
  lemma DrawnMonsterShape(rnd: nat -> nat, k: nat)
    ensures var m := DrawnMonster(rnd, k);
            m.kind == NPCKind && m.alive && 5 <= m.speed <= 20 && m.hp == 10 && 0 <= m.btype < 16 &&
            m.symbol == HEX_DIGITS[m.btype] && InBounds(m.x, m.y) && Idx(m.x, m.y) == DrawnCell(rnd, k)
  {
  }
}
