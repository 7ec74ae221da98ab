/** The player's turn: the key handling of PC::doTurn (normal mode and
    teleport mode) and of the C variant handle_pc_input.

    One key acts on a value of type Turn, the part of the level a key can
    change; the methods that read keys from a stream are proved to apply
    exactly these functions to the level's state. */
module Player {
  import opened Grid
  import opened PathField
  import opened Level
  import opened Actors

  const ESC: char := 27 as char

  /** The step of a movement key: the numeric keypad and the vi keys. */
  function Delta(k: char): (int, int) {
    if k == '7' || k == 'y' then (-1, -1)
    else if k == '8' || k == 'k' then (0, -1)
    else if k == '9' || k == 'u' then (1, -1)
    else if k == '6' || k == 'l' then (1, 0)
    else if k == '3' || k == 'n' then (1, 1)
    else if k == '2' || k == 'j' then (0, 1)
    else if k == '1' || k == 'b' then (-1, 1)
    else if k == '4' || k == 'h' then (-1, 0)
    else (0, 0)
  }

  predicate IsMoveKey(k: char) {
    Delta(k) != (0, 0)
  }

  /** Every king move has a key, and every movement key is a king move. */
  lemma MoveKeysAreKingMoves(dx: int, dy: int)
    ensures (exists k :: IsMoveKey(k) && Delta(k) == (dx, dy)) <==> -1 <= dx <= 1 && -1 <= dy <= 1 && (dx, dy) != (0, 0)
  {
    if -1 <= dx <= 1 && -1 <= dy <= 1 && (dx, dy) != (0, 0) {
      var k := if dy == -1 then (if dx == -1 then '7' else if dx == 0 then '8' else '9')
               else if dy == 0 then (if dx == -1 then '4' else '6')
               else (if dx == -1 then '1' else if dx == 0 then '2' else '3');
      assert IsMoveKey(k) && Delta(k) == (dx, dy);
    }
  }

  /** In PC::doTurn only the keys 7 8 9 6 (and y k u l) mark the level's PC
      dead when the attack strikes a PC; the other four directions do not. */
  predicate ChecksPcKind(k: char) {
    k in "7y8k9u6l"
  }

  /** What one key can change. */
  datatype Turn = Turn(cs: seq<Character>, pcIsAlive: bool, changedFloor: bool, noFog: bool,
                       teleporting: bool, cx: int, cy: int)

  /** Character i is struck by an attack of character self on (nx, ny). */
  predicate Hit(cs: seq<Character>, self: int, nx: int, ny: int, i: int)
    requires 0 <= i < |cs|
  {
    i != self && cs[i].alive && cs[i].x == nx && cs[i].y == ny
  }

  /** The roster after the attack loop: every other live character on the
      target cell dies. */
  function Slay(cs: seq<Character>, self: int, nx: int, ny: int): (r: seq<Character>)
    ensures |r| == |cs|
  {
    seq(|cs|, i requires 0 <= i < |cs| => if Hit(cs, self, nx, ny, i) then cs[i].(alive := false) else cs[i])
  }

  ghost predicate SlaysPc(cs: seq<Character>, self: int, nx: int, ny: int) {
    exists i :: 0 <= i < |cs| && Hit(cs, self, nx, ny, i) && cs[i].kind == PCKind
  }

  /** After the attack no other live character stands on the target, and
      nothing else about any character changed. */
  lemma SlayClearsCell(cs: seq<Character>, self: int, nx: int, ny: int)
    ensures forall i :: 0 <= i < |cs| && i != self ==> !(Slay(cs, self, nx, ny)[i].alive && cs[i].x == nx && cs[i].y == ny)
    ensures forall i :: 0 <= i < |cs| ==>
              Slay(cs, self, nx, ny)[i] == cs[i].(alive := Slay(cs, self, nx, ny)[i].alive) &&
              (Slay(cs, self, nx, ny)[i].alive ==> cs[i].alive)
  {
  }

  /** The attack kills no monster exactly when none stands on the target;
      otherwise the count of live monsters drops. */
  lemma {:induction false} SlayMonsterCount(cs: seq<Character>, self: int, nx: int, ny: int)
    ensures NumAliveMonsters(Slay(cs, self, nx, ny)) <= NumAliveMonsters(cs)
    ensures NumAliveMonsters(Slay(cs, self, nx, ny)) == NumAliveMonsters(cs) <==>
            forall i :: 0 <= i < |cs| && Hit(cs, self, nx, ny, i) ==> cs[i].kind == PCKind
    decreases |cs|
  {
    if cs != [] {
      var n := |cs| - 1;
      var p := cs[..n];
      SlayMonsterCount(p, self, nx, ny);
      assert Slay(cs, self, nx, ny)[..n] == Slay(p, self, nx, ny);
      assert forall i :: 0 <= i < n ==> (Hit(cs, self, nx, ny, i) <==> Hit(p, self, nx, ny, i));
    }
  }

  /** A roster whose only PC is the attacker never loses its PC to an attack. */
  lemma LonePcNotSlain(cs: seq<Character>, self: int, nx: int, ny: int)
    requires forall i :: 0 <= i < |cs| && i != self ==> cs[i].kind == NPCKind
    ensures !SlaysPc(cs, self, nx, ny)
  {
  }

  /** A key pressed in normal mode ends the turn unless it is unknown. */
  predicate NormalConsumes(k: char) {
    IsMoveKey(k) || k in "5 .><mfgQ"
  }

  /** One key in normal mode (PC::doTurn, NORMAL MODE): a move onto an
      in-bounds walkable cell of the base map attacks and then moves; a
      blocked move, a rest or a stair key that does not match the base map
      under the PC only ends the turn. */
  function NormalEffect(base: seq<char>, t: Turn, self: int, k: char): Turn
    requires |base| == CELLS && 0 <= self < |t.cs| && InBounds(t.cs[self].x, t.cs[self].y)
  {
    var p := t.cs[self];
    if IsMoveKey(k) then
      var nx, ny := p.x + Delta(k).0, p.y + Delta(k).1;
      if InBounds(nx, ny) && PcCanWalkOn(base[Idx(nx, ny)]) then
        t.(cs := Slay(t.cs, self, nx, ny)[self := p.(x := nx, y := ny)],
           pcIsAlive := t.pcIsAlive && !(ChecksPcKind(k) && exists i :: 0 <= i < |t.cs| && Hit(t.cs, self, nx, ny, i) && t.cs[i].kind == PCKind))
      else t
    else if k == '>' || k == '<' then t.(changedFloor := t.changedFloor || base[Idx(p.x, p.y)] == k)
    else if k == 'f' then t.(noFog := !t.noFog)
    else if k == 'g' then t.(teleporting := true, cx := p.x, cy := p.y)
    else if k == 'Q' then t.(cs := t.cs[self := p.(alive := false)], pcIsAlive := false)
    else t
  }

  /** In teleport mode only 'g', 'r' and 'Q' end the turn. */
  predicate TeleportConsumes(k: char) {
    k == 'g' || k == 'r' || k == 'Q'
  }

  /** One key in teleport mode: movement keys move the cursor while it stays
      on the grid; 'g' moves the PC to the cursor unless that cell is
      immutable rock; 'r' moves it to the drawn cell land; neither attacks. */
  function TeleportEffect(hard: seq<int>, t: Turn, self: int, k: char, land: (int, int)): Turn
    requires |hard| == CELLS && 0 <= self < |t.cs| && InBounds(t.cx, t.cy)
  {
    var p := t.cs[self];
    if IsMoveKey(k) then
      var nx, ny := t.cx + Delta(k).0, t.cy + Delta(k).1;
      if InBounds(nx, ny) then t.(cx := nx, cy := ny) else t
    else if k == 'g' then
      t.(cs := if hard[Idx(t.cx, t.cy)] != 255 then t.cs[self := p.(x := t.cx, y := t.cy)] else t.cs, teleporting := false)
    else if k == 'r' then t.(cs := t.cs[self := p.(x := land.0, y := land.1)], teleporting := false)
    else if k == 'f' then t.(noFog := !t.noFog)
    else if k == 'Q' then t.(cs := t.cs[self := p.(alive := false)], pcIsAlive := false)
    else t
  }

  /** The result of the random teleport's draw loop. */
  datatype Landing = NoLanding | Landed(x: int, y: int, next: nat)

  /** Draw cells (x then y) until one is not immutable rock, trying at most
      fuel times. */
  function DrawLanding(hard: seq<int>, rnd: nat -> nat, pos: nat, fuel: nat): Landing
    requires |hard| == CELLS
    decreases fuel
  {
    if fuel == 0 then NoLanding
    else
      var rx, ry := rnd(pos) % WIDTH, rnd(pos + 1) % HEIGHT;
      if hard[Idx(rx, ry)] != 255 then Landed(rx, ry, pos + 2) else DrawLanding(hard, rnd, pos + 2, fuel - 1)
  }

  /** A landing is on the grid, is not immutable rock, and is the cell of
      the last pair of draws it consumed. */
  lemma {:induction false} DrawLandingValid(hard: seq<int>, rnd: nat -> nat, pos: nat, fuel: nat)
    requires |hard| == CELLS
    ensures var l := DrawLanding(hard, rnd, pos, fuel);
      l.Landed? ==>
        InBounds(l.x, l.y) && hard[Idx(l.x, l.y)] != 255 && pos + 2 <= l.next <= pos + 2 * fuel &&
        l.x == rnd(l.next - 2) % WIDTH && l.y == rnd(l.next - 1) % HEIGHT
    decreases fuel
  {
    if fuel > 0 && hard[Idx(rnd(pos) % WIDTH, rnd(pos + 1) % HEIGHT)] == 255 {
      DrawLandingValid(hard, rnd, pos + 2, fuel - 1);
    }
  }

  /** No landing means every one of the fuel draws hit immutable rock. */
  lemma {:induction false} DrawLandingExhausted(hard: seq<int>, rnd: nat -> nat, pos: nat, fuel: nat)
    requires |hard| == CELLS && DrawLanding(hard, rnd, pos, fuel).NoLanding?
    ensures forall j :: 0 <= j < fuel ==> hard[Idx(rnd(pos + 2 * j) % WIDTH, rnd(pos + 2 * j + 1) % HEIGHT)] == 255
    decreases fuel
  {
    if fuel > 0 {
      DrawLandingExhausted(hard, rnd, pos + 2, fuel - 1);
      forall j | 0 < j < fuel
        ensures hard[Idx(rnd(pos + 2 * j) % WIDTH, rnd(pos + 2 * j + 1) % HEIGHT)] == 255
      {
        assert pos + 2 * j == (pos + 2) + 2 * (j - 1);
      }
    }
  }

  /** Whether a key ends the turn, and what it does, in the PC's current mode. */
  predicate Consumes(t: Turn, k: char) {
    if t.teleporting then TeleportConsumes(k) else NormalConsumes(k)
  }

  /** The PC's own entry is on the grid, and so is the cursor in teleport mode. */
  predicate Placed(t: Turn, self: int) {
    0 <= self < |t.cs| && InBounds(t.cs[self].x, t.cs[self].y) && (t.teleporting ==> InBounds(t.cx, t.cy))
  }

  function Step(hard: seq<int>, base: seq<char>, t: Turn, self: int, k: char, land: (int, int)): Turn
    requires |hard| == CELLS && |base| == CELLS && Placed(t, self)
  {
    if t.teleporting then TeleportEffect(hard, t, self, k, land) else NormalEffect(base, t, self, k)
  }

  /** Every key keeps the roster's length, kinds, speeds and looks, moves
      no one but the PC, revives no one, and keeps the PC (and a live cursor)
      on the grid whenever a random landing is. */
  lemma StepKeepsShape(hard: seq<int>, base: seq<char>, t: Turn, self: int, k: char, land: (int, int))
    requires |hard| == CELLS && |base| == CELLS && Placed(t, self)
    requires InBounds(land.0, land.1)
    ensures Placed(Step(hard, base, t, self, k, land), self)
    ensures Shape(t.cs, Step(hard, base, t, self, k, land).cs, self)
  {
    if t.teleporting {
      TeleportKeepsShape(hard, t, self, k, land);
    } else {
      NormalKeepsShape(base, t, self, k);
    }
  }

  lemma NormalKeepsShape(base: seq<char>, t: Turn, self: int, k: char)
    requires |base| == CELLS && Placed(t, self) && !t.teleporting
    ensures Placed(NormalEffect(base, t, self, k), self)
    ensures Shape(t.cs, NormalEffect(base, t, self, k).cs, self)
  {
    if IsMoveKey(k) {
      var nx, ny := t.cs[self].x + Delta(k).0, t.cs[self].y + Delta(k).1;
      if InBounds(nx, ny) && PcCanWalkOn(base[Idx(nx, ny)]) {
        SlayClearsCell(t.cs, self, nx, ny);
      }
    }
  }

  lemma TeleportKeepsShape(hard: seq<int>, t: Turn, self: int, k: char, land: (int, int))
    requires |hard| == CELLS && Placed(t, self) && t.teleporting && InBounds(land.0, land.1)
    ensures Placed(TeleportEffect(hard, t, self, k, land), self)
    ensures Shape(t.cs, TeleportEffect(hard, t, self, k, land).cs, self)
  {
  }

  /** cs2 is cs1 with only aliveness lost and the entry self moved. */
  predicate Shape(cs1: seq<Character>, cs2: seq<Character>, self: int) {
    |cs2| == |cs1| &&
    forall i :: 0 <= i < |cs1| ==>
      cs2[i].kind == cs1[i].kind && cs2[i].speed == cs1[i].speed && cs2[i].symbol == cs1[i].symbol &&
      cs2[i].btype == cs1[i].btype && (cs2[i].alive ==> cs1[i].alive) &&
      (i != self ==> cs2[i].x == cs1[i].x && cs2[i].y == cs1[i].y)
  }

  /** A key that does not end the turn changes no character, no flag of the
      level and not the mode, and in normal mode changes nothing at all. */
  lemma IdleStep(hard: seq<int>, base: seq<char>, t: Turn, self: int, k: char, land: (int, int))
    requires |hard| == CELLS && |base| == CELLS && Placed(t, self) && !Consumes(t, k)
    ensures var r := Step(hard, base, t, self, k, land);
      Placed(r, self) && r.cs == t.cs && r.pcIsAlive == t.pcIsAlive && r.changedFloor == t.changedFloor &&
      r.teleporting == t.teleporting && (!t.teleporting ==> r == t)
  {
  }

  /** A key raises the floor-change flag only as a stair key pressed while
      the base map under the PC shows that stair, and it then moves no one. */
  lemma StepFloorChange(hard: seq<int>, base: seq<char>, t: Turn, self: int, k: char, land: (int, int))
    requires |hard| == CELLS && |base| == CELLS && Placed(t, self) && !t.changedFloor
    ensures var r := Step(hard, base, t, self, k, land);
      r.changedFloor ==> r.cs == t.cs && (k == '<' || k == '>') && base[Idx(t.cs[self].x, t.cs[self].y)] == k
  {
  }

  /** The state after the keys ks, none of which ends the turn. */
  ghost function Idle(hard: seq<int>, base: seq<char>, t: Turn, self: int, ks: seq<char>): (r: Turn)
    requires |hard| == CELLS && |base| == CELLS && Placed(t, self)
    requires forall i :: 0 <= i < |ks| ==> !Consumes(t, ks[i])
    ensures Placed(r, self) && r.cs == t.cs && r.pcIsAlive == t.pcIsAlive && r.changedFloor == t.changedFloor &&
            r.teleporting == t.teleporting
    ensures !t.teleporting ==> r == t
    decreases |ks|
  {
    if ks == [] then t
    else
      var s := Idle(hard, base, t, self, ks[..|ks| - 1]);
      assert !Consumes(t, ks[|ks| - 1]) && s.teleporting == t.teleporting;
      assert !Consumes(s, ks[|ks| - 1]);
      IdleStep(hard, base, s, self, ks[|ks| - 1], (0, 0));
      Step(hard, base, s, self, ks[|ks| - 1], (0, 0))
  }

  /** The monster list view reads keys until ESC: the position after it,
      or -1 when the keys run out first. */
  function ListEnd(keys: seq<char>, from: nat): (e: int)
    ensures e == -1 || from < e <= |keys|
    decreases |keys| - from
  {
    if from >= |keys| then -1
    else if keys[from] == ESC then from + 1
    else ListEnd(keys, from + 1)
  }

  lemma {:induction false} ListEndFacts(keys: seq<char>, from: nat)
    ensures var e := ListEnd(keys, from);
      (e == -1 <==> forall i :: from <= i < |keys| ==> keys[i] != ESC) &&
      (e != -1 ==> from < e <= |keys| && keys[e - 1] == ESC && forall i :: from <= i < e - 1 ==> keys[i] != ESC)
    decreases |keys| - from
  {
    if from < |keys| && keys[from] != ESC {
      ListEndFacts(keys, from + 1);
    }
  }

  // ------------------------------------------------------------ the methods

  /** The part of a level that one key can change. */
  function Snap(d: Dungeon): Turn
    reads d, d.pc
  {
    Turn(d.characters, d.pcIsAlive, d.changedFloor, d.pc.noFog, d.pc.teleporting, d.pc.teleportX, d.pc.teleportY)
  }

  /** The attack loop of a PC move (for each character: a live one other
      than the PC on the target dies, and when it is a PC and checks is set
      the level's PC is marked dead). */
  method SlayRoster(cs: seq<Character>, self: int, nx: int, ny: int, checks: bool) returns (r: seq<Character>, pcKilled: bool)
    ensures r == Slay(cs, self, nx, ny)
    ensures pcKilled == (checks && SlaysPc(cs, self, nx, ny))
  {
    r, pcKilled := cs, false;
    var i := 0;
    while i < |cs|
      invariant 0 <= i <= |cs| && |r| == |cs|
      invariant forall j :: 0 <= j < i ==> r[j] == Slay(cs, self, nx, ny)[j]
      invariant forall j :: i <= j < |cs| ==> r[j] == cs[j]
      invariant pcKilled == (checks && exists j :: 0 <= j < i && Hit(cs, self, nx, ny, j) && cs[j].kind == PCKind)
    {
      if r[i].alive && r[i].x == nx && r[i].y == ny && i != self {
        r := r[i := r[i].(alive := false)];
        if r[i].kind == PCKind && checks {
          pcKilled := true;
        }
      }
      i := i + 1;
    }
  }

  /** One key of PC::doTurn in normal mode. */
  method NormalKey(d: Dungeon, self: int, k: char) returns (used: bool)
    requires d.Valid() && Placed(Snap(d), self) && !d.pc.teleporting && d.RosterInBounds()
    modifies d, d.pc, d.display
    ensures d.Valid() && d.SameLayout()
    ensures used == NormalConsumes(k)
    ensures Snap(d) == NormalEffect(d.baseMap[..], old(Snap(d)), self, k)
    ensures k != 'm' ==> unchanged(d.display)
    ensures k == 'm' ==> forall i :: 0 <= i < CELLS ==> d.display[i] == Shown(d.baseMap[..], d.characters, i)
  {
    var p := d.characters[self];
    used := NormalConsumes(k);
    if IsMoveKey(k) {
      WalkKey(d, self, k);
    } else if k == '>' || k == '<' {
      if d.baseMap[Idx(p.x, p.y)] == k {
        d.changedFloor := true;
      }
    } else if k == 'm' {
      d.RebuildDisplay();
    } else if k == 'f' {
      d.pc.noFog := !d.pc.noFog;
    } else if k == 'g' {
      d.pc.teleporting, d.pc.teleportX, d.pc.teleportY := true, p.x, p.y;
    } else if k == 'Q' {
      QuitPc(d, self);
    }
  }

  /** A movement key in normal mode. */
  method WalkKey(d: Dungeon, self: int, k: char)
    requires d.Valid() && Placed(Snap(d), self) && !d.pc.teleporting && IsMoveKey(k)
    modifies d
    ensures d.SameLayout() && Snap(d) == NormalEffect(d.baseMap[..], old(Snap(d)), self, k)
  {
    var p := d.characters[self];
    var nx, ny := p.x + Delta(k).0, p.y + Delta(k).1;
    if InBounds(nx, ny) && PcCanWalkOn(d.baseMap[Idx(nx, ny)]) {
      var cs, killed := SlayRoster(d.characters, self, nx, ny, ChecksPcKind(k));
      SetRoster(d, cs[self := p.(x := nx, y := ny)], d.pcIsAlive && !killed);
    }
  }

  /** The PC leaves teleport mode standing on (x, y). */
  method LandPc(d: Dungeon, self: int, x: int, y: int)
    requires 0 <= self < |d.characters|
    modifies d, d.pc
    ensures d.characters == old(d.characters)[self := old(d.characters[self]).(x := x, y := y)]
    ensures !d.pc.teleporting && d.pc.noFog == old(d.pc.noFog)
    ensures d.pc.teleportX == old(d.pc.teleportX) && d.pc.teleportY == old(d.pc.teleportY)
    ensures d.pcIsAlive == old(d.pcIsAlive) && d.changedFloor == old(d.changedFloor) && d.SameLayout()
  {
    d.characters := d.characters[self := d.characters[self].(x := x, y := y)];
    d.pc.teleporting := false;
  }

  method SetRoster(d: Dungeon, cs: seq<Character>, alive: bool)
    modifies d
    ensures d.characters == cs && d.pcIsAlive == alive && d.changedFloor == old(d.changedFloor) && d.SameLayout()
  {
    d.characters, d.pcIsAlive := cs, alive;
  }

  /** The draw loop of the random teleport. */
  method RandomLanding(hard: array<int>, rnd: nat -> nat, pos: nat, fuel: nat) returns (l: Landing)
    requires hard.Length == CELLS
    ensures l == DrawLanding(hard[..], rnd, pos, fuel)
  {
    var p, f := pos, fuel;
    while f > 0
      invariant DrawLanding(hard[..], rnd, p, f) == DrawLanding(hard[..], rnd, pos, fuel)
      decreases f
    {
      var rx, ry := rnd(p) % WIDTH, rnd(p + 1) % HEIGHT;
      if hard[Idx(rx, ry)] != 255 {
        return Landed(rx, ry, p + 2);
      }
      p, f := p + 2, f - 1;
    }
    return NoLanding;
  }

  /** One key of PC::doTurn in teleport mode; a key that does not end the
      turn redraws the display. ok is false only when the random teleport
      runs out of draws, and then nothing changed. */
  method TeleportKey(d: Dungeon, self: int, k: char, rnd: nat -> nat, pos: nat, fuel: nat)
    returns (used: bool, next: nat, ok: bool, land: (int, int))
    requires d.Valid() && Placed(Snap(d), self) && d.pc.teleporting && d.RosterInBounds()
    modifies d, d.pc, d.display
    ensures d.Valid() && d.SameLayout() && InBounds(land.0, land.1)
    ensures ok == (k != 'r' || DrawLanding(d.hardness[..], rnd, pos, fuel).Landed?)
    ensures ok ==> used == TeleportConsumes(k) && Snap(d) == TeleportEffect(d.hardness[..], old(Snap(d)), self, k, land)
    ensures k == 'r' && ok ==>
      land == (DrawLanding(d.hardness[..], rnd, pos, fuel).x, DrawLanding(d.hardness[..], rnd, pos, fuel).y) &&
      next == DrawLanding(d.hardness[..], rnd, pos, fuel).next
    ensures !(k == 'r' && ok) ==> next == pos
    ensures !ok ==> Snap(d) == old(Snap(d))
    ensures ok && !used ==> forall i :: 0 <= i < CELLS ==> d.display[i] == Shown(d.baseMap[..], d.characters, i)
    ensures !ok || used ==> unchanged(d.display)
  {
    used, next, ok, land := TeleportConsumes(k), pos, true, (0, 0);
    if k == 'g' {
      TeleportToCursor(d, self);
    } else if k == 'r' {
      var l := RandomLanding(d.hardness, rnd, pos, fuel);
      DrawLandingValid(d.hardness[..], rnd, pos, fuel);
      if l.NoLanding? {
        ok := false;
        return;
      }
      land, next := (l.x, l.y), l.next;
      LandPc(d, self, l.x, l.y);
    } else if k == 'Q' {
      QuitPc(d, self);
    } else {
      CursorKey(d, self, k);
    }
  }

  /** 'g' in teleport mode. */
  method TeleportToCursor(d: Dungeon, self: int)
    requires d.Valid() && Placed(Snap(d), self) && d.pc.teleporting
    modifies d, d.pc
    ensures d.SameLayout() && Snap(d) == TeleportEffect(d.hardness[..], old(Snap(d)), self, 'g', (0, 0))
  {
    var p := d.characters[self];
    var cx, cy := d.pc.teleportX, d.pc.teleportY;
    if d.IsImmutableRock(cx, cy) {
      LandPc(d, self, p.x, p.y);
      assert d.characters == old(d.characters);
    } else {
      LandPc(d, self, cx, cy);
    }
  }

  /** 'Q' in either mode: the PC dies. */
  method QuitPc(d: Dungeon, self: int)
    requires 0 <= self < |d.characters|
    modifies d
    ensures d.characters == old(d.characters)[self := old(d.characters[self]).(alive := false)] && !d.pcIsAlive
    ensures d.changedFloor == old(d.changedFloor) && d.SameLayout()
  {
    d.characters, d.pcIsAlive := d.characters[self := d.characters[self].(alive := false)], false;
  }

  /** A teleport-mode key that does not end the turn: cursor moves, the fog
      toggle, and others that do nothing; the display is redrawn. */
  method CursorKey(d: Dungeon, self: int, k: char)
    requires d.Valid() && Placed(Snap(d), self) && d.pc.teleporting && d.RosterInBounds() && !TeleportConsumes(k)
    modifies d.pc, d.display
    ensures Snap(d) == TeleportEffect(d.hardness[..], old(Snap(d)), self, k, (0, 0))
    ensures forall i :: 0 <= i < CELLS ==> d.display[i] == Shown(d.baseMap[..], d.characters, i)
  {
    var cx, cy := d.pc.teleportX, d.pc.teleportY;
    if IsMoveKey(k) {
      var nx, ny := cx + Delta(k).0, cy + Delta(k).1;
      if InBounds(nx, ny) {
        d.pc.teleportX, d.pc.teleportY := nx, ny;
      }
    } else if k == 'f' {
      d.pc.noFog := !d.pc.noFog;
    }
    d.RebuildDisplay();
  }

  /** The key loop of the monster list view. */
  method SkipMonsterList(keys: seq<char>, from: nat) returns (e: int)
    ensures e == ListEnd(keys, from)
  {
    var i := from;
    while i < |keys|
      invariant from <= i
      invariant ListEnd(keys, i) == ListEnd(keys, from)
      decreases |keys| - i
    {
      if keys[i] == ESC {
        return i + 1;
      }
      i := i + 1;
    }
    return -1;
  }

  /** One key in the PC's current mode. */
  method OneKey(d: Dungeon, self: int, k: char, rnd: nat -> nat, rpos: nat, fuel: nat)
    returns (used: bool, rnext: nat, ok: bool, land: (int, int))
    requires d.Valid() && Placed(Snap(d), self) && d.RosterInBounds()
    requires forall i :: 0 <= i < CELLS ==> d.display[i] == Shown(d.baseMap[..], d.characters, i)
    modifies d, d.pc, d.display
    ensures d.Valid() && d.SameLayout() && InBounds(land.0, land.1)
    ensures ok == (!old(d.pc.teleporting) || k != 'r' || DrawLanding(d.hardness[..], rnd, rpos, fuel).Landed?)
    ensures ok ==> used == Consumes(old(Snap(d)), k) &&
                   Snap(d) == Step(d.hardness[..], d.baseMap[..], old(Snap(d)), self, k, land)
    ensures ok && old(d.pc.teleporting) && k == 'r' ==>
      var l := DrawLanding(d.hardness[..], rnd, rpos, fuel); land == (l.x, l.y) && rnext == l.next
    ensures !(ok && old(d.pc.teleporting) && k == 'r') ==> rnext == rpos
    ensures !ok ==> Snap(d) == old(Snap(d))
    ensures ok && !used ==> forall i :: 0 <= i < CELLS ==> d.display[i] == Shown(d.baseMap[..], d.characters, i)
    ensures !ok || (used && k != 'm') ==> unchanged(d.display)
    ensures used && k == 'm' && !old(d.pc.teleporting) ==>
      forall i :: 0 <= i < CELLS ==> d.display[i] == Shown(d.baseMap[..], d.characters, i)
  {
    if d.pc.teleporting {
      used, rnext, ok, land := TeleportKey(d, self, k, rnd, rpos, fuel);
    } else {
      used := NormalKey(d, self, k);
      rnext, ok, land := rpos, true, (0, 0);
    }
  }

  /** The key loop of PC::doTurn. */
  method ReadKeys(d: Dungeon, self: int, keys: seq<char>, kpos: nat, rnd: nat -> nat, rpos: nat, fuel: nat)
    returns (knext: nat, rnext: nat, ok: bool, last: nat, land: (int, int))
    requires d.Valid() && Placed(Snap(d), self) && d.RosterInBounds() && kpos <= |keys|
    requires forall i :: 0 <= i < CELLS ==> d.display[i] == Shown(d.baseMap[..], d.characters, i)
    modifies d, d.pc, d.display
    ensures d.Valid() && d.SameLayout() && InBounds(land.0, land.1)
    ensures forall i :: 0 <= i < CELLS ==> d.display[i] == Shown(d.baseMap[..], old(d.characters), i)
    ensures ok ==>
      kpos <= last < knext <= |keys| && Consumes(old(Snap(d)), keys[last]) &&
      (forall i :: kpos <= i < last ==> !Consumes(old(Snap(d)), keys[i])) &&
      Snap(d) == Step(d.hardness[..], d.baseMap[..], Idle(d.hardness[..], d.baseMap[..], old(Snap(d)), self, keys[kpos..last]),
                      self, keys[last], land) &&
      knext == (if !old(d.pc.teleporting) && keys[last] == 'm' then ListEnd(keys, last + 1) else last + 1)
    ensures ok && old(d.pc.teleporting) && keys[last] == 'r' ==>
      var l := DrawLanding(d.hardness[..], rnd, rpos, fuel); l.Landed? && land == (l.x, l.y) && rnext == l.next
    ensures !(ok && old(d.pc.teleporting) && keys[last] == 'r') ==> rnext == rpos
    ensures !ok ==> d.characters == old(d.characters) && d.pcIsAlive == old(d.pcIsAlive) && d.changedFloor == old(d.changedFloor)
    ensures !ok ==> Placed(Snap(d), self)
  {
    ghost var t0 := Snap(d);
    var teleportMode := d.pc.teleporting;
    ghost var H, B := d.hardness[..], d.baseMap[..];
    rnext, ok, land := rpos, false, (0, 0);
    last := SkipIdleKeys(d, self, keys, kpos);
    knext := last;
    if last == |keys| {
      return;
    }
    var used, stepOk;
    used, rnext, stepOk, land := OneKey(d, self, keys[last], rnd, rpos, fuel);
    if !stepOk {
      return;
    }
    ok, knext := true, last + 1;
    if !teleportMode && keys[last] == 'm' {
      var e := SkipMonsterList(keys, knext);
      ListEndFacts(keys, knext);
      if e < 0 {
        ok := false;
        return;
      }
      knext := e;
    }
  }

  /** The keys that leave the turn open, executed up to the first one that
      ends it (or to the end of the keys). */
  method SkipIdleKeys(d: Dungeon, self: int, keys: seq<char>, kpos: nat) returns (last: nat)
    requires d.Valid() && Placed(Snap(d), self) && d.RosterInBounds() && kpos <= |keys|
    requires forall i :: 0 <= i < CELLS ==> d.display[i] == Shown(d.baseMap[..], d.characters, i)
    modifies d.pc, d.display
    ensures d.Valid() && d.RosterInBounds() && kpos <= last <= |keys|
    ensures forall i :: kpos <= i < last ==> !Consumes(old(Snap(d)), keys[i])
    ensures last < |keys| ==> Consumes(old(Snap(d)), keys[last])
    ensures Snap(d) == Idle(d.hardness[..], d.baseMap[..], old(Snap(d)), self, keys[kpos..last])
    ensures forall i :: 0 <= i < CELLS ==> d.display[i] == Shown(d.baseMap[..], d.characters, i)
  {
    ghost var t0 := Snap(d);
    ghost var H, B := d.hardness[..], d.baseMap[..];
    last := kpos;
    while last < |keys| && !Consumes(Snap(d), keys[last])
      invariant kpos <= last <= |keys| && d.Valid()
      invariant forall i :: kpos <= i < last ==> !Consumes(t0, keys[i])
      invariant Snap(d) == Idle(H, B, t0, self, keys[kpos..last])
      invariant forall i :: 0 <= i < CELLS ==> d.display[i] == Shown(B, t0.cs, i)
      modifies d.pc, d.display
      decreases |keys| - last
    {
      var k := keys[last];
      if d.pc.teleporting {
        CursorKey(d, self, k);
      }
      IdleStep(H, B, Idle(H, B, t0, self, keys[kpos..last]), self, k, (0, 0));
      assert keys[kpos..last + 1] == keys[kpos..last] + [k];
      last := last + 1;
    }
  }

  /** Everything PC::doTurn does before it reads a key. */
  method PrepareTurn(d: Dungeon, self: int)
    requires d.Valid() && Placed(Snap(d), self) && d.RosterInBounds()
    modifies d.display, d.disTunneling, d.disNonTunneling, d.pc.rememberedMap
    ensures IsDistanceField(false, d.hardness[..], d.disNonTunneling[..], Idx(d.characters[self].x, d.characters[self].y))
    ensures IsDistanceField(true, d.hardness[..], d.disTunneling[..], Idx(d.characters[self].x, d.characters[self].y))
    ensures forall i :: 0 <= i < CELLS ==>
              d.pc.rememberedMap[i] == if IsVisible(d.characters[self].x, d.characters[self].y, X(i), Y(i))
                                       then d.baseMap[i] else old(d.pc.rememberedMap[i])
    ensures forall i :: 0 <= i < CELLS ==> d.display[i] == Shown(d.baseMap[..], d.characters, i)
  {
    var p := d.characters[self];
    d.DijkstraForNonTunnel(p.x, p.y);
    d.DijkstraForTunnel(p.x, p.y);
    d.RebuildDisplay();
    d.pc.UpdateRemembered(d.baseMap, p.x, p.y);
  }

  /** PC::doTurn: recompute both distance fields from the PC, redraw, update
      the fog memory, then read keys until one ends the turn. On success,
      last is that key: every key before it left the turn open, and the
      level is that key's Step from the state those keys produced. Not ok
      means the keys ran out (or a random teleport ran out of draws) first,
      and no character or level flag changed. */
  method PcTurn(d: Dungeon, self: int, keys: seq<char>, kpos: nat, rnd: nat -> nat, rpos: nat, fuel: nat)
    returns (knext: nat, rnext: nat, ok: bool, last: nat, land: (int, int))
    requires d.Valid() && Placed(Snap(d), self) && d.RosterInBounds() && kpos <= |keys|
    modifies d, d.pc, d.display, d.disTunneling, d.disNonTunneling, d.pc.rememberedMap
    ensures d.Valid() && d.SameLayout() && unchanged(d.hardness, d.baseMap)
    ensures Placed(Snap(d), self) && d.RosterInBounds() && Shape(old(d.characters), d.characters, self)
    ensures IsDistanceField(false, d.hardness[..], d.disNonTunneling[..], Idx(old(d.characters[self].x), old(d.characters[self].y)))
    ensures IsDistanceField(true, d.hardness[..], d.disTunneling[..], Idx(old(d.characters[self].x), old(d.characters[self].y)))
    ensures forall i :: 0 <= i < CELLS ==>
              d.pc.rememberedMap[i] == if IsVisible(old(d.characters[self].x), old(d.characters[self].y), X(i), Y(i))
                                       then d.baseMap[i] else old(d.pc.rememberedMap[i])
    ensures forall i :: 0 <= i < CELLS ==> d.display[i] == Shown(d.baseMap[..], old(d.characters), i)
    ensures ok ==>
      kpos <= last < knext <= |keys| && Consumes(old(Snap(d)), keys[last]) &&
      (forall i :: kpos <= i < last ==> !Consumes(old(Snap(d)), keys[i])) &&
      Snap(d) == Step(d.hardness[..], d.baseMap[..], Idle(d.hardness[..], d.baseMap[..], old(Snap(d)), self, keys[kpos..last]),
                      self, keys[last], land) &&
      knext == (if !old(d.pc.teleporting) && keys[last] == 'm' then ListEnd(keys, last + 1) else last + 1)
    ensures ok && old(d.pc.teleporting) && keys[last] == 'r' ==>
      var l := DrawLanding(d.hardness[..], rnd, rpos, fuel); l.Landed? && land == (l.x, l.y) && rnext == l.next
    ensures !(ok && old(d.pc.teleporting) && keys[last] == 'r') ==> rnext == rpos
    ensures !ok ==> d.characters == old(d.characters) && d.pcIsAlive == old(d.pcIsAlive) && d.changedFloor == old(d.changedFloor)
    ensures !old(d.changedFloor) && d.changedFloor ==>
      d.baseMap[Idx(d.characters[self].x, d.characters[self].y)] == '<' || d.baseMap[Idx(d.characters[self].x, d.characters[self].y)] == '>'
  {
    PrepareTurn(d, self);
    ghost var t0 := Snap(d);
    knext, rnext, ok, last, land := ReadKeys(d, self, keys, kpos, rnd, rpos, fuel);
    if ok {
      ghost var idle := Idle(d.hardness[..], d.baseMap[..], t0, self, keys[kpos..last]);
      StepKeepsShape(d.hardness[..], d.baseMap[..], idle, self, keys[last], land);
      if !t0.changedFloor {
        StepFloorChange(d.hardness[..], d.baseMap[..], idle, self, keys[last], land);
      }
    }
  }

  /** PcTurn followed by what the C main loop does after the PC's input and
      PC::doTurn omits: while the PC lives, the level's recorded PC position
      (pc_x, pc_y), which monsters steer and strike by, follows the PC. */
  method PcTurnSynced(d: Dungeon, self: int, keys: seq<char>, kpos: nat, rnd: nat -> nat, rpos: nat, fuel: nat)
    returns (knext: nat, rnext: nat, ok: bool, last: nat, land: (int, int))
    requires d.Valid() && Placed(Snap(d), self) && d.RosterInBounds() && kpos <= |keys|
    modifies d, d.pc, d.display, d.disTunneling, d.disNonTunneling, d.pc.rememberedMap
    ensures d.Valid() && d.SameRoomsAndStairs() && unchanged(d.hardness, d.baseMap)
    ensures Placed(Snap(d), self) && d.RosterInBounds() && Shape(old(d.characters), d.characters, self)
    ensures d.pcIsAlive ==> d.pcX == d.characters[self].x && d.pcY == d.characters[self].y
    ensures !d.pcIsAlive ==> d.pcX == old(d.pcX) && d.pcY == old(d.pcY)
    ensures forall i :: 0 <= i < CELLS ==> d.display[i] == Shown(d.baseMap[..], old(d.characters), i)
    ensures ok ==>
      kpos <= last < knext <= |keys| && Consumes(old(Snap(d)), keys[last]) &&
      (forall i :: kpos <= i < last ==> !Consumes(old(Snap(d)), keys[i])) &&
      Snap(d) == Step(d.hardness[..], d.baseMap[..], Idle(d.hardness[..], d.baseMap[..], old(Snap(d)), self, keys[kpos..last]),
                      self, keys[last], land)
    ensures !ok ==> d.characters == old(d.characters) && d.pcIsAlive == old(d.pcIsAlive) && d.changedFloor == old(d.changedFloor)
    ensures !old(d.changedFloor) && d.changedFloor ==>
      d.baseMap[Idx(d.characters[self].x, d.characters[self].y)] == '<' || d.baseMap[Idx(d.characters[self].x, d.characters[self].y)] == '>'
  {
    knext, rnext, ok, last, land := PcTurn(d, self, keys, kpos, rnd, rpos, fuel);
    if d.pcIsAlive {
      d.pcX, d.pcY := d.characters[self].x, d.characters[self].y;
    }
  }

  /** As written, PC::doTurn moves the PC but leaves pc_x, pc_y where the
      level put it: after the PC steps east from (1, 1) a plain monster at
      (3, 1) steers for (1, 1), lands on the PC's cell (2, 1), and the strike
      test, which compares with (1, 1), lets the PC live. */
  lemma StalePcPosition()
    ensures var base := seq(CELLS, _ => '.');
      var t := Turn([NewPcCharacter(1, 1), NewNpc(0, 3, 1, 10, 10)], true, false, false, false, 0, 0);
      var after := NormalEffect(base, t, 0, 'l');
      after.cs[0].x == 2 && after.cs[0].y == 1 &&
      NpcTarget(after.cs[1], 1, 1, seq(CELLS, _ => 0), seq(CELLS, _ => 0), (_: nat) => 0, 0, 0, 2, 1) &&
      (2, 1) != (1, 1)
  {
    var base := seq(CELLS, _ => '.');
    var t := Turn([NewPcCharacter(1, 1), NewNpc(0, 3, 1, 10, 10)], true, false, false, false, 0, 0);
    assert base[Idx(2, 1)] == '.';
    var after := NormalEffect(base, t, 0, 'l');
    assert after.cs[1] == t.cs[1];
  }

  // ------------------------------------------------ the C handle_pc_input

  /** What a key changes in the C variant: the roster, the PC flag, the
      display, and whether the PC asked for a new level on matching stairs
      (where the C code calls new_level). */
  datatype InputC = InputC(cs: seq<Character>, pcIsAlive: bool, display: seq<char>, stairs: bool)

  /** Keys that end the turn in handle_pc_input; 'm' shows the list and
      reads on. */
  predicate ConsumesC(k: char) {
    IsMoveKey(k) || k in "><5 .Q"
  }

  /** One turn-ending key of handle_pc_input: moves test walkability on the
      display rather than the base map, every direction marks the level's PC
      dead when the attack strikes a PC, the display is redrawn under and at
      the PC, and 'Q' clears only the level's PC flag. */
  function InputCEffect(disp: seq<char>, base: seq<char>, cs: seq<Character>, alive: bool, self: int, k: char): InputC
    requires |disp| == CELLS && |base| == CELLS && 0 <= self < |cs| && InBounds(cs[self].x, cs[self].y)
  {
    var p := cs[self];
    if IsMoveKey(k) then
      var nx, ny := p.x + Delta(k).0, p.y + Delta(k).1;
      if InBounds(nx, ny) && PcCanWalkOn(disp[Idx(nx, ny)]) then
        InputC(Slay(cs, self, nx, ny)[self := p.(x := nx, y := ny)],
               alive && !(exists i :: 0 <= i < |cs| && Hit(cs, self, nx, ny, i) && cs[i].kind == PCKind),
               disp[Idx(p.x, p.y) := base[Idx(p.x, p.y)]][Idx(nx, ny) := '@'], false)
      else InputC(cs, alive, disp, false)
    else if k == '>' || k == '<' then InputC(cs, alive, disp, base[Idx(p.x, p.y)] == k)
    else if k == 'Q' then InputC(cs, false, disp, false)
    else InputC(cs, alive, disp, false)
  }

  /** A key of the C input keeps the roster's shape and the PC on the grid,
      and a stair key moves no one. */
  lemma InputCKeepsShape(disp: seq<char>, base: seq<char>, cs: seq<Character>, alive: bool, self: int, k: char)
    requires |disp| == CELLS && |base| == CELLS && 0 <= self < |cs| && InBounds(cs[self].x, cs[self].y)
    ensures var r := InputCEffect(disp, base, cs, alive, self, k);
      Shape(cs, r.cs, self) && InBounds(r.cs[self].x, r.cs[self].y) && (r.stairs ==> r.cs == cs && r.pcIsAlive == alive && (k == '<' || k == '>'))
  {
    if IsMoveKey(k) {
      var nx, ny := cs[self].x + Delta(k).0, cs[self].y + Delta(k).1;
      if InBounds(nx, ny) && PcCanWalkOn(disp[Idx(nx, ny)]) {
        SlayClearsCell(cs, self, nx, ny);
      }
    }
  }

  /** While the display is current and no character's symbol is walkable,
      the C move never lands on a live character: its attack strikes no one. */
  lemma CAttackStrikesNoOne(disp: seq<char>, base: seq<char>, cs: seq<Character>, self: int, nx: int, ny: int)
    requires |disp| == CELLS && |base| == CELLS && InBounds(nx, ny)
    requires disp[Idx(nx, ny)] == Shown(base, cs, Idx(nx, ny)) && PcCanWalkOn(disp[Idx(nx, ny)])
    requires forall j :: 0 <= j < |cs| ==> !PcCanWalkOn(cs[j].symbol)
    ensures Slay(cs, self, nx, ny) == cs
  {
    ShownCell(base, cs, Idx(nx, ny));
  }

  /** The first turn-ending key at or after from, skipping the keys each
      monster list view reads; -1 when the keys run out first. */
  function NextKeyC(keys: seq<char>, from: nat): (r: int)
    ensures r == -1 || (from <= r < |keys| && ConsumesC(keys[r]))
    decreases |keys| - from
  {
    if from >= |keys| then -1
    else if ConsumesC(keys[from]) then from
    else if keys[from] == 'm' then
      var e := ListEnd(keys, from + 1);
      if e < 0 then -1 else NextKeyC(keys, e)
    else NextKeyC(keys, from + 1)
  }

  /** Without a list view among the keys, the C loop stops at the first
      turn-ending key, and runs out exactly when there is none. */
  lemma {:induction false} NextKeyCPlain(keys: seq<char>, from: nat)
    requires forall i :: from <= i < |keys| ==> keys[i] != 'm'
    ensures var r := NextKeyC(keys, from);
      (r == -1 <==> forall i :: from <= i < |keys| ==> !ConsumesC(keys[i])) &&
      (r != -1 ==> forall i :: from <= i < r ==> !ConsumesC(keys[i]))
    decreases |keys| - from
  {
    if from < |keys| && !ConsumesC(keys[from]) {
      NextKeyCPlain(keys, from + 1);
    }
  }

  /** handle_pc_input: read keys until one ends the turn and apply it. */
  method PcInputC(d: Dungeon, self: int, keys: seq<char>, kpos: nat) returns (knext: nat, ok: bool, stairs: bool)
    requires d.Valid() && 0 <= self < |d.characters| && InBounds(d.characters[self].x, d.characters[self].y)
    modifies d, d.display
    ensures d.Valid() && d.SameLayout() && d.changedFloor == old(d.changedFloor)
    ensures ok == (NextKeyC(keys, kpos) >= 0)
    ensures ok ==>
      knext == NextKeyC(keys, kpos) + 1 &&
      InputC(d.characters, d.pcIsAlive, d.display[..], stairs) ==
      InputCEffect(old(d.display[..]), d.baseMap[..], old(d.characters), old(d.pcIsAlive), self, keys[knext - 1])
    ensures !ok ==> d.characters == old(d.characters) && d.pcIsAlive == old(d.pcIsAlive) && unchanged(d.display) && !stairs
  {
    var i := NextKeyLoop(keys, kpos);
    stairs := false;
    if i < 0 {
      ok, knext := false, kpos;
      return;
    }
    ok, knext := true, i + 1;
    var k := keys[i];
    var p := d.characters[self];
    if IsMoveKey(k) {
      WalkC(d, self, k);
    } else if k == '>' || k == '<' {
      stairs := d.baseMap[Idx(p.x, p.y)] == k;
    } else if k == 'Q' {
      d.pcIsAlive := false;
    }
  }

  /** A movement key of handle_pc_input. */
  method WalkC(d: Dungeon, self: int, k: char)
    requires d.Valid() && 0 <= self < |d.characters| && InBounds(d.characters[self].x, d.characters[self].y) && IsMoveKey(k)
    modifies d, d.display
    ensures d.SameLayout() && d.changedFloor == old(d.changedFloor)
    ensures InputC(d.characters, d.pcIsAlive, d.display[..], false) ==
            InputCEffect(old(d.display[..]), d.baseMap[..], old(d.characters), old(d.pcIsAlive), self, k)
  {
    var p := d.characters[self];
    var nx, ny := p.x + Delta(k).0, p.y + Delta(k).1;
    if InBounds(nx, ny) && PcCanWalkOn(d.display[Idx(nx, ny)]) {
      var cs, killed := SlayRoster(d.characters, self, nx, ny, true);
      Put(d.display, Idx(p.x, p.y), d.baseMap[Idx(p.x, p.y)]);
      SetRoster(d, cs[self := p.(x := nx, y := ny)], d.pcIsAlive && !killed);
      Put(d.display, Idx(nx, ny), '@');
    }
  }

  /** The key loop of handle_pc_input up to the key that ends the turn. */
  method NextKeyLoop(keys: seq<char>, kpos: nat) returns (i: int)
    ensures i == NextKeyC(keys, kpos)
  {
    var j := kpos;
    while j < |keys| && !ConsumesC(keys[j])
      invariant kpos <= j
      invariant NextKeyC(keys, j) == NextKeyC(keys, kpos)
      decreases |keys| - j
    {
      if keys[j] == 'm' {
        var e := SkipMonsterList(keys, j + 1);
        if e < 0 {
          return -1;
        }
        j := e;
      } else {
        j := j + 1;
      }
    }
    if j >= |keys| {
      return -1;
    }
    return j;
  }
}
