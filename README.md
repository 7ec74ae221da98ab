# A verified model of the RLG327 dungeon engine

This project models the core of a turn-based roguelike engine written twice: a C++ version with classes (`Dungeon.cpp`) and a C version with global arrays (`DungeonGeneration.c`). The model follows the C++ version. Where a C function behaves differently, the model adds a separate variant whose name ends in `C`. The C functions that do exactly what their C++ counterparts do share the C++ model: room placement, corridors, stairs, the grid reset and Dijkstra.

The engine works on fixed 80 x 21 grids, stored here as flat row-major arrays of 1680 cells.

- **Terrain.** Each cell has a hardness in 0..255. The border is 255 (immutable rock) and 0 is open floor or corridor.
- **Level generation.** Rooms are placed by rejection sampling, at most six of them. L-shaped corridors join consecutive room centres. One up and one down staircase go on distinct floor or corridor cells.
- **Distance fields.** Two Dijkstra fields are computed from the PC over the 8-neighbour grid:
  - tunneling: a cell may be entered unless its hardness is 255, at cost 1 + h/85;
  - non-tunneling: only cells of hardness 0 may be entered, at cost 1.
- **Turns:**
  - a monster moves erratically, greedily, or by the distance field, depending on its behaviour bits;
  - a tunneling monster erodes rock;
  - the player moves and attacks in one step, uses stairs, toggles the fog, and teleports;
  - the fog memory is updated from the cells the PC lights.
- **Scheduler.** A time-keyed binary min-heap runs each actor at `t + 1000/speed`.
- **Save file.** A big-endian binary format. On load, the map is derived from the hardness grid, the rooms and the stairs.

How the source's features are represented:

- **Heaps.** Both versions use array-backed binary min-heaps.
  - `Heap.MinHeap` stands for the C++ `std::vector` heaps (`EventQueue` and `NodeHeap`).
  - `Heap.BoundedHeap` stands for the C heaps: a malloc'd array of fixed capacity with a size counter.
  - The key is a function fixed when the heap is created: time for events, distance for Dijkstra nodes.
- **Level.** `Level.Dungeon` is a class whose grids are arrays updated in place. The roster of characters is a sequence of `Level.Character` values that the methods reassign.
- **PC-only state.** The fog memory, the fog flag and the teleport cursor live in `Level.PC`.
- **Randomness.** Random draws come from a parameter `rnd: nat -> nat` read at explicit positions, so every rule is deterministic.
- **Unbounded retry loops.** The stair search, the monster placement and the random teleport take a fuel bound and report when it runs out.
- **Keys and the turn loop.** The player's keys are a parameter sequence. The turn loop takes a step budget.
- **Save file format.** The codec is pure `Encode`/`Decode` over `seq<byte>`. `Codec.LoadDungeon` applies a decoded file to a level.

## Model

| member | source | states |
|---|---|---|
| Grid.InBounds | Dungeon.cpp:316-318 | inBounds: a cell is on the grid exactly when 0 <= x < 80 and 0 <= y < 21; every grid index of the model is guarded by it |
| Grid.IdxInjective | Dungeon.cpp:263-267 | distinct in-bounds (x, y) pairs address distinct cells of the flattened [HEIGHT][WIDTH] grids, and the same pair always addresses the same cell |
| Heap.RootIsMinimum | Dungeon.cpp:158-164 | in a sequence with heap order, the element at index 0 has a key no larger than any other element's, so `pop` takes a minimum |
| Heap.Swap | Dungeon.cpp:175 | `std::swap` of two heap slots keeps the length and the multiset of elements |
| Heap.SiftUpStep | Dungeon.cpp:171-181 | when the only order violation is between i and its parent, swapping them moves the only possible violation up to the parent |
| Heap.SiftUpDone | Dungeon.cpp:172-179 | heapifyUp may stop when i is the root or its parent's key is not larger: the whole sequence is then a heap |
| Heap.SiftDownStep | Dungeon.cpp:182-197 | when heap order fails only below i, swapping i with its smallest child moves the only possible violation down to that child |
| Heap.SiftDownDone | Dungeon.cpp:193 | heapifyDown may stop when i holds its family's minimum: the sequence is then a heap |
| Heap.FamilyMinimum | Dungeon.cpp:186-192 | the two comparisons of heapifyDown pick a position among i, 2i+1 and 2i+2 whose key is minimal among i and its children |
| Heap.RemoveRoot | Dungeon.cpp:160-162 | moving the last element to the root and dropping the last slot shortens the heap by one and removes exactly one copy of the old root from the multiset |
| Heap.RemoveRootOrder | Dungeon.cpp:160-163 | after moving the last element to the root, heap order can fail only between the root and its children |
| Heap.ChildrenOf | Dungeon.cpp:167-169 | the children of i, under parentIdx, are exactly leftIdx(i) = 2i+1 and rightIdx(i) = 2i+2 |
| Heap.MinHeap.constructor | Dungeon.cpp:147-149 | a new queue is empty, in heap order, with the given key |
| Heap.MinHeap.Empty | Dungeon.cpp:151 | `empty()` holds exactly when the heap has no element |
| Heap.MinHeap.Push | Dungeon.cpp:153-156 | push keeps heap order, adds exactly the new element to the multiset, and grows the heap by one |
| Heap.MinHeap.Pop | Dungeon.cpp:158-164 | pop returns an element of the heap whose key is minimal, removes exactly that element from the multiset, shrinks by one and keeps heap order |
| Heap.MinHeap.SiftUp | Dungeon.cpp:171-181 | heapifyUp turns a heap broken only at `start` into a heap with the same multiset |
| Heap.MinHeap.SiftDown | Dungeon.cpp:182-197 | heapifyDown turns a heap broken only below `start` into a heap with the same multiset |
| Heap.MinHeap.SmallestOfFamily | Dungeon.cpp:183-192 | the index chosen is i or one of its children, holds the family's minimum key, and has a strictly smaller key than i whenever it is not i |
| Heap.BoundedHeap.constructor | DungeonGeneration.c:544-547 | init_event_queue gives an empty heap over a fresh array of the requested capacity |
| Heap.BoundedHeap.Insert | DungeonGeneration.c:529-533 | eq_push / insertNode, called when there is room (neither checks): keep heap order, add exactly the element, and raise size by one |
| Heap.BoundedHeap.DeleteMin | DungeonGeneration.c:534-540 | eq_pop / deleteFromHeap return an element of minimum key from a non-empty heap, remove exactly it, lower size by one and keep heap order |
| Heap.BoundedHeap.Exchange | DungeonGeneration.c:503-505 | swap_events exchanges two live slots and nothing else |
| Heap.BoundedHeap.SiftUp | DungeonGeneration.c:510-518 | eq_heapify_up restores heap order and keeps the multiset of the live slots |
| Heap.BoundedHeap.SiftDown | DungeonGeneration.c:519-528 | eq_heapify_down restores heap order and keeps the multiset of the live slots |
| Heap.BoundedHeap.SmallestOfFamily | DungeonGeneration.c:521-523 | the comparisons against `size` pick i or a live child holding the family's minimum, strictly smaller than i when it is not i |
| PathField.InitialInv | Dungeon.cpp:341-348 | after every cell is set to INT32_MAX, the source is set to 0 and its node is queued, the loop invariant holds |
| PathField.PopStale | Dungeon.cpp:356-357 | dropping a popped entry whose distance exceeds the cell's record keeps the loop invariant |
| PathField.PopFresh | Dungeon.cpp:356-359 | popping the live entry of a cell starts the relaxation of its eight edges with the invariant in place |
| PathField.SkipEdge | Dungeon.cpp:362-369 | an off-grid neighbour, an impassable one, or one already no worse than `dist[u] + cost` needs no relaxation |
| PathField.RelaxEdge | Dungeon.cpp:368-372 | lowering a neighbour's record to `dist[u] + cost` and queueing its node keeps every part of the invariant |
| PathField.InnerDone | Dungeon.cpp:359-374 | once all eight edges of u are relaxed, u is settled and the main-loop invariant holds again |
| PathField.EmptyHeapDone | Dungeon.cpp:355 | when the heap is empty, the field is the source's distance field: the source is 0, every other impassable cell stays INT32_MAX, every edge into a passable neighbour satisfies `dist[v] <= dist[u] + cost(v)`, and every reached cell has a neighbour accounting for its distance |
| PathField.PathBound | Dungeon.cpp:340-376 | in a distance field, no walk from the source through enterable cells costs less than the distance recorded at its end |
| PathField.ReachedHasWalk | Dungeon.cpp:340-376 | every cell with a finite distance ends a walk from the source whose cost is exactly that distance; with PathBound, the recorded distances are the least walk costs |
| PathField.PredOf | Dungeon.cpp:368-371 | a reached cell other than the source has an adjacent cell with a strictly smaller distance from which it was relaxed |
| PathField.Improve | Dungeon.cpp:369-371 | recording a better distance changes only that cell of the field and queues exactly the new node |
| PathField.RelaxDirection | Dungeon.cpp:360-372 | one iteration of the neighbour loop keeps the invariant and either lowers the sum of the field or leaves the field and the heap size unchanged |
| PathField.RelaxNeighbours | Dungeon.cpp:359-374 | the neighbour loop settles u and restores the main-loop invariant |
| PathField.SettleNext | Dungeon.cpp:355-375 | one pop-and-relax iteration keeps the invariant and makes progress: the field's sum drops, or the heap shrinks with the field unchanged |
| PathField.Dijkstra | Dungeon.cpp:340-376 | the whole procedure, in either mode, terminates with the distance field from (x, y) described under EmptyHeapDone |
| Level.NewNpc | Dungeon.cpp:115-128 | the NPC constructor gives a live NPC with the given flags whose symbol is a hex digit |
| Level.NpcSymbolNibble | Dungeon.cpp:126-127 | two NPCs get the same symbol exactly when their flags agree in the low nibble (`hex_map[btype & 0x0F]`) |
| Level.IsVisible | Dungeon.cpp:105-110 | PC::isVisible: (x2, y2) is lit when dx² + dy² <= PC_LIGHT_RADIUS² = 9 from the PC; VisibleIsLit gives the shape this describes |
| Level.VisibleWithinSquare | Dungeon.cpp:878-881 | every cell isVisible accepts lies in the 7 x 7 square that updateRemembered scans |
| Level.VisibleIsLit | Dungeon.cpp:105-110 | isVisible (dx² + dy² <= 9) accepts exactly the 5 x 5 square plus the four cells three steps away along an axis |
| Level.PcCanWalkOn | Dungeon.cpp:326-328 | pcCanWalkOn: the PC may enter exactly the cells showing floor '.', corridor '#' or a staircase '<' or '>' |
| Level.NumAliveMonstersBound | Dungeon.cpp:424-432 | the live-NPC count is at most the roster's length, and it is zero exactly when no NPC of the roster is alive |
| Level.NumAliveMonstersKill | Dungeon.cpp:424-432 | killing one live NPC lowers the count by exactly one |
| Level.NumAliveMonstersSame | Dungeon.cpp:424-432 | a change to an entry that keeps its kind and aliveness keeps the count |
| Level.ShownCell | Dungeon.cpp:330-337 | after rebuildDisplay, a cell where no live character stands shows the base map; any other cell shows the base map or the symbol of a live character standing there |
| Level.PC.constructor | Dungeon.cpp:82-97 | a new PC's fog memory is all blank, fog is on and teleport mode is off |
| Level.PC.UpdateRemembered | Dungeon.cpp:877-887 | the remembered map becomes the base map exactly on the in-bounds cells with dx² + dy² <= 9 and is unchanged everywhere else |
| Level.PC.RememberRow | Dungeon.cpp:879-885 | one row of the scan copies exactly the lit cells of that row and leaves every other cell unchanged |
| Level.Dungeon.constructor | Dungeon.cpp:287-307 | a new level has no characters, rooms or stairs; the PC is alive; every hardness is 0, every map cell blank, and both distance fields INT32_MAX |
| Level.Dungeon.IsImmutableRock | Dungeon.cpp:319-321 | isImmutableRock: a cell is immutable rock exactly when its hardness is 255 |
| Level.Dungeon.DijkstraForTunnel | Dungeon.cpp:340-376 | disTunneling becomes the tunneling distance field from (x, y): 0 at the source, INT32_MAX on immutable rock, and every edge into a cell of hardness below 255 relaxed with cost 1 + h/85 |
| Level.Dungeon.DijkstraForNonTunnel | Dungeon.cpp:379-413 | disNonTunneling becomes the open-floor distance field from (x, y): 0 at the source, INT32_MAX on every other cell of nonzero hardness, and every edge into a hardness-0 cell relaxed with cost 1 |
| Level.Dungeon.CountMonsters | Dungeon.cpp:424-432 | countMonsters returns the number of live NPCs in the roster |
| Level.Dungeon.CreatePC | Dungeon.cpp:435-440 | createPC appends a fresh PC (speed 10, hp 50, '@') at (px, py) with blank memory, and changes no grid or level field |
| Level.Dungeon.RebuildDisplay | Dungeon.cpp:330-337 | the display becomes the base map with every live character's symbol drawn on it, later roster entries winning |
| Level.Dungeon.CreateMonster | Dungeon.cpp:443-454 | createMonster draws cells until one is room floor ('.'), and records how many draws missed; the appended NPC stands on that cell, and its flags and speed come from the next two draws. Out of fuel, nothing changes |
| Level.Dungeon.CreateMonsterC | DungeonGeneration.c:404-422 | create_monster tests the display grid instead of the base map and also draws the monster's symbol into the display |
| Level.DrawFloorCell | Dungeon.cpp:445-448 | the retry loop stops at the first drawn cell that is room floor, and every earlier draw missed |
| Level.DrawnMonsterShape | Dungeon.cpp:449-452 | a created monster is a live NPC on the drawn cell with flags 0..15, their hex digit as symbol, speed 5..20 and hp 10 |
| Generation.InitialHardness | Dungeon.cpp:502-512 | the hardness the reset gives cell (x, y): 255 on the border, otherwise rand() % 254 + 1 from the draw the cell's row-major rank among interior cells selects |
| Generation.InitialHardnessRange | Dungeon.cpp:501-511 | the reset gives border cells hardness 255 and interior cells 1..254, each interior cell from its own draw |
| Generation.InitGrid | Dungeon.cpp:501-511 | the reset (also initializeDungeon, DungeonGeneration.c:267-279) blanks every map cell, sets every hardness as above, and uses one draw per interior cell |
| Generation.IsValidRoom | Dungeon.cpp:958-970 | isValidRoom accepts exactly w, h >= 1, x + w < 79, y + h < 20 with every covered cell blank |
| Generation.FillRoom | Dungeon.cpp:949-956 | fillRoom makes the rectangle floor '.' of hardness 0 and changes no other cell |
| Generation.DrawnRoom | Dungeon.cpp:976-979 | the room generateRooms draws from four consecutive draws: width rand() % 6 + 4, height rand() % 4 + 3, x rand() % (80 - w - 2) + 1, y rand() % (21 - h - 2) + 1 |
| Generation.DrawnRoomShape | Dungeon.cpp:976-979 | a drawn room is 4..9 wide and 3..6 high, starts at x, y >= 1, and ends before the last interior column and row |
| Generation.FittingRoomDisjoint | Dungeon.cpp:958-970 | a room that passes isValidRoom, on a map where every earlier room is floor, overlaps none of them |
| Generation.CarvedExtend | Dungeon.cpp:980-986 | filling one more room onto the carved map gives the carving of the longer room list |
| Generation.RoomsAvoidBorder | Dungeon.cpp:976-979 | no drawn room covers a border cell |
| Generation.TryRoom | Dungeon.cpp:980-987 | an attempt keeps the drawn room exactly when it fits, and then the rooms stay pairwise disjoint and carved; otherwise the grids are unchanged |
| Generation.GenerateRooms | Dungeon.cpp:972-991 | generateRooms yields at most six pairwise disjoint rooms, each built from its own four draws in draw order. It uses all 2000 attempts unless it reaches six. Exactly the rooms' cells change, to floor of hardness 0 |
| Generation.DigCorridor | Dungeon.cpp:996-1017 | one corridor changes exactly the cells of the L-path (along the row to x2, then along the column to y2, the end excluded) that are not '.', to '#' of hardness 0 |
| Generation.ConnectedStep | Dungeon.cpp:995-1018 | digging corridor n over corridors 1..n-1 gives the picture of corridors 1..n: room floor stays floor, a dug cell stays corridor |
| Generation.ConnectRooms | Dungeon.cpp:993-1019 | connectRoomsViaCorridor digs exactly the L-paths between consecutive room centres; '.' cells and all cells off the paths are unchanged |
| Generation.RowWalk | Dungeon.cpp:1000-1008 | a walk that cannot tunnel goes on along its row to a given column when every cell on the way has hardness 0 |
| Generation.ColumnWalk | Dungeon.cpp:1009-1017 | the same along a column to a given row |
| Generation.OpenAfterDigging | Dungeon.cpp:993-1019 | once rooms are carved into a grid without floor and the corridors are dug, every room cell and every corridor cell has hardness 0 |
| Generation.CorridorsLink | Dungeon.cpp:993-1019 | after the corridors are dug, a walker that cannot tunnel gets from each room's centre to the next room's centre |
| Generation.PlaceStairs | Dungeon.cpp:1021-1049 | each attempt uses four draws. A stair goes only on a cell that was '.' or '#', and the down stair never on the up stair's cell. The search stops once both are placed, else at fuel |
| Generation.StairAttempt | Dungeon.cpp:1025-1047 | one attempt places each missing stair when its drawn cell is '.' or '#' (the down one also not on this attempt's up cell), and leaves a placed stair alone |
| Generation.StairedPut | Dungeon.cpp:1029-1046 | writing '<' or '>' on an accepted cell keeps the stair picture: exactly the placed stairs' cells changed, onto the recorded cells |
| Generation.CorridorInterior | Dungeon.cpp:996-999 | corridors run between room centres and never touch the border |
| Generation.GeneratedCell | Dungeon.cpp:501-520 | after reset, rooms, corridors and stairs, a border cell is blank rock of hardness 255, an interior cell has hardness 0..254, and a room cell is floor of hardness 0 showing '.', '<' or '>'. '.' appears only in rooms, '#' only on hardness 0, and ' ' only on positive hardness |
| Generation.Generate | Dungeon.cpp:501-520 | generation succeeds exactly when both stairs were placed. It then gives a solid border, at most six disjoint rooms, and exactly one '<' and one '>' on distinct cells, with floor only in rooms, corridor only on open cells and blank only on rock. In every case consecutive room centres are joined by a walk that needs no tunneling |
| Generation.CopyGrid | Dungeon.cpp:529 | memcpy makes the display equal to the base map |
| Generation.CreateMonsters | Dungeon.cpp:533-535 | nummon calls of createMonster append nummon live NPCs on room floor |
| Generation.Populate | Dungeon.cpp:529-538 | after the grids are set, the display equals the base map. The roster is the PC on its cell followed by nummon NPCs on floor. The PC is alive, and both distance fields are computed from the PC |
| Generation.RecordLayout | Dungeon.cpp:512-528 | the level records the rooms and one stair of each kind. The PC starts at the first room's top-left corner, or at (1, 1) when there is no room |
| Generation.GenerateLevel | Dungeon.cpp:494-528 | the generation half of newLevel leaves a level satisfying the generated-level properties above, with consecutive rooms linked, an empty roster, and the PC start position |
| Generation.NewLevel | Dungeon.cpp:493-539 | newLevel gives a generated level with consecutive rooms linked, a roster of the PC and nummon monsters, a display equal to the base map, and both distance fields from the PC |
| Actors.RandomStep | Dungeon.cpp:904-908 | an erratic step moves at most one cell on each axis, and stays put exactly on draw 0 |
| Actors.RandomStepCovers | Dungeon.cpp:905-906 | every cell of the 3 x 3 square around the monster is the step of some draw |
| Actors.Toward | Dungeon.cpp:910-911 | the greedy delta is -1, 0 or 1 with the sign of pc - m, and is 0 exactly when they are equal |
| Actors.GreedyStep | Dungeon.cpp:909-913 | a greedy step moves at most one cell on each axis and brings the monster one king move closer to its target (or keeps it there) |
| Actors.GreedyStepInBounds | Dungeon.cpp:909-913 | a greedy step between on-grid positions stays on the grid |
| Actors.IntelligentStep | Dungeon.cpp:914-933 | the scan picks the first in-bounds neighbour, in scan order, with a distance strictly smaller than every earlier one and below INT32_MAX; it stays put when every neighbour is INT32_MAX |
| Actors.ScanRank | Dungeon.cpp:918-930 | one scan step takes the neighbour exactly when it is in bounds and strictly closer than the best so far |
| Actors.ScanStep | Dungeon.cpp:921-928 | the scan's result after r + 1 ranks follows from the result after r and the comparison at rank r |
| Actors.ScanResultUnique | Dungeon.cpp:914-933 | the scan's choice is a function of the distance field |
| Actors.IntelligentDescends | Dungeon.cpp:914-933 | on a reached cell other than the field's source, the intelligent step goes to an in-bounds neighbour strictly closer to the PC |
| Actors.NpcTarget | Dungeon.cpp:896-933 | the cell an NPC heads for and the draws it takes: an erratic NPC flips a coin and on 0 takes the random step of a second draw; otherwise a plain NPC steps greedily toward (pc_x, pc_y) and an intelligent one takes the first strictly closer neighbour in its kind's distance field |
| Actors.ChooseTarget | Dungeon.cpp:891-933 | the target is chosen by the behaviour bits with the draws consumed as stated. It is on the grid when the monster and the recorded PC position are, and an erratic step stays on the grid |
| Actors.Erode | Dungeon.cpp:935-936 | one tunneler's blow: hardness h becomes h - 85, clamped at 0 |
| Actors.ErodeFacts | Dungeon.cpp:935-939 | a blow on rock of hardness 0 < h < 255 lowers it to max(h - 85, 0), opens it exactly when h <= 85, and three blows always open it |
| Actors.ErodeNValue | Dungeon.cpp:934-936 | after n blows, rock of hardness h >= 0 has max(h - 85·n, 0) left |
| Actors.ErodeCount | Dungeon.cpp:934-939 | rock of hardness 0 < h < 255 is open after n blows exactly when 85·n >= h, and each blow before that lowers it |
| Actors.NpcTurn | Dungeon.cpp:888-948 | a dead NPC does nothing. A tunneler facing 0 < h < 255 erodes the cell, which becomes '#' iff the result is 0, and stays. Otherwise the NPC moves to the target without a passability check, and the PC dies iff the target is (pc_x, pc_y) |
| Actors.NpcTurnC | DungeonGeneration.c:437-498 | the C blow subtracts 85 without clamping, and the monster stays while the result is positive. Otherwise, with or without a blow, it moves in. The PC dies iff a move without a blow lands on a displayed '@'. The display then shows the base map at the old cell and the monster's symbol at the target |
| Actors.StepOntoC | DungeonGeneration.c:488-497 | the C move: the PC dies iff the target shows '@', the old cell shows the base map again, the monster moves and its symbol is drawn at the target |
| Player.MoveKeysAreKingMoves | Dungeon.cpp:686-790 | the movement keys (7 8 9 6 3 2 1 4 and y k u l n j b h) are exactly the eight king moves |
| Player.SlayClearsCell | Dungeon.cpp:692-699 | after the attack loop no other live character remains on the target, and no character changed except for losing its life |
| Player.SlayMonsterCount | Dungeon.cpp:692-699 | the attack never raises the live-monster count, and keeps it exactly when no live NPC stands on the target |
| Player.LonePcNotSlain | Dungeon.cpp:695-697 | in a roster whose only PC is the attacker, the attack never kills a PC |
| Player.DrawLandingValid | Dungeon.cpp:637-645 | a random-teleport landing is on the grid, not immutable rock, and is the cell of the last pair of draws consumed |
| Player.DrawLandingExhausted | Dungeon.cpp:637-645 | when no landing is found, every drawn cell was immutable rock |
| Player.NormalEffect | Dungeon.cpp:685-873 | the effect of one normal-mode key: a move onto an in-bounds walkable base-map cell kills whatever stands there and moves the PC; a stair key raises the floor flag only on the matching stair; 'f' toggles the fog, 'g' enters teleport mode with the cursor on the PC, 'Q' kills the PC; other keys change nothing |
| Player.TeleportEffect | Dungeon.cpp:579-681 | the effect of one teleport-mode key: a move key shifts the cursor while it stays on the grid; 'g' moves the PC to the cursor unless it is immutable rock; 'r' moves it to the drawn landing; both leave teleport mode; 'f' toggles the fog and 'Q' kills the PC |
| Player.Step | Dungeon.cpp:578-874 | one key of PC::doTurn, read in teleport mode or normal mode as the teleporting flag says |
| Player.StepKeepsShape | Dungeon.cpp:576-875 | any key keeps the roster's length, kinds, speeds and symbols, only takes lives or moves the PC, and keeps the PC and the cursor on the grid |
| Player.NormalKeepsShape | Dungeon.cpp:686-873 | StepKeepsShape for the normal-mode keys |
| Player.TeleportKeepsShape | Dungeon.cpp:580-657 | StepKeepsShape for the teleport-mode keys, given an on-grid random landing |
| Player.IdleStep | Dungeon.cpp:576-875 | a key that does not end the turn changes no character or level flag and not the mode; in normal mode it changes nothing |
| Player.StepFloorChange | Dungeon.cpp:796-807 | the floor-change flag is raised only by '>' or '<' pressed while the base map under the PC shows that stair, and then no one moves |
| Player.Idle | Dungeon.cpp:576-875 | a run of keys that do not end the turn leaves the roster and the level flags alone and keeps the PC placed |
| Player.ListEndFacts | Dungeon.cpp:830-853 | the monster-list view consumes keys up to and including the first ESC, and returns -1 when there is none |
| Player.SlayRoster | Dungeon.cpp:692-699 | the attack loop kills every other live character on the target. It reports a PC death only for the four keys whose loop checks the victim's kind |
| Player.NormalKey | Dungeon.cpp:686-873 | one normal-mode key has the normal-mode effect: a move onto an in-bounds walkable base-map cell attacks then moves; a stair key raises the flag on the matching stair; 'f' toggles the fog; 'g' enters teleport mode at the PC; 'Q' kills the PC; 'm' redraws the display. The turn ends on a movement key and on '5', ' ', '.', '>', '<', 'm', 'f', 'g' and 'Q' |
| Player.WalkKey | Dungeon.cpp:688-790 | a movement key moves the PC, after the attack, exactly when the target is in bounds and walkable on the base map |
| Player.RandomLanding | Dungeon.cpp:637-645 | the draw loop of the random teleport returns the first non-rock drawn cell, within the fuel |
| Player.TeleportKey | Dungeon.cpp:580-683 | one teleport-mode key: movement keys move the cursor while it stays on the grid; 'g' lands the PC on the cursor unless it is immutable rock; 'r' lands on a random non-rock cell; 'f' toggles the fog; 'Q' kills the PC. Only g, r and Q end the turn, and the others redraw the display |
| Player.TeleportToCursor | Dungeon.cpp:629-635 | 'g' moves the PC to the cursor unless that cell is immutable rock, and leaves teleport mode |
| Player.QuitPc | Dungeon.cpp:866-869 | 'Q' marks the PC dead, both in its entry and in the level |
| Player.CursorKey | Dungeon.cpp:581-628 | a teleport-mode key that does not end the turn moves the cursor or toggles the fog, then redraws the display |
| Player.SkipMonsterList | Dungeon.cpp:830-853 | the list view's key loop stops after the first ESC |
| Player.OneKey | Dungeon.cpp:577-875 | one key in the PC's current mode has that mode's effect and ends the turn exactly when that mode says |
| Player.ReadKeys | Dungeon.cpp:576-875 | the key loop applies every key up to the first one that ends the turn, each with its mode's effect. It stops there, and reports when the keys or the draws run out |
| Player.SkipIdleKeys | Dungeon.cpp:576-875 | the keys before the first turn-ending key are applied with their effects, and change no character or level flag |
| Player.PrepareTurn | Dungeon.cpp:543-547 | before reading keys, both distance fields are computed from the PC, the display is rebuilt, and the fog memory is updated from the PC's cell |
| Player.PcTurn | Dungeon.cpp:542-876 | PC::doTurn: on success the level is the turn-ending key's effect after the idle keys before it; otherwise no character or flag changed. The fog memory and the fields follow the PC's starting cell, the roster keeps its shape, and a floor change means the PC stands on a stair. pc_x and pc_y are not updated |
| Player.PcTurnSynced | DungeonGeneration.c:1065-1066 | the PC's turn followed by the update the C main loop makes: while the PC lives, the recorded PC position is the PC's new cell |
| Player.StalePcPosition | Dungeon.cpp:942-944 | a PC at (1, 1) steps east and a plain monster at (3, 1) steers for the stale (1, 1). It lands on the PC's new cell (2, 1), which the kill test, comparing with (1, 1), misses |
| Player.InputCEffect | DungeonGeneration.c:675-848 | the effect of one turn-ending key of handle_pc_input: a move tests walkability on the display, kills whatever stands on the target (clearing pc_is_alive when that is a PC), redraws the display under and at the PC and moves it; a blocked move changes nothing. A stair key reports whether the base map under the PC is that stair, and 'Q' clears only pc_is_alive |
| Player.InputCKeepsShape | DungeonGeneration.c:675-848 | a key of the C input keeps the roster's shape and the PC on the grid, and a stair key moves no one |
| Player.CAttackStrikesNoOne | DungeonGeneration.c:682-688 | the C input tests walkability on the display. When the display is current and no symbol is walkable, a move never lands on a live character, so the attack strikes no one |
| Player.NextKeyC | DungeonGeneration.c:677-847 | the key the C loop stops at, if any, is a turn-ending key at or after the start; the keys each list view reads are skipped |
| Player.NextKeyCPlain | DungeonGeneration.c:677-847 | with no 'm' among the keys, the C loop stops at the first turn-ending key, and finds none exactly when no key ends the turn |
| Player.PcInputC | DungeonGeneration.c:675-848 | handle_pc_input reads keys until one ends the turn and applies its C effect. A move tests the display, attacks, and redraws the PC. A stair key on its staircase asks for a new level. 'Q' clears only the level's PC flag |
| Player.WalkC | DungeonGeneration.c:680-815 | a C movement key has the C move effect on the roster, the PC flag and the display |
| Player.NextKeyLoop | DungeonGeneration.c:677-847 | the C key loop stops at NextKeyC |
| Scheduler.NextTime | Dungeon.cpp:485 | a character that acted at time t acts again no earlier than t and at most 1000 later, and strictly later for any speed up to 1000 |
| Scheduler.MonsterEvent | Dungeon.cpp:479 | a monster's turn keeps the level playable and the cast of characters, and touches neither the PC's entry nor pc_x/pc_y |
| Scheduler.PlayerEvent | Dungeon.cpp:479 | the PC's turn keeps the level playable and the cast, leaves hardness and base map unchanged, and a floor change means the PC stands on a staircase. As gameLoop calls it (syncPc false), pc_x and pc_y stay as they were; in the corrected loop (syncPc true) they follow the live PC |
| Scheduler.StartQueue | Dungeon.cpp:461-468 | the first queue holds an event at time 0 for exactly the live characters |
| Scheduler.PopKeepsQueue | Dungeon.cpp:473-474 | after the earliest event is taken, every remaining event is for a roster entry and not earlier than it, and time goes forward |
| Scheduler.PushKeepsQueue | Dungeon.cpp:484-488 | queueing an event no earlier than now keeps the queue in order with now |
| Scheduler.RunEvent | Dungeon.cpp:476-490 | one event runs its live character's turn, after which the queue is still valid with every event no earlier than now. A floor change leaves the PC on a staircase. When the event stops the loop, the outcome is PcDied exactly when the PC is dead, and otherwise the floor is unchanged; when it does not, the PC lives. As written (syncPc false) pc_x and pc_y do not change |
| Scheduler.Tick | Dungeon.cpp:473-490 | pop the earliest event, skip it if its character is dead, else run it. The queue stays valid from the popped time on, time does not go back, and the stop outcomes are as for RunEvent |
| Scheduler.ChronoExtend | Dungeon.cpp:473-474 | appending the time of the next popped event keeps the list of run times in order |
| Scheduler.GameLoop | Dungeon.cpp:457-492 | gameLoop ends with PcDied exactly when the PC is dead, MonstersGone only with no live NPC, and FloorChanged only with the flag set and the PC on a staircase. Any other outcome leaves the flag clear, and events run in non-decreasing time. With syncPc false, the loop as written, pc_x and pc_y keep the values newLevel or load_dungeon set; with syncPc true, the corrected loop, they follow the live PC |
| Scheduler.PlayerEventC | DungeonGeneration.c:1061-1069 | the C PC branch keeps the C level playable: while the PC lives, pc_x/pc_y are its cell. Hardness, base map and the floor flag are unchanged, and a taken stair moves no one and leaves the PC on a staircase |
| Scheduler.MonsterEventC | DungeonGeneration.c:1071-1075 | the C monster branch keeps the level playable and the cast, leaves the PC's entry alone, and never changes whether the moving monster itself is alive |
| Scheduler.RunEventC | DungeonGeneration.c:1059-1081 | one C event runs its live character's turn and adds at most one event to a queue that stays valid. When it stops the loop, the outcome is PcDied exactly when the PC is dead, and FloorChanged only with the PC on a staircase; when it does not, the PC lives |
| Scheduler.TickC | DungeonGeneration.c:1055-1081 | eq_pop, then the turn of a live character; the queue keeps at most one event per character, so eq_push always finds room |
| Scheduler.StartQueueC | DungeonGeneration.c:1041-1049 | the C queue of the given capacity starts with an event at time 0 for every character, live or not |
| Scheduler.GameLoopC | DungeonGeneration.c:1041-1082 | the C loop with the live-monster count recomputed: PcDied exactly when the PC is dead, MonstersGone only with no live NPC, FloorChanged only with the PC on a staircase, events in order of time |
| Scheduler.AliveCounterC | DungeonGeneration.c:1074 | the C counter drops by one only after a monster's own turn leaves it dead, and otherwise stays |
| Scheduler.MissedKillC | DungeonGeneration.c:1074 | the PC steps east onto the last monster over a stale display and kills it. No monster is then alive, yet the C counter stays at 1 |
| Codec.MarkerSpellsFileMarker | Dungeon.cpp:31-32 | the marker bytes are the 12 characters of "RLG327-S2025" |
| Codec.U16BE16 | Dungeon.cpp:1192-1194 | a big-endian u16 field reads back the number written modulo 2^16 |
| Codec.U32BE32 | Dungeon.cpp:1167-1169 | a big-endian u32 field reads back the number written modulo 2^32 |
| Codec.LowOfByte | Dungeon.cpp:1094-1095 | the uint8_t conversion keeps a value in 0..255 |
| Codec.HardnessBytes | Dungeon.cpp:1099-1104 | the hardness section has one byte per cell, the low byte of that cell's hardness, in row-major order |
| Codec.RoomBytesAt | Dungeon.cpp:1108-1117 | room i is written at bytes 4i..4i+3 of the room section as the low bytes of x, y, w, h |
| Codec.MonsterBytesAt | Dungeon.cpp:1135-1148 | monster i is written at bytes 5i..5i+4 as the low bytes of x, y, speed, hp, btype |
| Codec.Header | Dungeon.cpp:1076-1097 | the header (marker, version, size field, PC x, PC y) is 22 bytes long |
| Codec.ReadRooms | Dungeon.cpp:1196-1205 | reading n room records yields n rooms with byte-sized fields |
| Codec.WidenHardness | Dungeon.cpp:1185-1191 | reading the hardness section back gives the hardness grid when every value is a byte |
| Codec.ReadStair | Dungeon.cpp:1207-1227 | a stair field consumes bytes and yields byte-sized coordinates |
| Codec.DecodeLayout | Dungeon.cpp:1159-1227 | a successful read of the fields before the monster section yields byte-sized values, at most ten rooms and no monsters |
| Codec.ReadMonsters | Dungeon.cpp:1253-1274 | the monster section yields byte-sized monsters; fewer than two bytes left reads as no monsters |
| Codec.Decode | Dungeon.cpp:1153-1277 | a successful C++ load yields a file whose every value fits its byte field |
| Codec.DecodeC | DungeonGeneration.c:857-915 | a successful C load yields byte-sized values and no monsters |
| Codec.ReadRoomsOf | Dungeon.cpp:1196-1205 | reading the room records of a written room list gives it back |
| Codec.ReadStairOf | Dungeon.cpp:1207-1227 | reading a written stair field gives back the stair and the bytes after it |
| Codec.ReadMonstersOf | Dungeon.cpp:1253-1274 | reading a written monster section gives back the monsters |
| Codec.DecodeLayoutOf | Dungeon.cpp:1159-1227 | both loaders read the written layout back: PC position, hardness, rooms and stairs, and the bytes after the stairs |
| Codec.RoundTrip | Dungeon.cpp:1070-1277 | load_dungeon(save_dungeon(f)) == f for every file whose values fit their byte fields and that has at most ten rooms: PC position, hardness, rooms, stairs and the live monsters in order |
| Codec.Layout | Dungeon.cpp:1076-1131 | the bytes both save_dungeon versions write up to the monster section: marker, version, size field, PC position, 1680 hardness bytes, the room count and rooms, then each stair's count and coordinates, all big-endian |
| Codec.Encode | Dungeon.cpp:1070-1151 | the C++ save_dungeon file: the layout with the C++ size field, then the count and records of the live monsters |
| Codec.EncodeC | DungeonGeneration.c:936-986 | the C save_dungeon file: the layout with the C size field and no monster section |
| Codec.RoundTripC | DungeonGeneration.c:857-986 | the C pair recovers everything but the monsters, which it does not write |
| Codec.CrossVersion | DungeonGeneration.c:936-986 | the C++ loader reads a C file as one without monsters, and the C loader reads a C++ file's layout and ignores its monster section |
| Codec.SizeFieldTwoShort | Dungeon.cpp:1089-1092 | the C++ size field is two less than the number of bytes written (the room count's two bytes are not counted) |
| Codec.SizeFieldTwoShortC | DungeonGeneration.c:950-952 | the C size field is likewise two less than the bytes written |
| Codec.LayoutLength | DungeonGeneration.c:950 | the written layout is `1702 + 4·rooms + 2 + 2·up + 2 + 2·down + 2` bytes long |
| Codec.SizeAt | Dungeon.cpp:1091-1092 | the size field sits at bytes 16..19 and reads back as written when it fits in 32 bits |
| Codec.DecodeErrors | Dungeon.cpp:1159-1174 | the C++ load fails with a bad marker exactly when the first 12 bytes are not the marker, and with a bad version exactly when the marker is right and the version is not 0. A file ending before the monster count has no monsters |
| Codec.LoadedCell | Dungeon.cpp:1228-1251 | the glyph load_dungeon derives for a cell: the down stair, else the up stair, else room floor, else ' ' on positive hardness and '#' on hardness 0 |
| Codec.LoadedCellFacts | Dungeon.cpp:1228-1251 | a cell of the derived map is '>' exactly at the down stair, and '<' exactly at the up stair unless the down stair is there too. Any other room cell is '.', and any other cell is '#' on hardness 0 and ' ' on positive hardness |
| Codec.FloorRoom | Dungeon.cpp:1239-1245 | a room's on-grid cells become '.', all others unchanged |
| Codec.DeriveMap | Dungeon.cpp:1228-1251 | the map written by the four passes (hardness, rooms, up stair, down stair) is, on every cell, the picture LoadedCellFacts describes |
| Codec.GeneratedCellLoads | Dungeon.cpp:1228-1251 | on a generated level, the map load_dungeon derives from the hardness, the rooms and the stairs is, cell by cell, the base map newLevel drew |
| Codec.SavedMonsters | Dungeon.cpp:1133-1148 | the C++ save writes one monster record per live NPC |
| Codec.SavedMonstersBytes | Dungeon.cpp:1133-1148 | live NPCs whose fields fit in a byte give monster records that fit in the bytes save_dungeon casts them to |
| Codec.GeneratedLevelFits | Dungeon.cpp:1094-1126 | every field of a generated level survives the casts to uint8_t in save_dungeon: PC position, hardness, at most ten rooms, both stairs |
| Codec.NewLevelSaves | Dungeon.cpp:1079-1148 | the file save_dungeon writes for a level as newLevel leaves it, with fewer than 65536 characters, fits its bytes, and loading it derives exactly the base map newLevel drew |
| Codec.LoadedNpcs | Dungeon.cpp:1265-1274 | the load creates one NPC per monster record |
| Codec.SavedLoadedNpcs | Dungeon.cpp:1265-1274 | saving the NPCs created by a load gives back the file's monster records |
| Codec.LoadDungeon | Dungeon.cpp:1153-1277 | load_dungeon leaves the level unchanged on an error. Otherwise it sets the PC position, hardness, rooms and stairs from the file and derives the base map from them. The roster is one NPC per monster record, in file order, and saving the loaded level gives back exactly the decoded file |
| Codec.CreateNpcs | Dungeon.cpp:1265-1274 | the monster loop creates the NPCs of the records, in file order |
| Codec.LoadFields | Dungeon.cpp:1179-1227 | the fields both loaders set: PC position, hardness, rooms, stair counts, and stair coordinates when present |
| Codec.CopyHardness | Dungeon.cpp:1185-1191 | the hardness read cell by cell becomes the level's grid |
| Codec.LoadDungeonC | DungeonGeneration.c:857-934 | the C load sets the same fields and derives the map into the display grid, leaving the roster alone; on any error it changes nothing |

## Left out

- Drawing is not modelled. This covers all ncurses output, the fog-of-war rendering of PC::doTurn (Dungeon.cpp:549-575, 659-683), and the monster-list text (Dungeon.cpp:809-829, DungeonGeneration.c:589-666). The keys are a parameter sequence. The list view consumes keys up to ESC, and the redraw after it is kept.
- The file system plumbing is left out: `checkDir`, `getPath`, `fopen`, `fread` and `fwrite`, the endian macros, and argv parsing in both `main` functions. The codec is pure `Encode`/`Decode` over byte sequences.
- `rand()` and `srand(time)` are replaced by the parameter `rnd`. The unbounded retry loops take a fuel bound and report `ok = false` when it runs out: placeStairs, createMonster and create_monster, and the random teleport.
- Scheduler.GameLoop: a step budget bounds the loop. It adds the outcomes OutOfSteps (budget spent), InputEnded (the keys or the teleport draws ran out) and OffGrid. OffGrid covers an erratic step that would leave the grid, because the source then indexes `hardness` out of range.
- Scheduler.GameLoopC: the same bounds and extra outcomes. It also stops at a stair key on a staircase, reported as FloorChanged. The source would call `new_level` from inside `handle_pc_input` (DungeonGeneration.c:819, 828) and play on with the old queue.
- The outer loop of the C++ `main` is not modelled: it alternates `gameLoop` and `newLevel` (Dungeon.cpp:1341-1351). Both halves are modelled; the loop around them is unbounded.
- C `new_level` (DungeonGeneration.c:372-399) has no variant of its own. It differs from Generation.NewLevel only by drawing '@' and the monster symbols into the display grid and by computing the fields before creating the characters.
- The C Dijkstra (DungeonGeneration.c:188-260) is the C++ procedure over a heap of fixed capacity 1680. The model runs both over the growable heap. It does not show that 1680 slots always suffice under lazy deletion.
- Integers are unbounded. The C++ `int` and `uint32_t` arithmetic is not wrapped, and the scheduler time never overflows here. Byte, u16 and u32 fields are reduced modulo their widths where the source converts.
- Heap.BoundedHeap.Insert requires `size < capacity`; the source does not check. Scheduler.GameLoopC requires a capacity of at least the roster's size, which the source's `(nummon + 1) * 10` meets.
- Scheduler.GameLoop and Scheduler.GameLoopC require positive speeds. The source divides by the speed unchecked, and a loaded file may hold speed 0.
- Actors.NpcTurn and Actors.NpcTurnC require the monster and the recorded PC position to be on the grid, because the source indexes the grids with the target unchecked.
- Codec.Decode and Codec.DecodeC return `Err(Truncated)` when the file ends before the fields they read. The source would read indeterminate values (its `fread` results are unchecked). The only exception is the C++ monster count, whose absence means no monsters.
- Codec.FloorRoom and Codec.DeriveMap skip room and stair cells that lie off the grid; the source writes out of bounds there.
- Codec.LoadDungeonC: the C load `exit`s on a bad marker or version. The model returns the error with the level unchanged.
- The telepathy bit (0x2) and hit points play no part in the rules. They are kept as data only.
- The virtual `doTurn`, `dynamic_cast`, `new` and `delete` are not modelled. The roster is a sequence of values and the PC is found by its index in it.

## Findings

| source | as written | input that shows it | evidently intended | confidence | as-written member | corrected member |
|---|---|---|---|---|---|---|
| Dungeon.cpp:942-944 | `pc_x`/`pc_y` are set only when a level is made or loaded (Dungeon.cpp:522-528, 1182-1183). Monsters steer for them (910-911) and the kill test compares with them, though the PC has moved | PC at (1, 1) presses 'l' and moves to (2, 1). A plain monster at (3, 1) steers for (1, 1) and steps onto (2, 1). The kill test compares with (1, 1) and the PC lives | the recorded position follows the PC after its turn, as the C main loop does (DungeonGeneration.c:1065-1066). Scheduler.GameLoop runs the source's turn with syncPc false and the corrected one with syncPc true | not executed | Player.PcTurn, Player.StalePcPosition, Scheduler.GameLoop | Player.PcTurnSynced |
| DungeonGeneration.c:1074 | `aliveMonsters` is lowered only when a monster is dead after its own turn, which cannot happen. Monsters killed by the PC are never subtracted | roster PC (1, 1), plain monster (2, 1), a display showing '.' at (2, 1) (the monster's glyph erased by another monster passing). The PC presses 'l' and kills the last monster; the counter stays 1 and the loop goes on | the loop ends with "You win" once no monster lives, as the C++ loop's recount does (Dungeon.cpp:490) | not executed | Scheduler.AliveCounterC, Scheduler.MissedKillC | Scheduler.GameLoopC |
