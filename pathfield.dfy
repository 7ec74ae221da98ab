/** The two Dijkstra distance fields over the hardness grid
    (djikstraForTunnel / djikstraForNonTunnel). Both run the same algorithm on
    an 8-connected grid with a binary min-heap and lazy discard of stale heap
    entries; they differ only in which cells may be entered and at what cost,
    so they share one method with a mode flag. */
module PathField {
  import opened Grid
  import opened Heap

  datatype Node = Node(x: int, y: int, dist: int)

  function NodeDist(n: Node): int {
    n.dist
  }

  /** The eight neighbour steps, in the order of the source's dirs table. */
  const DX: seq<int> := [-1, 1, 0, 0, -1, -1, 1, 1]
  const DY: seq<int> := [0, 0, -1, 1, -1, 1, -1, 1]
  /** OPP[k] is the step that undoes step k. */
  const OPP: seq<int> := [1, 0, 3, 2, 7, 6, 5, 4]

  lemma StepTables(k: int)
    requires 0 <= k < 8
    ensures 0 <= OPP[k] < 8 && DX[OPP[k]] == -DX[k] && DY[OPP[k]] == -DY[k]
    ensures DX[k] != 0 || DY[k] != 0
    ensures -1 <= DX[k] <= 1 && -1 <= DY[k] <= 1
  {
  }

  /** Whether a cell of hardness h may be entered: tunnelers enter anything but
      immutable rock, the others only open floor. */
  predicate Passable(tunneling: bool, h: int) {
    if tunneling then h != 255 else h == 0
  }

  /** The cost of entering a passable cell of hardness h. */
  function Cost(tunneling: bool, h: int): (c: int)
    ensures 1 <= c
  {
    if tunneling then 1 + (if 0 < h < 255 then h / 85 else 0) else 1
  }

  predicate HasNbr(i: int, k: int)
    requires 0 <= i < CELLS && 0 <= k < 8
  {
    InBounds(X(i) + DX[k], Y(i) + DY[k])
  }

  function Nbr(i: int, k: int): int
    requires 0 <= i < CELLS && 0 <= k < 8 && HasNbr(i, k)
  {
    Idx(X(i) + DX[k], Y(i) + DY[k])
  }

  /** Tunneling cost 1 + h/85 inside (0,255), 1 on open floor; non-tunneling 1. */
  lemma CostValues(h: int)
    ensures Cost(false, h) == 1
    ensures 0 < h < 255 ==> Cost(true, h) == 1 + h / 85 && Cost(true, h) <= 3
    ensures h <= 0 ==> Cost(true, h) == 1
  {
  }

  lemma NbrFacts(i: int, k: int)
    requires 0 <= i < CELLS && 0 <= k < 8 && HasNbr(i, k)
    ensures X(Nbr(i, k)) == X(i) + DX[k] && Y(Nbr(i, k)) == Y(i) + DY[k]
    ensures Nbr(i, k) != i
    ensures 0 <= OPP[k] < 8 && HasNbr(Nbr(i, k), OPP[k]) && Nbr(Nbr(i, k), OPP[k]) == i
  {
    XYIdx(X(i) + DX[k], Y(i) + DY[k]);
    StepTables(k);
    IdxXY(i);
  }

  /** The edge from cell i in direction k is relaxed in field d. */
  ghost predicate EdgeOk(t: bool, h: seq<int>, d: seq<int>, i: int, k: int)
    requires |h| == CELLS && |d| == CELLS && 0 <= i < CELLS && 0 <= k < 8
  {
    d[i] < INF && HasNbr(i, k) && Passable(t, h[Nbr(i, k)]) ==>
      d[Nbr(i, k)] <= d[i] + Cost(t, h[Nbr(i, k)])
  }

  ghost predicate Settled(t: bool, h: seq<int>, d: seq<int>, i: int)
    requires |h| == CELLS && |d| == CELLS && 0 <= i < CELLS
  {
    forall k :: 0 <= k < 8 ==> EdgeOk(t, h, d, i, k)
  }

  /** Some neighbour of i accounts for i's recorded distance. */
  ghost predicate HasPred(t: bool, h: seq<int>, d: seq<int>, i: int)
    requires |h| == CELLS && |d| == CELLS && 0 <= i < CELLS
  {
    exists k :: 0 <= k < 8 && HasNbr(i, k) && d[Nbr(i, k)] + Cost(t, h[i]) <= d[i]
  }

  function NodeAt(d: seq<int>, i: int): Node
    requires |d| == CELLS && 0 <= i < CELLS
  {
    Node(X(i), Y(i), d[i])
  }

  ghost predicate Bounded(d: seq<int>) {
    |d| == CELLS && forall i :: 0 <= i < CELLS ==> 0 <= d[i] <= INF
  }

  /** Every heap entry names a cell and is no better than the cell's record. */
  ghost predicate Entries(d: seq<int>, hs: multiset<Node>)
    requires |d| == CELLS
  {
    forall e :: e in hs ==> InBounds(e.x, e.y) && d[Idx(e.x, e.y)] <= e.dist < INF
  }

  /** Every reached cell other than `except` is settled or waits in the heap. */
  ghost predicate Covered(t: bool, h: seq<int>, d: seq<int>, hs: multiset<Node>, except: int)
    requires |h| == CELLS && |d| == CELLS
  {
    forall i {:trigger Settled(t, h, d, i)} {:trigger NodeAt(d, i)} :: 0 <= i < CELLS && i != except && d[i] < INF ==> Settled(t, h, d, i) || NodeAt(d, i) in hs
  }

  ghost predicate Preds(t: bool, h: seq<int>, d: seq<int>, src: int)
    requires |h| == CELLS && |d| == CELLS
  {
    forall i {:trigger HasPred(t, h, d, i)} :: 0 <= i < CELLS && i != src && d[i] < INF ==> HasPred(t, h, d, i)
  }

  ghost predicate Blocked(t: bool, h: seq<int>, d: seq<int>, src: int)
    requires |h| == CELLS && |d| == CELLS
  {
    forall i :: 0 <= i < CELLS && i != src && !Passable(t, h[i]) ==> d[i] == INF
  }

  /** The invariant of the main loop. */
  ghost predicate Inv(t: bool, h: seq<int>, d: seq<int>, hs: multiset<Node>, src: int) {
    |h| == CELLS && Bounded(d) && 0 <= src < CELLS && d[src] == 0 &&
    Entries(d, hs) && Covered(t, h, d, hs, -1) && Preds(t, h, d, src) && Blocked(t, h, d, src)
  }

  /** The invariant of the relaxation loop over u's neighbours, k of them done. */
  ghost predicate InnerInv(t: bool, h: seq<int>, d: seq<int>, hs: multiset<Node>, src: int, u: int, k: int) {
    |h| == CELLS && Bounded(d) && 0 <= src < CELLS && d[src] == 0 &&
    Entries(d, hs) && Covered(t, h, d, hs, u) && Preds(t, h, d, src) && Blocked(t, h, d, src) &&
    0 <= u < CELLS && d[u] < INF && 0 <= k <= 8 &&
    forall k' :: 0 <= k' < k ==> EdgeOk(t, h, d, u, k')
  }

  /** The postcondition of both fields. */
  ghost predicate IsDistanceField(t: bool, h: seq<int>, d: seq<int>, src: int) {
    |h| == CELLS && Bounded(d) && 0 <= src < CELLS && d[src] == 0 &&
    Blocked(t, h, d, src) && Preds(t, h, d, src) &&
    forall i, k :: 0 <= i < CELLS && 0 <= k < 8 ==> EdgeOk(t, h, d, i, k)
  }

  function Sum(s: seq<int>): int {
    if s == [] then 0 else s[0] + Sum(s[1..])
  }

  lemma {:induction false} SumUpdate(s: seq<int>, i: int, v: int)
    requires 0 <= i < |s|
    ensures Sum(s[i := v]) == Sum(s) - s[i] + v
  {
    if i > 0 {
      assert s[i := v][1..] == s[1..][i - 1 := v];
      SumUpdate(s[1..], i - 1, v);
    } else {
      assert s[i := v][1..] == s[1..];
    }
  }

  lemma {:induction false} SumNonnegative(s: seq<int>)
    requires forall i :: 0 <= i < |s| ==> 0 <= s[i]
    ensures Sum(s) >= 0
  {
    if s != [] {
      SumNonnegative(s[1..]);
    }
  }

  lemma InitialInv(t: bool, h: seq<int>, d: seq<int>, src: int)
    requires |h| == CELLS && |d| == CELLS && 0 <= src < CELLS
    requires forall i :: 0 <= i < CELLS ==> d[i] == if i == src then 0 else INF
    ensures Inv(t, h, d, multiset{NodeAt(d, src)}, src)
  {
    IdxXY(src);
  }

  /** Discarding a stale entry keeps the invariant. */
  lemma PopStale(t: bool, h: seq<int>, d: seq<int>, hs: multiset<Node>, src: int, r: Node)
    requires Inv(t, h, d, hs, src) && r in hs
    requires InBounds(r.x, r.y) && r.dist > d[Idx(r.x, r.y)]
    ensures Inv(t, h, d, hs - multiset{r}, src)
  {
    forall i | 0 <= i < CELLS && d[i] < INF && !Settled(t, h, d, i)
      ensures NodeAt(d, i) in hs - multiset{r}
    {
      IdxXY(i);
      XYIdx(r.x, r.y);
    }
  }

  /** Popping the live entry of u starts the relaxation of u's edges. */
  lemma PopFresh(t: bool, h: seq<int>, d: seq<int>, hs: multiset<Node>, src: int, r: Node)
    requires Inv(t, h, d, hs, src) && r in hs
    requires InBounds(r.x, r.y) && r.dist == d[Idx(r.x, r.y)]
    ensures InnerInv(t, h, d, hs - multiset{r}, src, Idx(r.x, r.y), 0)
  {
    var u := Idx(r.x, r.y);
    forall i | 0 <= i < CELLS && i != u && d[i] < INF && !Settled(t, h, d, i)
      ensures NodeAt(d, i) in hs - multiset{r}
    {
      IdxXY(i);
      XYIdx(r.x, r.y);
    }
  }

  /** An edge that needs no relaxation. */
  lemma SkipEdge(t: bool, h: seq<int>, d: seq<int>, hs: multiset<Node>, src: int, u: int, k: int)
    requires InnerInv(t, h, d, hs, src, u, k) && k < 8
    requires HasNbr(u, k) && Passable(t, h[Nbr(u, k)]) ==> d[Nbr(u, k)] <= d[u] + Cost(t, h[Nbr(u, k)])
    ensures InnerInv(t, h, d, hs, src, u, k + 1)
  {
  }

  /** Lowering one entry of a field keeps every settled cell settled. */
  lemma LowerKeepsSettled(t: bool, h: seq<int>, d: seq<int>, v: int, alt: int, i: int)
    requires |h| == CELLS && |d| == CELLS && 0 <= v < CELLS && alt < d[v]
    requires 0 <= i < CELLS && i != v && Settled(t, h, d, i)
    ensures Settled(t, h, d[v := alt], i)
  {
    var d' := d[v := alt];
    forall k | 0 <= k < 8 ensures EdgeOk(t, h, d', i, k) {
      assert EdgeOk(t, h, d, i, k);
    }
  }

  lemma LowerKeepsPred(t: bool, h: seq<int>, d: seq<int>, v: int, alt: int, i: int)
    requires |h| == CELLS && |d| == CELLS && 0 <= v < CELLS && alt < d[v]
    requires 0 <= i < CELLS && i != v && HasPred(t, h, d, i)
    ensures HasPred(t, h, d[v := alt], i)
  {
    var k :| 0 <= k < 8 && HasNbr(i, k) && d[Nbr(i, k)] + Cost(t, h[i]) <= d[i];
    assert d[v := alt][Nbr(i, k)] + Cost(t, h[i]) <= d[v := alt][i];
  }

  lemma RelaxEntries(d: seq<int>, hs: multiset<Node>, v: int, alt: int, e: Node)
    requires |d| == CELLS && Entries(d, hs) && 0 <= v < CELLS && 0 <= alt < d[v] <= INF
    requires InBounds(e.x, e.y) && Idx(e.x, e.y) == v && e.dist == alt
    ensures Entries(d[v := alt], hs + multiset{e})
  {
    var d' := d[v := alt];
    forall n | n in hs + multiset{e} ensures InBounds(n.x, n.y) && d'[Idx(n.x, n.y)] <= n.dist < INF {
      if n != e {
        assert n in hs;
      }
    }
  }

  lemma RelaxCovered(t: bool, h: seq<int>, d: seq<int>, hs: multiset<Node>, u: int, v: int, alt: int, e: Node)
    requires |h| == CELLS && |d| == CELLS && Covered(t, h, d, hs, u)
    requires 0 <= v < CELLS && alt < d[v] && e == NodeAt(d[v := alt], v)
    ensures Covered(t, h, d[v := alt], hs + multiset{e}, u)
  {
    var d' := d[v := alt];
    forall i | 0 <= i < CELLS && i != u && d'[i] < INF
      ensures Settled(t, h, d', i) || NodeAt(d', i) in hs + multiset{e}
    {
      if i != v {
        assert NodeAt(d', i) == NodeAt(d, i);
        if Settled(t, h, d, i) {
          LowerKeepsSettled(t, h, d, v, alt, i);
        }
      }
    }
  }

  lemma RelaxPreds(t: bool, h: seq<int>, d: seq<int>, src: int, u: int, k: int)
    requires |h| == CELLS && |d| == CELLS && Preds(t, h, d, src)
    requires 0 <= u < CELLS && 0 <= k < 8 && HasNbr(u, k)
    requires d[u] + Cost(t, h[Nbr(u, k)]) < d[Nbr(u, k)]
    ensures var v := Nbr(u, k);
            Preds(t, h, d[v := d[u] + Cost(t, h[v])], src)
  {
    var v := Nbr(u, k);
    var alt := d[u] + Cost(t, h[v]);
    var d' := d[v := alt];
    NbrFacts(u, k);
    forall i | 0 <= i < CELLS && i != src && d'[i] < INF
      ensures HasPred(t, h, d', i)
    {
      if i == v {
        assert d'[Nbr(v, OPP[k])] + Cost(t, h[v]) <= d'[v];
      } else {
        LowerKeepsPred(t, h, d, v, alt, i);
      }
    }
  }

  lemma RelaxEdgesDone(t: bool, h: seq<int>, d: seq<int>, u: int, k: int)
    requires |h| == CELLS && |d| == CELLS && 0 <= u < CELLS && 0 <= k < 8 && HasNbr(u, k)
    requires d[u] < INF && d[u] + Cost(t, h[Nbr(u, k)]) < d[Nbr(u, k)]
    requires forall k' :: 0 <= k' < k ==> EdgeOk(t, h, d, u, k')
    ensures var v := Nbr(u, k);
            var d' := d[v := d[u] + Cost(t, h[v])];
            forall k' :: 0 <= k' < k + 1 ==> EdgeOk(t, h, d', u, k')
  {
    var v := Nbr(u, k);
    var d' := d[v := d[u] + Cost(t, h[v])];
    NbrFacts(u, k);
    forall k' | 0 <= k' < k + 1 ensures EdgeOk(t, h, d', u, k') {
      if k' < k {
        assert EdgeOk(t, h, d, u, k');
      }
    }
  }

  lemma RelaxFrame(t: bool, h: seq<int>, d: seq<int>, src: int, v: int, alt: int)
    requires |h| == CELLS && Bounded(d) && 0 <= src < CELLS && d[src] == 0 && Blocked(t, h, d, src)
    requires 0 <= v < CELLS && 0 < alt < d[v] && Passable(t, h[v])
    ensures Bounded(d[v := alt]) && d[v := alt][src] == 0 && Blocked(t, h, d[v := alt], src)
  {
  }

  /** Relaxing the edge from u in direction k, to cell v, down to alt. */
  lemma RelaxEdge(t: bool, h: seq<int>, d: seq<int>, hs: multiset<Node>, src: int, u: int, k: int,
                  v: int, alt: int, e: Node)
    requires InnerInv(t, h, d, hs, src, u, k) && k < 8
    requires HasNbr(u, k) && v == Nbr(u, k) && Passable(t, h[v])
    requires alt == d[u] + Cost(t, h[v]) && alt < d[v]
    requires e == Node(X(u) + DX[k], Y(u) + DY[k], alt)
    ensures InnerInv(t, h, d[v := alt], hs + multiset{e}, src, u, k + 1)
  {
    NbrFacts(u, k);
    XYIdx(e.x, e.y);
    assert NodeAt(d[v := alt], v) == e;
    RelaxFrame(t, h, d, src, v, alt);
    RelaxEntries(d, hs, v, alt, e);
    RelaxCovered(t, h, d, hs, u, v, alt, e);
    RelaxPreds(t, h, d, src, u, k);
    RelaxEdgesDone(t, h, d, u, k);
  }

  lemma InnerDone(t: bool, h: seq<int>, d: seq<int>, hs: multiset<Node>, src: int, u: int)
    requires InnerInv(t, h, d, hs, src, u, 8)
    ensures Inv(t, h, d, hs, src)
  {
    assert Settled(t, h, d, u);
  }

  lemma EmptyHeapDone(t: bool, h: seq<int>, d: seq<int>, src: int)
    requires Inv(t, h, d, multiset{}, src)
    ensures IsDistanceField(t, h, d, src)
  {
    forall i, k | 0 <= i < CELLS && 0 <= k < 8 ensures EdgeOk(t, h, d, i, k) {
      if d[i] < INF {
        assert Settled(t, h, d, i);
      }
    }
  }

  /** Cell b is one of the eight neighbours of cell a. */
  ghost predicate Adjacent(a: int, b: int)
    requires 0 <= a < CELLS
  {
    exists k :: 0 <= k < 8 && HasNbr(a, k) && Nbr(a, k) == b
  }

  ghost predicate Step(t: bool, h: seq<int>, w: seq<int>, j: int)
    requires |h| == CELLS && 0 < j < |w|
  {
    0 <= w[j - 1] < CELLS && 0 <= w[j] < CELLS && Adjacent(w[j - 1], w[j]) && Passable(t, h[w[j]])
  }

  /** A walk from src that enters only cells the mode may enter. */
  ghost predicate IsWalk(t: bool, h: seq<int>, w: seq<int>, src: int) {
    |h| == CELLS && |w| >= 1 && w[0] == src &&
    (forall j :: 0 <= j < |w| ==> 0 <= w[j] < CELLS) &&
    (forall j :: 0 < j < |w| ==> Step(t, h, w, j))
  }

  /** What a walk costs: the entry cost of every cell after the first. */
  ghost function WalkCost(t: bool, h: seq<int>, w: seq<int>): int
    requires |h| == CELLS && |w| >= 1 && forall j :: 0 <= j < |w| ==> 0 <= w[j] < CELLS
  {
    if |w| == 1 then 0 else WalkCost(t, h, w[..|w| - 1]) + Cost(t, h[w[|w| - 1]])
  }

  /** No walk from the source is cheaper than the distance recorded at its
      end: every recorded distance is a lower bound. */
  lemma {:induction false} PathBound(t: bool, h: seq<int>, d: seq<int>, src: int, w: seq<int>)
    requires IsDistanceField(t, h, d, src) && IsWalk(t, h, w, src)
    ensures d[w[|w| - 1]] <= WalkCost(t, h, w)
    decreases |w|
  {
    if |w| > 1 {
      var p := w[..|w| - 1];
      assert IsWalk(t, h, p, src) by {
        forall j | 0 < j < |p| ensures Step(t, h, p, j) {
          assert Step(t, h, w, j);
        }
      }
      PathBound(t, h, d, src, p);
      var a, b := w[|w| - 2], w[|w| - 1];
      assert Step(t, h, w, |w| - 1);
      var k :| 0 <= k < 8 && HasNbr(a, k) && Nbr(a, k) == b;
      assert EdgeOk(t, h, d, a, k);
    }
  }

  lemma ExtendWalk(t: bool, h: seq<int>, p: seq<int>, src: int, i: int)
    requires IsWalk(t, h, p, src) && 0 <= i < CELLS
    requires Adjacent(p[|p| - 1], i) && Passable(t, h[i])
    ensures IsWalk(t, h, p + [i], src)
    ensures WalkCost(t, h, p + [i]) == WalkCost(t, h, p) + Cost(t, h[i])
  {
    var w := p + [i];
    assert w[..|w| - 1] == p;
    forall j | 0 < j < |w| ensures Step(t, h, w, j) {
      if j < |w| - 1 {
        assert Step(t, h, p, j);
      }
    }
  }

  /** Every reached cell is the end of a walk from the source that costs
      exactly its recorded distance. */
  lemma {:induction false} ReachedHasWalk(t: bool, h: seq<int>, d: seq<int>, src: int, i: int)
    returns (w: seq<int>)
    requires IsDistanceField(t, h, d, src) && 0 <= i < CELLS && d[i] < INF
    ensures IsWalk(t, h, w, src) && w[|w| - 1] == i && WalkCost(t, h, w) == d[i]
    decreases d[i]
  {
    if i == src {
      w := [src];
      return;
    }
    var n := PredOf(t, h, d, src, i);
    var p := ReachedHasWalk(t, h, d, src, n);
    ExtendWalk(t, h, p, src, i);
    w := p + [i];
    PathBound(t, h, d, src, w);
  }

  /** A reached cell other than the source has a neighbour it is reached
      through, itself reached more cheaply. */
  lemma PredOf(t: bool, h: seq<int>, d: seq<int>, src: int, i: int) returns (n: int)
    requires IsDistanceField(t, h, d, src) && 0 <= i < CELLS && i != src && d[i] < INF
    ensures 0 <= n < CELLS && Adjacent(n, i) && d[n] + Cost(t, h[i]) <= d[i] && d[n] < d[i] && Passable(t, h[i])
  {
    assert HasPred(t, h, d, i);
    var k :| 0 <= k < 8 && HasNbr(i, k) && d[Nbr(i, k)] + Cost(t, h[i]) <= d[i];
    n := Nbr(i, k);
    NbrFacts(i, k);
  }

  /** Records a better distance for cell v and queues its entry. */
  method Improve(dist: array<int>, heap: MinHeap<Node>, v: int, e: Node)
    requires dist.Length == CELLS && 0 <= v < CELLS && heap.Valid()
    modifies dist, heap
    ensures dist[..] == old(dist[..])[v := e.dist]
    ensures heap.Valid() && multiset(heap.elems) == old(multiset(heap.elems)) + multiset{e}
    ensures |heap.elems| == old(|heap.elems|) + 1
  {
    dist[v] := e.dist;
    heap.Push(e);
  }

  /** One iteration of the source's inner loop: relax the edge from the
      cell of the live entry u in direction k. */
  method RelaxDirection(hardness: array<int>, dist: array<int>, heap: MinHeap<Node>, tunneling: bool,
                        ghost src: int, u: Node, k: int)
    requires hardness.Length == CELLS && dist.Length == CELLS && hardness != dist
    requires heap.Valid() && InBounds(u.x, u.y) && dist[Idx(u.x, u.y)] == u.dist
    requires InnerInv(tunneling, hardness[..], dist[..], multiset(heap.elems), src, Idx(u.x, u.y), k) && k < 8
    modifies dist, heap
    ensures heap.Valid() && dist[Idx(u.x, u.y)] == u.dist
    ensures InnerInv(tunneling, hardness[..], dist[..], multiset(heap.elems), src, Idx(u.x, u.y), k + 1)
    ensures Sum(dist[..]) < old(Sum(dist[..])) ||
            (Sum(dist[..]) == old(Sum(dist[..])) && |heap.elems| == old(|heap.elems|))
  {
    ghost var H := hardness[..];
    ghost var D := dist[..];
    ghost var HS := multiset(heap.elems);
    var ui := Idx(u.x, u.y);
    XYIdx(u.x, u.y);
    var nx, ny := u.x + DX[k], u.y + DY[k];
    if !InBounds(nx, ny) {
      SkipEdge(tunneling, H, D, HS, src, ui, k);
      return;
    }
    var v := Idx(nx, ny);
    assert v == Nbr(ui, k);
    var hv := hardness[v];
    if Passable(tunneling, hv) {
      var alt := u.dist + Cost(tunneling, hv);
      if alt < dist[v] {
        RelaxEdge(tunneling, H, D, HS, src, ui, k, v, alt, Node(nx, ny, alt));
        SumUpdate(D, v, alt);
        Improve(dist, heap, v, Node(nx, ny, alt));
        assert dist[..] == D[v := alt] && multiset(heap.elems) == HS + multiset{Node(nx, ny, alt)};
        return;
      }
    }
    SkipEdge(tunneling, H, D, HS, src, ui, k);
  }

  /** The inner loop of the source: relax the eight edges out of the cell of
      the live entry u just popped. Either the field strictly improves or
      nothing changes at all. */
  method RelaxNeighbours(hardness: array<int>, dist: array<int>, heap: MinHeap<Node>, tunneling: bool,
                         ghost src: int, u: Node)
    requires hardness.Length == CELLS && dist.Length == CELLS && hardness != dist
    requires heap.Valid() && InBounds(u.x, u.y) && dist[Idx(u.x, u.y)] == u.dist
    requires InnerInv(tunneling, hardness[..], dist[..], multiset(heap.elems), src, Idx(u.x, u.y), 0)
    modifies dist, heap
    ensures heap.Valid()
    ensures Inv(tunneling, hardness[..], dist[..], multiset(heap.elems), src)
    ensures Sum(dist[..]) < old(Sum(dist[..])) ||
            (Sum(dist[..]) == old(Sum(dist[..])) && |heap.elems| == old(|heap.elems|))
  {
    for k := 0 to 8
      invariant heap.Valid() && dist[Idx(u.x, u.y)] == u.dist
      invariant InnerInv(tunneling, hardness[..], dist[..], multiset(heap.elems), src, Idx(u.x, u.y), k)
      invariant Sum(dist[..]) < old(Sum(dist[..])) ||
                (Sum(dist[..]) == old(Sum(dist[..])) && |heap.elems| == old(|heap.elems|))
    {
      RelaxDirection(hardness, dist, heap, tunneling, src, u, k);
    }
    InnerDone(tunneling, hardness[..], dist[..], multiset(heap.elems), src, Idx(u.x, u.y));
  }

  /** One iteration of the source's main loop: pop an entry, drop it if it is
      stale, otherwise relax the edges out of its cell. */
  method SettleNext(hardness: array<int>, dist: array<int>, heap: MinHeap<Node>, tunneling: bool, ghost src: int)
    requires hardness.Length == CELLS && dist.Length == CELLS && hardness != dist
    requires heap.Valid() && heap.elems != []
    requires Inv(tunneling, hardness[..], dist[..], multiset(heap.elems), src)
    modifies dist, heap
    ensures heap.Valid()
    ensures Inv(tunneling, hardness[..], dist[..], multiset(heap.elems), src)
    ensures Sum(dist[..]) < old(Sum(dist[..])) ||
            (Sum(dist[..]) == old(Sum(dist[..])) && |heap.elems| < old(|heap.elems|))
  {
    ghost var H := hardness[..];
    ghost var D := dist[..];
    ghost var before := multiset(heap.elems);
    var u := heap.Pop();
    assert dist[..] == D && multiset(heap.elems) == before - multiset{u};
    var ui := Idx(u.x, u.y);
    if u.dist > dist[ui] {
      PopStale(tunneling, H, D, before, src, u);
      return;
    }
    PopFresh(tunneling, H, D, before, src, u);
    RelaxNeighbours(hardness, dist, heap, tunneling, src, u);
  }

  /** Dijkstra from (sx, sy) over the hardness grid, into dist. */
  method Dijkstra(hardness: array<int>, dist: array<int>, sx: int, sy: int, tunneling: bool)
    requires hardness.Length == CELLS && dist.Length == CELLS && hardness != dist
    requires InBounds(sx, sy)
    modifies dist
    ensures IsDistanceField(tunneling, hardness[..], dist[..], Idx(sx, sy))
  {
    for r := 0 to HEIGHT
      invariant forall i :: 0 <= i < r * WIDTH ==> dist[i] == INF
    {
      for c := 0 to WIDTH
        invariant forall i :: 0 <= i < r * WIDTH + c ==> dist[i] == INF
      {
        dist[Idx(c, r)] := INF;
      }
    }
    var src := Idx(sx, sy);
    dist[src] := 0;
    XYIdx(sx, sy);
    InitialInv(tunneling, hardness[..], dist[..], src);
    var heap := new MinHeap<Node>(NodeDist);
    heap.Push(Node(sx, sy, 0));
    assert multiset(heap.elems) == multiset{NodeAt(dist[..], src)};
    while !heap.Empty()
      invariant heap.Valid()
      invariant Inv(tunneling, hardness[..], dist[..], multiset(heap.elems), src)
      decreases Sum(dist[..]), |heap.elems|
    {
      SumNonnegative(dist[..]);
      SettleNext(hardness, dist, heap, tunneling, src);
    }
    EmptyHeapDone(tunneling, hardness[..], dist[..], src);
  }
}
