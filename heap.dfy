/** Array-backed binary min-heaps, as the engine uses them twice over: the
    turn scheduler keyed on an event's time and the Dijkstra frontier keyed on
    a node's tentative distance. The element type is generic and the key is a
    function fixed when a heap is created, because the two source heaps run the
    same sift-up / sift-down code on different fields.

    MinHeap is the C++ flavour (a std::vector that grows on push);
    BoundedHeap is the C flavour (a malloc'd array with a size counter and no
    bounds check on insert). */
module Heap {

  function Parent(i: int): int
    requires i > 0
  {
    (i - 1) / 2
  }

  /** Every element's key is at least its parent's key. */
  ghost predicate IsHeap<T>(s: seq<T>, key: T -> int) {
    forall j {:trigger Parent(j)} :: 0 < j < |s| ==> key(s[Parent(j)]) <= key(s[j])
  }

  /** The root of a heap holds a minimum key. */
  lemma {:induction false} RootIsMinimum<T>(s: seq<T>, key: T -> int, k: int)
    requires IsHeap(s, key) && 0 <= k < |s|
    ensures key(s[0]) <= key(s[k])
    decreases k
  {
    if k > 0 {
      RootIsMinimum(s, key, Parent(k));
    }
  }

  function Swap<T>(s: seq<T>, i: int, j: int): (t: seq<T>)
    requires 0 <= i < |s| && 0 <= j < |s|
    ensures |t| == |s| && multiset(t) == multiset(s)
  {
    s[i := s[j]][j := s[i]]
  }

  /** Heap order holds everywhere except between position i and its parent. */
  ghost predicate HeapExceptAt<T>(s: seq<T>, key: T -> int, i: int) {
    forall j {:trigger Parent(j)} :: 0 < j < |s| && j != i ==> key(s[Parent(j)]) <= key(s[j])
  }

  /** Heap order holds everywhere except between position i and its children. */
  ghost predicate HeapBelowExcept<T>(s: seq<T>, key: T -> int, i: int) {
    forall j {:trigger Parent(j)} :: 0 < j < |s| && Parent(j) != i ==> key(s[Parent(j)]) <= key(s[j])
  }

  /** The parent of i is no larger than the children of i. */
  ghost predicate GrandparentBound<T>(s: seq<T>, key: T -> int, i: int)
    requires 0 <= i < |s|
  {
    i > 0 ==> forall c :: 0 < c < |s| && Parent(c) == i ==> key(s[Parent(i)]) <= key(s[c])
  }

  lemma SiftUpStep<T>(s: seq<T>, key: T -> int, i: int)
    requires 0 < i < |s|
    requires HeapExceptAt(s, key, i) && GrandparentBound(s, key, i)
    requires key(s[i]) < key(s[Parent(i)])
    ensures HeapExceptAt(Swap(s, i, Parent(i)), key, Parent(i))
    ensures GrandparentBound(Swap(s, i, Parent(i)), key, Parent(i))
  {
    var p := Parent(i);
    var t := Swap(s, i, p);
    forall j | 0 < j < |t| && j != p
      ensures key(t[Parent(j)]) <= key(t[j])
    {
      if j == i {
      } else if Parent(j) == i {
        assert t[Parent(j)] == s[p] && t[j] == s[j];
      } else if Parent(j) == p {
        assert t[Parent(j)] == s[i] && t[j] == s[j];
        assert key(s[p]) <= key(s[j]);
      } else {
        assert t[Parent(j)] == s[Parent(j)] && t[j] == s[j];
      }
    }
    if p > 0 {
      forall c | 0 < c < |t| && Parent(c) == p
        ensures key(t[Parent(p)]) <= key(t[c])
      {
        assert t[Parent(p)] == s[Parent(p)];
        assert key(s[Parent(p)]) <= key(s[p]);
        if c != i {
          assert t[c] == s[c];
          assert key(s[p]) <= key(s[c]);
        }
      }
    }
  }

  lemma SiftUpDone<T>(s: seq<T>, key: T -> int, i: int)
    requires 0 <= i < |s|
    requires HeapExceptAt(s, key, i)
    requires i > 0 ==> key(s[Parent(i)]) <= key(s[i])
    ensures IsHeap(s, key)
  {
  }

  /** m is the position of the smallest key among i and its children. */
  ghost predicate MinOfFamily<T>(s: seq<T>, key: T -> int, i: int, m: int)
    requires 0 <= i < |s| && 0 <= m < |s|
  {
    (m == i || (m > 0 && Parent(m) == i)) &&
    forall c :: 0 < c < |s| && Parent(c) == i ==> key(s[m]) <= key(s[c])
  }

  lemma SiftDownStep<T>(s: seq<T>, key: T -> int, i: int, m: int)
    requires 0 <= i < |s| && 0 < m < |s| && m != i && Parent(m) == i
    requires HeapBelowExcept(s, key, i) && GrandparentBound(s, key, i)
    requires MinOfFamily(s, key, i, m) && key(s[m]) < key(s[i])
    ensures HeapBelowExcept(Swap(s, i, m), key, m)
    ensures GrandparentBound(Swap(s, i, m), key, m)
  {
    var t := Swap(s, i, m);
    forall j | 0 < j < |t| && Parent(j) != m
      ensures key(t[Parent(j)]) <= key(t[j])
    {
      if j == m {
      } else if Parent(j) == i {
        assert t[Parent(j)] == s[m] && t[j] == s[j];
      } else if j == i {
        assert t[Parent(j)] == s[Parent(i)] && t[j] == s[m];
      } else {
        assert t[Parent(j)] == s[Parent(j)] && t[j] == s[j];
      }
    }
    forall c | 0 < c < |t| && Parent(c) == m
      ensures key(t[Parent(m)]) <= key(t[c])
    {
      assert t[Parent(m)] == s[m] && t[c] == s[c];
    }
  }

  lemma SiftDownDone<T>(s: seq<T>, key: T -> int, i: int)
    requires 0 <= i < |s|
    requires HeapBelowExcept(s, key, i) && MinOfFamily(s, key, i, i)
    ensures IsHeap(s, key)
  {
  }

  /** The family minimum computed by heapifyDown's two comparisons. */
  lemma FamilyMinimum<T>(s: seq<T>, key: T -> int, i: int, m: int)
    requires 0 <= i < |s| && 0 <= m < |s|
    requires m == i || m == 2 * i + 1 || m == 2 * i + 2
    requires key(s[m]) <= key(s[i])
    requires 2 * i + 1 < |s| ==> key(s[m]) <= key(s[2 * i + 1])
    requires 2 * i + 2 < |s| ==> key(s[m]) <= key(s[2 * i + 2])
    ensures MinOfFamily(s, key, i, m)
  {
    ChildrenOf(|s|, i);
  }

  /** Moving the last element to the root leaves a heap broken only below the root. */
  function RemoveRoot<T>(s: seq<T>): (t: seq<T>)
    requires |s| > 0
    ensures |t| == |s| - 1
    ensures multiset(t) == multiset(s) - multiset{s[0]}
  {
    LastToRoot(s);
    s[0 := s[|s| - 1]][..|s| - 1]
  }

  lemma LastToRoot<T>(s: seq<T>)
    requires |s| > 0
    ensures multiset(s[0 := s[|s| - 1]][..|s| - 1]) == multiset(s) - multiset{s[0]}
  {
    if |s| > 1 {
      var mid := s[1..|s| - 1];
      Ends(s);
      Ends(s[0 := s[|s| - 1]][..|s| - 1]);
      assert s[0 := s[|s| - 1]][..|s| - 1][1..] == mid;
      assert s[1..] == mid + [s[|s| - 1]];
    }
  }

  lemma Ends<T>(s: seq<T>)
    requires |s| > 0
    ensures multiset(s) == multiset{s[0]} + multiset(s[1..])
  {
    assert s == [s[0]] + s[1..];
  }

  lemma RemoveRootOrder<T>(s: seq<T>, key: T -> int)
    requires IsHeap(s, key) && |s| > 1
    ensures HeapBelowExcept(RemoveRoot(s), key, 0) && GrandparentBound(RemoveRoot(s), key, 0)
  {
    var t := RemoveRoot(s);
    forall j | 0 < j < |t| && Parent(j) != 0
      ensures key(t[Parent(j)]) <= key(t[j])
    {
      assert t[j] == s[j] && t[Parent(j)] == s[Parent(j)];
    }
  }

  /** The C++ heap: the elements live in a growable sequence. */
  class MinHeap<T> {
    const key: T -> int
    var elems: seq<T>

    ghost predicate Valid()
      reads this
    {
      IsHeap(elems, key)
    }

    constructor (key: T -> int)
      ensures Valid() && this.key == key && elems == []
    {
      this.key := key;
      elems := [];
    }

    function Empty(): (b: bool)
      reads this
      ensures b <==> |elems| == 0
    {
      elems == []
    }

    /** Appends e and sifts it up (push / insert). */
    method Push(e: T)
      requires Valid()
      modifies this
      ensures Valid()
      ensures multiset(elems) == old(multiset(elems)) + multiset{e}
      ensures |elems| == old(|elems|) + 1
    {
      elems := elems + [e];
      SiftUp(|elems| - 1);
    }

    /** Removes and returns an element of minimum key (pop). */
    method Pop() returns (top: T)
      requires Valid() && elems != []
      modifies this
      ensures Valid()
      ensures top in old(elems)
      ensures forall e :: e in old(elems) ==> key(top) <= key(e)
      ensures multiset(elems) == old(multiset(elems)) - multiset{top}
      ensures |elems| == old(|elems|) - 1
    {
      top := elems[0];
      forall e | e in elems ensures key(top) <= key(e) {
        var k :| 0 <= k < |elems| && elems[k] == e;
        RootIsMinimum(elems, key, k);
      }
      if |elems| > 1 {
        RemoveRootOrder(elems, key);
      }
      elems := RemoveRoot(elems);
      if elems != [] {
        SiftDown(0);
      }
    }

    method SiftUp(start: int)
      requires 0 <= start < |elems|
      requires HeapExceptAt(elems, key, start) && GrandparentBound(elems, key, start)
      modifies this
      ensures Valid()
      ensures multiset(elems) == old(multiset(elems)) && |elems| == old(|elems|)
    {
      var i := start;
      while i > 0
        invariant 0 <= i < |elems| && |elems| == old(|elems|)
        invariant multiset(elems) == old(multiset(elems))
        invariant HeapExceptAt(elems, key, i) && GrandparentBound(elems, key, i)
      {
        var p := Parent(i);
        if key(elems[i]) < key(elems[p]) {
          SiftUpStep(elems, key, i);
          elems := Swap(elems, i, p);
          i := p;
        } else {
          break;
        }
      }
      SiftUpDone(elems, key, i);
    }

    method SiftDown(start: int)
      requires 0 <= start < |elems|
      requires HeapBelowExcept(elems, key, start) && GrandparentBound(elems, key, start)
      modifies this
      ensures Valid()
      ensures multiset(elems) == old(multiset(elems)) && |elems| == old(|elems|)
    {
      var i := start;
      ghost var n0, m0 := |elems|, multiset(elems);
      while true
        invariant 0 <= i < |elems| && |elems| == n0
        invariant multiset(elems) == m0
        invariant HeapBelowExcept(elems, key, i) && GrandparentBound(elems, key, i)
        decreases |elems| - i
      {
        var m := SmallestOfFamily(i);
        if m == i {
          SiftDownDone(elems, key, i);
          break;
        }
        SiftDownStep(elems, key, i, m);
        elems := Swap(elems, i, m);
        i := m;
      }
    }

    /** heapifyDown's two comparisons: i or the child with the smaller key. */
    method SmallestOfFamily(i: int) returns (m: int)
      requires 0 <= i < |elems|
      ensures 0 <= m < |elems| && (m == i || m == 2 * i + 1 || m == 2 * i + 2)
      ensures MinOfFamily(elems, key, i, m) && (m != i ==> key(elems[m]) < key(elems[i]))
    {
      var l, r := 2 * i + 1, 2 * i + 2;
      m := i;
      if l < |elems| && key(elems[l]) < key(elems[m]) {
        m := l;
      }
      if r < |elems| && key(elems[r]) < key(elems[m]) {
        m := r;
      }
      FamilyMinimum(elems, key, i, m);
    }
  }

  /** The only children of i are 2i+1 and 2i+2. */
  lemma ChildrenOf(n: int, i: int)
    requires 0 <= i
    ensures forall c :: 0 < c < n && Parent(c) == i ==> c == 2 * i + 1 || c == 2 * i + 2
    ensures 2 * i + 1 > 0 && Parent(2 * i + 1) == i && Parent(2 * i + 2) == i
  {
  }

  /** The C heap: a fixed-capacity array and a size counter. */
  class BoundedHeap<T(0)> {
    const key: T -> int
    const data: array<T>
    var size: nat

    ghost predicate Valid()
      reads this, data
    {
      size <= data.Length && IsHeap(data[..size], key)
    }

    /** The elements currently in the heap. */
    ghost function Elems(): seq<T>
      reads this, data
      requires size <= data.Length
    {
      data[..size]
    }

    constructor (capacity: nat, key: T -> int)
      ensures Valid() && fresh(data) && data.Length == capacity && size == 0 && this.key == key
    {
      this.key := key;
      data := new T[capacity];
      size := 0;
    }

    /** insertNode / eq_push: the caller must leave room, the source does not check. */
    method Insert(e: T)
      requires Valid() && size < data.Length
      modifies this, data
      ensures Valid()
      ensures multiset(Elems()) == old(multiset(Elems())) + multiset{e}
      ensures size == old(size) + 1
    {
      ghost var before := data[..size];
      data[size] := e;
      size := size + 1;
      assert data[..size] == before + [e];
      SiftUp(size - 1);
    }

    /** deleteFromHeap / eq_pop. */
    method DeleteMin() returns (top: T)
      requires Valid() && size > 0
      modifies this, data
      ensures Valid()
      ensures top in old(Elems())
      ensures forall e :: e in old(Elems()) ==> key(top) <= key(e)
      ensures multiset(Elems()) == old(multiset(Elems())) - multiset{top}
      ensures size == old(size) - 1
    {
      ghost var before := data[..size];
      top := data[0];
      forall e | e in before ensures key(top) <= key(e) {
        var k :| 0 <= k < |before| && before[k] == e;
        RootIsMinimum(before, key, k);
      }
      if size > 1 {
        RemoveRootOrder(before, key);
      }
      data[0] := data[size - 1];
      size := size - 1;
      assert data[..size] == RemoveRoot(before);
      if size > 0 {
        SiftDown(0);
      }
    }

    /** swap: exchanges two live slots. */
    method Exchange(i: int, j: int)
      requires size <= data.Length && 0 <= i < size && 0 <= j < size
      modifies data
      ensures data[..size] == Swap(old(data[..size]), i, j)
    {
      data[i], data[j] := data[j], data[i];
    }

    method SiftUp(start: int)
      requires size <= data.Length && 0 <= start < size
      requires HeapExceptAt(data[..size], key, start) && GrandparentBound(data[..size], key, start)
      modifies data
      ensures Valid()
      ensures multiset(data[..size]) == old(multiset(data[..size]))
    {
      var i := start;
      while i > 0
        invariant 0 <= i < size
        invariant multiset(data[..size]) == old(multiset(data[..size]))
        invariant HeapExceptAt(data[..size], key, i) && GrandparentBound(data[..size], key, i)
      {
        var p := Parent(i);
        if key(data[i]) < key(data[p]) {
          SiftUpStep(data[..size], key, i);
          Exchange(i, p);
          i := p;
        } else {
          break;
        }
      }
      SiftUpDone(data[..size], key, i);
    }

    method SiftDown(start: int)
      requires size <= data.Length && 0 <= start < size
      requires HeapBelowExcept(data[..size], key, start) && GrandparentBound(data[..size], key, start)
      modifies data
      ensures Valid()
      ensures multiset(data[..size]) == old(multiset(data[..size]))
    {
      var i := start;
      while true
        invariant 0 <= i < size
        invariant multiset(data[..size]) == old(multiset(data[..size]))
        invariant HeapBelowExcept(data[..size], key, i) && GrandparentBound(data[..size], key, i)
        decreases size - i
      {
        var m := SmallestOfFamily(i);
        if m == i {
          SiftDownDone(data[..size], key, i);
          break;
        }
        SiftDownStep(data[..size], key, i, m);
        Exchange(i, m);
        i := m;
      }
    }

    method SmallestOfFamily(i: int) returns (m: int)
      requires size <= data.Length && 0 <= i < size
      ensures 0 <= m < size && (m == i || m == 2 * i + 1 || m == 2 * i + 2)
      ensures MinOfFamily(data[..size], key, i, m) && (m != i ==> key(data[m]) < key(data[i]))
    {
      var l, r := 2 * i + 1, 2 * i + 2;
      m := i;
      if l < size && key(data[l]) < key(data[m]) {
        m := l;
      }
      if r < size && key(data[r]) < key(data[m]) {
        m := r;
      }
      FamilyMinimum(data[..size], key, i, m);
    }
  }
}
