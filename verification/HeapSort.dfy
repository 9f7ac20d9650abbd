/** In-place heapsort. Nodes are numbered from 1, so the children of node i are 2*i and 2*i+1. */
module HeapSort {

  /** A comparison function that orders all items, some of them possibly alike. */
  ghost predicate TotalPreorder<T(!new)>(cmp: (T, T) -> int) {
    && (forall a, b :: cmp(a, b) >= 0 <==> cmp(b, a) <= 0)
    && (forall a, b, c :: cmp(a, b) <= 0 && cmp(b, c) <= 0 ==> cmp(a, c) <= 0)
  }

  function Node<T>(s: seq<T>, i: int): T
    requires 1 <= i <= |s|
  {
    s[i - 1]
  }

  /** Node j is not greater than its parent. */
  predicate ParentOk<T>(cmp: (T, T) -> int, s: seq<T>, j: int)
    requires 2 <= j <= |s|
  {
    cmp(Node(s, j), Node(s, j / 2)) <= 0
  }

  /** Heap order on the nodes from `lo` on, as far as `hi`. */
  ghost predicate HeapFrom<T>(cmp: (T, T) -> int, s: seq<T>, lo: int, hi: int)
    requires 0 <= hi <= |s|
  {
    forall j :: 2 <= j <= hi && j / 2 >= lo ==> ParentOk(cmp, s, j)
  }

  /** Heap order but at node `p`, whose children fit under its own parent. */
  ghost predicate HeapBut<T>(cmp: (T, T) -> int, s: seq<T>, lo: int, hi: int, p: int)
    requires 0 <= hi <= |s|
  {
    && (forall j :: 2 <= j <= hi && j / 2 >= lo && j / 2 != p ==> ParentOk(cmp, s, j))
    && (forall j :: 2 <= j <= hi && j / 2 == p && p / 2 >= lo && p / 2 >= 1 ==> cmp(Node(s, j), Node(s, p / 2)) <= 0)
  }

  function Swapped<T>(s: seq<T>, p: int, q: int): (r: seq<T>)
    requires 1 <= p <= |s| && 1 <= q <= |s|
    ensures |r| == |s|
  {
    s[p - 1 := s[q - 1]][q - 1 := s[p - 1]]
  }

  lemma NodeSwapped<T>(s: seq<T>, p: int, q: int, j: int)
    requires 1 <= p <= |s| && 1 <= q <= |s| && 1 <= j <= |s|
    ensures Node(Swapped(s, p, q), j) == if j == q then Node(s, p) else if j == p then Node(s, q) else Node(s, j)
  {
  }

  lemma SwapPermutes<T>(s: seq<T>, p: int, q: int)
    requires 1 <= p <= |s| && 1 <= q <= |s|
    ensures multiset(Swapped(s, p, q)) == multiset(s)
  {
  }

  /** `q` is a greatest child of `p`. */
  predicate GreatestChild<T>(cmp: (T, T) -> int, s: seq<T>, p: int, q: int, hi: int)
    requires 1 <= p && hi <= |s|
  {
    && (q == 2 * p || q == 2 * p + 1) && q <= hi
    && cmp(Node(s, 2 * p), Node(s, q)) <= 0
    && (2 * p + 1 <= hi ==> cmp(Node(s, 2 * p + 1), Node(s, q)) <= 0)
  }

  /** Swapping a node with its greatest child moves the flaw down to that child. */
  lemma SiftStep<T(!new)>(cmp: (T, T) -> int, s: seq<T>, lo: int, hi: int, p: int, q: int)
    requires TotalPreorder(cmp) && 1 <= lo <= p && 0 <= hi <= |s| && HeapBut(cmp, s, lo, hi, p)
    requires GreatestChild(cmp, s, p, q, hi) && cmp(Node(s, p), Node(s, q)) < 0
    ensures HeapBut(cmp, Swapped(s, p, q), lo, hi, q)
  {
    var t := Swapped(s, p, q);
    forall j | 2 <= j <= hi && j / 2 >= lo && j / 2 != q ensures ParentOk(cmp, t, j) {
      NodeSwapped(s, p, q, j);
      NodeSwapped(s, p, q, j / 2);
      if j / 2 != p && j != p {
        assert ParentOk(cmp, s, j);
      }
    }
    forall j | 2 <= j <= hi && j / 2 == q ensures cmp(Node(t, j), Node(t, q / 2)) <= 0 {
      NodeSwapped(s, p, q, j);
      NodeSwapped(s, p, q, p);
      assert ParentOk(cmp, s, j);
    }
  }

  /** With a greatest child in order, or no child at all, the flaw is gone. */
  lemma SiftDone<T(!new)>(cmp: (T, T) -> int, s: seq<T>, lo: int, hi: int, p: int, q: int)
    requires TotalPreorder(cmp) && 1 <= lo <= p && 0 <= hi <= |s| && HeapBut(cmp, s, lo, hi, p)
    requires 2 * p > hi || (GreatestChild(cmp, s, p, q, hi) && cmp(Node(s, p), Node(s, q)) >= 0)
    ensures HeapFrom(cmp, s, lo, hi)
  {
    hide TotalPreorder;
    forall j | 2 <= j <= hi && j / 2 >= lo ensures ParentOk(cmp, s, j) {
      if j / 2 == p {
        Transitive(cmp, Node(s, j), Node(s, q), Node(s, p));
      }
    }
  }

  lemma Transitive<T(!new)>(cmp: (T, T) -> int, a: T, b: T, c: T)
    requires TotalPreorder(cmp) && cmp(a, b) <= 0 && cmp(c, b) >= 0
    ensures cmp(a, c) <= 0
  {
  }

  /** In a heap the first node is a greatest one. */
  lemma {:induction false} RootIsGreatest<T(!new)>(cmp: (T, T) -> int, s: seq<T>, hi: int, j: int)
    requires TotalPreorder(cmp) && 1 <= j <= hi <= |s| && HeapFrom(cmp, s, 1, hi)
    ensures cmp(Node(s, j), Node(s, 1)) <= 0
  {
    if j == 1 {
      var x := Node(s, 1);
      assert cmp(x, x) >= 0 || cmp(x, x) <= 0;
    } else {
      assert ParentOk(cmp, s, j);
      RootIsGreatest(cmp, s, hi, j / 2);
    }
  }

  // ----- counting comparisons

  /** The levels below node `p` in a heap of `hi` nodes. */
  function Depth(p: nat, hi: nat): nat
    requires p >= 1
    decreases hi - p
  {
    if 2 * p > hi then 0 else 1 + Depth(2 * p, hi)
  }

  /** The whole part of the logarithm to base 2. */
  function Log2(n: nat): nat
    requires n >= 1
  {
    if n == 1 then 0 else 1 + Log2(n / 2)
  }

  lemma {:induction false} DepthFalls(p: nat, p': nat, hi: nat)
    requires 1 <= p <= p'
    ensures Depth(p', hi) <= Depth(p, hi)
    decreases hi - p
  {
    if 2 * p' <= hi {
      DepthFalls(2 * p, 2 * p', hi);
    }
  }

  lemma {:induction false} DepthHalf(p: nat, hi: nat)
    requires p >= 1
    ensures Depth(2 * p, hi) == Depth(p, hi / 2)
    decreases hi - p
  {
    if 2 * p <= hi / 2 {
      DepthHalf(2 * p, hi);
    }
  }

  lemma {:induction false} DepthOfRoot(n: nat)
    requires n >= 1
    ensures Depth(1, n) == Log2(n)
  {
    if n > 1 {
      DepthHalf(1, n);
      DepthOfRoot(n / 2);
    }
  }

  lemma {:induction false} Log2Grows(m: nat, n: nat)
    requires 1 <= m <= n
    ensures Log2(m) <= Log2(n)
  {
    if m > 1 {
      Log2Grows(m / 2, n / 2);
    }
  }

  // ----- the algorithm

  method SwapNodes<T(!new)>(a: array<T>, p: nat, q: nat)
    requires 1 <= p <= a.Length && 1 <= q <= a.Length
    modifies a
    ensures a[..] == Swapped(old(a[..]), p, q)
    ensures multiset(a[..]) == old(multiset(a[..]))
    ensures forall k :: p <= k && q <= k <= a.Length ==> a[k..] == old(a[k..])
  {
    SwapPermutes(a[..], p, q);
    a[p - 1], a[q - 1] := a[q - 1], a[p - 1];
    assert a[..] == Swapped(old(a[..]), p, q);
  }

  /** What phase 1 and phase 2 have in common: moves the item at node `gap` down to where it belongs. */
  method FixHeap<T(!new)>(a: array<T>, cmp: (T, T) -> int, gap: nat, hi: nat) returns (ghost calls: nat)
    requires TotalPreorder(cmp) && 1 <= gap && hi <= a.Length
    requires HeapFrom(cmp, a[..], gap + 1, hi)
    modifies a
    ensures HeapFrom(cmp, a[..], gap, hi)
    ensures multiset(a[..]) == old(multiset(a[..])) && a[hi..] == old(a[hi..])
    ensures calls <= 2 * Depth(gap, hi)
  {
    calls := 0;
    var p, g := gap, gap;
    assert HeapBut(cmp, a[..], gap, hi, p);
    hide TotalPreorder, HeapFrom, HeapBut, GreatestChild, Swapped, Node;
    while p + g <= hi
      invariant gap <= p == g
      invariant HeapBut(cmp, a[..], gap, hi, p)
      invariant multiset(a[..]) == old(multiset(a[..])) && a[hi..] == old(a[hi..])
      invariant calls + 2 * Depth(p, hi) <= 2 * Depth(gap, hi)
      decreases hi - p
    {
      ghost var s := a[..];
      var q := p + g;
      g := g + g;
      if q != hi {
        calls := calls + 1;
        if cmp(a[q], a[q - 1]) > 0 {
          q := q + 1;
          g := g + 1;
        }
      }
      GreatestFound(cmp, s, p, q, hi);
      NodesAre(s, p, q);
      calls := calls + 1;
      if cmp(a[p - 1], a[q - 1]) >= 0 {
        SiftDone(cmp, s, gap, hi, p, q);
        return;
      }
      SiftStep(cmp, s, gap, hi, p, q);
      DepthFalls(2 * p, q, hi);
      SwapNodes(a, p, q);
      p := q;
    }
    SiftDone(cmp, a[..], gap, hi, p, p);
  }

  lemma NodesAre<T>(s: seq<T>, p: nat, q: nat)
    requires 1 <= p <= |s| && 1 <= q <= |s|
    ensures Node(s, p) == s[p - 1] && Node(s, q) == s[q - 1]
  {
  }

  lemma GreatestFound<T(!new)>(cmp: (T, T) -> int, s: seq<T>, p: nat, q: nat, hi: nat)
    requires TotalPreorder(cmp) && 1 <= p && 2 * p <= hi <= |s|
    requires q == if 2 * p != hi && cmp(s[2 * p], s[2 * p - 1]) > 0 then 2 * p + 1 else 2 * p
    ensures GreatestChild(cmp, s, p, q, hi)
  {
    var x, y := Node(s, 2 * p), Node(s, q);
    assert cmp(x, x) >= 0 <==> cmp(x, x) <= 0;
    assert cmp(y, y) >= 0 <==> cmp(y, y) <= 0;
  }

  /** Phase 1: heap order on all nodes but the first. */
  method BuildHeap<T(!new)>(a: array<T>, cmp: (T, T) -> int) returns (ghost calls: nat)
    requires TotalPreorder(cmp) && a.Length >= 2
    modifies a
    ensures HeapFrom(cmp, a[..], 2, a.Length)
    ensures multiset(a[..]) == old(multiset(a[..]))
    ensures calls <= 2 * ((a.Length / 2 - 1) * (Log2(a.Length) - 1))
  {
    calls := 0;
    var n := a.Length;
    var gap := n / 2;
    assert HeapFrom(cmp, a[..], gap + 1, n);
    hide TotalPreorder, HeapFrom;
    while gap != 1
      invariant 1 <= gap <= n / 2
      invariant HeapFrom(cmp, a[..], gap + 1, n)
      invariant multiset(a[..]) == old(multiset(a[..]))
      invariant calls <= 2 * ((n / 2 - gap) * (Log2(n) - 1))
      decreases gap
    {
      ghost var more := FixHeap(a, cmp, gap, n);
      DepthFalls(2, gap, n);
      DepthHalf(1, n);
      DepthOfRoot(n / 2);
      OneMore(n / 2 - gap, Log2(n) - 1, calls, more);
      calls := calls + more;
      gap := gap - 1;
    }
  }

  lemma OneMore(rounds: nat, each: int, calls: nat, more: nat)
    requires calls <= 2 * (rounds * each) && more <= 2 * each
    ensures calls + more <= 2 * ((rounds + 1) * each)
  {
    assert (rounds + 1) * each == rounds * each + each;
  }

  /** `s` is sorted from `hi` on, and nothing before `hi` is greater than anything from there on. */
  ghost predicate SortedFrom<T>(cmp: (T, T) -> int, s: seq<T>, hi: int) {
    forall i, j :: 0 <= i < j < |s| && hi <= j ==> cmp(s[i], s[j]) <= 0
  }

  lemma SameFront<T>(s: seq<T>, t: seq<T>, hi: nat)
    requires hi <= |s| == |t| && multiset(s) == multiset(t) && s[hi..] == t[hi..]
    ensures multiset(s[..hi]) == multiset(t[..hi])
  {
    assert s == s[..hi] + s[hi..] && t == t[..hi] + t[hi..];
    assert multiset(s[..hi]) == multiset(s) - multiset(s[hi..]);
    assert multiset(t[..hi]) == multiset(t) - multiset(t[hi..]);
  }

  /** Rearranging the items before `hi` keeps the rest sorted and above them. */
  lemma SortedFromKept<T(!new)>(cmp: (T, T) -> int, s: seq<T>, t: seq<T>, hi: nat)
    requires hi <= |s| == |t| && multiset(s) == multiset(t) && s[hi..] == t[hi..] && SortedFrom(cmp, s, hi)
    ensures SortedFrom(cmp, t, hi)
  {
    SameFront(s, t, hi);
    forall i, j | 0 <= i < j < |t| && hi <= j ensures cmp(t[i], t[j]) <= 0 {
      assert t[j] == t[hi..][j - hi] == s[j];
      if i < hi {
        assert t[i] in multiset(t[..hi]);
        assert t[i] in multiset(s[..hi]);
        var k :| 0 <= k < hi && s[..hi][k] == t[i];
        assert cmp(s[k], s[j]) <= 0;
      } else {
        assert t[i] == t[hi..][i - hi] == s[i];
      }
    }
  }

  /** Swapping the greatest item to the end of the heap makes the sorted part one longer. */
  lemma MoveGreatest<T(!new)>(cmp: (T, T) -> int, s: seq<T>, hi: nat)
    requires TotalPreorder(cmp) && 2 <= hi <= |s| && HeapFrom(cmp, s, 1, hi) && SortedFrom(cmp, s, hi)
    ensures SortedFrom(cmp, Swapped(s, 1, hi), hi - 1)
    ensures HeapFrom(cmp, Swapped(s, 1, hi), 2, hi - 1)
  {
    var t := Swapped(s, 1, hi);
    forall i, j | 0 <= i < j < |t| && hi - 1 <= j ensures cmp(t[i], t[j]) <= 0 {
      NodeSwapped(s, 1, hi, i + 1);
      NodeSwapped(s, 1, hi, j + 1);
      if j == hi - 1 {
        RootIsGreatest(cmp, s, hi, if i == 0 then hi else i + 1);
      }
    }
    forall j | 2 <= j <= hi - 1 && j / 2 >= 2 ensures ParentOk(cmp, t, j) {
      NodeSwapped(s, 1, hi, j);
      NodeSwapped(s, 1, hi, j / 2);
      assert ParentOk(cmp, s, j);
    }
  }

  /** One round of phase 2: the greatest of the first `hi` items goes to node `hi`. */
  method ExtractOne<T(!new)>(a: array<T>, cmp: (T, T) -> int, hi: nat) returns (ghost calls: nat)
    requires TotalPreorder(cmp) && 2 <= hi <= a.Length && HeapFrom(cmp, a[..], 2, hi) && SortedFrom(cmp, a[..], hi)
    modifies a
    ensures HeapFrom(cmp, a[..], 2, hi - 1) && SortedFrom(cmp, a[..], hi - 1)
    ensures multiset(a[..]) == old(multiset(a[..]))
    ensures calls <= 2 * Log2(hi)
  {
    hide *;
    calls := FixHeap(a, cmp, 1, hi);
    DepthOfRoot(hi);
    SortedFromKept(cmp, old(a[..]), a[..], hi);
    MoveGreatest(cmp, a[..], hi);
    SwapNodes(a, 1, hi);
  }

  /** Phase 2: one greatest item after the other goes to the end. */
  lemma NothingSorted<T>(cmp: (T, T) -> int, s: seq<T>)
    ensures SortedFrom(cmp, s, |s|)
  {
  }

  method ExtractAll<T(!new)>(a: array<T>, cmp: (T, T) -> int) returns (ghost calls: nat)
    requires TotalPreorder(cmp) && a.Length >= 2 && HeapFrom(cmp, a[..], 2, a.Length)
    modifies a
    ensures SortedFrom(cmp, a[..], 1)
    ensures multiset(a[..]) == old(multiset(a[..]))
    ensures calls <= 2 * ((a.Length - 1) * Log2(a.Length))
  {
    hide *;
    calls := 0;
    var n := a.Length;
    var hi := n;
    NothingSorted(cmp, a[..]);
    while hi != 1
      invariant 1 <= hi <= n
      invariant HeapFrom(cmp, a[..], 2, hi) && SortedFrom(cmp, a[..], hi)
      invariant multiset(a[..]) == old(multiset(a[..]))
      invariant calls <= 2 * ((n - hi) * Log2(n))
    {
      ghost var more := ExtractOne(a, cmp, hi);
      Log2Grows(hi, n);
      OneMore(n - hi, Log2(n), calls, more);
      calls := calls + more;
      hi := hi - 1;
    }
  }

  /** `hsort`: the items come out in ascending order, nothing lost and nothing added, after at most
      3 * n * log2(n) comparisons, for every way of comparing that is a total preorder. */
  method Sort<T(!new)>(a: array<T>, cmp: (T, T) -> int) returns (ghost calls: nat)
    requires TotalPreorder(cmp)
    modifies a
    ensures forall i, j :: 0 <= i < j < a.Length ==> cmp(a[i], a[j]) <= 0
    ensures multiset(a[..]) == old(multiset(a[..]))
    ensures a.Length < 2 ==> calls == 0
    ensures a.Length >= 2 ==> calls <= 3 * (a.Length * Log2(a.Length))
  {
    calls := 0;
    var n := a.Length;
    if n < 2 {
      return;
    }
    hide TotalPreorder, HeapFrom, Log2;
    ghost var built := BuildHeap(a, cmp);
    ghost var extracted := ExtractAll(a, cmp);
    calls := built + extracted;
    assert forall i, j :: 0 <= i < j < n ==> cmp(a[..][i], a[..][j]) <= 0;
    LogPositive(n);
    BothPhases(n, n / 2, Log2(n), built, extracted);
  }

  lemma LogPositive(n: nat)
    requires n >= 2
    ensures Log2(n) >= 1
  {
  }

  lemma BothPhases(n: nat, h: nat, l: nat, built: nat, extracted: nat)
    requires 1 <= h && 2 * h <= n && 1 <= l
    requires built <= 2 * ((h - 1) * (l - 1)) && extracted <= 2 * ((n - 1) * l)
    ensures built + extracted <= 3 * (n * l)
  {
    LessTimes(h - 1, l - 1, n, l);
    assert (n - 1) * l == n * l - l;
  }

  lemma LessTimes(x: nat, y: nat, n: nat, l: nat)
    requires 2 * x <= n && y <= l
    ensures 2 * (x * y) <= n * l
  {
    assert 2 * (x * y) == (2 * x) * y;
    assert (2 * x) * y <= n * y;
    assert n * y <= n * l;
  }
}
