/** Rotating two adjacent stretches of an argument vector by swapping blocks. */
module Exchange {

  function BlocksSwapped<T>(s: seq<T>, i: nat, j: nat, len: nat): seq<T>
    requires i + len <= j && j + len <= |s|
  {
    s[..i] + s[j..j + len] + s[i + len..j] + s[i..i + len] + s[j + len..]
  }

  /** What is at `m` once `k` pairs have been swapped. */
  function ItemSwapped<T>(s: seq<T>, i: nat, j: nat, k: nat, m: nat): T
    requires i + k <= j && j + k <= |s| && m < |s|
  {
    if i <= m < i + k then s[j + (m - i)] else if j <= m < j + k then s[i + (m - j)] else s[m]
  }

  lemma AllSwapped<T>(s: seq<T>, t: seq<T>, i: nat, j: nat, len: nat)
    requires i + len <= j && j + len <= |s| == |t|
    requires forall m :: 0 <= m < |s| ==> t[m] == ItemSwapped(s, i, j, len, m)
    ensures t == BlocksSwapped(s, i, j, len)
  {
  }

  /** Swaps `len` items at `i` with `len` items at `j`, one pair after the other. */
  method SwapBlocks<T>(a: array<T>, i: nat, j: nat, len: nat)
    requires i + len <= j && j + len <= a.Length
    modifies a
    ensures a[..] == BlocksSwapped(old(a[..]), i, j, len)
  {
    hide BlocksSwapped;
    ghost var s := a[..];
    var k := 0;
    while k < len
      invariant 0 <= k <= len
      invariant forall m :: 0 <= m < a.Length ==> a[m] == ItemSwapped(s, i, j, k, m)
    {
      var tem := a[i + k];
      a[i + k] := a[j + k];
      a[j + k] := tem;
      k := k + 1;
    }
    AllSwapped(s, a[..], i, j, len);
  }

  /** Everything in its place once the stretches [b, m) and [m, t) have changed places. */
  function Rotated<T>(s: seq<T>, b: nat, m: nat, t: nat): seq<T>
    requires b <= m <= t <= |s|
  {
    s[..b] + s[m..t] + s[b..m] + s[t..]
  }

  /** The short bottom stretch has gone to the far end of the top one. */
  lemma BottomMoved<T>(s: seq<T>, s': seq<T>, b: nat, m: nat, t: nat)
    requires b <= m <= t <= |s| && m - b < t - m
    requires s' == BlocksSwapped(s, b, t - (m - b), m - b)
    ensures |s'| == |s| && Rotated(s', b, m, t - (m - b)) == Rotated(s, b, m, t)
  {
    var l := m - b;
    assert s'[..b] == s[..b] && s'[b..m] == s[t - l..t] && s'[m..t - l] == s[m..t - l] &&
           s'[t - l..] == s[b..m] + s[t..];
    assert s[m..t] == s[m..t - l] + s[t - l..t];
  }

  /** The short top stretch has gone to the near end of the bottom one. */
  lemma TopMoved<T>(s: seq<T>, s': seq<T>, b: nat, m: nat, t: nat)
    requires b <= m <= t <= |s| && t - m <= m - b
    requires s' == BlocksSwapped(s, b, m, t - m)
    ensures |s'| == |s| && Rotated(s', b + (t - m), m, t) == Rotated(s, b, m, t)
  {
    var l := t - m;
    assert s'[..b + l] == s[..b] + s[m..t] && s'[m..t] == s[b..b + l] && s'[b + l..m] == s[b + l..m] &&
           s'[t..] == s[t..];
    assert s[b..m] == s[b..b + l] + s[b + l..m];
  }

  /** `exchange`: the stretch [first, last) changes places with [last, optind), each keeping its order;
      nothing else moves. */
  method ExchangeSegments<T>(a: array<T>, first: nat, last: nat, optind: nat)
    requires first <= last <= optind <= a.Length
    modifies a
    ensures a[..] == Rotated(old(a[..]), first, last, optind)
  {
    hide Rotated, BlocksSwapped;
    var bottom, middle, top := first, last, optind;
    while top > middle && middle > bottom
      invariant first <= bottom <= middle <= top <= optind
      invariant Rotated(a[..], bottom, middle, top) == Rotated(old(a[..]), first, last, optind)
      decreases top - bottom
    {
      ghost var s := a[..];
      if top - middle > middle - bottom {
        var len := middle - bottom;
        SwapBlocks(a, bottom, top - len, len);
        BottomMoved(s, a[..], bottom, middle, top);
        top := top - len;
      } else {
        var len := top - middle;
        SwapBlocks(a, bottom, middle, len);
        TopMoved(s, a[..], bottom, middle, top);
        bottom := bottom + len;
      }
    }
    NothingLeft(a[..], bottom, middle, top);
  }

  lemma NothingLeft<T>(s: seq<T>, b: nat, m: nat, t: nat)
    requires b <= m <= t <= |s| && (b == m || m == t)
    ensures Rotated(s, b, m, t) == s
  {
  }
}
