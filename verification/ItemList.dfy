/** Growable lists of items, which the list may own. */
module ItemList {
  import opened Options
  import opened Memory

  /** An item is a pointer; null is an item like any other, but nobody's property. */
  type Item = nat

  const NULL: Item := 0
  const MIN_LIST_SIZE := 4

  /** Capacities: none, or a power of two and at least the least. */
  predicate Capacity(n: nat) {
    n == 0 || n == MIN_LIST_SIZE || (n > MIN_LIST_SIZE && n % 2 == 0 && n / 2 != 0 && Capacity(n / 2))
  }

  function NonNull(s: seq<Item>): multiset<Item> {
    multiset(s)[NULL := 0]
  }

  lemma NonNullSum(s: seq<Item>, t: seq<Item>)
    ensures NonNull(s + t) == NonNull(s) + NonNull(t)
  {
  }

  // ----- positions

  /** A negative index counts back from the position after the last item. */
  function Position(length: nat, index: int): int {
    if index < 0 then length + 1 + index else index
  }

  /** A negative range reaches up to such a position. */
  function Span(length: nat, position: int, range: int): int {
    if range < 0 then length + 1 + range - position else range
  }

  predicate SpanOk(length: nat, index: int, range: int) {
    var p := Position(length, index);
    0 <= p && 0 <= Span(length, p, range) && p + Span(length, p, range) <= length
  }

  /** Counting from the end is the same as counting from the start, except that there it can be too far. */
  lemma NegativeForms(length: nat, index: int, range: int)
    requires index < 0 && range < 0
    ensures SpanOk(length, index, range) <==> 0 <= length + 1 + index && index <= range
    ensures SpanOk(length, index, range) ==>
              Position(length, index) == length - (-index - 1) &&
                Span(length, Position(length, index), range) == range - index
  {
  }

  function Spliced(s: seq<Item>, p: nat, r: nat, t: seq<Item>): seq<Item>
    requires p + r <= |s|
  {
    s[..p] + t + s[p + r..]
  }

  /** Each non-null item put into an owning list is exactly one of: still held, handed back, destroyed. */
  ghost predicate Balanced(owning: bool, put: multiset<Item>, held: seq<Item>, handed: multiset<Item>,
                           destroyed: multiset<Item>) {
    owning ==> put == NonNull(held) + handed + destroyed
  }

  /** The items the destructor gets when a range goes. */
  function Lost(owning: bool, s: seq<Item>, p: nat, r: nat): multiset<Item>
    requires p + r <= |s|
  {
    if owning then NonNull(s[p..p + r]) else multiset{}
  }

  lemma BalancedAfter(owning: bool, put: multiset<Item>, s: seq<Item>, handed: multiset<Item>,
                      destroyed: multiset<Item>,
                      p: nat, r: nat, t: seq<Item>)
    requires p + r <= |s| && Balanced(owning, put, s, handed, destroyed)
    ensures Balanced(owning, put + NonNull(t), Spliced(s, p, r, t), handed, destroyed + Lost(owning, s, p, r))
    ensures r == 0 ==> Lost(owning, s, p, r) == multiset{}
    ensures t == [] ==> NonNull(t) == multiset{}
  {
    SplicedNonNull(s, p, r, t);
    if owning {
      Rearrange(put, NonNull(s), NonNull(t), NonNull(Spliced(s, p, r, t)), NonNull(s[p..p + r]), handed, destroyed);
    }
  }

  lemma Rearrange(put: multiset<Item>, was: multiset<Item>, added: multiset<Item>, is': multiset<Item>,
                  lost: multiset<Item>,
                  handed: multiset<Item>, destroyed: multiset<Item>)
    requires put == was + handed + destroyed && was + added == is' + lost
    ensures put + added == is' + handed + (destroyed + lost)
  {
    assert put + added == (was + added) + handed + destroyed;
  }

  /** An item on its way out, with null in its place. */
  lemma BalancedTaken(owning: bool, put: multiset<Item>, s: seq<Item>, handed: multiset<Item>,
                      destroyed: multiset<Item>, i: nat)
    requires i < |s| && Balanced(owning, put, s, handed, destroyed)
    ensures Balanced(owning, put, s[i := NULL], handed + NonNull([s[i]]), destroyed)
    ensures Lost(owning, s[i := NULL], i, 1) == multiset{}
    ensures Spliced(s[i := NULL], i, 1, []) == s[..i] + s[i + 1..]
  {
    TakenNonNull(s, i);
    if owning {
      Rearrange(put, NonNull(s), multiset{}, NonNull(s[i := NULL]), NonNull([s[i]]), destroyed, handed);
    }
  }

  /** The items as they are put into another list. */
  function Enlisted(s: seq<Item>, copy: Option<Item -> Item>): (t: seq<Item>)
    ensures |t| == |s|
  {
    seq(|s|, i requires 0 <= i < |s| => if copy.Some? then copy.value(s[i]) else s[i])
  }

  class List {
    const owning: bool       // has a destructor
    var items: array<Item>
    var length: nat
    ghost var put: multiset<Item>        // every non-null item ever put into the list
    ghost var handed: multiset<Item>     // handed back by pop and shift
    ghost var destroyed: multiset<Item>  // given to the destructor

    ghost predicate Shaped()
      reads this
    {
      length <= items.Length && Capacity(items.Length)
    }

    ghost function Contents(): seq<Item>
      requires Shaped()
      reads this, items
    {
      items[..length]
    }

    /** Each item of an owning list is exactly one of: still held, handed back, destroyed. */
    ghost predicate Valid()
      reads this, items
    {
      Shaped() && Balanced(owning, put, Contents(), handed, destroyed)
    }

    constructor (owning: bool)
      ensures Valid() && Contents() == [] && fresh(items) && this.owning == owning
      ensures put == handed == destroyed == multiset{}
    {
      this.owning := owning;
      items, length := new Item[0], 0;
      put, handed, destroyed := multiset{}, multiset{}, multiset{};
    }

    /** `mem_resize`: a new vector with the old items in it, as far as they fit. */
    method Resize(size: nat, keep: nat)
      requires keep <= items.Length && keep <= size
      modifies `items
      ensures fresh(items) && items.Length == size && items[..keep] == old(items[..keep])
    {
      var was := items;
      items := new Item[size](i requires 0 <= i < size reads was => if i < keep <= was.Length then was[i] else NULL);
    }

    /** Doubles the capacity until `n` more items fit. */
    method Grow(n: nat)
      requires Shaped()
      modifies `items
      ensures Shaped() && length + n <= items.Length && (items == old(items) || fresh(items))
      ensures items[..length] == old(items[..length])
      ensures items.Length == old(items.Length) || items.Length == MIN_LIST_SIZE || items.Length / 2 < length + n
    {
      var size := items.Length;
      while length + n > size
        invariant Capacity(size) && size >= items.Length && (size == 0 ==> items.Length == 0)
        invariant size == items.Length || size == MIN_LIST_SIZE || size / 2 < length + n
        decreases length + n - size
      {
        size := if size != 0 then 2 * size else MIN_LIST_SIZE;
      }
      if size != items.Length {
        Resize(size, length);
      }
    }

    /** Halves the capacity while the items without the last `n` fill less than half of it. */
    method Shrink(n: nat)
      requires Shaped() && n <= length
      modifies `items
      ensures Capacity(items.Length) && length - n <= items.Length && (items == old(items) || fresh(items))
      ensures items[..length - n] == old(items[..length - n])
      ensures items.Length <= old(items.Length) && (items.Length / 2 <= length - n || items.Length == MIN_LIST_SIZE)
      ensures items.Length < old(items.Length) ==> length - n < items.Length
    {
      var size: nat := items.Length;
      while length - n < size / 2
        invariant Capacity(size) && length - n <= size <= items.Length && (size < items.Length ==> length - n < size)
      {
        if size == MIN_LIST_SIZE {
          break;
        }
        size := size / 2;
      }
      if size != items.Length {
        Resize(size, length - n);
      }
    }

    /** Makes room for `range` items at `index`. */
    method Expand(index: nat, range: nat)
      requires Shaped() && index <= length
      modifies `items, `length, items
      ensures Shaped() && length == old(length) + range && (items == old(items) || fresh(items))
      ensures Contents()[..index] == old(Contents())[..index] && Contents()[index + range..] == old(Contents())[index..]
    {
      Grow(range);
      OpenGap(items, index, range, length);
      length := length + range;
    }

    /** Closes a gap of `range` items at `index`. */
    method Contract(index: nat, range: nat)
      requires Shaped() && index + range <= length
      modifies `items, `length, items
      ensures Shaped() && length == old(length) - range && (items == old(items) || fresh(items))
      ensures Contents() == old(Contents())[..index] + old(Contents())[index + range..]
    {
      CloseGap(items, index, range, length);
      Shrink(range);
      length := length - range;
    }

    /** The items from `index` + `range` on move to `index` + `n`. */
    method Adjust(index: nat, range: nat, n: nat)
      requires Shaped() && index + range <= length
      modifies `items, `length, items
      ensures Shaped() && length == old(length) - range + n && (items == old(items) || fresh(items))
      ensures Contents()[..index] == old(Contents())[..index]
      ensures Contents()[index + n..] == old(Contents())[index + range..]
    {
      ghost var s := Contents();
      if range < n {
        Expand(index + range, n - range);
        assert Contents()[..index] == Contents()[..index + range][..index];
      } else if range > n {
        Contract(index + n, range - n);
      }
    }

    /** Gives one item to the destructor, if there is one, and leaves null in its place. */
    method KillItem(i: nat)
      requires Shaped() && i < length
      modifies items, `destroyed
      ensures Shaped() && Contents() == old(Contents())[i := NULL]
      ensures destroyed == old(destroyed) + Lost(owning, old(Contents()), i, 1)
    {
      assert Contents()[i..i + 1] == [items[i]];
      if owning {
        destroyed := destroyed + NonNull([items[i]]);
      }
      items[i] := NULL;
    }

    /** The same for a range of items. */
    method KillItems(index: nat, range: nat)
      requires Shaped() && index + range <= length
      modifies items, `destroyed
      ensures Shaped() && Contents() == Killed(old(Contents()), index, range)
      ensures destroyed == old(destroyed) + Lost(owning, old(Contents()), index, range)
    {
      hide *;
      ghost var s := Contents();
      ContentsLength();
      ghost var before := destroyed;
      KilledNone(owning, s, index);
      var i := index;
      while i < index + range
        invariant index <= i <= index + range && Shaped()
        invariant Contents() == Killed(s, index, i - index)
        invariant destroyed == before + Lost(owning, s, index, i - index)
      {
        KilledOne(owning, s, index, i - index);
        KillItem(i);
        i := i + 1;
      }
    }

    // ----- operations

    /** Writes items one after the other. */
    method Store(index: nat, t: seq<Item>)
      requires Shaped() && index + |t| <= length
      modifies items
      ensures Shaped() && Contents() == old(Contents())[..index] + t + old(Contents())[index + |t|..]
    {
      ghost var s := Contents();
      var i := 0;
      while i < |t|
        invariant 0 <= i <= |t|
        invariant Contents() == s[..index] + t[..i] + s[index + i..]
      {
        items[index + i] := t[i];
        i := i + 1;
      }
    }

    /** Destroys a range of items and puts others in their place. */
    method Substitute(p: nat, r: nat, t: seq<Item>)
      requires Valid() && p + r <= length
      modifies `items, `length, `put, `destroyed, items
      ensures Valid() && Contents() == Spliced(old(Contents()), p, r, t)
      ensures put == old(put) + NonNull(t)
      ensures destroyed == old(destroyed) + Lost(owning, old(Contents()), p, r)
      ensures items == old(items) || fresh(items)
    {
      hide Balanced, NonNull, Capacity, Lost, Killed, Spliced;
      ghost var s := Contents();
      ContentsLength();
      BalancedAfter(owning, put, s, handed, destroyed, p, r, t);
      KillItems(p, r);
      ghost var k := Contents();
      Adjust(p, r, |t|);
      ghost var c := Contents();
      Store(p, t);
      put := put + NonNull(t);
      KilledSides(s, p, r, k, c, t);
    }

    /** `list_insert`. */
    method Insert(index: int, item: Item) returns (ok: bool)
      requires Valid()
      modifies `items, `length, `put, items
      ensures Valid() && (ok <==> 0 <= Position(old(length), index) <= old(length))
      ensures Contents() == if ok then Spliced(old(Contents()), Position(old(length), index), 0, [item])
              else old(Contents())
      ensures put == old(put) + if ok then NonNull([item]) else multiset{}
      ensures items == old(items) || fresh(items)
    {
      hide Balanced, NonNull, Capacity, Lost, Spliced;
      var p := Position(length, index);
      if p < 0 || length < p {
        AddNothing(put);
        return false;
      }
      ghost var s := Contents();
      ContentsLength();
      BalancedAfter(owning, put, s, handed, destroyed, p, 0, [item]);
      AddNothing(destroyed);
      Expand(p, 1);
      ghost var c := Contents();
      items[p] := item;
      put := put + NonNull([item]);
      assert Contents() == c[p := item];
      InsertedAt(s, p, c, item);
      ok := true;
    }

    /** `list_append`. */
    method Append(item: Item)
      requires Valid()
      modifies `items, `length, `put, items
      ensures Valid() && Contents() == old(Contents()) + [item] && put == old(put) + NonNull([item])
      ensures items == old(items) || fresh(items)
    {
      hide Balanced, NonNull, Capacity;
      ghost var s := Contents();
      ContentsLength();
      var ok := Insert(-1, item);
      assert Contents() == s + [item];
    }

    /** `list_remove_range`. */
    method RemoveRange(index: int, range: int) returns (ok: bool)
      requires Valid()
      modifies `items, `length, `destroyed, items
      ensures Valid() && (ok <==> SpanOk(old(length), index, range)) && put == old(put)
      ensures !ok ==> Contents() == old(Contents()) && destroyed == old(destroyed)
      ensures ok ==>
                var p := Position(old(length), index);
                var r := Span(old(length), p, range);
                && Contents() == Spliced(old(Contents()), p, r, [])
                && destroyed == old(destroyed) + Lost(owning, old(Contents()), p, r)
      ensures items == old(items) || fresh(items)
    {
      hide Balanced, NonNull, Capacity, Lost, Spliced, Killed;
      if !SpanOk(length, index, range) {
        return false;
      }
      var p: nat := Position(length, index);
      var r: nat := Span(length, p, range);
      ghost var s := Contents();
      ContentsLength();
      BalancedAfter(owning, put, s, handed, destroyed, p, r, []);
      AddNothing(put);
      KillItems(p, r);
      ghost var k := Contents();
      Contract(p, r);
      KilledSides(s, p, r, k, Contents(), []);
      ok := true;
    }

    /** `list_replace`. */
    method Replace(index: int, range: int, item: Item) returns (ok: bool)
      requires Valid()
      modifies `items, `length, `put, `destroyed, items
      ensures Valid() && (ok <==> SpanOk(old(length), index, range))
      ensures !ok ==> Contents() == old(Contents()) && destroyed == old(destroyed) && put == old(put)
      ensures ok ==>
                var p := Position(old(length), index);
                var r := Span(old(length), p, range);
                && Contents() == Spliced(old(Contents()), p, r, [item])
                && put == old(put) + NonNull([item])
                && destroyed == old(destroyed) + Lost(owning, old(Contents()), p, r)
      ensures items == old(items) || fresh(items)
    {
      hide Spliced, NonNull, Capacity;
      if !SpanOk(length, index, range) {
        return false;
      }
      var p: nat := Position(length, index);
      Substitute(p, Span(length, p, range), [item]);
      ok := true;
    }

    /** `list_replace_list`, and `list_insert_list` with no range: the items of another list, copied if and only if
        this list owns its items. */
    method ReplaceList(index: int, range: int, src: List, copy: Option<Item -> Item>) returns (ok: bool)
      requires Valid() && src.Shaped() && src != this && src.items != items
      modifies `items, `length, `put, `destroyed, items
      ensures Valid() && (ok <==> SpanOk(old(length), index, range) && (owning <==> copy.Some?))
      ensures !ok ==> Contents() == old(Contents()) && destroyed == old(destroyed) && put == old(put)
      ensures ok ==>
                var p := Position(old(length), index);
                var r := Span(old(length), p, range);
                var t := Enlisted(old(src.Contents()), copy);
                && Contents() == Spliced(old(Contents()), p, r, t)
                && put == old(put) + NonNull(t)
                && destroyed == old(destroyed) + Lost(owning, old(Contents()), p, r)
      ensures items == old(items) || fresh(items)
    {
      hide Spliced, NonNull, Capacity;
      if !SpanOk(length, index, range) || owning != copy.Some? {
        return false;
      }
      var p: nat := Position(length, index);
      Substitute(p, Span(length, p, range), Enlisted(src.items[..src.length], copy));
      ok := true;
    }

    /** `list_pop` and `list_shift`: the last or the first item is handed back; null if there is none. */
    method TakeAt(last: bool) returns (item: Item)
      requires Valid()
      modifies `items, `length, `handed, `destroyed, items
      ensures Valid() && put == old(put) && destroyed == old(destroyed)
      ensures old(length) == 0 ==> item == NULL && Contents() == [] && handed == old(handed)
      ensures old(length) > 0 ==>
                var s := old(Contents());
                var i := if last then |s| - 1 else 0;
                && item == s[i] && Contents() == s[..i] + s[i + 1..]
                && handed == old(handed) + NonNull([item])
      ensures items == old(items) || fresh(items)
    {
      hide Balanced, NonNull, Capacity, Lost, Spliced;
      if length == 0 {
        return NULL;
      }
      var i := if last then length - 1 else 0;
      ghost var s := Contents();
      ContentsLength();
      BalancedTaken(owning, put, s, handed, destroyed, i);
      AddNothing(destroyed);
      item := items[i];
      items[i] := NULL;
      assert Contents() == s[i := NULL];
      handed := handed + NonNull([item]);
      var ok := RemoveRange(i, 1);
    }

    /** `list_extract`: a new list with the items of a range, copied if and only if this list owns its items. */
    method Extract(index: int, range: int, copy: Option<Item -> Item>) returns (ret: List?)
      requires Valid()
      ensures ret != null <==> SpanOk(length, index, range) && (owning <==> copy.Some?)
      ensures ret != null ==>
                var p := Position(length, index);
                && fresh(ret) && fresh(ret.items) && ret.Valid() && ret.owning == owning
                && ret.Contents() == Enlisted(Contents()[p..p + Span(length, p, range)], copy)
                && ret.destroyed == ret.handed == multiset{}
    {
      hide Balanced, NonNull, Capacity, Spliced, Enlisted;
      if !SpanOk(length, index, range) || owning != copy.Some? {
        return null;
      }
      var p: nat := Position(length, index);
      var r: nat := Span(length, p, range);
      ContentsLength();
      ret := CopyOf(items[..length][p..p + r], copy, owning);
    }

    /** A new list with the given items, or with copies of them. */
    static method CopyOf(s: seq<Item>, copy: Option<Item -> Item>, owning: bool) returns (ret: List)
      ensures fresh(ret) && fresh(ret.items) && ret.Valid() && ret.owning == owning
      ensures ret.Contents() == Enlisted(s, copy) && ret.destroyed == ret.handed == multiset{}
    {
      hide Balanced, NonNull, Capacity, Enlisted;
      ret := new List(owning);
      EnlistedNone(copy);
      var i := 0;
      while i < |s|
        invariant 0 <= i <= |s| && ret.Valid() && fresh(ret) && fresh(ret.items) && ret.owning == owning
        invariant ret.Contents() == Enlisted(s[..i], copy)
        invariant ret.destroyed == ret.handed == multiset{}
      {
        EnlistedOne(s, i, copy);
        ret.Append(if copy.Some? then copy.value(s[i]) else s[i]);
        i := i + 1;
      }
      assert s[..i] == s;
    }

    /** `list_splice`: the range is extracted, and then removed. */
    method Splice(index: int, range: int, copy: Option<Item -> Item>) returns (ret: List?)
      requires Valid()
      modifies `items, `length, `destroyed, items
      ensures Valid() && put == old(put) && handed == old(handed)
      ensures ret != null <==> SpanOk(old(length), index, range) && (owning <==> copy.Some?)
      ensures ret == null ==> Contents() == old(Contents()) && destroyed == old(destroyed)
      ensures ret != null ==>
                var p := Position(old(length), index);
                var r := Span(old(length), p, range);
                && fresh(ret) && ret.Valid() && ret.Contents() == Enlisted(old(Contents())[p..p + r], copy)
                && Contents() == Spliced(old(Contents()), p, r, [])
                && destroyed == old(destroyed) + Lost(owning, old(Contents()), p, r)
    {
      hide Spliced, NonNull, Capacity, Enlisted, Lost;
      ret := Extract(index, range, copy);
      if ret != null {
        var ok := RemoveRange(index, range);
      }
    }

    lemma ContentsLength()
      requires Shaped()
      ensures |Contents()| == length <= items.Length
    {
    }
  }

  /** Null in place of the items of a range. */
  function Killed(s: seq<Item>, p: nat, r: nat): (t: seq<Item>)
    requires p + r <= |s|
    ensures |t| == |s|
  {
    s[..p] + seq(r, _ => NULL) + s[p + r..]
  }

  lemma KilledNone(owning: bool, s: seq<Item>, p: nat)
    requires p <= |s|
    ensures Killed(s, p, 0) == s && Lost(owning, s, p, 0) == multiset{}
  {
  }

  lemma KilledOne(owning: bool, s: seq<Item>, p: nat, k: nat)
    requires p + k < |s|
    ensures Killed(s, p, k + 1) == Killed(s, p, k)[p + k := NULL]
    ensures Lost(owning, s, p, k + 1) == Lost(owning, s, p, k) + Lost(owning, Killed(s, p, k), p + k, 1)
  {
    hide NonNull;
    assert s[p..p + k + 1] == s[p..p + k] + [s[p + k]];
    assert Killed(s, p, k)[p + k..p + k + 1] == [s[p + k]];
    NonNullSum(s[p..p + k], [s[p + k]]);
  }

  lemma EnlistedNone(copy: Option<Item -> Item>)
    ensures Enlisted([], copy) == []
  {
  }

  lemma EnlistedOne(s: seq<Item>, i: nat, copy: Option<Item -> Item>)
    requires i < |s|
    ensures Enlisted(s[..i], copy) + [if copy.Some? then copy.value(s[i]) else s[i]] == Enlisted(s[..i + 1], copy)
  {
  }

  method OpenGap(items: array<Item>, index: nat, range: nat, length: nat)
    requires index <= length && length + range <= items.Length
    modifies items
    ensures items[..length + range][..index] == old(items[..length])[..index]
    ensures items[..length + range][index + range..] == old(items[..length])[index..]
  {
    ghost var s := items[..];
    assert s[..length] == items[..length];
    assert forall i, j | 0 <= i <= j <= |s| :: items[i..j] == s[i..j];
    MemMove(items, index + range, index, length - index);
    GapOpened(s, items[..], index, range, length);
    assert items[..length + range] == items[..][..length + range];
  }

  lemma GapOpened(s: seq<Item>, t: seq<Item>, p: nat, r: nat, n: nat)
    requires p <= n && n + r <= |s|
    requires t == s[..p + r] + s[p..p + (n - p)] + s[p + r + (n - p)..]
    ensures |t| == |s| && t[..n + r][..p] == s[..n][..p] && t[..n + r][p + r..] == s[..n][p..]
  {
  }

  method CloseGap(items: array<Item>, index: nat, range: nat, length: nat)
    requires index + range <= length <= items.Length
    modifies items
    ensures items[..length - range] == old(items[..length])[..index] + old(items[..length])[index + range..]
  {
    ghost var s := items[..];
    assert s[..length] == items[..length];
    assert forall i, j | 0 <= i <= j <= |s| :: items[i..j] == s[i..j];
    MemMove(items, index, index + range, length - index - range);
    GapClosed(s, items[..], index, range, length);
    assert items[..length - range] == items[..][..length - range];
  }

  lemma GapClosed(s: seq<Item>, t: seq<Item>, p: nat, r: nat, n: nat)
    requires p + r <= n <= |s|
    requires t == s[..p] + s[p + r..p + r + (n - p - r)] + s[p + (n - p - r)..]
    ensures |t| == |s| && t[..n - r] == s[..n][..p] + s[..n][p + r..]
  {
  }

  lemma AddNothing(m: multiset<Item>)
    ensures m + multiset{} == m
  {
  }

  /** Around a range whose items have been killed and which has been adjusted and filled, everything is as it was. */
  lemma KilledSides(s: seq<Item>, p: nat, r: nat, k: seq<Item>, c: seq<Item>, t: seq<Item>)
    requires p + r <= |s| && k == Killed(s, p, r) && |c| == |s| - r + |t|
    requires c[..p] == k[..p] && c[p + |t|..] == k[p + r..]
    ensures c[..p] + t + c[p + |t|..] == Spliced(s, p, r, t)
    ensures t == [] ==> c == Spliced(s, p, r, t)
  {
    assert k[..p] == s[..p] && k[p + r..] == s[p + r..];
    assert t == [] ==> c == c[..p] + c[p..];
  }

  lemma InsertedAt(s: seq<Item>, p: nat, c: seq<Item>, item: Item)
    requires p <= |s| && |c| == |s| + 1 && c[..p] == s[..p] && c[p + 1..] == s[p..]
    ensures c[p := item] == Spliced(s, p, 0, [item])
  {
  }

  /** What replaces a range, and what was there before: nothing else is gained or lost. */
  lemma SplicedNonNull(s: seq<Item>, p: nat, r: nat, t: seq<Item>)
    requires p + r <= |s|
    ensures NonNull(s) + NonNull(t) == NonNull(Spliced(s, p, r, t)) + NonNull(s[p..p + r])
  {
    assert s == s[..p] + s[p..p + r] + s[p + r..];
    NonNullSum(s[..p] + s[p..p + r], s[p + r..]);
    NonNullSum(s[..p], s[p..p + r]);
    NonNullSum(s[..p] + t, s[p + r..]);
    NonNullSum(s[..p], t);
  }

  lemma NullIsNobodys()
    ensures NonNull([NULL]) == multiset{}
  {
  }

  /** Taking an item out leaves the others. */
  lemma TakenNonNull(s: seq<Item>, i: nat)
    requires i < |s|
    ensures NonNull(s) == NonNull(s[i := NULL]) + NonNull([s[i]])
    ensures NonNull(s[i := NULL][i..i + 1]) == multiset{}
  {
    NullIsNobodys();
    hide NonNull;
    SplicedNonNull(s, i, 1, [NULL]);
    assert Spliced(s, i, 1, [NULL]) == s[i := NULL] && s[i..i + 1] == [s[i]];
    assert s[i := NULL][i..i + 1] == [NULL];
  }
}
