/** Free lists: doubly linked items of which some are handed out. */
module FreeList {
  import opened ActionLinks

  /** Item `i` of `s` points at the items on either side. */
  ghost predicate Linked(s: seq<Action>, i: nat)
    requires i < |s|
    reads s[i]
  {
    && s[i].next == (if i + 1 < |s| then s[i + 1] else null)
    && s[i].prev == (if i > 0 then s[i - 1] else null)
  }

  ghost predicate Distinct(s: seq<Action>) {
    forall i, j :: 0 <= i < j < |s| ==> s[i] != s[j]
  }

  /** From `head` on, the links run through exactly the items of `s`, forwards and back. */
  ghost predicate Chain(head: Action?, s: seq<Action>)
    reads s
  {
    head == (if s == [] then null else s[0]) && Distinct(s) && forall i :: 0 <= i < |s| ==> Linked(s, i)
  }

  /** `dlink_freelist_init`: links the items of an array in their order. */
  method Init(cells: array<Action>) returns (head: Action?)
    requires Distinct(cells[..])
    modifies set a | a in cells[..]
    ensures Chain(head, cells[..])
  {
    if cells.Length == 0 {
      return null;
    }
    var nelem, link := cells.Length - 1, 0;
    var prev: Action? := null;
    ghost var s := cells[..];
    assert forall i :: 0 <= i < |s| ==> s[i] == cells[i];
    while nelem > 0
      invariant 0 <= link && 0 <= nelem && link + nelem == |s| - 1 && prev == if link > 0 then s[link - 1] else null
      invariant forall i :: 0 <= i < link ==> Linked(s, i)
    {
      cells[link].next := cells[link + 1];
      cells[link].prev := prev;
      prev, link, nelem := cells[link], link + 1, nelem - 1;
    }
    cells[link].next := null;
    cells[link].prev := prev;
    head := cells[0];
  }

  class Pool {
    var freelist: Action?
    ghost var free: seq<Action>
    ghost var used: set<Action>

    ghost predicate Valid()
      reads this, free
    {
      Chain(freelist, free) && forall a :: a in free ==> a !in used
    }

    /** Every item the pool was ever given. */
    ghost function Items(): set<Action>
      reads `free, `used
    {
      used + set a | a in free
    }

    constructor (head: Action?, ghost s: seq<Action>)
      requires Chain(head, s)
      ensures Valid() && free == s && used == {}
    {
      freelist, free, used := head, s, {};
    }

    /** `dlink_freelist_attach`: the items of another free list follow those of this one. */
    method Attach(freelist2: Action?, ghost more: seq<Action>)
      requires Valid() && Chain(freelist2, more) && forall a :: a in more ==> a !in free && a !in used
      modifies `freelist, `free, (set a | a in free)`next, (set a | a in more)`prev
      ensures Valid() && free == old(free) + more && used == old(used)
      ensures Items() == old(Items()) + set a | a in more
    {
      if freelist2 == null {
        assert free == free + more;
        return;
      }
      if freelist == null {
        freelist, free := freelist2, more;
        return;
      }
      var last := freelist;
      ghost var i: nat := 0;
      assert Linked(free, i);
      while last.next != null
        invariant i < |free| && last == free[i] && Linked(free, i)
        decreases |free| - i
      {
        last, i := last.next, i + 1;
        assert Linked(free, i);
      }
      assert Linked(more, 0);
      assert forall a :: a in free ==> a !in more;
      last.next := freelist2;
      freelist2.prev := last;
      ghost var was, n := free, |free|;
      free := free + more;
      forall j, k | 0 <= j < k < |free| ensures free[j] != free[k] {
        if j < n <= k {
          assert was[j] in was && more[k - n] in more;
        }
      }
      forall j | 0 <= j < |free| ensures Linked(free, j) {
        assert j < n ==> old(Linked(was, j));
        assert j >= n ==> old(Linked(more, j - n));
      }
    }

    /** `dlink_alloc`: an item that nobody has, or null when there is none. */
    method Alloc() returns (item: Action?)
      requires Valid()
      modifies `freelist, `free, `used, (set a | a in free)`prev
      ensures Valid() && Items() == old(Items())
      ensures item == null <==> old(free) == []
      ensures item == null ==> free == old(free) && used == old(used)
      ensures item != null ==> item !in old(used) && used == old(used) + {item} && old(free) == [item] + free
    {
      item := freelist;
      if item != null {
        assert Linked(free, 0);
        assert |free| > 1 ==> Linked(free, 1);
        freelist := DlinkRemove(item);
        ghost var was := free;
        free, used := free[1..], used + {item};
        forall j | 0 <= j < |free| ensures Linked(free, j) {
          assert old(Linked(was, j + 1));
        }
      }
    }

    /** `dlink_free`: the item comes first again, whatever its owner has made of its links. */
    method Free(item: Action)
      requires Valid() && item in used
      modifies `freelist, `free, `used, item`next, item`prev, (set a | a in free)`prev
      ensures Valid() && Items() == old(Items())
      ensures free == [item] + old(free) && used == old(used) - {item}
    {
      assert free != [] ==> Linked(free, 0);
      freelist := DlinkInsert(freelist, item);
      ghost var was := free;
      free, used := [item] + free, used - {item};
      forall j | 0 <= j < |free| ensures Linked(free, j) {
        assert j > 0 ==> old(Linked(was, j - 1));
      }
    }
  }
}
