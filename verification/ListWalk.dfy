/** The list iterator: walking a list, and removing items on the way. */
module ListWalk {
  import opened ItemList

  lemma RemovedAt(owning: bool, s: seq<Item>, i: nat)
    ensures i < |s| ==>
              var t := Spliced(s, i, 1, []);
              && t[..i] == s[..i + 1][..i] && t[i..] == s[i + 1..] && |t| == |s| - 1
              && Lost(owning, s, i, 1) == if owning then NonNull([s[i]]) else multiset{}
  {
    if i < |s| {
      assert s[i..i + 1] == [s[i]];
    }
  }

  class Lister {
    const list: List
    var index: int
    ghost const all: seq<Item>       // what the list held when the walk began
    ghost var returned: seq<Item>    // what `Next` has answered so far

    /** Items in front of and behind the place the walk has reached. */
    ghost function Passed(): seq<Item>
      requires list.Shaped() && index >= -1
      reads `index, list, list.items
    {
      if index < list.length then list.Contents()[..index + 1] else list.Contents()
    }

    ghost function Rest(): seq<Item>
      requires list.Shaped() && index >= -1
      reads `index, list, list.items
    {
      if index < list.length then list.Contents()[index + 1..] else []
    }

    /** Whatever has been removed, the items answered so far and those still to come are all the items, each once. */
    ghost predicate Valid()
      reads this, list, list.items
    {
      list.Valid() && index >= -1 && returned + Rest() == all
    }

    constructor (list: List)
      requires list.Valid()
      ensures Valid() && this.list == list && all == list.Contents() && returned == [] && Passed() == []
    {
      this.list, index := list, -1;
      all, returned := list.Contents(), [];
    }

    method HasNext() returns (r: bool)
      requires Valid()
      ensures r <==> Rest() != []
      ensures !r ==> returned == all
    {
      r := index + 1 < list.length;
    }

    /** The next item; null, which an item may be too, past the last. */
    method Next() returns (item: Item)
      requires Valid()
      modifies `index, `returned
      ensures Valid()
      ensures old(Rest()) == [] ==> item == NULL && Passed() == old(Passed()) && returned == old(returned)
      ensures old(Rest()) != [] ==>
                && item == old(Rest())[0] && Rest() == old(Rest())[1..]
                && Passed() == old(Passed()) + [item] && returned == old(returned) + [item]
    {
      hide Balanced, Capacity;
      index := index + 1;
      item := if index < list.length then list.items[index] else NULL;
      if index < list.length {
        returned := returned + [item];
      }
    }

    /** Removes the last item passed and not yet removed. The items to come are not disturbed. */
    method Remove()
      requires Valid()
      modifies `index, list`items, list`length, list`destroyed, list.items
      ensures Valid() && Rest() == old(Rest()) && list.put == old(list.put)
      ensures old(index) == -1 || old(index) >= old(list.length) ==>
                Passed() == old(Passed()) && list.destroyed == old(list.destroyed)
      ensures 0 <= old(index) < old(list.length) ==>
                var n := |old(Passed())|;
                && Passed() == old(Passed())[..n - 1]
                && list.destroyed == old(list.destroyed) +
                  (if list.owning then NonNull([old(Passed())[n - 1]]) else multiset{})
      ensures list.items == old(list.items) || fresh(list.items)
    {
      hide Balanced, Capacity, NonNull, Spliced;
      if index == -1 {
        return;
      }
      ghost var s := list.Contents();
      RemovedAt(list.owning, s, index);
      var ok := list.RemoveRange(index, 1);
      index := index - 1;
    }
  }
}
