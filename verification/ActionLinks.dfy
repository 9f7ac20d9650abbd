/** Timers as doubly linked items, and the two list operations the wheel's slots rest on. */
module ActionLinks {

  /** Where a timer is due, digit by digit. The digits are the fields of an action. */
  datatype Digits = Digits(day: int, hour: int, minute: int, second: int, jiffy: int)

  /** The action function and its argument, which the wheel passes on without looking at them. */
  datatype Callback = Callback(action: nat, arg: nat)

  class Action {
    var next: Action?
    var prev: Action?
    var parent: nat  // the slot whose list holds the action
    var digits: Digits
    const callback: Callback
    ghost var rank: nat  // falls along the list

    constructor (callback: Callback, digits: Digits)
      ensures this.callback == callback && this.digits == digits
    {
      this.callback := callback;
      this.digits := digits;
      next, prev, parent := null, null, 0;
    }
  }

  ghost function One(a: Action?): set<Action> {
    if a == null then {} else {a}
  }

  /** Puts `item` before `link`; `link` may be null. */
  method DlinkInsert(link: Action?, item: Action) returns (r: Action)
    requires item != link && (link != null ==> link.prev != item)
    modifies item`next, item`prev, One(link)`prev, (if link != null then One(link.prev) else {})`next
    ensures r == item && item.next == link
    ensures link == null ==> item.prev == null
    ensures link != null ==> item.prev == old(link.prev) && link.prev == item
    ensures link != null && item.prev != null ==> item.prev.next == item
  {
    var prev := if link != null then link.prev else null;
    item.next := link;
    item.prev := prev;
    if link != null {
      link.prev := item;
    }
    if prev != null {
      prev.next := item;
    }
    r := item;
  }

  /** Takes `item` out of its list and returns the item after it. Its own links stay as they were. */
  method DlinkRemove(item: Action) returns (next: Action?)
    requires item.next != item && item.prev != item
    modifies One(item.next)`prev, One(item.prev)`next
    ensures next == item.next == old(item.next) && item.prev == old(item.prev)
    ensures next != null ==> next.prev == item.prev
    ensures item.prev != null ==> item.prev.next == next
  {
    if item.next != null {
      item.next.prev := item.prev;
    }
    if item.prev != null {
      item.prev.next := item.next;
    }
    next := item.next;
  }
}
