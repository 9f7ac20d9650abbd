/** The timing wheel itself: slot lists of actions, cascades, scheduling, cancellation and expiry. */
module TimingWheel {
  import opened ActionLinks
  import opened Options
  import opened TimerBag
  import opened TimerRounds
  import opened WheelPosition
  import opened WheelCalls
  import opened WheelPasses
  import Timevals

  function Span(now: Timevals.Timeval, clock: Timevals.Timeval, sec: int, usec: int): Timevals.Timeval {
    Timevals.Diff(now, Timevals.Add(clock, Timevals.Timeval(sec, usec)))
  }

  /** The delay fits the wheel: at most one carry leaves the jiffy digit of the target. */
  predicate InRange(position: Digits, now: Timevals.Timeval, clock: Timevals.Timeval, sec: int, usec: int) {
    Span(now, clock, sec, usec).usec / 10000 + position.jiffy < 2 * JIFFIES
  }

  /** The target is right whatever the microseconds, and its digits are in range exactly if the delay fits. */
  lemma TargetTicks(position: Digits, now: Timevals.Timeval, clock: Timevals.Timeval, sec: nat, usec: nat)
    requires Normal(position) && Timevals.Normal(now) && Timevals.Normal(clock) && !Timevals.Before(clock, now)
    ensures var span := Span(now, clock, sec, usec);
            && 0 <= span.sec && 0 <= span.usec
            && Code(Target(position, span.sec, span.usec)) == Code(position) + DelayTicks(now, clock, sec, usec)
            && (Normal(Target(position, span.sec, span.usec)) <==> InRange(position, now, clock, sec, usec))
    ensures DelayTicks(now, clock, sec, usec) >= (sec * Timevals.MILLION + usec) / 10000 >= 0
    ensures clock.usec + usec < 2 * Timevals.MILLION ==> InRange(position, now, clock, sec, usec)
  {
    hide Target, Code;
    var relative := Timevals.Timeval(sec, usec);
    Timevals.AddNormal(clock, relative);
    Timevals.DiffExact(now, Timevals.Add(clock, relative));
    var span := Span(now, clock, sec, usec);
    Timevals.JiffiesExact(span);
    TargetExact(position, span.sec, span.usec);
  }

  /** Whatever a proper request asks for fits the wheel. */
  lemma MayAsk(position: Digits, now: Timevals.Timeval, r: Request)
    requires Normal(position) && Timevals.Normal(now) && Proper(r) && r.Ask?
    ensures Timevals.Normal(r.clock) && (Refused(r) <==> r.sec < 0 || r.usec < 0)
    ensures var from := if Timevals.Before(r.clock, now) then r.clock else now;
            !Refused(r) ==> InRange(position, from, r.clock, r.sec, r.usec)
  {
    if !Refused(r) {
      TargetTicks(position, if Timevals.Before(r.clock, now) then r.clock else now, r.clock, r.sec, r.usec);
    }
  }

  lemma Asked(past: seq<Event<Action>>, time: Timevals.Timeval, r: Request, event: Action, delay: nat)
    requires r.Ask? && !Refused(r) && event.callback == r.callback
    requires delay == DelayTicks(if Timevals.Before(r.clock, time) then r.clock else time, r.clock, r.sec, r.usec)
    requires delay >= (r.sec * Timevals.MILLION + r.usec) / 10000
    ensures Becomes(past, time, r, [Scheduled(event, delay)])
    ensures TimeSeen(time, r) == if Timevals.Before(r.clock, time) then r.clock else time
    ensures Ahead(r) ==> delay >= 1
  {
  }

  lemma NotAsked(past: seq<Event<Action>>, time: Timevals.Timeval, r: Request)
    requires Refused(r)
    ensures Becomes(past, time, r, []) && TimeSeen(time, r) == time
  {
  }

  lemma Withdrawing(past: seq<Event<Action>>, time: Timevals.Timeval, r: Request)
    requires r.Withdraw?
    ensures TimeSeen(time, r) == time
    ensures match Booked(past, r.booking)
            case Some(a) => Becomes(past, time, r, [Cancelled(a)])
            case None => Becomes(past, time, r, [])
  {
  }

  /** The borrowing countdown of `update` starts at exactly that many jiffies. */
  lemma TicksExact(now: Timevals.Timeval, clock: Timevals.Timeval)
    requires Timevals.Normal(now) && Timevals.Normal(clock)
    ensures var delta := Timevals.Diff(if Timevals.Before(clock, now) then clock else now, clock);
            && 0 <= delta.sec && 0 <= delta.usec / 10000 < 100
            && 100 * delta.sec + delta.usec / 10000 == TicksUpTo(now, clock)
  {
    var start := if Timevals.Before(clock, now) then clock else now;
    Timevals.DiffExact(start, clock);
    Timevals.JiffiesExact(Timevals.Diff(start, clock));
  }

  lemma WakeTime(now: Timevals.Timeval, timo: nat)
    requires Timevals.Normal(now) && timo <= 1000
    ensures var later := Timevals.Add(now, Timevals.Timeval(0, timo * 1000));
            Timevals.Normal(later) && Timevals.Micros(later) == Timevals.Micros(now) + timo * 1000
  {
    Timevals.AddNormal(now, Timevals.Timeval(0, timo * 1000));
  }

  class TimingWheel {
    const heads: array<Action?>
    var day: int
    var hour: int
    var minute: int
    var second: int
    var jiffy: int
    var now: Timevals.Timeval
    var timers: nat
    var booked: seq<Action>             // what scheduling has returned, by which the program knows its timers
    ghost var members: set<Action>      // all installed actions
    ghost var log: seq<Event<Action>>   // everything that has happened so far

    function Position(): Digits
      reads `day, `hour, `minute, `second, `jiffy
    {
      Digits(day, hour, minute, second, jiffy)
    }

    /** Every slot holds a doubly linked list, and every action's `parent` names the slot that contains it.
        While a cascade walks the list it took from slot `gap`, the head of that list is `rest`. */
    ghost predicate WellLinked(gap: nat := SLOTS, rest: Action? := null)
      reads `members, heads, members
    {
      && heads.Length == SLOTS
      && (forall a :: a in members ==> Joined(a, gap, rest))
      && (forall s :: 0 <= s < SLOTS && s != gap && heads[s] != null ==> heads[s] in members && IsFirst(heads[s], s))
      && (rest != null ==> rest in members && IsFirst(rest, gap))
    }

    ghost predicate IsFirst(a: Action, slot: nat)
      reads a
    {
      a.parent == slot && a.prev == null
    }

    /** `a` and its neighbours point at each other and share a slot; only the head has nothing before it. */
    ghost predicate Joined(a: Action, gap: nat, rest: Action?)
      requires a in members && heads.Length == SLOTS
      reads `members, heads, members
    {
      && a.parent < SLOTS
      && (a.next != null ==> a.next in members && a.next.prev == a && a.next.parent == a.parent && a.next.rank < a.rank)
      && (a.prev != null ==> a.prev in members && a.prev.next == a && a.prev.parent == a.parent && a.prev.rank > a.rank)
      && (a.prev == null ==> a == if a.parent == gap then rest else heads[a.parent])
    }

    lemma SlotsInArray(gap: nat := SLOTS, rest: Action? := null)
      requires WellLinked(gap, rest)
      ensures heads.Length == SLOTS
    {
    }

    lemma HeadInstalled(slot: nat)
      requires WellLinked() && slot < SLOTS
      ensures heads[slot] != null ==> heads[slot] in members && heads[slot].parent == slot && heads[slot].prev == null
    {
    }

    lemma NeighboursInstalled(a: Action)
      requires WellLinked() && a in members
      ensures a.next != null ==> a.next in members
      ensures a.prev != null ==> a.prev in members
    {
      assert Joined(a, SLOTS, null);
    }

    /** Inserts an action at the front of a slot's list. */
    method Install(slot: nat, action: Action, ghost gap: nat := SLOTS, ghost rest: Action? := null)
      requires WellLinked(gap, rest) && slot < SLOTS && slot != gap && action !in members
      modifies `members, heads, action`next, action`prev, action`parent, action`rank, One(heads[slot])`prev
      ensures WellLinked(gap, rest) && members == old(members) + {action}
      ensures action.parent == slot && (gap < SLOTS ==> heads[gap] == old(heads[gap]))
    {
      ghost var link := heads[slot];
      action.rank := if link == null then 0 else link.rank + 1;
      heads[slot] := DlinkInsert(heads[slot], action);
      action.parent := slot;
      members := members + {action};
      assert Joined(action, gap, rest);
      assert link != null ==> old(Joined(link, gap, rest)) && Joined(link, gap, rest);
      forall a | a in members && a != action && a != link ensures Joined(a, gap, rest) {
        assert old(Joined(a, gap, rest)) && a.prev != action && a.next != action;
      }
    }

    /** Takes an action out of whatever list it is in. */
    method Remove(action: Action) returns (next: Action?)
      requires WellLinked() && action in members
      modifies `members, heads, One(action.next)`prev, One(action.prev)`next
      ensures WellLinked() && members == old(members) - {action}
      ensures next == action.next == old(action.next)
    {
      assert Joined(action, SLOTS, null);
      next := DlinkRemove(action);
      if heads[action.parent] == action {
        heads[action.parent] := next;
      }
      members := members - {action};
      forall a | a in members ensures Joined(a, SLOTS, null) {
        assert old(Joined(a, SLOTS, null));
      }
    }

    /** Takes the first action off the list whose head left slot `gap`. */
    method TakeFirst(action: Action, ghost gap: nat) returns (next: Action?)
      requires WellLinked(gap, action)
      modifies `members, One(action.next)`prev
      ensures members == old(members) - {action} && WellLinked(gap, next)
    {
      assert Joined(action, gap, action);
      next := DlinkRemove(action);
      members := members - {action};
      forall a | a in members ensures Joined(a, gap, next) {
        assert old(Joined(a, gap, action));
      }
    }

    /** No action is out of reach: a slot with actions in it has a head. */
    lemma Reachable(a: Action, gap: nat, rest: Action?)
      requires WellLinked(gap, rest) && a in members
      ensures a.parent == gap ==> rest != null
      ensures a.parent != gap ==> heads[a.parent] != null
      decreases set b | b in members && b.rank > a.rank
    {
      assert Joined(a, gap, rest);
      if a.prev != null {
        var p: Action := a.prev;
        var above := set b | b in members && b.rank > a.rank;
        var higher := set b | b in members && b.rank > p.rank;
        assert p in above && p !in higher && higher <= above;
        Reachable(p, gap, rest);
      }
    }

    /** One step of a cascade: the first action of the list taken from `gap` goes to `slot`. */
    method MoveFirst(action: Action, slot: nat, ghost gap: nat) returns (next: Action?)
      requires WellLinked(gap, action) && slot < SLOTS && slot != gap
      modifies `members, heads, members`next, members`prev, members`parent, members`rank
      ensures WellLinked(gap, next) && members == old(members)
      ensures action.parent == slot && (gap < SLOTS ==> heads[gap] == old(heads[gap]))
      ensures forall a :: a in members && a != action ==> a.parent == old(a.parent)
    {
      next := TakeFirst(action, gap);
      Install(slot, action, gap, next);
    }

    /** Takes the whole list off slot `from`. */
    method Detach(from: nat) returns (next: Action?)
      requires WellLinked() && from < SLOTS
      modifies heads
      ensures from < heads.Length && heads[from] == null && WellLinked(from, next)
    {
      next := heads[from];
      heads[from] := null;
      forall a | a in members ensures Joined(a, from, next) {
        assert old(Joined(a, SLOTS, null));
      }
    }

    /** With nothing left of its list, an empty slot is an ordinary slot again. */
    lemma Reattached(from: nat)
      requires WellLinked(from, null) && from < SLOTS && heads[from] == null
      ensures WellLinked() && forall a :: a in members ==> a.parent != from
    {
      forall a | a in members ensures a.parent != from {
        Reachable(a, from, null);
      }
    }

    /** The first action of the list taken from `gap` is one of the actions of that slot. */
    lemma FirstOfRest(action: Action, gap: nat)
      requires WellLinked(gap, action)
      ensures action in members && action.parent == gap
    {
    }

    /** Empties slot `from` into the wheel `w`, each action going to the slot of its own digit. */
    method MoveDown(from: nat, w: Wheel)
      requires WellLinked() && from < SLOTS && WheelOf(from) != w
      requires forall a :: a in members ==> Normal(a.digits)
      modifies `members, heads, members`next, members`prev, members`parent, members`rank
      ensures WellLinked() && members == old(members)
      ensures forall a :: a in members ==>
                a.parent == if old(a.parent) == from then SlotIn(w, a.digits) else old(a.parent)
    {
      hide WellLinked, Normal;
      ghost var left: set<Action> := set a: Action | a in members && a.parent == from;
      var next := Detach(from);
      while next != null
        invariant members == old(members) && WellLinked(from, next)
        invariant left <= members && from < heads.Length && heads[from] == null
        invariant forall a :: a in members ==> (a in left <==> a.parent == from)
        invariant forall a :: a in members && a !in left ==>
                    a.parent == if old(a.parent) == from then SlotIn(w, a.digits) else old(a.parent)
        invariant forall a :: a in left ==> old(a.parent) == from
        decreases left
      {
        var action: Action := next;
        FirstOfRest(action, from);
        left := left - {action};
        next := MoveFirst(action, SlotIn(w, action.digits), from);
      }
      Reattached(from);
    }

    /** The list that starts at `a`. */
    ghost function ListFrom(a: Action): seq<Action>
      requires WellLinked() && a in members
      reads `members, heads, members
      decreases a.rank
    {
      assert Joined(a, SLOTS, null);
      [a] + if a.next == null then [] else ListFrom(a.next)
    }

    lemma {:induction false} ListFromLinks(a: Action)
      requires WellLinked() && a in members
      ensures var l := ListFrom(a);
              && l[0] == a && l[|l| - 1].next == null
              && (forall i :: 0 <= i < |l| ==> l[i] in members && l[i].parent == a.parent && l[i].rank <= a.rank)
              && (forall i :: 0 <= i < |l| - 1 ==> l[i].next == l[i + 1] && l[i + 1].prev == l[i])
              && (forall i, j :: 0 <= i < j < |l| ==> l[i].rank > l[j].rank)
      decreases a.rank
    {
      assert Joined(a, SLOTS, null);
      if a.next != null {
        ListFromLinks(a.next);
      }
    }

    lemma {:induction false} ListFromComplete(slot: nat, a: Action)
      requires WellLinked() && slot < SLOTS && a in members && a.parent == slot
      ensures heads[slot] != null && heads[slot] in members && a in ListFrom(heads[slot])
      decreases set b | b in members && b.rank > a.rank
    {
      assert Joined(a, SLOTS, null);
      if a.prev == null {
        assert ListFrom(a)[0] == a;
      } else {
        var p: Action := a.prev;
        var above := set b | b in members && b.rank > a.rank;
        var higher := set b | b in members && b.rank > p.rank;
        assert p in above && p !in higher && higher <= above;
        ListFromComplete(slot, p);
        ListFromLinks(heads[slot]);
        var l := ListFrom(heads[slot]);
        var i :| 0 <= i < |l| && l[i] == p;
        assert l[i].next == a && l[i + 1] == a;
      }
    }

    /** Each slot is a doubly linked list, from its head on: links mirrored, no item twice, and all of its actions
        in it. */
    lemma SlotList(slot: nat) returns (l: seq<Action>)
      requires WellLinked() && slot < SLOTS
      ensures heads[slot] == if l == [] then null else l[0]
      ensures forall i :: 0 <= i < |l| ==> l[i].next == if i + 1 < |l| then l[i + 1] else null
      ensures forall i :: 0 <= i < |l| ==> l[i].prev == if i > 0 then l[i - 1] else null
      ensures forall i, j :: 0 <= i < j < |l| ==> l[i] != l[j]
      ensures forall a :: a in l <==> a in members && a.parent == slot
    {
      hide WellLinked, ListFrom;
      SlotsInArray();
      if heads[slot] == null {
        l := [];
        SlotEmpty(slot);
      } else {
        HeadInstalled(slot);
        l := ListFrom(heads[slot]);
        ListFromLinks(heads[slot]);
        forall a | a in members && a.parent == slot ensures a in l {
          ListFromComplete(slot, a);
        }
      }
    }

    /** Is the action installed? It is if it is in the list of its slot. */
    method Installed(a: Action) returns (found: bool)
      requires WellLinked()
      ensures found <==> a in members
    {
      SlotsInArray();
      if a.parent >= SLOTS || heads[a.parent] == null {
        if a in members {
          InSomeSlot(a);
        }
        return false;
      }
      HeadInstalled(a.parent);
      ListFromLinks(heads[a.parent]);
      ghost var l := ListFrom(heads[a.parent]);
      if a in members {
        ListFromComplete(a.parent, a);
      }
      hide WellLinked, ListFrom;
      var x := heads[a.parent];
      ghost var i := 0;
      while x != null && x != a
        invariant 0 <= i <= |l| && x == if i < |l| then l[i] else null
        invariant a !in l[..i]
        decreases |l| - i
      {
        x, i := x.next, i + 1;
      }
      found := x != null;
      assert l[..|l|] == l;
    }

    lemma InSomeSlot(a: Action)
      requires WellLinked() && a in members
      ensures a.parent < SLOTS && heads[a.parent] != null
    {
      assert Joined(a, SLOTS, null);
      Reachable(a, SLOTS, null);
    }

    // ----- cascades

    /** Every action sits where its digits say, cascades being complete down to wheel `open`. */
    ghost predicate Placed(open: Wheel)
      reads `day, `hour, `minute, `second, `jiffy, `members, members
    {
      forall a :: a in members ==> InPlace(Position(), a.digits, a.parent, open)
    }

    /** Ticks until an installed action is due. */
    ghost function Wait(a: Action): int
      reads `day, `hour, `minute, `second, `jiffy, a
    {
      Remaining(Position(), a.digits, a.parent)
    }

    /** A walk along the list of `slot` has reached `action` and has the actions of `unseen` before it. */
    ghost predicate Walking(unseen: set<Action>, action: Action?, slot: nat)
      reads `members, heads, members
    {
      && WellLinked()
      && (action != null ==> action in unseen)
      && (forall a :: a in unseen ==>
        a in members && a.parent == slot && (a == action || (a.prev != null && a.prev in unseen)))
      && (forall a :: a in members && a.parent == slot && a !in unseen && action != null ==> a.rank > action.rank)
    }

    lemma StartWalk(slot: nat) returns (unseen: set<Action>)
      requires WellLinked() && slot < SLOTS
      ensures unseen == (set a: Action | a in members && a.parent == slot)
      ensures Walking(unseen, heads[slot], slot)
    {
      unseen := set a: Action | a in members && a.parent == slot;
      forall a | a in unseen ensures a == heads[slot] || (a.prev != null && a.prev in unseen) {
        assert Joined(a, SLOTS, null);
      }
      if heads[slot] != null {
        assert IsFirst(heads[slot], slot);
      }
    }

    lemma StepWalk(unseen: set<Action>, action: Action, slot: nat)
      requires Walking(unseen, action, slot)
      ensures Walking(unseen - {action}, action.next, slot)
    {
      assert Joined(action, SLOTS, null);
      forall a | a in unseen - {action} ensures a == action.next || (a.prev != null && a.prev in unseen - {action}) {
        assert Joined(a, SLOTS, null);
      }
    }

    /** A walk that has come to the end has left nothing out. */
    lemma EndWalk(unseen: set<Action>, slot: nat, a: Action)
      requires Walking(unseen, null, slot) && a in members
      ensures a !in unseen
      decreases set b | b in members && b.rank > a.rank
    {
      if a in unseen {
        assert Joined(a, SLOTS, null);
        var p: Action := a.prev;
        var above := set b | b in members && b.rank > a.rank;
        var higher := set b | b in members && b.rank > p.rank;
        assert p in above && p !in higher && higher <= above;
        EndWalk(unseen, slot, p);
      }
    }

    /** One step of a walk that takes DAYS off the day of the action it is at. */
    method RebaseOne(action: Action, ghost unseen: set<Action>, ghost slot: nat) returns (next: Action?)
      requires Walking(unseen, action, slot)
      modifies action`digits
      ensures action.digits == old(action.digits).(day := old(action.digits).day - DAYS)
      ensures Walking(unseen - {action}, next, slot)
    {
      action.digits := action.digits.(day := action.digits.day - DAYS);
      assert forall a :: a in members && old(Joined(a, SLOTS, null)) ==> Joined(a, SLOTS, null);
      assert Walking(unseen, action, slot);
      StepWalk(unseen, action, slot);
      next := action.next;
    }

    /** Takes DAYS off the day of every action in day slot `slot`. */
    method RebaseSlot(slot: nat)
      requires WellLinked() && slot < DAYS
      modifies members`digits
      ensures WellLinked()
      ensures forall a :: a in members ==>
                a.digits == if a.parent == slot then old(a.digits).(day := old(a.digits).day - DAYS) else old(a.digits)
    {
      var action := heads[slot];
      ghost var unseen := StartWalk(slot);
      while action != null
        invariant Walking(unseen, action, slot)
        invariant forall a :: a in members ==>
                    a.digits == if a.parent == slot && a !in unseen then old(a.digits).(day := old(a.digits).day - DAYS)
                                else old(a.digits)
        decreases unseen
      {
        var next := RebaseOne(action, unseen, slot);
        unseen := unseen - {action};
        action := next;
      }
      forall a | a in members ensures a !in unseen {
        EndWalk(unseen, slot, a);
      }
    }

    method RebaseDays()
      requires WellLinked()
      modifies members`digits
      ensures WellLinked()
      ensures forall a :: a in members ==>
                a.digits == if a.parent < DAYS then old(a.digits).(day := old(a.digits).day - DAYS) else old(a.digits)
    {
      for i := 0 to DAYS
        invariant WellLinked()
        invariant forall a :: a in members ==>
                    a.digits == if a.parent < i then old(a.digits).(day := old(a.digits).day - DAYS) else old(a.digits)
      {
        RebaseSlot(i);
      }
    }

    /** One step of a walk that moves the action it is at to the front of another slot. */
    method MoveAlong(action: Action, to: nat, ghost unseen: set<Action>, ghost slot: nat) returns (next: Action?)
      requires Walking(unseen, action, slot) && to < SLOTS && to != slot
      modifies `members, heads, members`next, members`prev, members`parent, members`rank
      ensures members == old(members) && Walking(unseen - {action}, next, slot)
      ensures action.parent == to && forall a :: a in members && a != action ==> a.parent == old(a.parent)
    {
      StepWalk(unseen, action, slot);
      next := Remove(action);
      assert Walking(unseen - {action}, next, slot);
      label removed:
      Install(to, action);
      forall a | a in unseen - {action} ensures a == next || (a.prev != null && a.prev in unseen - {action}) {
        assert a.prev == old@removed(a.prev);
      }
    }

    /** Moves today's actions from their day slot to the hour wheel; later actions in the same slot stay. */
    method MoveToday()
      requires WellLinked() && Normal(Position()) && day < DAYS
      requires forall a :: a in members ==> Normal(a.digits)
      modifies `members, heads, members`next, members`prev, members`parent, members`rank
      ensures WellLinked() && members == old(members)
      ensures forall a :: a in members ==>
                a.parent ==
                if old(a.parent) == day && a.digits.day == day then SlotIn(Hours, a.digits) else old(a.parent)
    {
      SlotsInArray();
      hide WellLinked, SlotIn, Normal;
      var action := heads[day];
      ghost var unseen := StartWalk(day);
      while action != null
        invariant members == old(members) && Walking(unseen, action, day)
        invariant forall a :: a in unseen ==> a.parent == old(a.parent)
        invariant forall a :: a in members && a !in unseen ==>
                    a.parent ==
                    if old(a.parent) == day && a.digits.day == day then SlotIn(Hours, a.digits) else old(a.parent)
        decreases unseen
      {
        if action.digits.day == day {
          var next := MoveAlong(action, SlotIn(Hours, action.digits), unseen, day);
          unseen := unseen - {action};
          action := next;
        } else {
          StepWalk(unseen, action, day);
          unseen := unseen - {action};
          action := action.next;
        }
      }
      forall a | a in members ensures a !in unseen {
        EndWalk(unseen, day, a);
      }
    }

    lemma CarryAll(w: Wheel)
      requires w != Days && ZeroBelow(w, Position()) && Digit(w, Position()) == Size(w) && Placed(w)
      ensures forall a :: a in members ==>
                && InPlace(Carry(w, Position()), a.digits, a.parent, Coarser(w))
                && Remaining(Carry(w, Position()), a.digits, a.parent) == Wait(a)
                && (w == Hours ==> WheelOf(a.parent) == Days || WheelOf(a.parent) == Jiffies)
    {
      forall a | a in members
        ensures InPlace(Carry(w, Position()), a.digits, a.parent, Coarser(w))
        ensures Remaining(Carry(w, Position()), a.digits, a.parent) == Wait(a)
        ensures w == Hours ==> WheelOf(a.parent) == Days || WheelOf(a.parent) == Jiffies
      {
        CarryInPlace(w, Position(), a.digits, a.parent);
      }
    }

    lemma DescendAll(w: Wheel)
      requires w != Jiffies && Normal(Position()) && day < DAYS && ZeroBelow(w, Position()) && Placed(w)
      ensures forall a :: a in members ==>
                && Normal(a.digits)
                && InPlace(Position(), a.digits, SlotAfter(w, Position(), a.digits, a.parent), Finer(w))
                && Remaining(Position(), a.digits, SlotAfter(w, Position(), a.digits, a.parent)) == Wait(a)
                && (w != Days && a.parent == SlotIn(w, Position()) ==> Digit(w, a.digits) == Digit(w, Position()))
    {
      forall a | a in members
        ensures Normal(a.digits)
        ensures InPlace(Position(), a.digits, SlotAfter(w, Position(), a.digits, a.parent), Finer(w))
        ensures Remaining(Position(), a.digits, SlotAfter(w, Position(), a.digits, a.parent)) == Wait(a)
        ensures w != Days && a.parent == SlotIn(w, Position()) ==> Digit(w, a.digits) == Digit(w, Position())
      {
        Descend(w, Position(), a.digits, a.parent);
      }
    }

    /** At midnight: the hour digit carries into the day. */
    method CarryHour()
      requires WellLinked() && 0 <= day < DAYS && hour == HOURS && minute == 0 && second == 0 && jiffy == 0
      requires Placed(Hours)
      modifies `day, `hour
      ensures WellLinked() && day == old(day) + 1 && hour == 0
      ensures Placed(Days) && forall a :: a in members ==> Wait(a) == old(Wait(a))
      ensures forall a :: a in members ==> WheelOf(a.parent) == Days || WheelOf(a.parent) == Jiffies
    {
      hide InPlace, Remaining, WellLinked;
      CarryAll(Hours);
      hour := 0;
      day := day + 1;
    }

    /** After DAYS days the day counter starts again, and so do the days of the timers in the day wheel. */
    method StartDaysAgain()
      requires WellLinked() && day == DAYS && hour == 0 && minute == 0 && second == 0 && jiffy == 0
      requires Placed(Days) && forall a :: a in members ==> WheelOf(a.parent) == Days || WheelOf(a.parent) == Jiffies
      modifies `day, members`digits
      ensures WellLinked() && day == 0
      ensures Placed(Days) && forall a :: a in members ==> Wait(a) == old(Wait(a))
    {
      forall a | a in members && a.parent < DAYS
        ensures InPlace(Position().(day := 0), a.digits.(day := a.digits.day - DAYS), a.parent, Days)
        ensures Remaining(Position().(day := 0), a.digits.(day := a.digits.day - DAYS), a.parent) == Wait(a)
      {
        Rebase(Position(), a.digits, a.parent);
      }
      day := 0;
      RebaseDays();
    }

    method CascadeDays()
      requires WellLinked() && Normal(Position()) && day < DAYS && ZeroBelow(Days, Position()) && Placed(Days)
      modifies `members, heads, members`next, members`prev, members`parent, members`rank
      ensures WellLinked() && members == old(members)
      ensures Placed(Hours) && forall a :: a in members ==> Wait(a) == old(Wait(a))
    {
      hide InPlace, Remaining, WellLinked;
      DescendAll(Days);
      MoveToday();
    }

    method NextDay()
      requires WellLinked() && 0 <= day < DAYS && hour == HOURS && minute == 0 && second == 0 && jiffy == 0
      requires Placed(Hours)
      modifies `day, `hour, `members, heads, members`next, members`prev, members`parent, members`rank, members`digits
      ensures WellLinked() && members == old(members) && 0 <= day < DAYS && hour == 0
      ensures Placed(Hours) && forall a :: a in members ==> Wait(a) == old(Wait(a))
    {
      CarryHour();
      if day == DAYS {
        StartDaysAgain();
      }
      CascadeDays();
    }

    /** The actions of the current slot of wheel `w` go down to the next finer wheel. */
    method Cascade(w: Wheel)
      requires w == Hours || w == Minutes || w == Seconds
      requires WellLinked() && Normal(Position()) && day < DAYS && ZeroBelow(w, Position()) && Placed(w)
      modifies `members, heads, members`next, members`prev, members`parent, members`rank
      ensures WellLinked() && members == old(members)
      ensures Placed(Finer(w)) && forall a :: a in members ==> Wait(a) == old(Wait(a))
    {
      var from := SlotIn(w, Position());
      hide InPlace, Remaining, WellLinked;
      DescendAll(w);
      MoveDown(from, Finer(w));
    }

    method NextHour()
      requires WellLinked() && 0 <= day < DAYS && 0 <= hour < HOURS && minute == MINUTES && second == 0 && jiffy == 0
      requires Placed(Minutes)
      modifies `day, `hour, `minute, `members, heads, members`next, members`prev, members`parent, members`rank,
        members`digits
      ensures WellLinked() && members == old(members) && 0 <= day < DAYS && 0 <= hour < HOURS && minute == 0
      ensures Placed(Minutes) && forall a :: a in members ==> Wait(a) == old(Wait(a))
    {
      hide InPlace, Remaining, WellLinked;
      CarryAll(Minutes);
      minute := 0;
      hour := hour + 1;
      if hour == HOURS {
        NextDay();
      }
      Cascade(Hours);
    }

    method NextMinute()
      requires WellLinked() && 0 <= day < DAYS && 0 <= hour < HOURS && 0 <= minute < MINUTES && second == SECONDS &&
               jiffy == 0
      requires Placed(Seconds)
      modifies `day, `hour, `minute, `second, `members, heads, members`next, members`prev, members`parent,
        members`rank, members`digits
      ensures WellLinked() && members == old(members)
      ensures 0 <= day < DAYS && 0 <= hour < HOURS && 0 <= minute < MINUTES && second == 0
      ensures Placed(Seconds) && forall a :: a in members ==> Wait(a) == old(Wait(a))
    {
      hide InPlace, Remaining, WellLinked;
      CarryAll(Seconds);
      second := 0;
      minute := minute + 1;
      if minute == MINUTES {
        NextHour();
      }
      Cascade(Minutes);
    }

    /** The end of a second, or of a minute, an hour, a day, or DAYS days: nothing changes but the wheel's own
        bookkeeping. */
    method NextSecond()
      requires WellLinked() && Normal(Position().(jiffy := 0)) && day < DAYS && jiffy == JIFFIES
      requires Placed(Jiffies)
      modifies `day, `hour, `minute, `second, `jiffy, `members, heads,
        members`next, members`prev, members`parent, members`rank, members`digits
      ensures WellLinked() && members == old(members)
      ensures Normal(Position()) && day < DAYS && jiffy == 0
      ensures Placed(Jiffies) && forall a :: a in members ==> Wait(a) == old(Wait(a))
    {
      hide InPlace, Remaining, WellLinked;
      CarryAll(Jiffies);
      jiffy := 0;
      second := second + 1;
      if second == SECONDS {
        NextMinute();
      }
      Cascade(Seconds);
    }

    // ----- the wheel as a bag of timers

    /** The wheel between two operations, whatever its history. */
    ghost predicate Sound()
      reads `day, `hour, `minute, `second, `jiffy, `members, `timers, `now, heads, members
    {
      WellLinked() && Normal(Position()) && day < DAYS && Placed(Jiffies) && timers == |members| && Timevals.Normal(now)
    }

    /** The pending timers with the ticks they have left. */
    ghost function Pending(): (b: Bag<Action>)
      requires Sound()
      reads `day, `hour, `minute, `second, `jiffy, `members, `timers, `now, heads, members
      ensures b.Keys == members && forall a :: a in members ==> b[a] == Wait(a)
    {
      assert forall a :: a in members ==> Wait(a) >= 0 by {
        forall a | a in members ensures Wait(a) >= 0 {
          RemainingBeyondSecond(Position(), a.digits, a.parent);
        }
      }
      map a: Action | a in members :: Wait(a) as nat
    }

    /** The wheel is where the history of its operations takes a bag of timers. */
    ghost predicate Valid()
      reads this, heads, members
      ensures Valid() ==> Sound()
    {
      && Sound() && IsRun(map[], log) && After(map[], log) == Pending() && HandlesNew(log)
      && booked == Handles(log) && jiffy == TicksIn(log) % JIFFIES
    }

    constructor (clock: Timevals.Timeval)
      requires Timevals.Normal(clock)
      ensures Valid() && log == [] && members == {} && fresh(heads) && now == clock
    {
      heads := new Action?[SLOTS](_ => null);
      day, hour, minute, second, jiffy := 0, 0, 0, 0, 0;
      now, timers := clock, 0;
      members, log, booked := {}, [], [];
    }

    /** Installs an action for the given target. */
    method Enter(event: Action, to: Digits)
      requires Sound() && event !in members && event.digits == to
      requires Normal(to) && Code(to) >= Code(Position())
      modifies `members, `timers, heads, event`next, event`prev, event`parent, event`rank, members`prev
      ensures Sound() && members == old(members) + {event}
      ensures Wait(event) == Code(to) - Code(Position())
      ensures forall a :: a in old(members) ==> Wait(a) == old(Wait(a))
    {
      hide InPlace, Remaining, WellLinked, Code, WheelFor, Normal, SlotIn;
      ScheduledInPlace(Position(), to);
      HeadInstalled(SlotIn(WheelFor(Position(), to), to));
      Install(SlotIn(WheelFor(Position(), to), to), event);
      timers := timers + 1;
    }

    /** Takes an action out of the wheel. */
    method Drop(event: Action)
      requires Sound() && event in members
      modifies `members, `timers, heads, members`next, members`prev
      ensures Sound() && members == old(members) - {event}
      ensures forall a :: a in members ==> Wait(a) == old(Wait(a))
    {
      hide InPlace, Remaining, WellLinked;
      NeighboursInstalled(event);
      var next := Remove(event);
      timers := timers - 1;
    }

    /** The jiffy hand moves `k` slots, at most to the end of the second. */
    method Turn(k: nat)
      requires Sound() && jiffy + k <= JIFFIES
      modifies `day, `hour, `minute, `second, `jiffy, `members, heads,
        members`next, members`prev, members`parent, members`rank, members`digits
      ensures Sound() && members == old(members) && jiffy == (old(jiffy) + k) % JIFFIES
      ensures forall a :: a in members ==>
                Wait(a) == if old(Wait(a)) >= k then old(Wait(a)) - k else old(Wait(a)) - k + JIFFIES
    {
      hide InPlace, Remaining, WellLinked;
      forall a | a in members
        ensures InPlace(Position().(jiffy := jiffy + k), a.digits, a.parent, Jiffies)
        ensures Remaining(Position().(jiffy := jiffy + k), a.digits, a.parent) ==
                if Wait(a) >= k then Wait(a) - k else Wait(a) - k + JIFFIES
      {
        RemainingAfterJiffies(Position(), a.digits, a.parent, k);
      }
      jiffy := jiffy + k;
      if jiffy == JIFFIES {
        NextSecond();
      }
    }

    lemma SlotEmpty(slot: nat)
      requires WellLinked() && slot < SLOTS
      ensures heads[slot] == null <==> forall a :: a in members ==> a.parent != slot
    {
      HeadInstalled(slot);
      forall a | a in members ensures a.parent == slot ==> heads[slot] != null {
        Reachable(a, SLOTS, null);
      }
    }

    /** An action is due exactly when it is in the current slot of the jiffy wheel. */
    lemma DueSlot(a: Action)
      requires Sound() && a in members
      ensures Wait(a) >= 0 && (Wait(a) == 0 <==> a.parent == JIFFY_SLOTS + jiffy)
    {
      RemainingBeyondSecond(Position(), a.digits, a.parent);
    }

    // ----- operations

    /** Makes an action for target `to`, `delay` ticks ahead, and installs it. */
    method Book(to: Digits, callback: Callback, ghost delay: nat) returns (event: Action)
      requires Valid() && Normal(to) && Code(to) == Code(Position()) + delay
      modifies `members, `timers, `booked, `log, heads, members`prev
      ensures Valid() && log == old(log) + [Scheduled(event, delay)]
      ensures fresh(event) && event.callback == callback
      ensures Pending() == old(Pending())[event := delay]
    {
      hide InPlace, Remaining, WellLinked, Placed, Wait, IsRun, After, Code, Sound, HandlesNew, Handles, TicksIn;
      event := new Action(callback, to);
      HandlesStayNew(log, Scheduled(event, delay));
      Enter(event, to);
      assert Pending() == old(Pending())[event := delay];
      Extend(map[], log, Scheduled(event, delay));
      HandlesOne(log, Scheduled(event, delay));
      log, booked := log + [Scheduled(event, delay)], booked + [event];
    }

    /** Schedules `callback` to run `sec` seconds and `usec` microseconds from `clock`, the time of day.
        The delay in ticks counts from the wheel's own time, which `clock` never precedes. */
    method Schedule(clock: Timevals.Timeval, sec: int, usec: int, callback: Callback) returns (event: Action?)
      requires Valid() && Timevals.Normal(clock)
      requires sec >= 0 && usec >= 0 ==>
               InRange(Position(), if Timevals.Before(clock, now) then clock else now, clock, sec, usec)
      modifies `now, `members, `timers, `booked, `log, heads, members`prev
      ensures Valid()
      ensures event == null <==> sec < 0 || usec < 0
      ensures event == null ==> log == old(log) && now == old(now) && Pending() == old(Pending())
      ensures event != null ==>
                && fresh(event) && event.callback == callback
                && now == (if Timevals.Before(clock, old(now)) then clock else old(now))
                && var delay := DelayTicks(now, clock, sec, usec);
                   && delay >= (sec * Timevals.MILLION + usec) / 10000
                   && log == old(log) + [Scheduled(event, delay)]
                   && Pending() == old(Pending())[event := delay]
      ensures (Ready(old(log)) ==> Ready(log)) && (Disciplined(old(log)) ==> Disciplined(log))
    {
      hide *;
      if sec < 0 || usec < 0 {
        return null;
      }
      Bounds();
      if Timevals.Before(clock, now) {
        SetNow(clock);
      }
      Timevals.NotBeforeItself(clock);
      TargetTicks(Position(), now, clock, sec, usec);
      var span := Span(now, clock, sec, usec);
      ghost var delay := DelayTicks(now, clock, sec, usec);
      event := Book(Target(Position(), span.sec, span.usec), callback, delay);
      NoTicksInRequests(old(log), [Scheduled(event, delay)]);
    }

    /** Cancels an installed action: it, and nothing else, leaves the wheel. */
    method Cancel(event: Action)
      requires Valid() && event in members
      modifies `members, `timers, `log, heads, members`next, members`prev
      ensures Valid() && log == old(log) + [Cancelled(event)]
      ensures Pending() == old(Pending()) - {event} && members == old(members) - {event}
      ensures (Ready(old(log)) ==> Ready(log)) && (Disciplined(old(log)) ==> Disciplined(log))
    {
      hide InPlace, Remaining, WellLinked, Placed, Sound, Wait, IsRun, After, HandlesNew, Handles, TicksIn;
      hide Disciplined, Ready;
      Drop(event);
      assert Pending() == old(Pending()) - {event};
      NoTicksInRequests(log, [Cancelled(event)]);
      Extend(map[], log, Cancelled(event));
      HandlesOne(log, Cancelled(event));
      HandlesStayNew(log, Cancelled(event));
      log := log + [Cancelled(event)];
    }

    lemma BookedIsInstalled(booking: nat)
      requires Valid() && booking < |booked|
      ensures booked[booking] in members <==> Booked(Timeless(log), booking).Some?
      ensures booked[booking] in members ==> Booked(Timeless(log), booking) == Some(booked[booking])
    {
      BookedIsPending(log, booking);
      HandlesTimeless(log);
      EndedTimeless(log, booked[booking]);
    }

    lemma NeverBooked(booking: nat)
      requires Valid() && booking >= |booked|
      ensures Booked(Timeless(log), booking).None?
    {
      HandlesTimeless(log);
    }

    /** Whatever is pending has been booked, so a program can name it. */
    lemma EveryTimerIsBooked(a: Action)
      requires Valid() && a in members
      ensures exists booking :: 0 <= booking < |booked| && booked[booking] == a
    {
      hide Sound, HandlesNew;
      PendingIsBooked(log, a);
    }

    /** Does what a callback asks for. */
    method Perform(r: Request) returns (ghost es: seq<Event<Action>>)
      requires Valid() && Proper(r)
      modifies `now, `members, `timers, `booked, `log, heads, members`next, members`prev
      ensures Valid() && fresh(members - old(members)) && log == old(log) + es
      ensures Becomes(old(Timeless(log)), old(now), r, es) && now == TimeSeen(old(now), r)
      ensures r.Withdraw? ==> members <= old(members)
      ensures Ahead(r) ==> Due(Pending()) <= Due(old(Pending()))
      ensures (Ready(old(log)) ==> Ready(log)) && (Disciplined(old(log)) ==> Disciplined(log))
    {
      hide *;
      Bounds();
      match r {
        case Ask(clock, sec, usec, callback) =>
          MayAsk(Position(), now, r);
          var event := Schedule(clock, sec, usec, callback);
          if event == null {
            NotAsked(old(Timeless(log)), old(now), r);
            return [];
          }
          ghost var a: Action, delay := event, DelayTicks(now, clock, sec, usec);
          Asked(old(Timeless(log)), old(now), r, a, delay);
          if delay >= 1 {
            DueMore(old(Pending()), a, delay);
          }
          return [Scheduled(a, delay)];
        case Withdraw(booking) =>
          Withdrawing(Timeless(log), now, r);
          if booking >= |booked| {
            NeverBooked(booking);
            return [];
          }
          var a := booked[booking];
          BookedIsInstalled(booking);
          var found := Installed(a);
          if !found {
            return [];
          }
          DueLess(Pending(), a);
          Cancel(a);
          return [Cancelled(a)];
      }
    }

    /** Does all that a callback asks for; `n` callbacks have run. */
    method Answer(requests: seq<Request>, ghost n: nat) returns (ghost es: seq<Event<Action>>)
      requires Valid() && forall i :: 0 <= i < |requests| ==> Proper(requests[i])
      modifies `now, `members, `timers, `booked, `log, heads, members`next, members`prev
      ensures Valid() && fresh(members - old(members)) && log == old(log) + es
      ensures Answers(old(Here(n)), requests, es) && Here(n) == Answered(old(Here(n)), requests, es)
      ensures (forall i :: 0 <= i < |requests| ==> Ahead(requests[i])) ==> Due(Pending()) <= Due(old(Pending()))
      ensures (forall i :: 0 <= i < |requests| ==> !requests[i].Ask?) ==> members <= old(members)
      ensures requests == [] ==> Pending() == old(Pending()) && members == old(members)
      ensures (Ready(old(log)) ==> Ready(log)) && (Disciplined(old(log)) ==> Disciplined(log))
    {
      hide *;
      es := [];
      ghost var s := Here(n);
      NothingAsked(s);
      assert requests[..0] == [];
      for i := 0 to |requests|
        invariant Valid() && fresh(members - old(members)) && log == old(log) + es
        invariant Answers(s, requests[..i], es) && Stage(Timeless(log), now, n) == Answered(s, requests[..i], es)
        invariant Stage(s.past + es, TimeAsked(s.time, requests[..i]), n) == Stage(Timeless(log), now, n)
        invariant (forall j :: 0 <= j < i ==> Ahead(requests[j])) ==> Due(Pending()) <= Due(old(Pending()))
        invariant (forall j :: 0 <= j < i ==> !requests[j].Ask?) ==> members <= old(members)
        invariant i == 0 ==> Pending() == old(Pending()) && members == old(members)
        invariant (Ready(old(log)) ==> Ready(log)) && (Disciplined(old(log)) ==> Disciplined(log))
      {
        ghost var before := log;
        ghost var more := Perform(requests[i]);
        TimelessBecomes(before, s.past + es, TimeAsked(s.time, requests[..i]), requests[i], more);
        AnswersMore(s, requests[..i], es, requests[i], more);
        assert requests[..i] + [requests[i]] == requests[..i + 1];
        es := es + more;
      }
      assert requests[..|requests|] == requests;
    }

    /** What the world can tell of the wheel after `n` callbacks. */
    ghost function Here(n: nat): (s: Stage)
      reads `log, `now
      ensures s.past == Timeless(log) && s.time == now && s.calls == n
    {
      Stage(Timeless(log), now, n)
    }

    lemma Bounds()
      requires Sound()
      ensures WellLinked() && Normal(Position())
      ensures 0 <= jiffy < JIFFIES && heads.Length == SLOTS == JIFFY_SLOTS + JIFFIES && Timevals.Normal(now)
      ensures JIFFY_SLOTS >= 0 && JIFFIES == 100
    {
    }

    /** The head of the current slot of the jiffy wheel is due. */
    lemma DueHead(event: Action)
      requires Sound() && 0 <= JIFFY_SLOTS + jiffy < heads.Length && event == heads[JIFFY_SLOTS + jiffy]
      ensures event in members && event in Due(Pending())
    {
      HeadInstalled(JIFFY_SLOTS + jiffy);
      DueSlot(event);
    }

    /** Takes the first due action off the wheel; its callback is for the caller to run. */
    method FireOne(event: Action)
      requires Valid() && 0 <= JIFFY_SLOTS + jiffy < heads.Length && event == heads[JIFFY_SLOTS + jiffy]
      modifies `members, `timers, `log, heads, members`next, members`prev
      ensures Valid() && log == old(log) + [Fired(event)]
      ensures event in old(members) && event in Due(old(Pending()))
      ensures Pending() == old(Pending()) - {event} && members == old(members) - {event}
      ensures Disciplined(old(log)) ==> Disciplined(log)
    {
      hide InPlace, Remaining, WellLinked, Placed, Sound, Wait, IsRun, After, HandlesNew, Handles, TicksIn, Disciplined;
      DueHead(event);
      Drop(event);
      assert Pending() == old(Pending()) - {event};
      Extend(map[], log, Fired(event));
      HandlesOne(log, Fired(event));
      HandlesStayNew(log, Fired(event));
      if Disciplined(log) {
        DisciplinedMore(log, Fired(event));
      }
      log := log + [Fired(event)];
    }

    /** One tick: the jiffy hand moves on, cascading at the end of a second. */
    method Step()
      requires Valid()
      modifies `day, `hour, `minute, `second, `jiffy, `members, `log, heads,
        members`next, members`prev, members`parent, members`rank, members`digits
      ensures Valid() && log == old(log) + [Advanced] && members == old(members)
      ensures Pending() == Advance(old(Pending()))
    {
      hide Sound, Pending, Wait, IsRun, After, HandlesNew, Handles, TicksIn;
      Bounds();
      StepHand();
      Extend(map[], log, Advanced);
      HandlesOne(log, Advanced);
      HandlesStayNew(log, Advanced);
      log := log + [Advanced];
    }

    method StepHand()
      requires Sound() && jiffy < JIFFIES
      modifies `day, `hour, `minute, `second, `jiffy, `members, heads,
        members`next, members`prev, members`parent, members`rank, members`digits
      ensures Sound() && members == old(members) && jiffy == (old(jiffy) + 1) % JIFFIES
      ensures Pending() == Advance(old(Pending()))
    {
      hide Sound, InPlace, Remaining, WellLinked, Placed, Wait;
      Turn(1);
    }

    lemma NothingDue()
      requires Sound() && heads[JIFFY_SLOTS + jiffy] == null
      ensures Due(Pending()) == {}
    {
      SlotEmpty(JIFFY_SLOTS + jiffy);
      forall a | a in members ensures Wait(a) != 0 {
        DueSlot(a);
      }
    }

    /** Records that the current slot has been found empty. */
    ghost method MarkSwept()
      requires Valid() && 0 <= JIFFY_SLOTS + jiffy < heads.Length && heads[JIFFY_SLOTS + jiffy] == null
      modifies `log
      ensures Valid() && log == old(log) + [Swept] && Pending() == old(Pending()) && Due(Pending()) == {}
      ensures Disciplined(old(log)) ==> Disciplined(log) && Ready(log)
    {
      hide InPlace, Remaining, WellLinked, Placed, Wait, IsRun, After, HandlesNew, Handles, TicksIn, Disciplined, Ready;
      NothingDue();
      hide Sound;
      Extend(map[], log, Swept);
      HandlesOne(log, Swept);
      HandlesStayNew(log, Swept);
      if Disciplined(log) {
        SweptIsReady(log);
        DisciplinedMore(log, Swept);
      }
      log := log + [Swept];
    }

    /** Fires the head of the current slot and runs its callback, the `n`-th, in a round that began at stage `s` with
        history `was`. */
    method FireNext(behaviour: Behaviour, n: nat, ghost patience: nat, ghost was: seq<Event<Action>>, ghost s: Stage,
                    ghost fired: seq<Action>, ghost did: seq<seq<Event<Action>>>)
        returns (ok: bool, ghost event: Action, ghost es: seq<Event<Action>>)
      requires Valid() && 0 <= JIFFY_SLOTS + jiffy < heads.Length && heads[JIFFY_SLOTS + jiffy] != null
      requires Patient(behaviour, patience) && Called(behaviour, s, fired, did, true)
      requires Here(n) == AfterCalls(behaviour, s, fired, did) && n == s.calls + |fired|
      requires log == was + Blocks(fired, did)
      modifies `now, `members, `timers, `booked, `log, heads, members`next, members`prev
      ensures Valid() && fresh(members - old(members))
      ensures Called(behaviour, s, fired + [event], did + [es], ok)
      ensures Here(n + 1) == AfterCalls(behaviour, s, fired + [event], did + [es])
      ensures log == was + Blocks(fired + [event], did + [es])
      ensures event in Due(old(Pending())) && event in old(members)
      ensures n >= patience ==> Due(Pending()) < Due(old(Pending()))
      ensures Settles(behaviour, patience) && n >= patience ==> members < old(members)
      ensures Quiet(behaviour) ==> Pending() == old(Pending()) - {event}
      ensures Disciplined(old(log)) ==> Disciplined(log)
    {
      hide *;
      var head := heads[JIFFY_SLOTS + jiffy];
      event := head;
      FireOne(head);
      DueLess(old(Pending()), event);
      TimelessAfter(old(log), Fired(event));
      IsCalling(behaviour, s, fired, did, event, Here(n + 1));
      var reply := behaviour(n, head.callback);
      CallsFor(behaviour, patience, n, head.callback);
      if Settles(behaviour, patience) && n >= patience {
        SettledCall(behaviour, patience, n, head.callback);
      }
      es := Answer(reply.requests, n + 1);
      ok := reply.ok;
      CalledOne(behaviour, s, fired, did, event, es);
      BlocksOne(fired, did, event, es);
    }

    /** Fires every due action, one after the other, until one of their callbacks fails. Callbacks may schedule and
        cancel; what they put into the slot itself is fired as well. */
    method Expire(behaviour: Behaviour, n: nat, ghost patience: nat)
        returns (ok: bool, n': nat, ghost fired: seq<Action>, ghost did: seq<seq<Event<Action>>>)
      requires Valid() && Patient(behaviour, patience)
      modifies `now, `members, `timers, `booked, `log, heads, members`next, members`prev
      ensures Valid() && fresh(members - old(members)) && n' == n + |fired|
      ensures Called(behaviour, old(Here(n)), fired, did, ok)
      ensures Here(n') == AfterCalls(behaviour, old(Here(n)), fired, did)
      ensures log == old(log) + Blocks(fired, did) + (if ok then [Swept] else [])
      ensures ok ==> Due(Pending()) == {}
      ensures fired == [] ==> members == old(members) && Pending() == old(Pending())
      ensures Settles(behaviour, patience) && n >= patience ==>
              members <= old(members) && (fired != [] ==> members < old(members))
      ensures Quiet(behaviour) ==> Gone(old(Pending()), fired, Pending())
      ensures Disciplined(old(log)) ==> Disciplined(log) && (ok ==> Ready(log))
    {
      hide *;
      fired, did, n' := [], [], n;
      ghost var s, was, mine, b := Here(n), log, members, Pending();
      NoneGone(b);
      CalledNone(behaviour, s);
      Bounds();
      while heads[JIFFY_SLOTS + jiffy] != null
        invariant Valid() && fresh(members - mine) && n' == n + |fired|
        invariant Called(behaviour, s, fired, did, true) && log == was + Blocks(fired, did)
        invariant Here(n') == AfterCalls(behaviour, s, fired, did)
        invariant fired == [] ==> members == mine && Pending() == b
        invariant Settles(behaviour, patience) && n >= patience ==> members <= mine && (fired != [] ==> members < mine)
        invariant Quiet(behaviour) ==> Gone(b, fired, Pending())
        invariant Disciplined(was) ==> Disciplined(log)
        decreases if n' < patience then patience - n' else 0, Due(Pending())
      {
        ghost var event, es, c;
        c := Pending();
        ok, event, es := FireNext(behaviour, n', patience, was, s, fired, did);
        if Quiet(behaviour) {
          GoneMore(b, fired, c, event);
        }
        fired, did, n' := fired + [event], did + [es], n' + 1;
        if !ok {
          return;
        }
      }
      TimelessAfter(log, Swept);
      MarkSwept();
      ok := true;
    }

    /** One round of the loop in `update`: a tick, and the due actions if there are any. */
    method Tick(behaviour: Behaviour, n: nat, ghost patience: nat)
        returns (ok: bool, check: bool, n': nat, ghost fired: seq<Action>, ghost did: seq<seq<Event<Action>>>)
      requires Valid() && Patient(behaviour, patience)
      modifies `now, `day, `hour, `minute, `second, `jiffy, `members, `timers, `booked, `log, heads,
        members`next, members`prev, members`parent, members`rank, members`digits
      ensures Valid() && fresh(members - old(members)) && (check <==> fired != []) && n' == n + |fired|
      ensures Called(behaviour, old(Here(n)), fired, did, ok)
      ensures Here(n') == AfterCalls(behaviour, old(Here(n)), fired, did)
      ensures log == old(log) + [Advanced] + Blocks(fired, did) + (if ok then [Swept] else [])
      ensures ok ==> Due(Pending()) == {}
      ensures Settles(behaviour, patience) && n >= patience ==>
              members <= old(members) && (check ==> members < old(members))
      ensures Quiet(behaviour) && ok ==> Pending() == TimerBag.Tick(old(Pending()))
      ensures Ready(old(log)) ==> Disciplined(log) && (ok ==> Ready(log))
    {
      hide *;
      if Ready(log) {
        ReadyAdvanced(log);
      }
      TimelessAfter(log, Advanced);
      Step();
      Bounds();
      SameStage(Here(n), old(Here(n)));
      check := heads[JIFFY_SLOTS + jiffy] != null;
      if check {
        DueHead(heads[JIFFY_SLOTS + jiffy]);
        ok, n', fired, did := Expire(behaviour, n, patience);
      } else {
        NoneGone(Pending());
        CalledNone(behaviour, Here(n));
        TimelessAfter(log, Swept);
        MarkSwept();
        SameStage(Here(n), old(Here(n)));
        ok, n', fired, did := true, n, [], [];
      }
      if ok && Quiet(behaviour) {
        AllGone(old(Pending()), fired, Pending());
      }
    }

    /** Setting the wheel's time touches no timer. */
    method SetNow(clock: Timevals.Timeval)
      requires Valid() && Timevals.Normal(clock)
      modifies `now
      ensures Valid() && now == clock && Pending() == old(Pending())
    {
      hide InPlace, Remaining, WellLinked, Placed, Wait, IsRun, After, HandlesNew, Handles, TicksIn;
      now := clock;
      assert Pending() == old(Pending());
    }

    /** A further round, after firings that the history since `was` consists of; these began at stage `s`. */
    method TickAgain(behaviour: Behaviour, n: nat, ghost patience: nat, ghost was: seq<Event<Action>>, ghost s: Stage,
                     ghost fired: seq<Action>, ghost did: seq<seq<Event<Action>>>)
        returns (ok: bool, check: bool, n': nat, ghost fired': seq<Action>, ghost did': seq<seq<Event<Action>>>)
      requires Valid() && Patient(behaviour, patience) && n == s.calls + |fired|
      requires Called(behaviour, s, fired, did, true) && Here(n) == AfterCalls(behaviour, s, fired, did)
      requires Since(was, log, Blocks(fired, did))
      modifies `now, `day, `hour, `minute, `second, `jiffy, `members, `timers, `booked, `log, heads,
        members`next, members`prev, members`parent, members`rank, members`digits
      ensures Valid() && fresh(members - old(members)) && fired <= fired' && (check <==> fired != fired')
      ensures n' == s.calls + |fired'|
      ensures Called(behaviour, s, fired', did', ok) && Here(n') == AfterCalls(behaviour, s, fired', did')
      ensures Since(was, log, Blocks(fired', did')) && TicksIn(log) == TicksIn(old(log)) + 1
      ensures ok ==> Due(Pending()) == {}
      ensures Settles(behaviour, patience) && n >= patience ==>
              members <= old(members) && (check ==> members < old(members))
      ensures Quiet(behaviour) && ok ==> Pending() == TimerBag.Tick(old(Pending()))
      ensures Ready(old(log)) ==> Disciplined(log) && (ok ==> Ready(log))
    {
      hide *;
      ghost var f, d;
      ok, check, n', f, d := Tick(behaviour, n, patience);
      RoundMore(behaviour, s, was, old(log), fired, did, f, d, ok);
      CalledMore(behaviour, s, fired, did, f, d, ok);
      fired', did' := fired + f, did + d;
    }

    /** One pass of `update`: the wheel catches up with the time of day, one jiffy after the other. A clock that
        has gone backwards takes the wheel's time with it. `check` tells that something fired. */
    method UpdatePass(clock: Timevals.Timeval, behaviour: Behaviour, n: nat, ghost patience: nat)
        returns (ok: bool, check: bool, n': nat, ghost p: Pass)
      requires Valid() && Timevals.Normal(clock) && Patient(behaviour, patience)
      modifies `now, `day, `hour, `minute, `second, `jiffy, `members, `timers, `booked, `log, heads,
        members`next, members`prev, members`parent, members`rank, members`digits
      ensures Valid() && fresh(members - old(members)) && (check <==> p.fired != []) && n' == n + |p.fired|
      ensures Fits(behaviour, old(Here(n)), p) && p.seen == clock && p.ok == ok
      ensures Here(n') == AfterPass(behaviour, old(Here(n)), p)
      ensures Since(old(log), log, EventsIn(p)) && TicksIn(log) == TicksIn(old(log)) + p.ticks
      ensures ok && p.ticks > 0 ==> Due(Pending()) == {}
      ensures Settles(behaviour, patience) && n >= patience ==>
              members <= old(members) && (check ==> members < old(members))
      ensures Quiet(behaviour) && ok ==> Pending() == Ticks(old(Pending()), p.ticks)
      ensures Ready(old(log)) ==> Disciplined(log) && (ok ==> Ready(log))
    {
      hide *;
      Bounds();
      var start := if Timevals.Before(clock, now) then clock else now;
      var delta := Timevals.Diff(start, clock);
      TicksExact(old(now), clock);
      var sec, jiffies := delta.sec, delta.usec / 10000;
      ghost var from := Here(n);
      SetNow(clock);
      check, n' := false, n;
      ghost var was, mine, b, total, s := log, members, Pending(), TicksUpTo(old(now), clock), Here(n);
      SameStage(s, from.(time := clock));
      ghost var ticks: nat, fired, did := 0, [], [];
      NoTicks(b);
      CalledNone(behaviour, s);
      SinceNothing(log);
      ReadyIsDisciplined(log);
      while sec != 0 || jiffies != 0
        invariant Valid() && fresh(members - mine) && (check <==> fired != []) && n' == n + |fired|
        invariant Called(behaviour, s, fired, did, true) && Here(n') == AfterCalls(behaviour, s, fired, did)
        invariant Since(was, log, Blocks(fired, did)) && TicksIn(log) == TicksIn(was) + ticks
        invariant 0 <= sec && 0 <= jiffies <= 100 && ticks + 100 * sec + jiffies == total
        invariant if ticks > 0 then Due(Pending()) == {} else fired == []
        invariant Settles(behaviour, patience) && n >= patience ==> members <= mine && (check ==> members < mine)
        invariant Quiet(behaviour) ==> Pending() == Ticks(b, ticks)
        invariant Ready(was) ==> Disciplined(log) && Ready(log)
        decreases sec, jiffies
      {
        if jiffies == 0 {
          sec, jiffies := sec - 1, 100;
        }
        jiffies := jiffies - 1;
        var checked;
        ok, checked, n', fired, did := TickAgain(behaviour, n', patience, was, s, fired, did);
        OneMoreTick(b, ticks);
        check, ticks := check || checked, ticks + 1;
        if !ok {
          p := Pass(old(now), clock, ticks, fired, did, false);
          ItFits(behaviour, from, p);
          return;
        }
      }
      ok, p := true, Pass(old(now), clock, ticks, fired, did, true);
      ItFits(behaviour, from, p);
    }

    /** A further pass, after passes `ps` that began at stage `s` with history `was`. */
    method PassAgain(clock: nat -> Timevals.Timeval, behaviour: Behaviour, i: nat, n: nat, ghost patience: nat,
                     ghost was: seq<Event<Action>>, ghost s: Stage, ghost start: Bag<Action>, ghost ps: seq<Pass>)
        returns (ok: bool, check: bool, n': nat, ghost p: Pass)
      requires Valid() && (forall i :: Timevals.Normal(clock(i))) && Patient(behaviour, patience) && i == |ps|
      requires Repeated(ps, true) && (Quiet(behaviour) ==> Pending() == Ticks(start, TicksOf(ps)))
      requires Passes(behaviour, clock, s, ps, true) && Here(n) == AfterPasses(behaviour, s, ps)
      requires Since(was, log, EventsOf(ps)) && TicksIn(log) == TicksIn(was) + TicksOf(ps)
      modifies `now, `day, `hour, `minute, `second, `jiffy, `members, `timers, `booked, `log, heads,
        members`next, members`prev, members`parent, members`rank, members`digits
      ensures Valid() && fresh(members - old(members)) && (check <==> p.fired != []) && n' == n + |p.fired|
      ensures Passes(behaviour, clock, s, ps + [p], ok) && Here(n') == AfterPasses(behaviour, s, ps + [p])
      ensures Since(was, log, EventsOf(ps + [p])) && TicksIn(log) == TicksIn(was) + TicksOf(ps + [p])
      ensures Settles(behaviour, patience) && n >= patience ==>
              members <= old(members) && (check ==> members < old(members))
      ensures Repeated(ps + [p], check) && (!ok ==> check)
      ensures Quiet(behaviour) && ok ==> Pending() == Ticks(start, TicksOf(ps + [p]))
      ensures ok && TicksUpTo(old(now), clock(i)) == 0 ==> !check
      ensures forall last, rest, floor :: ComesToRest(behaviour, clock, last, rest, floor) && n >= last && i >= rest ==>
                TicksUpTo(now, clock(i + 1)) == 0
      ensures Ready(old(log)) ==> Disciplined(log) && (ok ==> Ready(log))
    {
      hide *;
      ghost var before, here, time := Pending(), Here(n), now;
      ok, check, n', p := UpdatePass(clock(i), behaviour, n, patience);
      PassMore(behaviour, clock, s, ps, p);
      SinceMore(was, old(log), log, EventsOf(ps), EventsIn(p));
      RepeatedMore(ps, p);
      if !ok {
        CalledInVain(behaviour, here, p);
      } else {
        if Quiet(behaviour) {
          MoreTicks(start, TicksOf(ps), before, p.ticks, Pending());
        }
        if TicksUpTo(time, clock(i)) == 0 {
          SeesNothing(behaviour, here, p);
        }
      }
      Bounds();
      forall last, rest, floor | ComesToRest(behaviour, clock, last, rest, floor) && n >= last && i >= rest
        ensures TicksUpTo(now, clock(i + 1)) == 0
      {
        RestsAfter(behaviour, clock, last, rest, floor, here, p, i);
      }
    }

    /** `update`: passes until one fires nothing, each looking at the clock again; `clock(i)` is what pass `i` sees. It
        comes to an end if callbacks stop scheduling or the clock gives them time. */
    method Update(clock: nat -> Timevals.Timeval, behaviour: Behaviour, n: nat, ghost patience: nat)
        returns (ok: bool, n': nat, ghost ps: seq<Pass>)
      requires Valid() && (forall i :: Timevals.Normal(clock(i))) && Patient(behaviour, patience)
      requires Ends(behaviour, clock)
      modifies `now, `day, `hour, `minute, `second, `jiffy, `members, `timers, `booked, `log, heads,
        members`next, members`prev, members`parent, members`rank, members`digits
      ensures Valid() && fresh(members - old(members))
      ensures Passes(behaviour, clock, old(Here(n)), ps, ok) && Here(n') == AfterPasses(behaviour, old(Here(n)), ps)
      ensures Since(old(log), log, EventsOf(ps)) && TicksIn(log) == TicksIn(old(log)) + TicksOf(ps)
      ensures ps != [] && Repeated(ps, !ok)
      ensures Quiet(behaviour) && ok ==> Pending() == Ticks(old(Pending()), TicksOf(ps))
      ensures Ready(old(log)) ==> Disciplined(log) && (ok ==> Ready(log))
    {
      hide *;
      n', ps := n, [];
      var i, check := 0, true;
      ghost var settled, last, rest, floor := HowItEnds(behaviour, clock);
      ghost var still: nat := MorePatient(behaviour, patience, settled, last, floor);
      ghost var resting := false;
      ghost var start, s, mine, was := Pending(), Here(n), members, log;
      NoTicks(start);
      NoPass(behaviour, clock, s);
      NoneRepeated();
      SinceNothing(log);
      ReadyIsDisciplined(log);
      while check
        invariant Valid() && fresh(members - mine) && i == |ps|
        invariant Passes(behaviour, clock, s, ps, true) && Here(n') == AfterPasses(behaviour, s, ps)
        invariant Since(was, log, EventsOf(ps)) && TicksIn(log) == TicksIn(was) + TicksOf(ps)
        invariant Repeated(ps, check) && (ps == [] ==> check)
        invariant Quiet(behaviour) ==> Pending() == Ticks(start, TicksOf(ps))
        invariant Ready(was) ==> Disciplined(log) && Ready(log)
        invariant resting ==> !settled && n' >= still && i >= rest && TicksUpTo(now, clock(i)) == 0
        decreases if n' < still then still - n' else 0, if !settled && i < rest then rest - i else 0,
          if settled && n' >= still then members else {}, !resting, check
      {
        ghost var p;
        resting := !settled && n' >= still && i >= rest;
        ok, check, n', p := PassAgain(clock, behaviour, i, n', still, was, s, start, ps);
        ps, i := ps + [p], i + 1;
        if !ok {
          return;
        }
      }
      ok := true;
    }

    /** Milliseconds until the first action of this second, or the end of the second; -1 if there is nothing to wait
        for. */
    method Timeout() returns (timo: int)
      requires Valid()
      ensures timo == -1 <==> timers == 0
      ensures timers != 0 ==> timo >= 0 && timo % 10 == 0 && jiffy + timo / 10 <= JIFFIES
      ensures timers != 0 ==> forall a :: a in members ==> Wait(a) >= timo / 10
      ensures timers != 0 && jiffy + timo / 10 < JIFFIES ==> exists a :: a in members && Wait(a) == timo / 10
      ensures timers != 0 ==> IsNap(Pending(), jiffy, timo / 10)
    {
      hide *;
      if timers == 0 {
        return -1;
      }
      Bounds();
      var i := jiffy;
      while i < JIFFIES && heads[JIFFY_SLOTS + i] == null
        invariant jiffy <= i <= JIFFIES
        invariant forall s :: JIFFY_SLOTS + jiffy <= s < JIFFY_SLOTS + i ==> heads[s] == null
      {
        i := i + 1;
      }
      FirstWait(i);
      NapUntil(i);
      timo := (i - jiffy) * 10;
    }

    lemma NapUntil(i: int)
      requires Sound() && jiffy <= i <= JIFFIES && jiffy >= 0
      requires forall a :: a in members ==> Wait(a) >= i - jiffy
      requires i < JIFFIES ==> exists a :: a in members && Wait(a) == i - jiffy
      ensures IsNap(Pending(), jiffy, i - jiffy)
    {
    }

    /** No wait is shorter than the way to the first filled slot, or to the end of the second. */
    lemma FirstWait(i: int)
      requires Sound() && jiffy <= i <= JIFFIES
      requires forall s :: JIFFY_SLOTS + jiffy <= s < JIFFY_SLOTS + i ==> heads[s] == null
      ensures forall a :: a in members ==> Wait(a) >= i - jiffy
      ensures i < JIFFIES && heads[JIFFY_SLOTS + i] != null ==> exists a :: a in members && Wait(a) == i - jiffy
    {
      forall a | a in members ensures Wait(a) >= i - jiffy {
        RemainingBeyondSecond(Position(), a.digits, a.parent);
        if JIFFY_SLOTS + jiffy <= a.parent < JIFFY_SLOTS + i {
          SlotEmpty(a.parent);
        }
      }
      if i < JIFFIES && heads[JIFFY_SLOTS + i] != null {
        HeadInstalled(JIFFY_SLOTS + i);
        assert Wait(heads[JIFFY_SLOTS + i]) == i - jiffy;
      }
    }

    /** The timeout branch of `agent_start_unlocked`: after sleeping for the computed time, the hand jumps there in
        one go. */
    method Wake(timo: nat, behaviour: Behaviour, n: nat, ghost patience: nat)
        returns (ok: bool, n': nat, ghost fired: seq<Action>, ghost did: seq<seq<Event<Action>>>)
      requires Valid() && timo % 10 == 0 && jiffy + timo / 10 <= JIFFIES && Patient(behaviour, patience)
      requires forall a :: a in members ==> Wait(a) >= timo / 10
      modifies `now, `day, `hour, `minute, `second, `jiffy, `members, `timers, `booked, `log, heads,
        members`next, members`prev, members`parent, members`rank, members`digits
      ensures Valid() && fresh(members - old(members)) && n' == n + |fired|
      ensures var s := old(Here(n)).(time := Timevals.Add(old(now), Timevals.Timeval(0, timo * 1000)));
              Called(behaviour, s, fired, did, ok) && Here(n') == AfterCalls(behaviour, s, fired, did)
      ensures log == old(log) + QuietTicks(timo / 10) + Blocks(fired, did) + (if ok then [Swept] else [])
      ensures ok ==> Due(Pending()) == {}
      ensures Quiet(behaviour) && ok ==>
              Pending() == if timo > 0 then Ticks(old(Pending()), timo / 10) else old(Pending()) - Due(old(Pending()))
      ensures Ready(old(log)) ==> Disciplined(log) && (ok ==> Ready(log))
    {
      hide *;
      Bounds();
      WakeTime(now, timo);
      ghost var later := Timevals.Add(now, Timevals.Timeval(0, timo * 1000));
      SetNow(Timevals.Add(now, Timevals.Timeval(0, timo * 1000)));
      TimelessJump(log, timo / 10);
      Jump(timo / 10);
      SameStage(Here(n), old(Here(n)).(time := later));
      ok, n', fired, did := Expire(behaviour, n, patience);
      if ok && Quiet(behaviour) {
        JumpGone(old(Pending()), timo / 10, fired, Pending());
      }
    }

    /** Jumps `k` ticks ahead, with nothing due on the way. */
    method Jump(k: nat)
      requires Valid() && jiffy + k <= JIFFIES
      requires forall a :: a in members ==> Wait(a) >= k
      modifies `day, `hour, `minute, `second, `jiffy, `members, `log, heads,
        members`next, members`prev, members`parent, members`rank, members`digits
      ensures Valid() && members == old(members)
      ensures log == old(log) + QuietTicks(k)
      ensures Pending() == Minus(old(Pending()), k)
      ensures Ready(old(log)) ==> Disciplined(log)
    {
      hide Sound, Pending, Wait, IsRun, After, HandlesNew, Handles, TicksIn, Disciplined, Ready;
      MoveHand(k);
      if k == 0 {
        ReadyIsDisciplined(log);
        assert log + QuietTicks(k) == log;
      } else {
        RunQuiet(map[], log, k);
        HandlesInQuiet(log, k);
        HandlesQuiet(log, k);
        log := log + QuietTicks(k);
      }
    }

    /** The hand moves over slots in which nothing is due. */
    method MoveHand(k: nat)
      requires Sound() && jiffy + k <= JIFFIES
      requires forall a :: a in members ==> Wait(a) >= k
      modifies `day, `hour, `minute, `second, `jiffy, `members, heads,
        members`next, members`prev, members`parent, members`rank, members`digits
      ensures Sound() && members == old(members) && jiffy == (old(jiffy) + k) % JIFFIES
      ensures (forall a :: a in old(Pending()) ==> old(Pending())[a] >= k) && Pending() == Minus(old(Pending()), k)
    {
      hide Sound, InPlace, Remaining, WellLinked, Placed, Wait;
      Turn(k);
    }

    /** Main result for the wheel itself: whatever was scheduled, cancelled and cascaded in its life, and however
        often the day counter started again, an action scheduled D >= 1 ticks ahead and never cancelled has fired
        exactly once, at the D-th tick, as soon as that tick has been dealt with. */
    lemma FiresOnTime(i: nat)
      requires Valid() && Disciplined(log)
      requires i < |log| && log[i].Scheduled? && log[i].delay >= 1
      requires forall j :: i < j < |log| ==> log[j] != Cancelled(log[i].timer)
      requires var due := TicksIn(log[..i]) + log[i].delay; TicksIn(log) > due || (TicksIn(log) == due && Ready(log))
      ensures FiresAt(log, i, TicksIn(log[..i]) + log[i].delay)
    {
      hide *;
      HistoryIsRun();
      ScheduledFiresOnTime(log, i);
    }

    lemma HistoryIsRun()
      requires Valid()
      ensures IsRun(map[], log) && HandlesNew(log)
    {
      hide Sound, Pending;
    }
  }
}
