/** The agent's table of connected file descriptors: a dense array of slots and a sparse array that finds a
    descriptor's slot. */
module FdTable {

  const POLL_SIZE := 16

  datatype PollFd = PollFd(fd: int, events: int)

  /** What a connection is registered with: events, the reaction function and its argument. */
  datatype Reaction = Reaction(fd: int, events: int, reaction: nat, arg: nat)

  /** Measurements of a descriptor's activity, taken as a whole. */
  datatype Activity = Activity(since: int, detail: nat, dt: int, ddt: int, dddt: int)

  const NO_POLLFD := PollFd(0, 0)
  const NO_REACTION := Reaction(0, 0, 0, 0)
  const NO_ACTIVITY := Activity(0, 0, 0, 0, 0)

  /** One entry of the map the table stands for. */
  datatype Connection = Connection(events: int, reaction: nat, arg: nat, activity: Activity)

  /** R_OK, W_OK and X_OK in any combination, but at least one of them. */
  predicate ValidEvents(events: int) {
    1 <= events <= 7
  }

  const R_OK := 4
  const W_OK := 2
  const X_OK := 1

  function Mask(r: bool, w: bool, x: bool): int {
    (if r then R_OK else 0) + (if w then W_OK else 0) + (if x then X_OK else 0)
  }

  /** Anything else has no bit of the three, or one that is none of them. */
  lemma EventsAreMasks(events: int)
    ensures ValidEvents(events) <==> exists r, w, x :: (r || w || x) && events == Mask(r, w, x)
  {
    if ValidEvents(events) {
      var r, w, x := events / 4 == 1, events / 2 % 2 == 1, events % 2 == 1;
      assert events == Mask(r, w, x);
    }
  }

  function Zeros<T>(n: nat, zero: T): (r: seq<T>)
    ensures |r| == n && forall i :: 0 <= i < n ==> r[i] == zero
  {
    seq(n, _ => zero)
  }

  /** Growing the sparse array once, to twice its size, makes room for a descriptor exactly if it is that small. */
  predicate Reachable(ids: seq<int>, fd: int) {
    |ids| == 0 || fd < 2 * |ids|
  }

  /** Connected descriptors and slots 0..n-1 are in one-to-one correspondence. */
  ghost predicate Matched(ids: seq<int>, rs: seq<Reaction>, n: nat)
    requires n <= |rs|
  {
    && (forall fd :: 0 <= fd < |ids| ==> -1 <= ids[fd] < n)
    && (forall fd :: 0 <= fd < |ids| && ids[fd] != -1 ==> rs[ids[fd]].fd == fd)
    && (forall i :: 0 <= i < n ==> 0 <= rs[i].fd < |ids| && ids[rs[i].fd] == i)
  }

  /** What is polled for is what was asked for. */
  ghost predicate InStep(ps: seq<PollFd>, rs: seq<Reaction>, n: nat)
    requires n <= |rs| == |ps|
  {
    forall i :: 0 <= i < n ==> ps[i] == PollFd(rs[i].fd, rs[i].events) && ValidEvents(rs[i].events)
  }

  /** Slots that are not in use are cleared. */
  ghost predicate Cleared<T>(s: seq<T>, n: nat, zero: T) {
    forall i :: n <= i < |s| ==> s[i] == zero
  }

  /** A slot's content moves to slot `id`, and its old place is cleared. */
  function Moved<T>(s: seq<T>, id: nat, last: nat, zero: T): (r: seq<T>)
    requires id < |s| && last < |s|
    ensures |r| == |s|
  {
    s[id := s[last]][last := zero]
  }

  /** Disconnecting keeps descriptors and slots matched: the last slot has moved, and its descriptor knows. */
  lemma MatchedAfter(ids: seq<int>, rs: seq<Reaction>, n: nat, fd: nat)
    requires n <= |rs| && Matched(ids, rs, n) && fd < |ids| && ids[fd] != -1
    ensures n > 0 && 0 <= rs[n - 1].fd < |ids| && ids[rs[n - 1].fd] == n - 1 && 0 <= ids[fd] < n
    ensures Matched(ids[rs[n - 1].fd := ids[fd]][fd := -1], Moved(rs, ids[fd], n - 1, NO_REACTION), n - 1)
  {
  }

  lemma MovedClears<T>(s: seq<T>, n: nat, id: nat, zero: T)
    requires id < n <= |s| && Cleared(s, n, zero)
    ensures Cleared(Moved(s, id, n - 1, zero), n - 1, zero)
  {
  }

  lemma MovedInStep(ps: seq<PollFd>, rs: seq<Reaction>, n: nat, id: nat)
    requires id < n <= |rs| == |ps| && InStep(ps, rs, n)
    ensures InStep(Moved(ps, id, n - 1, NO_POLLFD), Moved(rs, id, n - 1, NO_REACTION), n - 1)
  {
  }

  predicate Has(ids: seq<int>, fd: int) {
    0 <= fd < |ids| && ids[fd] != -1
  }

  /** Every slot number is a slot of every array. */
  ghost predicate InBounds(ids: seq<int>, rs: seq<Reaction>, acts: seq<Activity>, measured: bool) {
    && (forall fd :: Has(ids, fd) ==> 0 <= ids[fd] < |rs|)
    && |acts| == if measured then |rs| else 0
  }

  function ConnectionAt(rs: seq<Reaction>, acts: seq<Activity>, measured: bool, i: nat): Connection
    requires i < |rs| && |acts| == if measured then |rs| else 0
  {
    Connection(rs[i].events, rs[i].reaction, rs[i].arg, if measured then acts[i] else NO_ACTIVITY)
  }

  ghost function TableOf(ids: seq<int>, rs: seq<Reaction>, acts: seq<Activity>, measured: bool)
    : (m: map<int, Connection>)
    requires InBounds(ids, rs, acts, measured)
    ensures forall fd :: fd in m <==> Has(ids, fd)
    ensures forall fd :: fd in m ==> m[fd] == ConnectionAt(rs, acts, measured, ids[fd])
  {
    map fd | 0 <= fd < |ids| && Has(ids, fd) :: ConnectionAt(rs, acts, measured, ids[fd])
  }

  /** The table without `fd`, once the last slot has moved into the gap. */
  lemma TableWithout(ids: seq<int>, rs: seq<Reaction>, acts: seq<Activity>, measured: bool, n: nat, fd: nat)
    requires n <= |rs| && Matched(ids, rs, n) && Has(ids, fd) && InBounds(ids, rs, acts, measured)
    ensures n > 0 && ids[rs[n - 1].fd] == n - 1
    ensures var id := ids[fd];
            var ids' := ids[rs[n - 1].fd := id][fd := -1];
            var rs' := Moved(rs, id, n - 1, NO_REACTION);
            var acts' := if measured then Moved(acts, id, n - 1, NO_ACTIVITY) else acts;
            InBounds(ids', rs', acts', measured) &&
              TableOf(ids', rs', acts', measured) == TableOf(ids, rs, acts, measured) - {fd}
  {
  }

  /** A descriptor's registration is replaced; its activity is kept, and starts from nothing for a new one. */
  function WithConnection(t: map<int, Connection>, fd: int, events: int, reaction: nat, arg: nat)
    : map<int, Connection>
  {
    t[fd := Connection(events, reaction, arg, if fd in t then t[fd].activity else NO_ACTIVITY)]
  }

  lemma Arrived(t: map<int, Connection>, fd: int, c: Connection)
    ensures var t' := WithConnection(t, fd, c.events, c.reaction, c.arg);
            fd in t' && t'[fd := t'[fd].(activity := c.activity)] == t[fd := c]
  {
  }

  /** The table with `fd` registered in slot `id`, its own or the first free one. */
  lemma TableWith(ids: seq<int>, rs: seq<Reaction>, acts: seq<Activity>, measured: bool, n: nat, fd: nat, r: Reaction)
    requires n < |rs| && Matched(ids, rs, n) && fd < |ids| && InBounds(ids, rs, acts, measured) && r.fd == fd
    requires measured ==> Cleared(acts, n, NO_ACTIVITY)
    ensures var id := if ids[fd] == -1 then n else ids[fd];
            var n' := if ids[fd] == -1 then n + 1 else n;
            && 0 <= id < n'
            && Matched(ids[fd := id], rs[id := r], n')
            && InBounds(ids[fd := id], rs[id := r], acts, measured)
            && TableOf(ids[fd := id], rs[id := r], acts, measured) ==
               WithConnection(TableOf(ids, rs, acts, measured), fd, r.events, r.reaction, r.arg)
            && Has(ids[fd := id], fd)
  {
  }

  lemma MoreIds(ids: seq<int>, k: nat, rs: seq<Reaction>, acts: seq<Activity>, measured: bool, n: nat)
    requires n <= |rs| && Matched(ids, rs, n) && InBounds(ids, rs, acts, measured)
    ensures var ids' := ids + Zeros(k, -1);
            && Matched(ids', rs, n) && InBounds(ids', rs, acts, measured)
            && TableOf(ids', rs, acts, measured) == TableOf(ids, rs, acts, measured)
  {
    var ids' := ids + Zeros(k, -1);
    assert forall f :: Has(ids', f) <==> Has(ids, f);
    assert forall f :: Has(ids, f) ==> ids'[f] == ids[f];
  }

  lemma MoreSlots(ids: seq<int>, rs: seq<Reaction>, acts: seq<Activity>, measured: bool, n: nat, k: nat)
    requires n <= |rs| && Matched(ids, rs, n) && InBounds(ids, rs, acts, measured)
    ensures var rs' := rs + Zeros(k, NO_REACTION);
            var acts' := if measured then acts + Zeros(k, NO_ACTIVITY) else acts;
            && Matched(ids, rs', n) && InBounds(ids, rs', acts', measured)
            && TableOf(ids, rs', acts', measured) == TableOf(ids, rs, acts, measured)
  {
  }

  lemma MoreCleared<T>(s: seq<T>, n: nat, zero: T, k: nat)
    requires Cleared(s, n, zero)
    ensures Cleared(s + Zeros(k, zero), n, zero)
  {
  }

  lemma MoreInStep(ps: seq<PollFd>, rs: seq<Reaction>, n: nat, k: nat)
    requires n <= |rs| == |ps| && InStep(ps, rs, n)
    ensures InStep(ps + Zeros(k, NO_POLLFD), rs + Zeros(k, NO_REACTION), n)
  {
  }

  /** All arrays in step. */
  ghost predicate Consistent(ids: seq<int>, ps: seq<PollFd>, rs: seq<Reaction>, acts: seq<Activity>, n: nat,
                             measured: bool)
    ensures Consistent(ids, ps, rs, acts, n, measured) ==> InBounds(ids, rs, acts, measured)
  {
    && n <= |rs| && |ps| == |rs| && |acts| == (if measured then |rs| else 0)
    && Matched(ids, rs, n) && InStep(ps, rs, n)
    && Cleared(rs, n, NO_REACTION) && Cleared(ps, n, NO_POLLFD)
    && (measured ==> Cleared(acts, n, NO_ACTIVITY))
    && InBounds(ids, rs, acts, measured)
  }

  /** Disconnecting, on the arrays. */
  lemma VacatedConsistent(ids: seq<int>, ps: seq<PollFd>, rs: seq<Reaction>, acts: seq<Activity>, n: nat,
                          measured: bool, fd: int)
    requires Consistent(ids, ps, rs, acts, n, measured) && Has(ids, fd)
    ensures 0 <= fd < |ids| && 0 <= ids[fd] < n <= |rs| == |ps| && |acts| == (if measured then |rs| else 0)
    ensures 0 <= rs[n - 1].fd < |ids| && ids[rs[n - 1].fd] == n - 1
    ensures var id := ids[fd];
            var ids' := ids[rs[n - 1].fd := id][fd := -1];
            var ps', rs' := Moved(ps, id, n - 1, NO_POLLFD), Moved(rs, id, n - 1, NO_REACTION);
            var acts' := if measured then Moved(acts, id, n - 1, NO_ACTIVITY) else acts;
            && Consistent(ids', ps', rs', acts', n - 1, measured) && InBounds(ids, rs, acts, measured)
            && TableOf(ids', rs', acts', measured) == TableOf(ids, rs, acts, measured) - {fd}
  {
    MatchedAfter(ids, rs, n, fd);
    MovedInStep(ps, rs, n, ids[fd]);
    MovedClears(ps, n, ids[fd], NO_POLLFD);
    MovedClears(rs, n, ids[fd], NO_REACTION);
    if measured {
      MovedClears(acts, n, ids[fd], NO_ACTIVITY);
    }
    TableWithout(ids, rs, acts, measured, n, fd);
    hide Matched, InStep, Cleared, TableOf, InBounds, Moved;
  }

  lemma RegisteredConsistent(ids: seq<int>, ps: seq<PollFd>, rs: seq<Reaction>, acts: seq<Activity>, n: nat,
                             measured: bool, fd: nat, r: Reaction)
    requires Consistent(ids, ps, rs, acts, n, measured)
    requires fd < |ids| && n < |rs| && r.fd == fd && ValidEvents(r.events)
    ensures var id := if ids[fd] == -1 then n else ids[fd];
            var n' := if ids[fd] == -1 then n + 1 else n;
            && 0 <= id < |rs| == |ps|
            && Consistent(ids[fd := id], ps[id := PollFd(fd, r.events)], rs[id := r], acts, n', measured)
            && InBounds(ids, rs, acts, measured) && Has(ids[fd := id], fd)
            && TableOf(ids[fd := id], rs[id := r], acts, measured) ==
               WithConnection(TableOf(ids, rs, acts, measured), fd, r.events, r.reaction, r.arg)
  {
    TableWith(ids, rs, acts, measured, n, fd, r);
    RegisteredInStep(ps, rs, n, if ids[fd] == -1 then n else ids[fd], r);
    assert measured ==> Cleared(acts, n + 1, NO_ACTIVITY);
    hide Matched, TableOf, InBounds, InStep, Cleared, Has, ConnectionAt, WithConnection;
  }

  lemma RegisteredInStep(ps: seq<PollFd>, rs: seq<Reaction>, n: nat, id: nat, r: Reaction)
    requires n < |rs| == |ps| && InStep(ps, rs, n) && id <= n && ValidEvents(r.events)
    requires Cleared(rs, n, NO_REACTION) && Cleared(ps, n, NO_POLLFD)
    ensures var n' := if id == n then n + 1 else n;
            var ps', rs' := ps[id := PollFd(r.fd, r.events)], rs[id := r];
            InStep(ps', rs', n') && Cleared(rs', n', NO_REACTION) && Cleared(ps', n', NO_POLLFD)
  {
  }

  class Agent {
    const measured: bool
    var ids: seq<int>            // the slot of each descriptor, -1 for none; empty where the original has null
    var pollfds: seq<PollFd>
    var reactions: seq<Reaction>
    var activity: seq<Activity>  // as long as reactions if measured, otherwise empty
    var length: nat

    constructor (measured: bool)
      ensures Valid() && Table() == map[] && this.measured == measured
    {
      this.measured := measured;
      ids, pollfds, reactions, activity, length := [], [], [], [], 0;
    }

    /** The arrays are in step. */
    ghost predicate Valid()
      reads this
    {
      Consistent(ids, pollfds, reactions, activity, length, measured)
    }

    predicate Connected(fd: int)
      reads `ids
    {
      Has(ids, fd)
    }

    /** The map the table stands for. */
    ghost function Table(): map<int, Connection>
      requires Valid()
      reads this
    {
      TableOf(ids, reactions, activity, measured)
    }

    /** There are as many connections as slots in use: no two slots serve one descriptor. */
    lemma SlotsAreConnections()
      requires Valid()
      ensures |Table()| == length
    {
      var rs, n := reactions, length;
      var fds := seq(n, i requires 0 <= i < n <= |rs| => rs[i].fd);
      Distinct(fds);
      assert forall fd :: fd in Table() ==> fds[ids[fd]] == fd;
      assert Table().Keys == set x | x in fds;
    }

    /** Grows the sparse array once; that is enough exactly for the descriptors within reach. */
    method MakeRoomForFd(fd: nat)
      requires Valid()
      modifies `ids
      ensures Valid() && Table() == old(Table()) && (fd < |ids| <==> Reachable(old(ids), fd))
    {
      if |ids| <= fd {
        MoreIds(ids, if |ids| == 0 then fd + 1 else |ids|, reactions, activity, measured, length);
        hide Matched, InStep, Cleared, TableOf, InBounds;
        if |ids| == 0 {
          assert Zeros(fd + 1, -1) == ids + Zeros(fd + 1, -1);
          ids := Zeros(fd + 1, -1);
        } else {
          ids := ids + Zeros(|ids|, -1);
        }
      }
    }

    method MakeRoomForSlot()
      requires Valid()
      modifies `pollfds, `reactions, `activity
      ensures Valid() && Table() == old(Table()) && length < |reactions|
    {
      if length == |reactions| {
        ghost var k := if |reactions| == 0 then POLL_SIZE else |reactions|;
        MoreSlots(ids, reactions, activity, measured, length, k);
        MoreInStep(pollfds, reactions, length, k);
        MoreCleared(pollfds, length, NO_POLLFD, k);
        MoreCleared(reactions, length, NO_REACTION, k);
        MoreCleared(activity, length, NO_ACTIVITY, k);
        hide Matched, InStep, Cleared, TableOf, InBounds;
        if |reactions| == 0 {
          assert pollfds + Zeros(k, NO_POLLFD) == Zeros(k, NO_POLLFD);
          assert reactions + Zeros(k, NO_REACTION) == Zeros(k, NO_REACTION);
          assert activity + Zeros(k, NO_ACTIVITY) == Zeros(k, NO_ACTIVITY);
          pollfds := Zeros(POLL_SIZE, NO_POLLFD);
          if measured {
            activity := Zeros(POLL_SIZE, NO_ACTIVITY);
          }
          reactions := Zeros(POLL_SIZE, NO_REACTION);
        } else {
          pollfds := pollfds + Zeros(|pollfds|, NO_POLLFD);
          if measured {
            activity := activity + Zeros(|reactions|, NO_ACTIVITY);
          }
          reactions := reactions + Zeros(|reactions|, NO_REACTION);
        }
      }
    }

    /** `agent_connect`: connects a descriptor, or replaces its registration and keeps its activity. */
    method Connect(fd: int, events: int, reaction: nat, arg: nat) returns (ok: bool)
      requires Valid() && (fd >= 0 && ValidEvents(events) ==> Reachable(ids, fd))
      modifies this
      ensures Valid() && (ok <==> fd >= 0 && ValidEvents(events))
      ensures !ok ==> Table() == old(Table())
      ensures ok ==> Connected(fd) && Table() == WithConnection(old(Table()), fd, events, reaction, arg)
    {
      if fd < 0 || !ValidEvents(events) {
        return false;
      }
      MakeRoomForFd(fd);
      MakeRoomForSlot();
      Register(fd, events, reaction, arg);
      ok := true;
    }

    /** Claims a slot if the descriptor has none, and fills it in. */
    method Register(fd: nat, events: int, reaction: nat, arg: nat)
      requires Valid() && fd < |ids| && length < |reactions| && ValidEvents(events)
      modifies `ids, `length, `pollfds, `reactions
      ensures Valid() && Connected(fd)
      ensures Table() == WithConnection(old(Table()), fd, events, reaction, arg)
    {
      hide Consistent, Matched, InStep, Cleared, TableOf, InBounds, Has, ConnectionAt, WithConnection, ValidEvents;
      RegisteredConsistent(ids, pollfds, reactions, activity, length, measured, fd,
        Reaction(fd, events, reaction, arg));
      var id := if ids[fd] == -1 then length else ids[fd];
      var r := Reaction(fd, events, reaction, arg);
      length := if ids[fd] == -1 then length + 1 else length;
      ids, pollfds, reactions := ids[fd := id], pollfds[id := PollFd(fd, events)], reactions[id := r];
    }

    /** `agent_disconnect`: the last slot takes the place of the one that goes. */
    method Disconnect(fd: int) returns (ok: bool)
      requires Valid()
      modifies this
      ensures Valid() && (ok <==> old(Connected(fd)))
      ensures Table() == old(Table()) - {fd}
    {
      if !Connected(fd) {
        return false;
      }
      Vacate(fd);
      ok := true;
    }

    method Vacate(fd: int)
      requires Valid() && Connected(fd)
      modifies `ids, `length, `pollfds, `reactions, `activity
      ensures Valid() && Table() == old(Table()) - {fd}
    {
      hide Consistent, Matched, InStep, Cleared, TableOf, InBounds, Moved, Has, ConnectionAt;
      VacatedConsistent(ids, pollfds, reactions, activity, length, measured, fd);
      var id, lastFd := ids[fd], reactions[length - 1].fd;
      var lastId := ids[lastFd];
      var ids' := ids[lastFd := id][fd := -1];
      var pollfds' := Moved(pollfds, id, lastId, NO_POLLFD);
      var reactions' := Moved(reactions, id, lastId, NO_REACTION);
      var activity' := if measured then Moved(activity, id, lastId, NO_ACTIVITY) else activity;
      ids, pollfds, reactions, activity, length := ids', pollfds', reactions', activity', length - 1;
    }

    method SetActivity(fd: int, a: Activity)
      requires Valid() && measured && Connected(fd)
      modifies `activity
      ensures Valid() && Table() == old(Table())[fd := old(Table())[fd].(activity := a)]
    {
      activity := activity[ids[fd] := a];
    }

    lemma HasSlot(fd: int)
      requires Valid() && Connected(fd)
      ensures 0 <= fd < |ids| && 0 <= ids[fd] < |reactions| && (measured ==> |activity| == |reactions|)
      ensures reactions[ids[fd]].fd == fd && ValidEvents(reactions[ids[fd]].events)
      ensures fd in Table() && Table()[fd] == ConnectionAt(reactions, activity, measured, ids[fd])
    {
    }

    /** `agent_transfer`: the connection moves, with its activity, from one measured agent to another. */
    method Transfer(fd: int, dst: Agent) returns (ok: bool)
      requires Valid() && dst.Valid() && dst != this
      requires measured && dst.measured && Connected(fd) ==> Reachable(dst.ids, fd)
      modifies this, dst
      ensures Valid() && dst.Valid() && (ok <==> measured && dst.measured && old(Connected(fd)))
      ensures !ok ==> Table() == old(Table()) && dst.Table() == old(dst.Table())
      ensures ok ==> Table() == old(Table()) - {fd} && dst.Table() == old(dst.Table())[fd := old(Table())[fd]]
    {
      hide Consistent, InBounds, TableOf, Connected, WithConnection;
      if !measured || !Connected(fd) || !dst.measured {
        return false;
      }
      HasSlot(fd);
      var id := ids[fd];
      var r, a := reactions[id], activity[id];
      Arrived(dst.Table(), fd, Connection(r.events, r.reaction, r.arg, a));
      var connected := dst.Connect(r.fd, r.events, r.reaction, r.arg);
      dst.SetActivity(fd, a);
      ok := Disconnect(fd);
    }
  }

  lemma {:induction false} Distinct(s: seq<int>)
    requires forall i, j :: 0 <= i < j < |s| ==> s[i] != s[j]
    ensures |set x | x in s| == |s|
  {
    if s != [] {
      var init := s[..|s| - 1];
      Distinct(init);
      assert (set x | x in s) == (set x | x in init) + {s[|s| - 1]};
    }
  }
}
