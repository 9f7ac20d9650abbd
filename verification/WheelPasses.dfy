/** Looks at the clock, one after the other, and how each takes a wheel on. */
module WheelPasses {
  import opened ActionLinks
  import opened TimerBag
  import opened WheelCalls
  import Timevals

  /** The jiffies from the wheel's time to the time of day, none if the clock has gone backwards. */
  function TicksUpTo(now: Timevals.Timeval, clock: Timevals.Timeval): (t: int)
    ensures Timevals.Normal(now) && Timevals.Normal(clock) ==> t >= 0
  {
    if Timevals.Before(clock, now) then 0 else (Timevals.Micros(clock) - Timevals.Micros(now)) / 10000
  }

  /** A pass of `update`: the wheel's time before it, what it sees on the clock, the ticks it makes, and what fires. */
  datatype Pass = Pass(from: Timevals.Timeval, seen: Timevals.Timeval, ticks: nat,
                       fired: seq<Action>, did: seq<seq<Event<Action>>>, ok: bool)

  /** From stage `s` on the pass makes a tick for every jiffy it sees pass, unless a callback fails before. */
  ghost predicate Fits(behaviour: Behaviour, s: Stage, p: Pass)
    ensures Fits(behaviour, s, p) ==> |p.did| == |p.fired|
  {
    && p.from == s.time
    && Called(behaviour, s.(time := p.seen), p.fired, p.did, p.ok)
    && (if p.ok then p.ticks == TicksUpTo(p.from, p.seen) else p.ticks <= TicksUpTo(p.from, p.seen))
    && (p.ticks == 0 ==> p.fired == [])
  }

  function EventsIn(p: Pass): seq<Event<Action>> {
    if |p.did| == |p.fired| then Blocks(p.fired, p.did) else []
  }

  function AfterPass(behaviour: Behaviour, s: Stage, p: Pass): Stage {
    if |p.did| == |p.fired| then AfterCalls(behaviour, s.(time := p.seen), p.fired, p.did) else s
  }

  function AfterPasses(behaviour: Behaviour, s: Stage, ps: seq<Pass>): Stage {
    if ps == [] then s
    else AfterPass(behaviour, AfterPasses(behaviour, s, ps[..|ps| - 1]), ps[|ps| - 1])
  }

  /** Passes from stage `s` on, the `i`-th of them seeing `clock(i)`, of which all succeed unless the last does not. */
  ghost predicate Passes(behaviour: Behaviour, clock: nat -> Timevals.Timeval, s: Stage, ps: seq<Pass>, ok: bool) {
    if ps == [] then ok
    else
      var init, p := ps[..|ps| - 1], ps[|ps| - 1];
      && Passes(behaviour, clock, s, init, true)
      && Fits(behaviour, AfterPasses(behaviour, s, init), p) && p.seen == clock(|init|) && p.ok == ok
  }

  function EventsOf(ps: seq<Pass>): seq<Event<Action>> {
    if ps == [] then [] else EventsOf(ps[..|ps| - 1]) + EventsIn(ps[|ps| - 1])
  }

  function TicksOf(ps: seq<Pass>): nat {
    if ps == [] then 0 else TicksOf(ps[..|ps| - 1]) + ps[|ps| - 1].ticks
  }

  lemma ItFits(behaviour: Behaviour, s: Stage, p: Pass)
    requires p.from == s.time && Called(behaviour, s.(time := p.seen), p.fired, p.did, p.ok)
    requires if p.ok then p.ticks == TicksUpTo(p.from, p.seen) else p.ticks <= TicksUpTo(p.from, p.seen)
    requires p.ticks == 0 ==> p.fired == []
    ensures Fits(behaviour, s, p) && EventsIn(p) == Blocks(p.fired, p.did)
    ensures AfterPass(behaviour, s, p) == AfterCalls(behaviour, s.(time := p.seen), p.fired, p.did)
  {
  }

  lemma SeesNothing(behaviour: Behaviour, s: Stage, p: Pass)
    requires Fits(behaviour, s, p) && p.ok && TicksUpTo(s.time, p.seen) == 0
    ensures p.fired == []
  {
  }

  lemma CalledInVain(behaviour: Behaviour, s: Stage, p: Pass)
    requires Fits(behaviour, s, p) && !p.ok
    ensures p.fired != []
  {
  }

  lemma NoPass(behaviour: Behaviour, clock: nat -> Timevals.Timeval, s: Stage)
    ensures Passes(behaviour, clock, s, [], true) && AfterPasses(behaviour, s, []) == s
    ensures EventsOf([]) == [] && TicksOf([]) == 0
  {
  }

  lemma PassMore(behaviour: Behaviour, clock: nat -> Timevals.Timeval, s: Stage, ps: seq<Pass>, p: Pass)
    requires Passes(behaviour, clock, s, ps, true)
    requires Fits(behaviour, AfterPasses(behaviour, s, ps), p) && p.seen == clock(|ps|)
    ensures Passes(behaviour, clock, s, ps + [p], p.ok)
    ensures AfterPasses(behaviour, s, ps + [p]) == AfterPass(behaviour, AfterPasses(behaviour, s, ps), p)
    ensures EventsOf(ps + [p]) == EventsOf(ps) + EventsIn(p) && TicksOf(ps + [p]) == TicksOf(ps) + p.ticks
  {
    hide Fits, AfterPass, EventsIn;
    assert (ps + [p])[..|ps|] == ps;
  }

  /** A pass that fires something is followed by another, unless it is to be; one that fires nothing is the last. */
  ghost predicate Repeated(ps: seq<Pass>, check: bool) {
    (ps == [] ==> check) && forall i :: 0 <= i < |ps| ==> (ps[i].fired == [] <==> i == |ps| - 1 && !check)
  }

  lemma NoneRepeated()
    ensures Repeated([], true)
  {
  }

  lemma RepeatedMore(ps: seq<Pass>, p: Pass)
    requires Repeated(ps, true)
    ensures Repeated(ps + [p], p.fired != [])
  {
  }

  // ----- the wheel's time and the clock

  /** A request that takes the wheel's time back. */
  predicate TakesBack(time: Timevals.Timeval, r: Request) {
    r.Ask? && !Refused(r) && Timevals.Before(r.clock, time)
  }

  lemma {:induction false} TimeAskedKept(time: Timevals.Timeval, requests: seq<Request>)
    ensures !Timevals.Before(time, TimeAsked(time, requests))
    ensures TimeAsked(time, requests) == time <==>
            forall i :: 0 <= i < |requests| ==> !TakesBack(time, requests[i])
  {
    if requests != [] {
      var init := requests[..|requests| - 1];
      TimeAskedKept(time, init);
      assert forall i :: 0 <= i < |init| ==> requests[i] == init[i];
    }
  }

  /** No callback of the pass sees a time before the one the pass has seen. */
  ghost predicate InTime(behaviour: Behaviour, s: Stage, p: Pass) {
    forall i :: 0 <= i < |p.fired| ==> KeepsTime(p.seen, behaviour(s.calls + i, p.fired[i].callback).requests)
  }

  ghost predicate KeepsTime(time: Timevals.Timeval, requests: seq<Request>) {
    forall i :: 0 <= i < |requests| ==> !TakesBack(time, requests[i])
  }

  lemma {:induction false} TimeCalledKept(behaviour: Behaviour, n: nat, fired: seq<Action>, time: Timevals.Timeval)
    ensures !Timevals.Before(time, TimeCalled(behaviour, n, fired, time))
    ensures TimeCalled(behaviour, n, fired, time) == time <==>
            forall i :: 0 <= i < |fired| ==> KeepsTime(time, behaviour(n + i, fired[i].callback).requests)
  {
    if fired != [] {
      var k := |fired| - 1;
      var init := fired[..k];
      TimeCalledKept(behaviour, n, init, time);
      TimeAskedKept(TimeCalled(behaviour, n, init, time), behaviour(n + k, fired[k].callback).requests);
      assert forall i :: 0 <= i < |init| ==> fired[i] == init[i];
    }
  }

  /** After a pass the wheel's time is what the pass has seen, exactly if no callback saw an earlier time. */
  lemma PassKeepsTime(behaviour: Behaviour, s: Stage, p: Pass)
    requires Fits(behaviour, s, p)
    ensures AfterPass(behaviour, s, p).time == p.seen <==> InTime(behaviour, s, p)
    ensures !Timevals.Before(p.seen, AfterPass(behaviour, s, p).time)
  {
    TimeCalledKept(behaviour, s.calls, p.fired, p.seen);
  }

  /** If that is so of every pass, each counts from what the one before has seen, and so will the next. */
  lemma {:induction false} LooksFollow(behaviour: Behaviour, clock: nat -> Timevals.Timeval, s: Stage, ps: seq<Pass>,
                                       ok: bool)
    requires Passes(behaviour, clock, s, ps, ok)
    requires forall i :: 0 <= i < |ps| ==> InTime(behaviour, AfterPasses(behaviour, s, ps[..i]), ps[i])
    ensures forall i :: 0 < i < |ps| ==> ps[i].from == clock(i - 1)
    ensures ps != [] ==> ps[0].from == s.time && AfterPasses(behaviour, s, ps).time == clock(|ps| - 1)
    decreases |ps|
  {
    hide *;
    if ps != [] {
      var k := |ps| - 1;
      var init := ps[..k];
      forall i | 0 <= i < k ensures InTime(behaviour, AfterPasses(behaviour, s, init[..i]), init[i]) {
        assert init[..i] == ps[..i] && init[i] == ps[i];
      }
      LastPass(behaviour, clock, s, ps, ok);
      LooksFollow(behaviour, clock, s, init, true);
      PassKeepsTime(behaviour, AfterPasses(behaviour, s, init), ps[k]);
      if k == 0 {
        NoPass(behaviour, clock, s);
      }
    }
  }

  lemma LastPass(behaviour: Behaviour, clock: nat -> Timevals.Timeval, s: Stage, ps: seq<Pass>, ok: bool)
    requires Passes(behaviour, clock, s, ps, ok) && ps != []
    ensures var init, p := ps[..|ps| - 1], ps[|ps| - 1];
            && Passes(behaviour, clock, s, init, true)
            && Fits(behaviour, AfterPasses(behaviour, s, init), p) && p.seen == clock(|init|)
            && p.from == AfterPasses(behaviour, s, init).time
            && AfterPasses(behaviour, s, ps) == AfterPass(behaviour, AfterPasses(behaviour, s, init), p)
  {
  }

  // ----- when looking at the clock comes to an end

  /** From the `rest`-th look on the clock has not gone a jiffy beyond `floor`, and from its `last`-th callback on
      the program sees no time before that. */
  ghost predicate ComesToRest(behaviour: Behaviour, clock: nat -> Timevals.Timeval, last: nat, rest: nat,
                              floor: Timevals.Timeval)
  {
    && Timevals.Normal(floor) && SeesNothingBefore(behaviour, last, floor)
    && forall i :: i >= rest ==>
         !Timevals.Before(clock(i), floor) && Timevals.Micros(clock(i)) - Timevals.Micros(floor) < 10000
  }

  /** The program stops scheduling, or the clock gives it time: then looking at the clock comes to an end. */
  ghost predicate Ends(behaviour: Behaviour, clock: nat -> Timevals.Timeval) {
    || (exists last :: Settles(behaviour, last))
    || (exists last, rest, floor :: ComesToRest(behaviour, clock, last, rest, floor))
  }

  lemma {:induction false} AskedAbove(time: Timevals.Timeval, requests: seq<Request>, floor: Timevals.Timeval)
    requires !Timevals.Before(time, floor)
    requires forall i :: 0 <= i < |requests| && requests[i].Ask? ==> !Timevals.Before(requests[i].clock, floor)
    ensures !Timevals.Before(TimeAsked(time, requests), floor)
  {
    if requests != [] {
      AskedAbove(time, requests[..|requests| - 1], floor);
    }
  }

  lemma {:induction false} CalledAbove(behaviour: Behaviour, n: nat, fired: seq<Action>, time: Timevals.Timeval,
                                       last: nat, floor: Timevals.Timeval)
    requires SeesNothingBefore(behaviour, last, floor) && n >= last && !Timevals.Before(time, floor)
    ensures !Timevals.Before(TimeCalled(behaviour, n, fired, time), floor)
  {
    if fired != [] {
      var k := |fired| - 1;
      CalledAbove(behaviour, n, fired[..k], time, last, floor);
      AskedAbove(TimeCalled(behaviour, n, fired[..k], time), behaviour(n + k, fired[k].callback).requests, floor);
    }
  }

  /** After a look at a clock at rest, a further look sees no jiffy pass. */
  lemma RestsAfter(behaviour: Behaviour, clock: nat -> Timevals.Timeval, last: nat, rest: nat, floor: Timevals.Timeval,
                   s: Stage, p: Pass, i: nat)
    requires ComesToRest(behaviour, clock, last, rest, floor)
    requires Fits(behaviour, s, p) && s.calls >= last && i >= rest && p.seen == clock(i)
    requires Timevals.Normal(clock(i + 1)) && Timevals.Normal(AfterPass(behaviour, s, p).time)
    ensures TicksUpTo(AfterPass(behaviour, s, p).time, clock(i + 1)) == 0
  {
    CalledAbove(behaviour, s.calls, p.fired, p.seen, last, floor);
  }

  lemma HowItEnds(behaviour: Behaviour, clock: nat -> Timevals.Timeval)
      returns (settled: bool, last: nat, rest: nat, floor: Timevals.Timeval)
    requires Ends(behaviour, clock)
    ensures if settled then Settles(behaviour, last) else ComesToRest(behaviour, clock, last, rest, floor)
  {
    last, rest, floor := 0, 0, Timevals.Timeval(0, 0);
    if l :| Settles(behaviour, l) {
      settled, last := true, l;
    } else {
      settled := false;
      last, rest, floor :| ComesToRest(behaviour, clock, last, rest, floor);
    }
  }

  /** A later call is as good a bound. */
  lemma MorePatient(behaviour: Behaviour, patience: nat, settled: bool, last: nat, floor: Timevals.Timeval)
      returns (still: nat)
    requires Patient(behaviour, patience)
    requires if settled then Settles(behaviour, last) else SeesNothingBefore(behaviour, last, floor)
    ensures Patient(behaviour, still) && still >= patience && still >= last
    ensures settled ==> Settles(behaviour, still)
  {
    still := if patience < last then last else patience;
  }
}
