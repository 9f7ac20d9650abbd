/** What callbacks do to a wheel, and the part of a wheel's history that is not the passing of time. */
module WheelCalls {
  import opened ActionLinks
  import opened Options
  import opened TimerBag
  import opened TimerRounds
  import Timevals

  /** Something asked of the wheel: a timer, `clock` being the time of day; or the cancellation of a timer, named by
      how many were scheduled before it. */
  datatype Request =
    | Ask(clock: Timevals.Timeval, sec: int, usec: int, callback: Callback)
    | Withdraw(booking: nat)

  /** A callback runs, asks for this much, and succeeds or fails. */
  datatype Reply = Reply(ok: bool, requests: seq<Request>)

  /** Callbacks as the wheel sees them: what the `n`-th one to run does, if it is that one. */
  type Behaviour = (nat, Callback) -> Reply

  /** The time of day is normal, and one carry is enough wherever the hands are. */
  predicate Proper(r: Request) {
    r.Ask? ==> Timevals.Normal(r.clock) && r.clock.usec + r.usec < 2 * Timevals.MILLION
  }

  predicate Refused(r: Request) {
    r.Ask? && (r.sec < 0 || r.usec < 0)
  }

  /** Asks for no less than a jiffy, if for anything. */
  predicate Ahead(r: Request) {
    r.Ask? && !Refused(r) ==> r.sec * Timevals.MILLION + r.usec >= 10000
  }

  /** From its `patience`-th callback on the program leaves what it asks for at least a jiffy.
      A program that went on for ever asking for less would never let `expire` return. */
  ghost predicate Patient(behaviour: Behaviour, patience: nat) {
    forall n: nat, c :: forall i :: 0 <= i < |behaviour(n, c).requests| ==>
      Proper(behaviour(n, c).requests[i]) && (n >= patience ==> Ahead(behaviour(n, c).requests[i]))
  }

  /** From its `last`-th callback on the program schedules nothing more. */
  ghost predicate Settles(behaviour: Behaviour, last: nat) {
    forall n: nat, c :: n >= last ==>
      forall i :: 0 <= i < |behaviour(n, c).requests| ==> !behaviour(n, c).requests[i].Ask?
  }

  /** From its `last`-th callback on the program never sees a time before `floor`. */
  ghost predicate SeesNothingBefore(behaviour: Behaviour, last: nat, floor: Timevals.Timeval) {
    forall n: nat, c :: n >= last ==> forall i :: 0 <= i < |behaviour(n, c).requests| ==>
      var r := behaviour(n, c).requests[i]; r.Ask? ==> !Timevals.Before(r.clock, floor)
  }

  /** Callbacks leave the wheel alone. */
  ghost predicate Quiet(behaviour: Behaviour) {
    forall n: nat, c :: behaviour(n, c).requests == []
  }

  lemma CallsFor(behaviour: Behaviour, patience: nat, n: nat, c: Callback)
    requires Patient(behaviour, patience)
    ensures forall i :: 0 <= i < |behaviour(n, c).requests| ==>
              Proper(behaviour(n, c).requests[i]) && (n >= patience ==> Ahead(behaviour(n, c).requests[i]))
    ensures Quiet(behaviour) ==> behaviour(n, c).requests == []
  {
  }

  lemma SettledCall(behaviour: Behaviour, last: nat, n: nat, c: Callback)
    requires Settles(behaviour, last) && n >= last
    ensures forall i :: 0 <= i < |behaviour(n, c).requests| ==> !behaviour(n, c).requests[i].Ask?
  {
  }

  // ----- the wheel's time

  /** The delay in ticks, counted from the wheel's own time, of something `sec` and `usec` after `clock`. */
  function DelayTicks(now: Timevals.Timeval, clock: Timevals.Timeval, sec: int, usec: int): int {
    (Timevals.Micros(clock) - Timevals.Micros(now) + sec * Timevals.MILLION + usec) / 10000
  }

  /** The wheel's time after a request: scheduling takes it back to a clock that is behind it. */
  function TimeSeen(time: Timevals.Timeval, r: Request): Timevals.Timeval {
    if r.Ask? && !Refused(r) && Timevals.Before(r.clock, time) then r.clock else time
  }

  function TimeAsked(time: Timevals.Timeval, requests: seq<Request>): Timevals.Timeval {
    if requests == [] then time
    else TimeSeen(TimeAsked(time, requests[..|requests| - 1]), requests[|requests| - 1])
  }

  /** Its time after callbacks, from the `n`-th on. */
  function TimeCalled(behaviour: Behaviour, n: nat, fired: seq<Action>, time: Timevals.Timeval): Timevals.Timeval {
    if fired == [] then time
    else
      var i := |fired| - 1;
      TimeAsked(TimeCalled(behaviour, n, fired[..i], time), behaviour(n + i, fired[i].callback).requests)
  }

  // ----- what becomes of requests

  /** The timers that were scheduled, in their order. */
  function Handles<K>(es: seq<Event<K>>): seq<K> {
    if es == [] then []
    else
      var e := es[|es| - 1];
      Handles(es[..|es| - 1]) + if e.Scheduled? then [e.timer] else []
  }

  /** The timer of that booking, if it has neither fired nor been cancelled. */
  ghost function Booked<K>(past: seq<Event<K>>, booking: nat): Option<K> {
    if booking < |Handles(past)| && !Ended(past, Handles(past)[booking]) then Some(Handles(past)[booking]) else None
  }

  /** What the world can tell of a wheel: its history apart from the passing of time, its own time, and how many
      callbacks have run. */
  datatype Stage = Stage(past: seq<Event<Action>>, time: Timevals.Timeval, calls: nat)

  /** The event a request leads to, if any. */
  ghost predicate Becomes(past: seq<Event<Action>>, time: Timevals.Timeval, r: Request, es: seq<Event<Action>>) {
    match r
    case Ask(clock, sec, usec, callback) =>
      if Refused(r) then es == []
      else
        && |es| == 1 && es[0].Scheduled? && es[0].timer.callback == callback
        && es[0].delay == DelayTicks(TimeSeen(time, r), clock, sec, usec)
    case Withdraw(booking) =>
      match Booked(past, booking)
      case Some(a) => es == [Cancelled(a)]
      case None => es == []
  }

  lemma BecomesOne(past: seq<Event<Action>>, time: Timevals.Timeval, r: Request, es: seq<Event<Action>>)
    requires Becomes(past, time, r, es)
    ensures |es| <= 1 && forall i :: 0 <= i < |es| ==> es[i].Scheduled? || es[i].Cancelled?
  {
  }

  lemma TimelessBecomes(log: seq<Event<Action>>, past: seq<Event<Action>>, time: Timevals.Timeval, r: Request,
                        es: seq<Event<Action>>)
    requires Becomes(past, time, r, es)
    ensures Timeless(log + es) == Timeless(log) + es
  {
    BecomesOne(past, time, r, es);
    TimelessMore(log, es);
    TimelessRequests(es);
  }

  /** The events are what became of the requests, in their order. */
  ghost predicate Answers(s: Stage, requests: seq<Request>, es: seq<Event<Action>>)
    decreases |requests|
  {
    if requests == [] then es == []
    else
      var r, init := requests[|requests| - 1], requests[..|requests| - 1];
      || (Answers(s, init, es) && Becomes(s.past + es, TimeAsked(s.time, init), r, []))
      || (es != [] && Answers(s, init, es[..|es| - 1]) &&
          Becomes(s.past + es[..|es| - 1], TimeAsked(s.time, init), r, es[|es| - 1..]))
  }

  function Answered(s: Stage, requests: seq<Request>, es: seq<Event<Action>>): Stage {
    s.(past := s.past + es, time := TimeAsked(s.time, requests))
  }

  lemma NothingAsked(s: Stage)
    ensures Answers(s, [], []) && Answered(s, [], []) == s && Stage(s.past + [], TimeAsked(s.time, []), s.calls) == s
  {
    assert s.past + [] == s.past;
  }

  lemma AnswersMore(s: Stage, requests: seq<Request>, es: seq<Event<Action>>, r: Request, more: seq<Event<Action>>)
    requires Answers(s, requests, es)
    requires Becomes(s.past + es, TimeAsked(s.time, requests), r, more)
    ensures Answers(s, requests + [r], es + more)
    ensures Answered(s, requests + [r], es + more) ==
            Stage(s.past + es + more, TimeSeen(TimeAsked(s.time, requests), r), s.calls)
    ensures Answered(s, requests + [r], es + more) ==
            Stage(s.past + (es + more), TimeAsked(s.time, requests + [r]), s.calls)
  {
    BecomesOne(s.past + es, TimeAsked(s.time, requests), r, more);
    hide Becomes;
    assert (requests + [r])[..|requests|] == requests;
    assert s.past + (es + more) == s.past + es + more;
    if more != [] {
      assert (es + more)[..|es|] == es && (es + more)[|es + more| - 1..] == more;
    } else {
      assert es + more == es;
    }
  }

  /** Nothing in it is a tick, a sweep or a firing. */
  ghost predicate OnlyRequests<K>(es: seq<Event<K>>) {
    forall i :: 0 <= i < |es| ==> es[i].Scheduled? || es[i].Cancelled?
  }

  lemma {:induction false} AnswersAreRequests(s: Stage, requests: seq<Request>, es: seq<Event<Action>>)
    requires Answers(s, requests, es)
    ensures OnlyRequests(es) && |es| <= |requests|
    ensures requests == [] ==> es == []
    decreases |requests|
  {
    if requests != [] {
      var r, init := requests[|requests| - 1], requests[..|requests| - 1];
      if Answers(s, init, es) {
        AnswersAreRequests(s, init, es);
      } else {
        AnswersAreRequests(s, init, es[..|es| - 1]);
        BecomesOne(s.past + es[..|es| - 1], TimeAsked(s.time, init), r, es[|es| - 1..]);
        assert forall i :: 0 <= i < |es| - 1 ==> es[i] == es[..|es| - 1][i];
        assert es[|es| - 1] == es[|es| - 1..][0];
      }
    }
  }

  // ----- firings and their callbacks

  /** Firings, each followed by what its callback did. */
  function Blocks<K>(fired: seq<K>, did: seq<seq<Event<K>>>): seq<Event<K>>
    requires |did| == |fired|
  {
    if fired == [] then []
    else Blocks(fired[..|fired| - 1], did[..|fired| - 1]) + [Fired(fired[|fired| - 1])] + did[|fired| - 1]
  }

  lemma BlocksOne<K>(fired: seq<K>, did: seq<seq<Event<K>>>, k: K, es: seq<Event<K>>)
    requires |did| == |fired|
    ensures Blocks(fired + [k], did + [es]) == Blocks(fired, did) + [Fired(k)] + es
  {
    assert (fired + [k])[..|fired|] == fired && (did + [es])[..|fired|] == did;
  }

  /** The callbacks that ran, from stage `s` on, did what the program has them do; the last one failed unless `ok`. */
  ghost predicate Called(behaviour: Behaviour, s: Stage, fired: seq<Action>, did: seq<seq<Event<Action>>>, ok: bool)
    ensures Called(behaviour, s, fired, did, ok) ==> |did| == |fired| && (!ok ==> fired != [])
    decreases |fired|
  {
    if fired == [] then did == [] && ok
    else
      var i := |fired| - 1;
      && |did| == |fired|
      && Called(behaviour, s, fired[..i], did[..i], true)
      && var s' := Calling(behaviour, s, fired[..i], did[..i], fired[i]);
         var reply := behaviour(s.calls + i, fired[i].callback);
         Answers(s', reply.requests, did[i]) && reply.ok == ok
  }

  /** The stage after callbacks ... */
  function AfterCalls(behaviour: Behaviour, s: Stage, fired: seq<Action>, did: seq<seq<Event<Action>>>): Stage
    requires |did| == |fired|
  {
    Stage(s.past + Blocks(fired, did), TimeCalled(behaviour, s.calls, fired, s.time), s.calls + |fired|)
  }

  /** ... and that in which the next one runs. */
  function Calling(behaviour: Behaviour, s: Stage, fired: seq<Action>, did: seq<seq<Event<Action>>>, a: Action): Stage
    requires |did| == |fired|
  {
    var t := AfterCalls(behaviour, s, fired, did);
    t.(past := t.past + [Fired(a)], calls := t.calls + 1)
  }

  lemma SameStage(s: Stage, t: Stage)
    requires s.past == t.past && s.time == t.time && s.calls == t.calls
    ensures s == t
  {
  }

  lemma IsCalling(behaviour: Behaviour, s: Stage, fired: seq<Action>, did: seq<seq<Event<Action>>>, a: Action, t: Stage)
    requires |did| == |fired|
    requires var m := AfterCalls(behaviour, s, fired, did);
             t.past == m.past + [Fired(a)] && t.time == m.time && t.calls == m.calls + 1
    ensures t == Calling(behaviour, s, fired, did, a)
  {
  }

  lemma CalledNone(behaviour: Behaviour, s: Stage)
    ensures Called(behaviour, s, [], [], true) && AfterCalls(behaviour, s, [], []) == s
    ensures Blocks<Action>([], []) == []
  {
    assert s.past + [] == s.past;
  }

  lemma CalledOne(behaviour: Behaviour, s: Stage, fired: seq<Action>, did: seq<seq<Event<Action>>>, a: Action,
                  es: seq<Event<Action>>)
    requires Called(behaviour, s, fired, did, true)
    requires Answers(Calling(behaviour, s, fired, did, a), behaviour(s.calls + |fired|, a.callback).requests, es)
    ensures Called(behaviour, s, fired + [a], did + [es], behaviour(s.calls + |fired|, a.callback).ok)
    ensures AfterCalls(behaviour, s, fired + [a], did + [es]) ==
            Answered(Calling(behaviour, s, fired, did, a), behaviour(s.calls + |fired|, a.callback).requests, es)
  {
    var f, d := fired + [a], did + [es];
    assert |did| == |fired|;
    hide *;
    assert f[..|f| - 1] == fired && d[..|f| - 1] == did && f[|f| - 1] == a && d[|f| - 1] == es;
    CalledJoined(behaviour, s, f, d, behaviour(s.calls + |fired|, a.callback).ok);
    StageAfterOne(behaviour, s, fired, did, a, es);
  }

  lemma CalledJoined(behaviour: Behaviour, s: Stage, fired: seq<Action>, did: seq<seq<Event<Action>>>, ok: bool)
    requires |did| == |fired| > 0
    requires var i := |fired| - 1;
             && Called(behaviour, s, fired[..i], did[..i], true)
             && behaviour(s.calls + i, fired[i].callback).ok == ok
             && Answers(Calling(behaviour, s, fired[..i], did[..i], fired[i]),
                        behaviour(s.calls + i, fired[i].callback).requests, did[i])
    ensures Called(behaviour, s, fired, did, ok)
  {
  }

  lemma TimeCalledOne(behaviour: Behaviour, n: nat, fired: seq<Action>, a: Action, time: Timevals.Timeval)
    ensures TimeCalled(behaviour, n, fired + [a], time) ==
            TimeAsked(TimeCalled(behaviour, n, fired, time), behaviour(n + |fired|, a.callback).requests)
  {
    assert (fired + [a])[..|fired|] == fired;
  }

  lemma StageAfterOne(behaviour: Behaviour, s: Stage, fired: seq<Action>, did: seq<seq<Event<Action>>>, a: Action,
                      es: seq<Event<Action>>)
    requires |did| == |fired|
    ensures AfterCalls(behaviour, s, fired + [a], did + [es]) ==
            Answered(Calling(behaviour, s, fired, did, a), behaviour(s.calls + |fired|, a.callback).requests, es)
  {
    BlocksOne(fired, did, a, es);
    TimeCalledOne(behaviour, s.calls, fired, a, s.time);
    hide Blocks, TimeCalled, TimeAsked;
    assert s.past + (Blocks(fired, did) + [Fired(a)] + es) == s.past + Blocks(fired, did) + [Fired(a)] + es;
  }

  lemma {:induction false} CalledMore(behaviour: Behaviour, s: Stage, fired: seq<Action>, did: seq<seq<Event<Action>>>,
                                      fired': seq<Action>, did': seq<seq<Event<Action>>>, ok: bool)
    requires Called(behaviour, s, fired, did, true)
    requires Called(behaviour, AfterCalls(behaviour, s, fired, did), fired', did', ok)
    ensures Called(behaviour, s, fired + fired', did + did', ok)
    ensures AfterCalls(behaviour, s, fired + fired', did + did') ==
            AfterCalls(behaviour, AfterCalls(behaviour, s, fired, did), fired', did')
    ensures Blocks(fired + fired', did + did') == Blocks(fired, did) + Blocks(fired', did')
    decreases |fired'|
  {
    hide *;
    var m := AfterCalls(behaviour, s, fired, did);
    if fired' == [] {
      NoCalls(behaviour, m, did', ok);
      CalledNone(behaviour, m);
      assert fired + fired' == fired && did + did' == did;
    } else {
      var i := |fired'| - 1;
      var f, d, a, es := fired'[..i], did'[..i], fired'[i], did'[i];
      CalledSplit(behaviour, m, fired', did', ok);
      CalledMore(behaviour, s, fired, did, f, d, true);
      CalledOne(behaviour, m, f, d, a, es);
      SameCalling(behaviour, s, fired + f, did + d, m, f, d, a);
      CalledOne(behaviour, s, fired + f, did + d, a, es);
      BlocksOne(f, d, a, es);
      BlocksOne(fired + f, did + d, a, es);
      assert f + [a] == fired' && d + [es] == did';
      assert fired + f + [a] == fired + fired' && did + d + [es] == did + did';
      assert Blocks(fired, did) + (Blocks(f, d) + [Fired(a)] + es) ==
             Blocks(fired, did) + Blocks(f, d) + [Fired(a)] + es;
    }
  }

  lemma SameCalling(behaviour: Behaviour, s: Stage, fired: seq<Action>, did: seq<seq<Event<Action>>>,
                    s': Stage, fired': seq<Action>, did': seq<seq<Event<Action>>>, a: Action)
    requires |did| == |fired| && |did'| == |fired'|
    requires AfterCalls(behaviour, s, fired, did) == AfterCalls(behaviour, s', fired', did')
    ensures Calling(behaviour, s, fired, did, a) == Calling(behaviour, s', fired', did', a)
    ensures s.calls + |fired| == s'.calls + |fired'|
  {
  }

  lemma NoCalls(behaviour: Behaviour, s: Stage, did: seq<seq<Event<Action>>>, ok: bool)
    requires Called(behaviour, s, [], did, ok)
    ensures did == [] && ok
  {
  }

  lemma CalledSplit(behaviour: Behaviour, s: Stage, fired: seq<Action>, did: seq<seq<Event<Action>>>, ok: bool)
    requires Called(behaviour, s, fired, did, ok) && fired != []
    ensures |did| == |fired|
    ensures var i := |fired| - 1;
            && Called(behaviour, s, fired[..i], did[..i], true)
            && behaviour(s.calls + i, fired[i].callback).ok == ok
            && Answers(Calling(behaviour, s, fired[..i], did[..i], fired[i]),
                       behaviour(s.calls + i, fired[i].callback).requests, did[i])
  {
  }

  // ----- what a history holds besides the passing of time

  function Timeless<K>(es: seq<Event<K>>): seq<Event<K>> {
    if es == [] then []
    else
      var e := es[|es| - 1];
      Timeless(es[..|es| - 1]) + if e.Advanced? || e.Swept? then [] else [e]
  }

  lemma {:induction false} TimelessMore<K>(es: seq<Event<K>>, fs: seq<Event<K>>)
    ensures Timeless(es + fs) == Timeless(es) + Timeless(fs)
  {
    if fs == [] {
      assert es + fs == es;
    } else {
      TimelessMore(es, fs[..|fs| - 1]);
      assert (es + fs)[..|es + fs| - 1] == es + fs[..|fs| - 1];
    }
  }

  lemma TimelessAfter<K>(es: seq<Event<K>>, e: Event<K>)
    ensures Timeless(es + [e]) == Timeless(es) + if e.Advanced? || e.Swept? then [] else [e]
    ensures e.Advanced? || e.Swept? ==> Timeless(es + [e]) == Timeless(es)
  {
    assert (es + [e])[..|es|] == es;
  }

  lemma TimelessJump<K>(es: seq<Event<K>>, n: nat)
    ensures Timeless(es + QuietTicks(n)) == Timeless(es)
  {
    TimelessMore(es, QuietTicks(n));
    TimelessQuiet<K>(n);
  }

  lemma TimelessOne<K>(e: Event<K>)
    ensures Timeless([e]) == if e.Advanced? || e.Swept? then [] else [e]
  {
    assert [e][..0] == [];
  }

  lemma {:induction false} TimelessRequests<K>(es: seq<Event<K>>)
    requires OnlyRequests(es)
    ensures Timeless(es) == es
  {
    if es != [] {
      assert forall i :: 0 <= i < |es| - 1 ==> es[..|es| - 1][i] == es[i];
      TimelessRequests(es[..|es| - 1]);
    }
  }

  lemma {:induction false} TimelessBlocks(behaviour: Behaviour, s: Stage, fired: seq<Action>,
                                          did: seq<seq<Event<Action>>>, ok: bool)
    requires Called(behaviour, s, fired, did, ok)
    ensures Timeless(Blocks(fired, did)) == Blocks(fired, did)
    decreases |fired|
  {
    if fired != [] {
      var k := |fired| - 1;
      var a, es := fired[k], did[k];
      TimelessBlocks(behaviour, s, fired[..k], did[..k], true);
      AnswersAreRequests(Calling(behaviour, s, fired[..k], did[..k], a),
                         behaviour(s.calls + k, a.callback).requests, es);
      TimelessRequests(es);
      TimelessOne(Fired(a));
      TimelessMore(Blocks(fired[..k], did[..k]) + [Fired(a)], es);
      TimelessMore(Blocks(fired[..k], did[..k]), [Fired(a)]);
    }
  }

  /** The history has gone on from `was` to `now`, and apart from the passing of time this is what happened. */
  ghost predicate Since<K>(was: seq<Event<K>>, now: seq<Event<K>>, happened: seq<Event<K>>) {
    was <= now && Timeless(now[|was|..]) == happened
  }

  lemma SinceNothing<K>(es: seq<Event<K>>)
    ensures Since(es, es, [])
  {
  }

  lemma SincePast<K>(was: seq<Event<K>>, now: seq<Event<K>>, happened: seq<Event<K>>)
    requires Since(was, now, happened)
    ensures Timeless(now) == Timeless(was) + happened
  {
    TimelessMore(was, now[|was|..]);
    assert was + now[|was|..] == now;
  }

  lemma SinceMore<K>(es: seq<Event<K>>, fs: seq<Event<K>>, gs: seq<Event<K>>, a: seq<Event<K>>, b: seq<Event<K>>)
    requires Since(es, fs, a) && Since(fs, gs, b)
    ensures Since(es, gs, a + b)
  {
    TimelessMore(fs[|es|..], gs[|fs|..]);
    assert fs[|es|..] + gs[|fs|..] == gs[|es|..];
  }

  lemma SinceRequests(s: Stage, requests: seq<Request>, was: seq<Event<Action>>, es: seq<Event<Action>>)
    requires Answers(s, requests, es)
    ensures Since(was, was + es, es) && Timeless(was + es) == Timeless(was) + es
  {
    AnswersAreRequests(s, requests, es);
    TimelessRequests(es);
    TimelessMore(was, es);
    assert (was + es)[|was|..] == es;
  }

  /** A round of a wheel, from the tick to the sweep. */
  lemma SinceRound(behaviour: Behaviour, s: Stage, es: seq<Event<Action>>, quiet: nat, fired: seq<Action>,
                   did: seq<seq<Event<Action>>>, ok: bool, sweep: seq<Event<Action>>)
    requires Called(behaviour, s, fired, did, ok) && (sweep == [] || sweep == [Swept])
    ensures Since(es, es + QuietTicks(quiet) + Blocks(fired, did) + sweep, Blocks(fired, did))
  {
    assert |did| == |fired|;
    hide Blocks, Called, QuietTicks, Timeless, Since;
    TimelessBlocks(behaviour, s, fired, did, ok);
    TimelessQuiet<Action>(quiet);
    TimelessSweep(sweep);
    SinceAppended(es, QuietTicks(quiet), Blocks(fired, did), sweep);
  }

  lemma SinceAppended<K>(es: seq<Event<K>>, a: seq<Event<K>>, b: seq<Event<K>>, c: seq<Event<K>>)
    requires Timeless(a) == [] && Timeless(b) == b && Timeless(c) == []
    ensures Since(es, es + a + b + c, b)
  {
    hide Timeless;
    TimelessMore(a + b, c);
    TimelessMore(a, b);
    assert (es + a + b + c)[|es|..] == a + b + c;
  }

  lemma TimelessSweep<K>(sweep: seq<Event<K>>)
    requires sweep == [] || sweep == [Swept]
    ensures Timeless(sweep) == []
  {
  }

  lemma {:induction false} TimelessQuiet<K>(n: nat)
    ensures Timeless(QuietTicks<K>(n)) == []
  {
    if n == 1 {
      assert QuietTicks<K>(n)[..0] == [];
    } else if n > 1 {
      TimelessQuiet<K>(n - 1);
      TimelessMore(QuietTicks<K>(n - 1), [Swept, Advanced]);
      var both: seq<Event<K>> := [Swept, Advanced];
      assert both[..1] == [Swept];
    }
  }

  // ----- ticks

  /** Requests and firings are no ticks. */
  lemma {:induction false} NoTicksInRequests<K>(es: seq<Event<K>>, more: seq<Event<K>>)
    requires forall i :: 0 <= i < |more| ==> !more[i].Advanced?
    ensures TicksIn(es + more) == TicksIn(es)
    ensures Disciplined(es) ==> Disciplined(es + more)
    ensures Ready(es) ==> Ready(es + more)
  {
    if more == [] {
      assert es + more == es;
    } else {
      var init, e := more[..|more| - 1], more[|more| - 1];
      NoTicksInRequests(es, init);
      assert es + more == es + init + [e];
      assert (es + init + [e])[..|es + init|] == es + init;
      if Disciplined(es) {
        DisciplinedMore(es + init, e);
      }
      if Ready(es) {
        ReadyMore(es + init, e);
      }
    }
  }

  lemma {:induction false} BlocksHaveNoTicks(behaviour: Behaviour, s: Stage, fired: seq<Action>,
                                             did: seq<seq<Event<Action>>>, ok: bool)
    requires Called(behaviour, s, fired, did, ok)
    ensures forall i :: 0 <= i < |Blocks(fired, did)| ==> !Blocks(fired, did)[i].Advanced?
    decreases |fired|
  {
    if fired != [] {
      var k := |fired| - 1;
      BlocksHaveNoTicks(behaviour, s, fired[..k], did[..k], true);
      AnswersAreRequests(Calling(behaviour, s, fired[..k], did[..k], fired[k]),
                         behaviour(s.calls + k, fired[k].callback).requests, did[k]);
    }
  }

  lemma RoundTicks(behaviour: Behaviour, s: Stage, es: seq<Event<Action>>, quiet: nat, fired: seq<Action>,
                   did: seq<seq<Event<Action>>>, ok: bool)
    requires Called(behaviour, s, fired, did, ok)
    ensures TicksIn(es + QuietTicks(quiet) + Blocks(fired, did) + if ok then [Swept] else []) == TicksIn(es) + quiet
  {
    BlocksHaveNoTicks(behaviour, s, fired, did, ok);
    TicksInQuiet(es, quiet);
    assert |did| == |fired|;
    hide *;
    NoTicksInRequests(es + QuietTicks(quiet), Blocks(fired, did));
    NoTicksInRequests(es + QuietTicks(quiet) + Blocks(fired, did), if ok then [Swept] else []);
  }

  /** Another round after others, that began at stage `s` with history `was`. */
  lemma RoundMore(behaviour: Behaviour, s: Stage, was: seq<Event<Action>>, es: seq<Event<Action>>, fired: seq<Action>,
                  did: seq<seq<Event<Action>>>, fired': seq<Action>, did': seq<seq<Event<Action>>>, ok: bool)
    requires Called(behaviour, s, fired, did, true)
    requires Called(behaviour, AfterCalls(behaviour, s, fired, did), fired', did', ok)
    requires Since(was, es, Blocks(fired, did))
    ensures var now := es + [Advanced] + Blocks(fired', did') + if ok then [Swept] else [];
            && Since(was, now, Blocks(fired + fired', did + did'))
            && TicksIn(now) == TicksIn(es) + 1
  {
    var m := AfterCalls(behaviour, s, fired, did);
    CalledMore(behaviour, s, fired, did, fired', did', ok);
    SinceRound(behaviour, m, es, 1, fired', did', ok, if ok then [Swept] else []);
    RoundTicks(behaviour, m, es, 1, fired', did', ok);
    OneQuietTick<Action>();
    assert |did| == |fired| && |did'| == |fired'|;
    hide *;
    SinceMore(was, es, es + [Advanced] + Blocks(fired', did') + if ok then [Swept] else [],
              Blocks(fired, did), Blocks(fired', did'));
  }

  lemma OneQuietTick<K>()
    ensures QuietTicks<K>(1) == [Advanced]
  {
  }

  /** Callbacks that leave the wheel alone leave firings behind and nothing else. */
  lemma {:induction false} QuietBlocks(behaviour: Behaviour, s: Stage, fired: seq<Action>, did: seq<seq<Event<Action>>>,
                                       ok: bool)
    requires Quiet(behaviour) && Called(behaviour, s, fired, did, ok)
    ensures Blocks(fired, did) == Firings(fired) && TimeCalled(behaviour, s.calls, fired, s.time) == s.time
    decreases |fired|
  {
    if fired != [] {
      var k := |fired| - 1;
      QuietBlocks(behaviour, s, fired[..k], did[..k], true);
      assert behaviour(s.calls + k, fired[k].callback).requests == [];
      AnswersAreRequests(Calling(behaviour, s, fired[..k], did[..k], fired[k]), [], did[k]);
    }
  }

  // ----- bookings and histories

  lemma HandlesOne<K>(es: seq<Event<K>>, e: Event<K>)
    ensures Handles(es + [e]) == Handles(es) + if e.Scheduled? then [e.timer] else []
  {
    assert (es + [e])[..|es|] == es;
  }

  lemma {:induction false} HandlesTimeless<K>(es: seq<Event<K>>)
    ensures Handles(Timeless(es)) == Handles(es)
  {
    if es != [] {
      var init, e := es[..|es| - 1], es[|es| - 1];
      HandlesTimeless(init);
      HandlesOne(Timeless(init), e);
      assert Timeless(es) == if e.Advanced? || e.Swept? then Timeless(init) else Timeless(init) + [e];
    }
  }

  lemma {:induction false} EndedTimeless<K>(es: seq<Event<K>>, k: K)
    ensures Ended(Timeless(es), k) <==> Ended(es, k)
  {
    if es != [] {
      var init, e := es[..|es| - 1], es[|es| - 1];
      EndedTimeless(init, k);
      EndedOne(init, e, k);
      EndedOne(Timeless(init), e, k);
      assert es == init + [e];
      assert Timeless(es) == if e.Advanced? || e.Swept? then Timeless(init) else Timeless(init) + [e];
    }
  }

  lemma EndedOne<K>(es: seq<Event<K>>, e: Event<K>, k: K)
    ensures Ended(es + [e], k) <==> Ended(es, k) || e == Fired(k) || e == Cancelled(k)
  {
    var fs := es + [e];
    assert forall i :: 0 <= i < |es| ==> fs[i] == es[i];
    assert fs[|es|] == e;
  }

  lemma {:induction false} HandleOf<K>(es: seq<Event<K>>, b: nat) returns (i: nat)
    requires b < |Handles(es)|
    ensures i < |es| && es[i].Scheduled? && es[i].timer == Handles(es)[b]
  {
    var init := es[..|es| - 1];
    if b < |Handles(init)| {
      i := HandleOf(init, b);
    } else {
      i := |es| - 1;
    }
  }

  lemma {:induction false} PendingIsBooked<K>(es: seq<Event<K>>, k: K)
    requires IsRun(map[], es) && k in After(map[], es)
    ensures k in Handles(es)
  {
    var init := es[..|es| - 1];
    if k in After(map[], init) {
      PendingIsBooked(init, k);
    }
  }

  lemma {:induction false} HandlesQuiet<K>(es: seq<Event<K>>, n: nat)
    ensures Handles(es + QuietTicks(n)) == Handles(es)
  {
    if n == 0 {
      assert es + QuietTicks(n) == es;
    } else if n == 1 {
      HandlesOne(es, Advanced);
    } else {
      var fs := es + QuietTicks(n - 1);
      HandlesQuiet(es, n - 1);
      HandlesOne(fs, Swept);
      HandlesOne(fs + [Swept], Advanced);
      assert es + QuietTicks(n) == fs + [Swept] + [Advanced];
    }
  }

  /** A booked timer is pending exactly as long as it has not ended. */
  lemma BookedIsPending<K>(es: seq<Event<K>>, b: nat)
    requires IsRun(map[], es) && HandlesNew(es) && b < |Handles(es)|
    ensures Handles(es)[b] in After(map[], es) <==> !Ended(es, Handles(es)[b])
  {
    var i := HandleOf(es, b);
    ScheduledIsPending(es, i);
  }

  lemma ScheduledIsPending<K>(es: seq<Event<K>>, i: nat)
    requires IsRun(map[], es) && HandlesNew(es) && i < |es| && es[i].Scheduled?
    ensures es[i].timer in After(map[], es) <==> !Ended(es, es[i].timer)
  {
    var k, rest := es[i].timer, es[i + 1..];
    NotEndedBefore(es, i);
    RunSuffix(map[], es, i + 1);
    JustScheduled(es, i);
    var b := After(map[], es[..i + 1]);
    EndedInRest(es, i, k);
    if Ended(rest, k) {
      var j := FirstEnd(rest, k);
      GoneAfterEnd(b, k, rest, j);
    } else {
      PendingWait(b, k, rest);
    }
  }

  lemma NotEndedBefore<K>(es: seq<Event<K>>, i: nat)
    requires IsRun(map[], es) && HandlesNew(es) && i < |es| && es[i].Scheduled?
    ensures !Ended(es[..i], es[i].timer)
  {
    RunPrefix(map[], es, i);
    EndsOnce(map[], es[i].timer, es[..i]);
  }

  lemma EndedInRest<K>(es: seq<Event<K>>, i: nat, k: K)
    requires i < |es| && es[i].Scheduled? && !Ended(es[..i], k)
    ensures Ended(es, k) <==> Ended(es[i + 1..], k)
  {
    var rest := es[i + 1..];
    assert forall j :: 0 <= j < |rest| ==> rest[j] == es[i + 1 + j];
    assert forall j :: 0 <= j < i ==> es[..i][j] == es[j];
    if Ended(es, k) {
      var j :| 0 <= j < |es| && (es[j] == Fired(k) || es[j] == Cancelled(k));
      assert j > i;
      assert rest[j - i - 1] == es[j];
    }
  }

  lemma GoneAfterEnd<K>(b: Bag<K>, k: K, es: seq<Event<K>>, j: nat)
    requires IsRun(b, es) && j < |es| && (es[j] == Fired(k) || es[j] == Cancelled(k))
    requires forall l :: 0 <= l < |es| ==> !(es[l].Scheduled? && es[l].timer == k)
    ensures k !in After(b, es)
  {
    RunPrefix(b, es, j + 1);
    RunSuffix(b, es, j + 1);
    assert es[..j + 1][..j] == es[..j];
    assert k !in After(b, es[..j + 1]);
    var rest := es[j + 1..];
    assert forall l :: 0 <= l < |rest| ==> rest[l] == es[j + 1 + l];
    EndsOnce(After(b, es[..j + 1]), k, rest);
  }
}
