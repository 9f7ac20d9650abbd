/** The agent's loop: sleeping until a timer is due or a connection has something to say, and catching up with the
    clock. */
module AgentLoop {
  import opened ActionLinks
  import opened TimerBag
  import opened TimerRounds
  import opened WheelCalls
  import opened WheelPasses
  import opened TimingWheel
  import opened WheelPosition
  import Timevals

  /** What a poll comes back with: nothing, or events whose reactions ask something of the wheel and succeed or fail. */
  datatype Outcome = Slept | Reacted(reply: Reply)

  /** Once round the loop. `connected` tells whether there are connections when it begins, and `clock(i)` is what the
      `i`-th pass of the update at its end sees. */
  datatype Turn = Turn(connected: bool, outcome: Outcome, clock: nat -> Timevals.Timeval)

  /** The two things the loop does by turns. */
  datatype Task = CatchUp(clock: nat -> Timevals.Timeval) | Wait(outcome: Outcome)

  /** The clock is normal and lets the agent catch up with it; reactions ask for what fits the wheel. */
  ghost predicate Possible(behaviour: Behaviour, task: Task) {
    match task
    case CatchUp(clock) => (forall i :: Timevals.Normal(clock(i))) && Ends(behaviour, clock)
    case Wait(Reacted(reply)) => forall i :: 0 <= i < |reply.requests| ==> Proper(reply.requests[i])
    case Wait(Slept) => true
  }

  /** First the agent catches up with the clock, then by turns it waits and catches up again. */
  function TaskAt(clock: nat -> Timevals.Timeval, turns: seq<Turn>, j: nat): Task
    requires j <= 2 * |turns|
  {
    if j == 0 then CatchUp(clock)
    else if j % 2 == 1 then Wait(turns[j / 2].outcome)
    else CatchUp(turns[j / 2 - 1].clock)
  }

  // ----- what the agent does, told without a wheel

  /** All there is to say of a wheel: its history, its own time, and how many callbacks have run. */
  datatype Moment = Moment(log: seq<Event<Action>>, time: Timevals.Timeval, calls: nat)

  function StageOf(m: Moment): Stage {
    Stage(Timeless(m.log), m.time, m.calls)
  }

  ghost function Timers(m: Moment): Bag<Action> {
    After(map[], m.log)
  }

  /** How a task is done: not at all, by passes of the update, by a nap and the firings at its end, or by reactions. */
  datatype Deed =
    | Nothing
    | Passing(ps: seq<Pass>)
    | Napping(ticks: nat, fired: seq<Action>, did: seq<seq<Event<Action>>>)
    | Reacting(es: seq<Event<Action>>)

  /** With timers pending the agent catches up in passes, and after a poll without events the hand moves on by
      exactly the time to the first timer or to the end of the second; without timers there is nothing to do. */
  ghost predicate Does(behaviour: Behaviour, m: Moment, task: Task, deed: Deed, m': Moment, ok: bool) {
    match (task, deed)
    case (CatchUp(clock), Passing(ps)) =>
      && Timers(m) != map[] && ps != [] && Repeated(ps, !ok)
      && Passes(behaviour, clock, StageOf(m), ps, ok) && StageOf(m') == AfterPasses(behaviour, StageOf(m), ps)
      && Since(m.log, m'.log, EventsOf(ps)) && TicksIn(m'.log) == TicksIn(m.log) + TicksOf(ps)
    case (Wait(Slept), Napping(ticks, fired, did)) =>
      && Timers(m) != map[] && IsNap(Timers(m), TicksIn(m.log) % TURN, ticks)
      && var s := StageOf(m).(time := Timevals.Add(m.time, Timevals.Timeval(0, ticks * 10000)));
         && Called(behaviour, s, fired, did, ok) && StageOf(m') == AfterCalls(behaviour, s, fired, did)
         && m'.log == m.log + QuietTicks(ticks) + Blocks(fired, did) + if ok then [Swept] else []
    case (Wait(Reacted(reply)), Reacting(es)) =>
      && Answers(StageOf(m), reply.requests, es) && StageOf(m') == Answered(StageOf(m), reply.requests, es)
      && m'.log == m.log + es && ok == reply.ok
    case (CatchUp(_), Nothing) => Timers(m) == map[] && m' == m && ok
    case (Wait(Slept), Nothing) => Timers(m) == map[] && m' == m && ok
    case _ => false
  }

  function TicksBy(deed: Deed): nat {
    match deed
    case Passing(ps) => TicksOf(ps)
    case Napping(ticks, _, _) => ticks
    case _ => 0
  }

  function EventsBy(deed: Deed): seq<Event<Action>> {
    match deed
    case Nothing => []
    case Passing(ps) => EventsOf(ps)
    case Napping(_, fired, did) => if |did| == |fired| then Blocks(fired, did) else []
    case Reacting(es) => es
  }

  lemma DoesAdd(behaviour: Behaviour, m: Moment, task: Task, deed: Deed, m': Moment, ok: bool)
    requires Does(behaviour, m, task, deed, m', ok)
    ensures Since(m.log, m'.log, EventsBy(deed)) && TicksIn(m'.log) == TicksIn(m.log) + TicksBy(deed)
  {
    match deed
    case Nothing => SinceNothing(m.log);
    case Passing(_) =>
    case Napping(ticks, fired, did) =>
      var s := StageOf(m).(time := Timevals.Add(m.time, Timevals.Timeval(0, ticks * 10000)));
      SinceRound(behaviour, s, m.log, ticks, fired, did, ok, if ok then [Swept] else []);
      RoundTicks(behaviour, s, m.log, ticks, fired, did, ok);
    case Reacting(es) =>
      var requests := task.outcome.reply.requests;
      SinceRequests(StageOf(m), requests, m.log, es);
      AnswersAreRequests(StageOf(m), requests, es);
      NoTicksInRequests(m.log, es);
  }

  /** The agent waits only if there are connections or timers. */
  ghost predicate GoesOn(turns: seq<Turn>, m: Moment, j: nat)
    requires j <= 2 * |turns|
  {
    j % 2 == 1 ==> turns[j / 2].connected || Timers(m) != map[]
  }

  /** The moments between the tasks, and what was done about each; all is well, unless the last task went wrong. */
  ghost predicate Story(behaviour: Behaviour, clock: nat -> Timevals.Timeval, turns: seq<Turn>,
                        ms: seq<Moment>, deeds: seq<Deed>, ok: bool)
  {
    && |ms| == |deeds| + 1 && |deeds| <= 2 * |turns| + 1 && (deeds == [] ==> ok)
    && forall j :: 0 <= j < |deeds| ==>
         && Does(behaviour, ms[j], TaskAt(clock, turns, j), deeds[j], ms[j + 1], ok || j < |deeds| - 1)
         && GoesOn(turns, ms[j], j)
  }

  lemma StoryBegins(behaviour: Behaviour, clock: nat -> Timevals.Timeval, turns: seq<Turn>, m: Moment)
    ensures Story(behaviour, clock, turns, [m], [], true)
  {
  }

  lemma StoryMore(behaviour: Behaviour, clock: nat -> Timevals.Timeval, turns: seq<Turn>,
                  ms: seq<Moment>, deeds: seq<Deed>, deed: Deed, m: Moment, ok: bool)
    requires Story(behaviour, clock, turns, ms, deeds, true) && |deeds| <= 2 * |turns|
    requires Does(behaviour, ms[|ms| - 1], TaskAt(clock, turns, |deeds|), deed, m, ok)
    requires GoesOn(turns, ms[|ms| - 1], |deeds|)
    ensures Story(behaviour, clock, turns, ms + [m], deeds + [deed], ok)
  {
    hide Does, TaskAt, GoesOn;
    var ms', deeds' := ms + [m], deeds + [deed];
    forall j | 0 <= j < |deeds'|
      ensures Does(behaviour, ms'[j], TaskAt(clock, turns, j), deeds'[j], ms'[j + 1], ok || j < |deeds'| - 1)
      ensures GoesOn(turns, ms'[j], j)
    {
      if j < |deeds| {
        assert ms'[j] == ms[j] && ms'[j + 1] == ms[j + 1] && deeds'[j] == deeds[j];
        assert Does(behaviour, ms[j], TaskAt(clock, turns, j), deeds[j], ms[j + 1], true || j < |deeds| - 1);
      }
    }
  }

  function AllEvents(deeds: seq<Deed>): seq<Event<Action>> {
    if deeds == [] then [] else AllEvents(deeds[..|deeds| - 1]) + EventsBy(deeds[|deeds| - 1])
  }

  function AllTicks(deeds: seq<Deed>): nat {
    if deeds == [] then 0 else AllTicks(deeds[..|deeds| - 1]) + TicksBy(deeds[|deeds| - 1])
  }

  /** From beginning to end the wheel has made the ticks of the naps and passes, and nothing else has happened than what
      these, and the reactions, have brought about. */
  lemma {:induction false} StoryAdds(behaviour: Behaviour, clock: nat -> Timevals.Timeval, turns: seq<Turn>,
                                     ms: seq<Moment>, deeds: seq<Deed>, ok: bool)
    requires Story(behaviour, clock, turns, ms, deeds, ok)
    ensures Since(ms[0].log, ms[|ms| - 1].log, AllEvents(deeds))
    ensures TicksIn(ms[|ms| - 1].log) == TicksIn(ms[0].log) + AllTicks(deeds)
    decreases |deeds|
  {
    hide Does, TaskAt, GoesOn, Since, EventsBy, TicksBy;
    if deeds == [] {
      SinceNothing(ms[0].log);
    } else {
      var k := |deeds| - 1;
      var init, most := deeds[..k], ms[..k + 1];
      forall j | 0 <= j < k
        ensures Does(behaviour, most[j], TaskAt(clock, turns, j), init[j], most[j + 1], true || j < |init| - 1)
        ensures GoesOn(turns, most[j], j)
      {
        assert Does(behaviour, ms[j], TaskAt(clock, turns, j), deeds[j], ms[j + 1], ok || j < |deeds| - 1);
      }
      StoryAdds(behaviour, clock, turns, most, init, true);
      DoesAdd(behaviour, ms[k], TaskAt(clock, turns, k), deeds[k], ms[k + 1], ok);
      SinceMore(ms[0].log, ms[k].log, ms[k + 1].log, AllEvents(init), EventsBy(deeds[k]));
    }
  }

  // ----- the loop

  ghost function Now(wheel: TimingWheel, n: nat): (m: Moment)
    reads wheel
    ensures m.log == wheel.log && m.time == wheel.now && m.calls == n && StageOf(m) == wheel.Here(n)
  {
    Moment(wheel.log, wheel.now, n)
  }

  lemma TimersAre(wheel: TimingWheel, n: nat)
    requires wheel.Valid()
    ensures Timers(Now(wheel, n)) == wheel.Pending() && (Timers(Now(wheel, n)) == map[] <==> wheel.timers == 0)
    ensures TicksIn(wheel.log) % TURN == wheel.jiffy >= 0
  {
    assert wheel.Pending().Keys == wheel.members;
    assert wheel.timers == 0 <==> wheel.members == {};
  }

  /** Catches up with the clock if there are timers. */
  method Update(wheel: TimingWheel, clock: nat -> Timevals.Timeval, behaviour: Behaviour, n: nat, ghost patience: nat)
      returns (ok: bool, n': nat, ghost deed: Deed)
    requires wheel.Valid() && Patient(behaviour, patience) && Possible(behaviour, CatchUp(clock))
    modifies wheel, wheel.heads, wheel.members
    ensures wheel.Valid() && fresh(wheel.members - old(wheel.members))
    ensures Does(behaviour, old(Now(wheel, n)), CatchUp(clock), deed, Now(wheel, n'), ok)
    ensures Ready(old(wheel.log)) ==> Disciplined(wheel.log) && (ok ==> Ready(wheel.log))
  {
    hide *;
    ReadyIsDisciplined(wheel.log);
    TimersAre(wheel, n);
    if wheel.timers == 0 {
      ghost var m := Now(wheel, n);
      Idle(behaviour, m, CatchUp(clock));
      return true, n, Nothing;
    }
    MayCatchUp(behaviour, clock);
    ghost var m, ps := Now(wheel, n), [];
    ok, n', ps := wheel.Update(clock, behaviour, n, patience);
    deed := Passing(ps);
    Passed(behaviour, m, clock, ps, Now(wheel, n'), ok);
  }

  lemma MayCatchUp(behaviour: Behaviour, clock: nat -> Timevals.Timeval)
    requires Possible(behaviour, CatchUp(clock))
    ensures (forall i :: Timevals.Normal(clock(i))) && Ends(behaviour, clock)
  {
  }

  lemma Idle(behaviour: Behaviour, m: Moment, task: Task)
    requires Timers(m) == map[] && (task.CatchUp? || task.outcome.Slept?)
    ensures Does(behaviour, m, task, Nothing, m, true)
  {
  }

  lemma Passed(behaviour: Behaviour, m: Moment, clock: nat -> Timevals.Timeval, ps: seq<Pass>, m': Moment, ok: bool)
    requires Timers(m) != map[] && ps != [] && Repeated(ps, !ok)
    requires Passes(behaviour, clock, StageOf(m), ps, ok) && StageOf(m') == AfterPasses(behaviour, StageOf(m), ps)
    requires Since(m.log, m'.log, EventsOf(ps)) && TicksIn(m'.log) == TicksIn(m.log) + TicksOf(ps)
    ensures Does(behaviour, m, CatchUp(clock), Passing(ps), m', ok)
  {
  }

  /** The body of the loop, up to the update. */
  method Poll(wheel: TimingWheel, outcome: Outcome, behaviour: Behaviour, n: nat, ghost patience: nat)
      returns (ok: bool, n': nat, ghost deed: Deed)
    requires wheel.Valid() && Patient(behaviour, patience) && Possible(behaviour, Wait(outcome))
    modifies wheel, wheel.heads, wheel.members
    ensures wheel.Valid() && fresh(wheel.members - old(wheel.members))
    ensures Does(behaviour, old(Now(wheel, n)), Wait(outcome), deed, Now(wheel, n'), ok)
    ensures Ready(old(wheel.log)) ==> Disciplined(wheel.log) && (ok ==> Ready(wheel.log))
  {
    hide *;
    ReadyIsDisciplined(wheel.log);
    TimersAre(wheel, n);
    ghost var m := Now(wheel, n);
    var timo := wheel.Timeout();
    match outcome {
      case Reacted(reply) =>
        MayReact(behaviour, reply);
        ghost var es := wheel.Answer(reply.requests, n);
        deed := Reacting(es);
        ReactedTo(behaviour, m, reply, es, Now(wheel, n));
        return reply.ok, n, deed;
      case Slept =>
        // without a timeout a poll does not come back empty-handed
        if timo == -1 {
          Idle(behaviour, m, Wait(Slept));
          return true, n, Nothing;
        }
        ok, n', deed := Nap(wheel, timo, behaviour, n, patience);
    }
  }

  /** The computed sleep and the firings at its end. */
  method Nap(wheel: TimingWheel, timo: nat, behaviour: Behaviour, n: nat, ghost patience: nat)
      returns (ok: bool, n': nat, ghost deed: Deed)
    requires wheel.Valid() && Patient(behaviour, patience) && wheel.timers != 0
    requires timo % 10 == 0 && wheel.jiffy + timo / 10 <= JIFFIES
    requires wheel.jiffy >= 0 && IsNap(wheel.Pending(), wheel.jiffy, timo / 10)
    requires forall a :: a in wheel.members ==> wheel.Wait(a) >= timo / 10
    modifies wheel, wheel.heads, wheel.members
    ensures wheel.Valid() && fresh(wheel.members - old(wheel.members))
    ensures Does(behaviour, old(Now(wheel, n)), Wait(Slept), deed, Now(wheel, n'), ok)
    ensures Ready(old(wheel.log)) ==> Disciplined(wheel.log) && (ok ==> Ready(wheel.log))
  {
    hide *;
    TimersAre(wheel, n);
    ghost var m, ticks, fired, did := Now(wheel, n), timo / 10, [], [];
    assert timo * 1000 == ticks * 10000;
    ok, n', fired, did := wheel.Wake(timo, behaviour, n, patience);
    deed := Napping(ticks, fired, did);
    Napped(behaviour, m, ticks, fired, did, Now(wheel, n'), ok);
  }

  lemma MayReact(behaviour: Behaviour, reply: Reply)
    requires Possible(behaviour, Wait(Reacted(reply)))
    ensures forall i :: 0 <= i < |reply.requests| ==> Proper(reply.requests[i])
  {
  }

  lemma ReactedTo(behaviour: Behaviour, m: Moment, reply: Reply, es: seq<Event<Action>>, m': Moment)
    requires Answers(StageOf(m), reply.requests, es) && StageOf(m') == Answered(StageOf(m), reply.requests, es)
    requires m'.log == m.log + es
    ensures Does(behaviour, m, Wait(Reacted(reply)), Reacting(es), m', reply.ok)
  {
  }

  lemma Napped(behaviour: Behaviour, m: Moment, ticks: nat, fired: seq<Action>, did: seq<seq<Event<Action>>>,
               m': Moment, ok: bool)
    requires Timers(m) != map[] && IsNap(Timers(m), TicksIn(m.log) % TURN, ticks)
    requires var s := StageOf(m).(time := Timevals.Add(m.time, Timevals.Timeval(0, ticks * 10000)));
             Called(behaviour, s, fired, did, ok) && StageOf(m') == AfterCalls(behaviour, s, fired, did)
    requires m'.log == m.log + QuietTicks(ticks) + Blocks(fired, did) + if ok then [Swept] else []
    ensures Does(behaviour, m, Wait(Slept), Napping(ticks, fired, did), m', ok)
  {
  }

  /** `agent_start_unlocked`, for as many turns as are given or until there are neither connections nor timers. A
      failing callback ends it, and then for good: the agent does not become idle again. */
  method Start(wheel: TimingWheel, clock: nat -> Timevals.Timeval, turns: seq<Turn>, behaviour: Behaviour,
               ghost patience: nat)
      returns (ok: bool, ghost ms: seq<Moment>, ghost deeds: seq<Deed>)
    requires wheel.Valid() && Patient(behaviour, patience)
    requires forall j :: 0 <= j <= 2 * |turns| ==> Possible(behaviour, TaskAt(clock, turns, j))
    modifies wheel, wheel.heads, wheel.members
    ensures wheel.Valid() && fresh(wheel.members - old(wheel.members))
    ensures Story(behaviour, clock, turns, ms, deeds, ok) && deeds != []
    ensures ms[0] == old(Now(wheel, 0)) && ms[|ms| - 1] == Now(wheel, ms[|ms| - 1].calls)
    ensures ok ==> |deeds| % 2 == 1
    ensures ok && |deeds| < 2 * |turns| + 1 ==> wheel.timers == 0 && !turns[|deeds| / 2].connected
    ensures Ready(old(wheel.log)) ==> Disciplined(wheel.log) && (ok ==> Ready(wheel.log))
  {
    hide *;
    ghost var deed, was, mine := Nothing, wheel.log, wheel.members;
    var n, i := 0, 0;
    ms, deeds := [Now(wheel, 0)], [];
    ReadyIsDisciplined(was);
    StoryBegins(behaviour, clock, turns, ms[0]);
    FirstTask(clock, turns, ms[0]);
    ok, n, deed := Update(wheel, clock, behaviour, n, patience);
    StoryMore(behaviour, clock, turns, ms, deeds, deed, Now(wheel, n), ok);
    ms, deeds := ms + [Now(wheel, n)], deeds + [deed];
    while ok && i < |turns| && (turns[i].connected || wheel.timers != 0)
      invariant wheel.Valid() && fresh(wheel.members - mine) && i <= |turns|
      invariant Story(behaviour, clock, turns, ms, deeds, ok)
      invariant |ms| == |deeds| + 1 && ms[0] == old(Now(wheel, 0)) && ms[|ms| - 1] == Now(wheel, n)
      invariant if ok then |deeds| == 2 * i + 1 else deeds != []
      invariant Ready(was) ==> Disciplined(wheel.log) && (ok ==> Ready(wheel.log))
      decreases |turns| - i, ok
    {
      TurnTasks(clock, turns, i);
      TimersAre(wheel, n);
      MayGoOn(turns, Now(wheel, n), i);
      ok, n, deed := Poll(wheel, turns[i].outcome, behaviour, n, patience);
      StoryMore(behaviour, clock, turns, ms, deeds, deed, Now(wheel, n), ok);
      ms, deeds := ms + [Now(wheel, n)], deeds + [deed];
      if ok {
        MayCatchUpAgain(turns, Now(wheel, n), i);
        ok, n, deed := Update(wheel, turns[i].clock, behaviour, n, patience);
        StoryMore(behaviour, clock, turns, ms, deeds, deed, Now(wheel, n), ok);
        ms, deeds := ms + [Now(wheel, n)], deeds + [deed];
        i := i + 1;
      }
    }
  }

  lemma FirstTask(clock: nat -> Timevals.Timeval, turns: seq<Turn>, m: Moment)
    ensures TaskAt(clock, turns, 0) == CatchUp(clock) && GoesOn(turns, m, 0)
  {
  }

  lemma MayGoOn(turns: seq<Turn>, m: Moment, i: nat)
    requires i < |turns| && (turns[i].connected || Timers(m) != map[])
    ensures GoesOn(turns, m, 2 * i + 1)
  {
  }

  lemma MayCatchUpAgain(turns: seq<Turn>, m: Moment, i: nat)
    requires i < |turns|
    ensures GoesOn(turns, m, 2 * i + 2)
  {
  }

  lemma TurnTasks(clock: nat -> Timevals.Timeval, turns: seq<Turn>, i: nat)
    requires i < |turns|
    ensures TaskAt(clock, turns, 2 * i + 1) == Wait(turns[i].outcome)
    ensures TaskAt(clock, turns, 2 * i + 2) == CatchUp(turns[i].clock)
  {
  }

  /** Main result: the life of an agent, from a new wheel through any requests made before it is started, any
      outcomes of its polls, any clock and any callbacks. It makes exactly the ticks of its naps and of its looks at
      the clock. Every timer that is asked for a tick or more ahead, that neither a request nor a callback cancels,
      and whose tick has come, has fired exactly once, at its tick. Nothing but requests and callbacks schedules or
      cancels. */
  method Life(time: Timevals.Timeval, before: seq<Request>, clock: nat -> Timevals.Timeval, turns: seq<Turn>,
              behaviour: Behaviour, ghost patience: nat)
      returns (ok: bool, wheel: TimingWheel, ghost booked: seq<Event<Action>>,
               ghost ms: seq<Moment>, ghost deeds: seq<Deed>)
    requires Timevals.Normal(time) && Patient(behaviour, patience)
    requires forall i :: 0 <= i < |before| ==> Proper(before[i])
    requires forall j :: 0 <= j <= 2 * |turns| ==> Possible(behaviour, TaskAt(clock, turns, j))
    ensures wheel.Valid() && Answers(Stage([], time, 0), before, booked)
    ensures Story(behaviour, clock, turns, ms, deeds, ok) && deeds != []
    ensures ms[0] == Moment(booked, TimeAsked(time, before), 0) && ms[|ms| - 1] == Now(wheel, ms[|ms| - 1].calls)
    ensures ok ==> |deeds| % 2 == 1
    ensures ok && |deeds| < 2 * |turns| + 1 ==> wheel.timers == 0 && !turns[|deeds| / 2].connected
    ensures forall j :: 0 <= j < |deeds| && j % 2 == 1 ==> turns[j / 2].connected || Timers(ms[j]) != map[]
    ensures TicksIn(wheel.log) == AllTicks(deeds) && Timeless(wheel.log) == booked + AllEvents(deeds)
    ensures forall i | 0 <= i < |wheel.log| && wheel.log[i].Scheduled? && wheel.log[i].delay >= 1 ::
              var due := TicksIn(wheel.log[..i]) + wheel.log[i].delay;
              && (TicksIn(wheel.log) > due || (TicksIn(wheel.log) == due && ok))
              && (forall j :: i < j < |wheel.log| ==> wheel.log[j] != Cancelled(wheel.log[i].timer))
              ==> FiresAt(wheel.log, i, due)
  {
    hide *;
    wheel := new TimingWheel(time);
    NewWheel(time, wheel.Here(0));
    ghost var s := wheel.Here(0);
    booked := wheel.Answer(before, 0);
    assert wheel.log == booked;
    JustBooked(s, before, booked, Now(wheel, 0));
    ok, ms, deeds := Start(wheel, clock, turns, behaviour, patience);
    StoryAdds(behaviour, clock, turns, ms, deeds, ok);
    StoryFacts(behaviour, clock, turns, ms, deeds, ok);
    SincePast(booked, wheel.log, AllEvents(deeds));
    forall i | 0 <= i < |wheel.log| && wheel.log[i].Scheduled? && wheel.log[i].delay >= 1
      ensures var due := TicksIn(wheel.log[..i]) + wheel.log[i].delay;
              && (TicksIn(wheel.log) > due || (TicksIn(wheel.log) == due && ok))
              && (forall j :: i < j < |wheel.log| ==> wheel.log[j] != Cancelled(wheel.log[i].timer))
              ==> FiresAt(wheel.log, i, due)
    {
      var due := TicksIn(wheel.log[..i]) + wheel.log[i].delay;
      if (TicksIn(wheel.log) > due || (TicksIn(wheel.log) == due && ok)) &&
         forall j :: i < j < |wheel.log| ==> wheel.log[j] != Cancelled(wheel.log[i].timer)
      {
        wheel.FiresOnTime(i);
      }
    }
  }

  lemma StoryFacts(behaviour: Behaviour, clock: nat -> Timevals.Timeval, turns: seq<Turn>,
                    ms: seq<Moment>, deeds: seq<Deed>, ok: bool)
    requires Story(behaviour, clock, turns, ms, deeds, ok)
    ensures |ms| == |deeds| + 1 && |deeds| <= 2 * |turns| + 1
    ensures forall j :: 0 <= j < |deeds| && j % 2 == 1 ==> turns[j / 2].connected || Timers(ms[j]) != map[]
  {
    forall j | 0 <= j < |deeds| && j % 2 == 1 ensures turns[j / 2].connected || Timers(ms[j]) != map[] {
      assert GoesOn(turns, ms[j], j);
    }
  }

  lemma NewWheel(time: Timevals.Timeval, s: Stage)
    requires s.past == Timeless<Action>([]) && s.time == time && s.calls == 0
    ensures s == Stage([], time, 0) && Ready<Action>([])
  {
  }

  lemma JustBooked(s: Stage, requests: seq<Request>, booked: seq<Event<Action>>, m: Moment)
    requires Answers(s, requests, booked) && s.past == [] && s.calls == m.calls == 0 && m.log == booked
    requires StageOf(m) == Answered(s, requests, booked)
    ensures m == Moment(booked, TimeAsked(s.time, requests), 0)
    ensures Timeless(booked) == booked && TicksIn(booked) == 0
  {
    AnswersAreRequests(s, requests, booked);
    TimelessRequests(booked);
    assert [] + booked == booked;
    NoTicksInRequests([], booked);
  }
}
