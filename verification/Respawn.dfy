/** The supervisor's respawn throttle: a burst of attempts, a delay, a burst, a delay, ... and in the end it gives
    up. */
module Respawn {

  /** The settings: attempts in a burst, bursts before giving up (0 for no limit), and how long a run has to last. */
  datatype Config = Config(attempts: int, limit: nat, acceptable: int)

  datatype Verdict = Started | GaveUp

  /** What has happened to the client, oldest first. A client ends at time `now`; if there was a delay, it ended at
      `after`. */
  datatype Event = Ended(now: int, after: int) | Usr1

  /** The fields of the supervisor that matter, and what they are meant to count since they were last reset. */
  datatype Throttle = Throttle(spawnTime: int, attempt: nat, burst: nat, failures: nat, delays: nat, gaveUp: bool)

  function PerBurst(c: Config): nat {
    if c.attempts < 1 then 1 else c.attempts
  }

  predicate TooShort(c: Config, s: Throttle, now: int) {
    s.spawnTime != 0 && (if now < s.spawnTime then 0 else now - s.spawnTime) < c.acceptable
  }

  function Step(c: Config, s: Throttle, e: Event): Throttle {
    if s.gaveUp then s
    else match e
      case Usr1 => s.(spawnTime := 0, attempt := 0, burst := 0, failures := 0, delays := 0)
      case Ended(now, after) =>
        if !TooShort(c, s, now) then s.(spawnTime := now)
        else if s.attempt + 1 < c.attempts then
          s.(spawnTime := now, attempt := s.attempt + 1, failures := s.failures + 1)
        else if c.limit != 0 && s.burst + 1 >= c.limit then
          s.(spawnTime := if now < s.spawnTime then now else s.spawnTime,
             attempt := s.attempt + 1, burst := s.burst + 1, failures := s.failures + 1, gaveUp := true)
        else s.(spawnTime := after, attempt := 0, burst := if c.limit != 0 then s.burst + 1 else s.burst,
                failures := s.failures + 1, delays := s.delays + 1)
  }

  function Run(c: Config, s: Throttle, es: seq<Event>): Throttle {
    if es == [] then s else Step(c, Run(c, s, es[..|es| - 1]), es[|es| - 1])
  }

  const START := Throttle(0, 0, 0, 0, 0, false)

  /** Failures are the attempts of this burst and the bursts that have been sat out. */
  ghost predicate Inv(c: Config, s: Throttle) {
    && (!s.gaveUp ==> s.failures == s.attempt + PerBurst(c) * s.delays && s.attempt < PerBurst(c))
    && (!s.gaveUp && c.limit != 0 ==> s.burst == s.delays < c.limit)
    && (s.gaveUp ==> c.limit != 0 && s.delays == c.limit - 1 && s.failures == PerBurst(c) * c.limit)
  }

  lemma StepKeeps(c: Config, s: Throttle, e: Event)
    requires Inv(c, s)
    ensures Inv(c, Step(c, s, e))
  {
    var a := PerBurst(c);
    assert a * (s.delays + 1) == a * s.delays + a;
    if c.limit != 0 && s.delays + 1 == c.limit {
      assert a * c.limit == a * (s.delays + 1);
    }
  }

  lemma {:induction false} RunKeeps(c: Config, es: seq<Event>)
    ensures Inv(c, Run(c, START, es))
  {
    if es != [] {
      RunKeeps(c, es[..|es| - 1]);
      StepKeeps(c, Run(c, START, es[..|es| - 1]), es[|es| - 1]);
    }
  }

  /** In every run, k clients in a row that end too soon have cost one delay for every full burst of attempts, and
      with a limit the supervisor gives up at exactly the last failure of the last burst, neither earlier nor later. */
  lemma FailuresCost(c: Config, es: seq<Event>)
    ensures var s, a := Run(c, START, es), PerBurst(c);
            && (!s.gaveUp ==> s.delays == s.failures / a)
            && (c.limit != 0 ==> (s.gaveUp <==> s.failures == a * c.limit) && s.failures <= a * c.limit)
            && (c.limit == 0 ==> !s.gaveUp)
  {
    RunKeeps(c, es);
    var s, a := Run(c, START, es), PerBurst(c);
    if !s.gaveUp {
      Quotient(s.failures, a, s.delays, s.attempt);
      if c.limit != 0 {
        Below(a, s.delays, c.limit);
      }
    }
  }

  // ----- which runs are too short

  /** When the client that runs after these events was started, 0 if the supervisor was just started or reset; and
      how many clients since then have lasted less than `acceptable`. After every full burst of these there is a
      delay, and the next client is started when it ends, else when the last one has ended. */
  function Account(c: Config, es: seq<Event>): (int, nat) {
    if es == [] then (0, 0)
    else
      var (started, count) := Account(c, es[..|es| - 1]);
      match es[|es| - 1]
      case Usr1 => (0, 0)
      case Ended(now, after) =>
        var lasted := if now < started then 0 else now - started;
        if started == 0 || lasted >= c.acceptable then (now, count)
        else if (count + 1) % PerBurst(c) == 0 then (after, count + 1)
        else (now, count + 1)
  }

  /** The law is about these: as long as the supervisor has not given up, its failures are the clients that lasted
      less than `acceptable`; and it has given up if and only if there were once as many of these as all bursts
      allow. */
  lemma {:induction false} FailuresAre(c: Config, es: seq<Event>)
    ensures var s, (started, count) := Run(c, START, es), Account(c, es);
            !s.gaveUp ==> s.failures == count && s.spawnTime == started
    ensures Run(c, START, es).gaveUp <==>
            exists i :: 0 <= i <= |es| && c.limit != 0 && Account(c, es[..i]).1 == PerBurst(c) * c.limit
  {
    if es == [] {
      if c.limit != 0 {
        Below(PerBurst(c), 0, c.limit);
      }
    } else {
      var init, e := es[..|es| - 1], es[|es| - 1];
      FailuresAre(c, init);
      RunKeeps(c, init);
      FailuresCost(c, es);
      var s := Run(c, START, init);
      if !s.gaveUp && e.Ended? && TooShort(c, s, e.now) {
        BurstEnds(PerBurst(c), s.attempt, s.delays);
      }
      Looking(c, es);
    }
  }

  /** Once more than before, or just now. */
  lemma Looking(c: Config, es: seq<Event>)
    requires es != []
    ensures var init, all := es[..|es| - 1], PerBurst(c) * c.limit;
            (exists i :: 0 <= i <= |es| && c.limit != 0 && Account(c, es[..i]).1 == all) <==>
            (exists i :: 0 <= i <= |init| && c.limit != 0 && Account(c, init[..i]).1 == all) ||
              (c.limit != 0 && Account(c, es).1 == all)
  {
    var init, all := es[..|es| - 1], PerBurst(c) * c.limit;
    hide Account, PerBurst;
    assert es[..|es|] == es;
    assert forall i :: 0 <= i <= |init| ==> init[..i] == es[..i];
    if i :| 0 <= i <= |es| && c.limit != 0 && Account(c, es[..i]).1 == all {
      assert i == |es| || init[..i] == es[..i];
    }
    if i :| 0 <= i <= |init| && c.limit != 0 && Account(c, init[..i]).1 == all {
      assert Account(c, es[..i]).1 == all;
    }
  }

  lemma BurstEnds(a: nat, attempt: nat, delays: nat)
    requires a >= 1 && attempt < a
    ensures (attempt + a * delays + 1) % a == 0 <==> attempt + 1 == a
  {
    if attempt + 1 == a {
      Multiple(a, delays + 1, 0);
      assert a * (delays + 1) == a * delays + a;
    } else {
      Multiple(a, delays, attempt + 1);
    }
  }

  lemma Multiple(a: nat, q: nat, r: nat)
    requires a >= 1 && r < a
    ensures (a * q + r) % a == r
  {
    Quotient(a * q + r, a, q, r);
  }

  /** A client that lasts long enough costs nothing: no attempt, no delay, no giving up. Any other counts as a
      failure. */
  lemma LongRunsAreFree(c: Config, s: Throttle, now: int, after: int)
    requires !s.gaveUp && s.spawnTime != 0
    ensures var t, lasted := Step(c, s, Ended(now, after)), if now < s.spawnTime then 0 else now - s.spawnTime;
            if lasted >= c.acceptable then t == s.(spawnTime := now)
            else t.failures == s.failures + 1 && (t.attempt == s.attempt + 1 || t.delays == s.delays + 1)
  {
  }

  lemma Quotient(n: nat, a: nat, q: nat, r: nat)
    requires a >= 1 && n == r + a * q && r < a
    ensures n / a == q
  {
    assert n == q * a + r;
    if n / a < q {
      Below(a, n / a, q);
    } else if n / a > q {
      Below(a, q, n / a);
    }
  }

  lemma Below(a: nat, x: nat, y: nat)
    requires x < y
    ensures a * x + a <= a * y
  {
    assert a * (x + 1) == a * x + a;
    assert a * (x + 1) <= a * y;
  }

  // ----- the supervisor

  class Supervisor {
    const config: Config
    var pid: int
    var spawnTime: int
    var attempt: int
    var burst: int
    ghost var failures: nat
    ghost var delays: nat
    ghost var gaveUp: bool

    ghost predicate Valid()
      reads this
    {
      attempt >= 0 && burst >= 0 && Inv(config, State())
    }

    ghost function State(): Throttle
      requires attempt >= 0 && burst >= 0
      reads this
    {
      Throttle(spawnTime, attempt, burst, failures, delays, gaveUp)
    }

    constructor (config: Config)
      ensures Valid() && State() == START && pid == 0 && this.config == config
    {
      this.config := config;
      pid, spawnTime, attempt, burst := 0, 0, 0, 0;
      failures, delays, gaveUp := 0, 0, false;
    }

    /** `usr1`: the counters are reset while a client runs, and only then; `self` is the supervisor's own process. */
    method HandleUsr1(self: int)
      requires attempt >= 0 && burst >= 0 && !gaveUp
      modifies `spawnTime, `attempt, `burst, `failures, `delays
      ensures attempt >= 0 && burst >= 0
      ensures State() == if pid != 0 && pid != -1 && pid != self then Step(config, old(State()), Usr1) else old(State())
      ensures old(Valid()) ==> Valid()
    {
      if pid != 0 && pid != -1 && pid != self {
        spawnTime, attempt, burst := 0, 0, 0;
        failures, delays := 0, 0;
        StepKeeps(config, START, Usr1);
      }
    }

    /** `examine_child` and `spawn_child`: the client is gone, so during a delay `pid` is 0 and the SIGUSR1 signals
        handled there, however many, change nothing; then a new client, with process id `child`, is started, or the
        supervisor gives up. */
    method Respawn(now: int, after: int, child: int, self: int, signals: nat) returns (verdict: Verdict)
      requires Valid() && !gaveUp
      modifies `pid, `spawnTime, `attempt, `burst, `failures, `delays, `gaveUp
      ensures Valid() && State() == Step(config, old(State()), Ended(now, after))
      ensures verdict == if gaveUp then GaveUp else Started
      ensures pid == if gaveUp then 0 else child
    {
      StepKeeps(config, State(), Ended(now, after));
      hide Inv;
      pid := 0;
      var time := now;
      if spawnTime != 0 {
        if time < spawnTime {
          spawnTime := time;
        }
        if time - spawnTime < config.acceptable {
          failures := failures + 1;
          attempt := attempt + 1;
          if attempt >= config.attempts {
            if config.limit != 0 {
              burst := burst + 1;
              if burst >= config.limit {
                gaveUp := true;
                return GaveUp;
              }
            }
            ghost var waiting := State();
            for i := 0 to signals
              invariant pid == 0 && attempt >= 0 && burst >= 0 && !gaveUp && State() == waiting
            {
              HandleUsr1(self);
            }
            time := after;
            delays := delays + 1;
            attempt := 0;
          }
        }
      }
      spawnTime := time;
      pid := child;
      verdict := Started;
    }
  }
}
