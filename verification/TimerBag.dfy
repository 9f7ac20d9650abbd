/** What a timing wheel speeds up: a bag of pending timers, each with the number of
    ticks it still has to wait, and the runs such a bag can go through. */
module TimerBag {

  /** Ticks in one turn of the finest wheel. */
  const TURN: nat := 100

  /** Ticks left for every pending timer. */
  type Bag<K> = map<K, nat>

  /** One tick. A timer that was due and is passed over waits for the jiffy wheel to come round again. */
  function Advance<K>(b: Bag<K>): Bag<K> {
    map k | k in b :: if b[k] == 0 then TURN - 1 else b[k] - 1
  }

  function Due<K>(b: Bag<K>): set<K> {
    set k | k in b && b[k] == 0
  }

  /** One tick whose due timers all fire. */
  function Tick<K>(b: Bag<K>): Bag<K> {
    Advance(b) - Due(Advance(b))
  }

  function Ticks<K>(b: Bag<K>, n: nat): Bag<K> {
    if n == 0 then b else Tick(Ticks(b, n - 1))
  }

  /** What can happen to a wheel. `Swept` marks a moment when nothing is left due. */
  datatype Event<K> = Scheduled(timer: K, delay: nat) | Cancelled(timer: K) | Advanced | Fired(timer: K) | Swept

  ghost predicate Allowed<K>(b: Bag<K>, e: Event<K>) {
    match e
    case Scheduled(k, _) => k !in b
    case Cancelled(k) => k in b
    case Advanced => true
    case Fired(k) => k in Due(b)
    case Swept => Due(b) == {}
  }

  function Apply<K>(b: Bag<K>, e: Event<K>): Bag<K> {
    match e
    case Scheduled(k, d) => b[k := d]
    case Cancelled(k) => b - {k}
    case Advanced => Advance(b)
    case Fired(k) => b - {k}
    case Swept => b
  }

  function After<K>(b: Bag<K>, es: seq<Event<K>>): Bag<K> {
    if es == [] then b else Apply(After(b, es[..|es| - 1]), es[|es| - 1])
  }

  ghost predicate IsRun<K>(b: Bag<K>, es: seq<Event<K>>) {
    es == [] ||
    (IsRun(b, es[..|es| - 1]) && Allowed(After(b, es[..|es| - 1]), es[|es| - 1]))
  }

  /** The number of ticks in a run. */
  function TicksIn<K>(es: seq<Event<K>>): nat {
    if es == [] then 0
    else TicksIn(es[..|es| - 1]) + if es[|es| - 1].Advanced? then 1 else 0
  }

  /** Every due timer is given its chance: between two ticks there is a moment when nothing is due. */
  ghost predicate Disciplined<K>(es: seq<Event<K>>) {
    forall i, j :: 0 <= i < j < |es| && es[i].Advanced? && es[j].Advanced? ==>
      exists m :: i < m < j && es[m].Swept?
  }

  /** The next event may be a tick. */
  ghost predicate Ready<K>(es: seq<Event<K>>) {
    Disciplined(es + [Advanced])
  }

  /** Ticks left after `n` ticks for a timer that had `d` ticks to wait and was neither fired nor cancelled. */
  function Left(d: nat, n: nat): nat {
    if n <= d then d - n else TURN - 1 - (n - d - 1) % TURN
  }

  /** Does timer `k` fire or get cancelled in `es`? */
  ghost predicate Ended<K>(es: seq<Event<K>>, k: K) {
    exists i :: 0 <= i < |es| && (es[i] == Fired(k) || es[i] == Cancelled(k))
  }

  lemma Extend<K>(b: Bag<K>, es: seq<Event<K>>, e: Event<K>)
    requires IsRun(b, es) && Allowed(After(b, es), e)
    ensures IsRun(b, es + [e])
    ensures After(b, es + [e]) == Apply(After(b, es), e)
    ensures TicksIn(es + [e]) == TicksIn(es) + if e.Advanced? then 1 else 0
  {
    assert (es + [e])[..|es|] == es;
  }

  lemma {:induction false} RunPrefix<K>(b: Bag<K>, es: seq<Event<K>>, i: nat)
    requires i <= |es| && IsRun(b, es)
    ensures IsRun(b, es[..i])
    ensures i < |es| ==> Allowed(After(b, es[..i]), es[i])
  {
    if i < |es| {
      if i < |es| - 1 {
        RunPrefix(b, es[..|es| - 1], i);
        assert es[..|es| - 1][..i] == es[..i];
      }
    } else {
      assert es[..i] == es;
    }
  }

  /** In any run at all, a pending timer's wait is a function of its delay and the ticks since it was scheduled. */
  lemma {:induction false} PendingWait<K>(b: Bag<K>, k: K, es: seq<Event<K>>)
    requires k in b && IsRun(b, es) && !Ended(es, k)
    ensures k in After(b, es) && After(b, es)[k] == Left(b[k], TicksIn(es))
  {
    if es != [] {
      var init, last := es[..|es| - 1], es[|es| - 1];
      NotEndedPrefix(es, k, |es| - 1);
      PendingWait(b, k, init);
      assert last != Fired(k) && last != Cancelled(k);
      if last.Advanced? {
        var d, n := b[k], TicksIn(init);
        LeftStep(d, n);
      }
    }
  }

  lemma LeftStep(d: nat, n: nat)
    ensures Left(d, n + 1) == if Left(d, n) == 0 then TURN - 1 else Left(d, n) - 1
  {
    if n > d {
      var x := n - d - 1;
      assert (x + 1) % TURN == if x % TURN == TURN - 1 then 0 else x % TURN + 1;
    }
  }

  /** Whatever the callbacks do, a timer can fire at a tick exactly when that tick is the D-th or
      a whole number of turns of the jiffy wheel after it. */
  lemma FiringTicks<K>(b: Bag<K>, k: K, es: seq<Event<K>>)
    requires k in b && IsRun(b, es) && !Ended(es, k)
    ensures Allowed(After(b, es), Fired(k)) <==>
            TicksIn(es) >= b[k] && (TicksIn(es) - b[k]) % TURN == 0
  {
    hide IsRun, After, Ended, TicksIn;
    PendingWait(b, k, es);
    var d, n := b[k], TicksIn(es);
    if n > d {
      var x := n - d - 1;
      assert (x + 1) % TURN == if x % TURN == TURN - 1 then 0 else x % TURN + 1;
    }
  }

  /** In a disciplined run a timer that has D >= 1 ticks to wait and is never cancelled fires, and does so
      when exactly D ticks have gone by: it is still pending at every earlier moment, and no run
      gets to tick D + 1, or to the sweep after tick D, without firing it. */
  lemma OnTime<K>(b: Bag<K>, k: K, es: seq<Event<K>>)
    requires k in b && b[k] >= 1 && IsRun(b, es) && Disciplined(es) && !Ended(es, k)
    ensures TicksIn(es) <= b[k] && k in After(b, es) && After(b, es)[k] == b[k] - TicksIn(es)
    ensures Allowed(After(b, es), Fired(k)) <==> TicksIn(es) == b[k]
    ensures TicksIn(es) == b[k] ==> !Allowed(After(b, es), Swept)
    ensures TicksIn(es) == b[k] ==> !Ready(es)
  {
    NoOverrun(b, k, es);
    PendingWait(b, k, es);
    if TicksIn(es) == b[k] {
      assert k in Due(After(b, es));
      var i := LastTick(es);
      var longer := es + [Advanced];
      assert longer[i].Advanced? && longer[|es|].Advanced?;
      forall m | i < m < |es| ensures !longer[m].Swept? {
        NoSweepWhileDue(b, k, es, i, m);
      }
    }
  }

  /** The position of the last tick of a run. */
  lemma {:induction false} LastTick<K>(es: seq<Event<K>>) returns (i: nat)
    requires TicksIn(es) > 0
    ensures i < |es| && es[i].Advanced?
    ensures forall j :: i < j < |es| ==> !es[j].Advanced?
    ensures TicksIn(es[..i + 1]) == TicksIn(es)
  {
    if es[|es| - 1].Advanced? {
      i := |es| - 1;
      assert es[..i + 1] == es;
    } else {
      i := LastTick(es[..|es| - 1]);
      assert es[..|es| - 1][..i + 1] == es[..i + 1];
      forall j | i < j < |es| ensures !es[j].Advanced? {
        if j < |es| - 1 {
          assert es[j] == es[..|es| - 1][j];
        }
      }
    }
  }

  lemma {:induction false} NoTicksBetween<K>(es: seq<Event<K>>, i: nat, m: nat)
    requires i <= m <= |es| && forall j :: i <= j < m ==> !es[j].Advanced?
    ensures TicksIn(es[..m]) == TicksIn(es[..i])
  {
    if i < m {
      NoTicksBetween(es, i, m - 1);
      assert es[..m][..m - 1] == es[..m - 1];
    }
  }

  lemma NotEndedPrefix<K>(es: seq<Event<K>>, k: K, m: nat)
    requires m <= |es| && !Ended(es, k)
    ensures !Ended(es[..m], k)
  {
    forall i | 0 <= i < m ensures es[..m][i] != Fired(k) && es[..m][i] != Cancelled(k) {
      assert es[..m][i] == es[i];
    }
  }

  /** After the tick that makes `k` due nothing is swept while `k` stays pending. */
  lemma NoSweepWhileDue<K>(b: Bag<K>, k: K, es: seq<Event<K>>, i: nat, m: nat)
    requires k in b && IsRun(b, es) && !Ended(es, k) && TicksIn(es) == b[k]
    requires i < m < |es| && es[i].Advanced?
    requires forall j :: i < j < |es| ==> !es[j].Advanced?
    ensures !es[m].Swept?
  {
    NoTicksBetween(es, i + 1, m);
    NoTicksBetween(es, i + 1, |es|);
    assert es[..|es|] == es;
    RunPrefix(b, es, m);
    NotEndedPrefix(es, k, m);
    PendingWait(b, k, es[..m]);
    assert k in Due(After(b, es[..m]));
  }

  /** A disciplined run cannot tick past a pending timer. */
  lemma {:induction false} NoOverrun<K>(b: Bag<K>, k: K, es: seq<Event<K>>)
    requires k in b && b[k] >= 1 && IsRun(b, es) && Disciplined(es) && !Ended(es, k)
    ensures TicksIn(es) <= b[k]
  {
    if es != [] {
      var init := es[..|es| - 1];
      RunPrefix(b, es, |es| - 1);
      NotEndedPrefix(es, k, |es| - 1);
      DisciplinedPrefix(es, |es| - 1);
      NoOverrun(b, k, init);
      if es[|es| - 1].Advanced? && TicksIn(init) == b[k] {
        var i := LastTick(init);
        assert es[i].Advanced? && es[|es| - 1].Advanced?;
        var m :| i < m < |es| - 1 && es[m].Swept?;
        NoSweepWhileDue(b, k, init, i, m);
      }
    }
  }

  lemma DisciplinedPrefix<K>(es: seq<Event<K>>, m: nat)
    requires m <= |es| && Disciplined(es)
    ensures Disciplined(es[..m])
  {
    var p := es[..m];
    forall i, j | 0 <= i < j < |p| && p[i].Advanced? && p[j].Advanced?
      ensures exists q :: i < q < j && p[q].Swept?
    {
      assert es[i].Advanced? && es[j].Advanced?;
      var q :| i < q < j && es[q].Swept?;
      assert p[q].Swept?;
    }
  }

  /** Once fired or cancelled a timer never fires again (unless the same handle is scheduled anew). */
  lemma {:induction false} EndsOnce<K>(b: Bag<K>, k: K, es: seq<Event<K>>)
    requires k !in b && IsRun(b, es)
    requires forall i :: 0 <= i < |es| ==> !(es[i].Scheduled? && es[i].timer == k)
    ensures k !in After(b, es) && !Ended(es, k)
  {
    if es != [] {
      var init := es[..|es| - 1];
      forall i | 0 <= i < |init| ensures !(init[i].Scheduled? && init[i].timer == k) {
        assert init[i] == es[i];
      }
      EndsOnce(b, k, init);
      forall i | 0 <= i < |es| ensures es[i] != Fired(k) && es[i] != Cancelled(k) {
        if i < |init| {
          assert es[i] == init[i];
        }
      }
    }
  }

  lemma {:induction false} RunSuffix<K>(b: Bag<K>, es: seq<Event<K>>, i: nat)
    requires i <= |es| && IsRun(b, es)
    ensures IsRun(After(b, es[..i]), es[i..])
    ensures After(After(b, es[..i]), es[i..]) == After(b, es)
  {
    if i == |es| {
      assert es[..i] == es;
    } else {
      var init := es[..|es| - 1];
      RunSuffix(b, init, i);
      assert init[..i] == es[..i];
      assert es[i..][..|es| - i - 1] == init[i..];
    }
  }

  /** The first moment `k` fires or is cancelled. */
  lemma {:induction false} FirstEnd<K>(es: seq<Event<K>>, k: K) returns (i: nat)
    requires Ended(es, k)
    ensures i < |es| && (es[i] == Fired(k) || es[i] == Cancelled(k))
    ensures !Ended(es[..i], k)
  {
    var init := es[..|es| - 1];
    assert forall j :: 0 <= j < |init| ==> es[j] == init[j];
    if Ended(init, k) {
      i := FirstEnd(init, k);
      assert init[..i] == es[..i];
    } else {
      i := |es| - 1;
    }
  }

  /** Nothing of `k` happens after the event that ends it. */
  lemma EndsOnlyOnce<K>(b: Bag<K>, k: K, es: seq<Event<K>>, i: nat)
    requires IsRun(b, es) && i < |es| && es[i] == Fired(k) && !Ended(es[..i], k)
    requires forall j :: 0 <= j < |es| ==> !(es[j].Scheduled? && es[j].timer == k)
    ensures forall j :: 0 <= j < |es| && es[j] == Fired(k) ==> j == i
  {
    RunPrefix(b, es, i + 1);
    RunSuffix(b, es, i + 1);
    assert es[..i + 1][..i] == es[..i];
    var rest := es[i + 1..];
    assert forall j :: i < j < |es| ==> es[j] == rest[j - i - 1];
    assert forall j :: 0 <= j < i ==> es[j] == es[..i][j];
    EndsOnce(After(b, es[..i + 1]), k, rest);
  }

  /** Main result: in every disciplined run that lasts long enough, a timer with D >= 1 ticks to wait that
      is not cancelled fires exactly once, with exactly D ticks gone by. `D` is unbounded. */
  lemma FiresOnceOnTime<K>(b: Bag<K>, k: K, es: seq<Event<K>>)
    requires k in b && b[k] >= 1 && IsRun(b, es) && Disciplined(es)
    requires forall i :: 0 <= i < |es| ==> es[i] != Cancelled(k) && !(es[i].Scheduled? && es[i].timer == k)
    requires TicksIn(es) > b[k] || (TicksIn(es) == b[k] && Ready(es))
    ensures exists i :: 0 <= i < |es| && es[i] == Fired(k) && TicksIn(es[..i]) == b[k] &&
                        forall j :: 0 <= j < |es| && es[j] == Fired(k) ==> j == i
  {
    if !Ended(es, k) {
      OnTime(b, k, es);
    }
    var i := FirstEnd(es, k);
    RunPrefix(b, es, i);
    DisciplinedPrefix(es, i);
    OnTime(b, k, es[..i]);
    EndsOnlyOnce(b, k, es, i);
  }
}
