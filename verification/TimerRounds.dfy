/** Rounds of a wheel: the events of single ticks, of sweeps, and of a jump over ticks at which nothing is due. */
module TimerRounds {
  import opened TimerBag

  function Firings<K>(ks: seq<K>): seq<Event<K>> {
    if ks == [] then [] else Firings(ks[..|ks| - 1]) + [Fired(ks[|ks| - 1])]
  }

  /** From bag `b` the due timers `ks` have fired, each of them once, which left bag `c`. */
  ghost predicate Gone<K>(b: Bag<K>, ks: seq<K>, c: Bag<K>) {
    && (forall i :: 0 <= i < |ks| ==> ks[i] in Due(b))
    && (forall i, j :: 0 <= i < j < |ks| ==> ks[i] != ks[j])
    && c == b - (set k | k in ks)
  }

  lemma NoneGone<K>(b: Bag<K>)
    ensures Gone(b, [], b) && Firings<K>([]) == []
  {
  }

  lemma GoneMore<K>(b: Bag<K>, ks: seq<K>, c: Bag<K>, k: K)
    requires Gone(b, ks, c) && k in Due(c)
    ensures Gone(b, ks + [k], c - {k})
  {
  }

  lemma DueLess<K>(b: Bag<K>, k: K)
    requires k in b
    ensures Due(b - {k}) == Due(b) - {k}
  {
  }

  lemma DueMore<K>(b: Bag<K>, k: K, d: nat)
    requires d >= 1
    ensures Due(b[k := d]) <= Due(b)
  {
  }

  /** Once nothing is due any more the round is a whole tick. */
  lemma AllGone<K>(b: Bag<K>, ks: seq<K>, c: Bag<K>)
    requires Gone(Advance(b), ks, c) && Due(c) == {}
    ensures c == Tick(b)
  {
    var d := Advance(b);
    forall k | k in Due(d) ensures k in ks {
      assert k !in ks ==> k in Due(c);
    }
    assert (set k | k in ks) == Due(d);
  }

  lemma NoTicks<K>(b: Bag<K>)
    ensures Ticks(b, 0) == b
  {
  }

  lemma {:induction false} MoreTicks<K>(b: Bag<K>, m: nat, c: Bag<K>, n: nat, d: Bag<K>)
    requires c == Ticks(b, m) && d == Ticks(c, n)
    ensures d == Ticks(b, m + n)
  {
    hide Tick;
    if n > 0 {
      MoreTicks(b, m, c, n - 1, Ticks(c, n - 1));
    }
  }

  lemma OneMoreTick<K>(b: Bag<K>, n: nat)
    ensures Tick(Ticks(b, n)) == Ticks(b, n + 1)
  {
  }

  lemma ReadyAdvanced<K>(es: seq<Event<K>>)
    requires Ready(es)
    ensures Disciplined(es + [Advanced])
  {
  }

  /** `n` ticks with nothing due in between. */
  function QuietTicks<K>(n: nat): seq<Event<K>> {
    if n == 0 then [] else if n == 1 then [Advanced] else QuietTicks(n - 1) + [Swept, Advanced]
  }

  lemma ReadyIsDisciplined<K>(es: seq<Event<K>>)
    ensures Ready(es) ==> Disciplined(es)
  {
    if Ready(es) {
      DisciplinedPrefix(es + [Advanced], |es|);
      assert (es + [Advanced])[..|es|] == es;
    }
  }

  lemma DisciplinedMore<K>(es: seq<Event<K>>, e: Event<K>)
    requires Disciplined(es) && !e.Advanced?
    ensures Disciplined(es + [e])
  {
    var fs := es + [e];
    forall i, j | 0 <= i < j < |fs| && fs[i].Advanced? && fs[j].Advanced?
      ensures exists m :: i < m < j && fs[m].Swept?
    {
      assert es[i].Advanced? && es[j].Advanced?;
      var m :| i < m < j && es[m].Swept?;
      assert fs[m].Swept?;
    }
  }

  lemma SweptIsReady<K>(es: seq<Event<K>>)
    requires Disciplined(es)
    ensures Ready(es + [Swept])
  {
    DisciplinedMore(es, Swept);
    var fs := es + [Swept] + [Advanced];
    forall i, j | 0 <= i < j < |fs| && fs[i].Advanced? && fs[j].Advanced?
      ensures exists m :: i < m < j && fs[m].Swept?
    {
      if j == |es| + 1 {
        assert fs[|es|].Swept?;
      } else {
        assert es[i].Advanced? && es[j].Advanced?;
        var m :| i < m < j && es[m].Swept?;
        assert fs[m].Swept?;
      }
    }
  }

  lemma ReadyMore<K>(es: seq<Event<K>>, e: Event<K>)
    requires Ready(es) && !e.Advanced?
    ensures Ready(es + [e])
  {
    var fs, gs := es + [Advanced], es + [e] + [Advanced];
    forall i, j | 0 <= i < j < |gs| && gs[i].Advanced? && gs[j].Advanced?
      ensures exists m :: i < m < j && gs[m].Swept?
    {
      var j' := if j == |es| + 1 then |es| else j;
      assert fs[i].Advanced? && fs[j'].Advanced?;
      var m :| i < m < j' && fs[m].Swept?;
      assert gs[m].Swept?;
    }
  }

  lemma SweepAndTick<K>(b: Bag<K>, es: seq<Event<K>>)
    requires IsRun(b, es) && Due(After(b, es)) == {}
    ensures IsRun(b, es + [Swept, Advanced])
    ensures After(b, es + [Swept, Advanced]) == Advance(After(b, es))
    ensures TicksIn(es + [Swept, Advanced]) == TicksIn(es) + 1
    ensures Disciplined(es) ==> Disciplined(es + [Swept, Advanced])
  {
    Extend(b, es, Swept);
    Extend(b, es + [Swept], Advanced);
    assert es + [Swept, Advanced] == es + [Swept] + [Advanced];
    if Disciplined(es) {
      SweptIsReady(es);
    }
  }

  /** No timer is scheduled twice: each is known by a handle of its own. */
  ghost predicate HandlesNew<K>(es: seq<Event<K>>) {
    forall i, j :: 0 <= i < j < |es| && es[i].Scheduled? && es[j].Scheduled? ==> es[i].timer != es[j].timer
  }

  lemma HandlesStayNew<K>(es: seq<Event<K>>, e: Event<K>)
    requires HandlesNew(es)
    requires e.Scheduled? ==> forall i :: 0 <= i < |es| && es[i].Scheduled? ==> es[i].timer != e.timer
    ensures HandlesNew(es + [e])
  {
  }

  lemma {:induction false} HandlesInQuiet<K>(es: seq<Event<K>>, n: nat)
    requires HandlesNew(es)
    ensures HandlesNew(es + QuietTicks(n))
  {
    if n == 0 {
      assert es + QuietTicks(n) == es;
    } else {
      HandlesInQuiet(es, n - 1);
      HandlesStayNew(es + QuietTicks(n - 1), Swept);
      HandlesStayNew(es + QuietTicks(n - 1), Advanced);
      HandlesStayNew(es + QuietTicks(n - 1) + [Swept], Advanced);
      if n == 1 {
        assert es + QuietTicks(0) == es;
      } else {
        assert es + QuietTicks(n) == es + QuietTicks(n - 1) + [Swept] + [Advanced];
      }
    }
  }

  /** How long the agent sleeps, in ticks, with the jiffy hand at `hand`: until a timer is due, but not beyond the
      second. */
  ghost predicate IsNap<K>(b: Bag<K>, hand: nat, n: nat) {
    && (forall k :: k in b ==> b[k] >= n) && hand + n <= TURN
    && (hand + n < TURN ==> exists k :: k in b && b[k] == n)
  }

  /** Everybody waits `n` ticks less. */
  function Minus<K>(b: Bag<K>, n: nat): Bag<K>
    requires forall k :: k in b ==> b[k] >= n
  {
    map k | k in b :: b[k] - n
  }

  lemma AdvanceMinus<K>(b: Bag<K>, n: nat)
    requires n >= 1 && forall k :: k in b ==> b[k] >= n
    ensures Advance(Minus(b, n - 1)) == Minus(b, n) && Due(Minus(b, n - 1)) == {}
    ensures Minus(b, 0) == b
  {
  }

  /** A jump of `n` ticks over which nothing falls due is `n` single ticks. */
  lemma {:induction false} RunQuiet<K>(b: Bag<K>, es: seq<Event<K>>, n: nat)
    requires IsRun(b, es) && n >= 1 && forall k :: k in After(b, es) ==> After(b, es)[k] >= n
    ensures IsRun(b, es + QuietTicks(n))
    ensures After(b, es + QuietTicks(n)) == Minus(After(b, es), n)
    ensures TicksIn(es + QuietTicks(n)) == TicksIn(es) + n
    ensures Ready(es) ==> Disciplined(es + QuietTicks(n))
  {
    hide IsRun, Disciplined, Minus, Advance;
    AdvanceMinus(After(b, es), n);
    if n == 1 {
      Extend(b, es, Advanced);
    } else {
      RunQuiet(b, es, n - 1);
      var fs := es + QuietTicks(n - 1);
      SweepAndTick(b, fs);
      assert es + QuietTicks(n) == fs + [Swept, Advanced];
    }
  }

  /** What such a jump and the sweep at its end do to the bag is what `n` full ticks do. */
  lemma {:induction false} QuietIsTicks<K>(b: Bag<K>, n: nat)
    requires n >= 1 && forall k :: k in b ==> b[k] >= n
    ensures Ticks(b, n) == Minus(b, n) - Due(Minus(b, n))
  {
    AdvanceMinus(b, n);
    if n == 1 {
      assert Ticks(b, 0) == b;
      assert Ticks(b, 1) == Tick(b);
    } else {
      QuietIsTicks(b, n - 1);
      assert Ticks(b, n - 1) == Minus(b, n - 1);
    }
  }

  lemma {:induction false} TicksInQuiet<K>(es: seq<Event<K>>, n: nat)
    ensures TicksIn(es + QuietTicks(n)) == TicksIn(es) + n
  {
    if n == 0 {
      assert es + QuietTicks(n) == es;
    } else if n == 1 {
      assert (es + [Advanced])[..|es|] == es;
    } else {
      TicksInQuiet(es, n - 1);
      var fs := es + QuietTicks(n - 1);
      assert es + QuietTicks(n) == fs + [Swept] + [Advanced];
      assert (fs + [Swept] + [Advanced])[..|fs| + 1] == fs + [Swept];
      assert (fs + [Swept])[..|fs|] == fs;
    }
  }

  /** Firing everything that is due after a jump of `n` ticks leaves what `n` full ticks leave. */
  lemma JumpGone<K>(b: Bag<K>, n: nat, ks: seq<K>, c: Bag<K>)
    requires forall k :: k in b ==> b[k] >= n
    requires Gone(Minus(b, n), ks, c) && Due(c) == {}
    ensures n > 0 ==> c == Ticks(b, n)
    ensures n == 0 ==> c == b - Due(b)
  {
    var d := Minus(b, n);
    forall k | k in Due(d) ensures k in ks {
      assert k !in ks ==> k in Due(c);
    }
    assert (set k | k in ks) == Due(d);
    if n > 0 {
      QuietIsTicks(b, n);
    } else {
      assert d == b;
    }
  }

  lemma {:induction false} TicksSplit<K>(es: seq<Event<K>>, i: nat)
    requires i <= |es|
    ensures TicksIn(es) == TicksIn(es[..i]) + TicksIn(es[i..])
  {
    if i == |es| {
      assert es[..i] == es;
    } else {
      var init := es[..|es| - 1];
      TicksSplit(init, i);
      assert init[..i] == es[..i];
      assert es[i..][..|es| - i - 1] == init[i..];
    }
  }

  lemma DisciplinedSuffix<K>(es: seq<Event<K>>, i: nat)
    requires i <= |es| && Disciplined(es)
    ensures Disciplined(es[i..])
  {
    var s := es[i..];
    forall j, l | 0 <= j < l < |s| && s[j].Advanced? && s[l].Advanced?
      ensures exists m :: j < m < l && s[m].Swept?
    {
      assert es[i + j].Advanced? && es[i + l].Advanced?;
      var m :| i + j < m < i + l && es[m].Swept?;
      assert s[m - i].Swept?;
    }
  }

  lemma ReadySuffix<K>(es: seq<Event<K>>, i: nat)
    requires i <= |es|
    ensures Ready(es) ==> Ready(es[i..])
  {
    if Ready(es) {
      DisciplinedSuffix(es + [Advanced], i);
      assert (es + [Advanced])[i..] == es[i..] + [Advanced];
    }
  }

  /** The timer scheduled by event `i` fires once after that, and does so with `due` ticks gone by. */
  ghost predicate FiresAt<K>(es: seq<Event<K>>, i: nat, due: nat)
    requires i < |es| && es[i].Scheduled?
  {
    exists j :: i < j < |es| && es[j] == Fired(es[i].timer) && TicksIn(es[..j]) == due &&
      forall j' :: i < j' < |es| && es[j'] == Fired(es[i].timer) ==> j' == j
  }

  /** The main result on bags, read off a whole history: the timer scheduled by event `i` fires at its own tick. */
  lemma ScheduledFiresOnTime<K>(es: seq<Event<K>>, i: nat)
    requires IsRun(map[], es) && Disciplined(es) && HandlesNew(es)
    requires i < |es| && es[i].Scheduled? && es[i].delay >= 1
    requires forall j :: i < j < |es| ==> es[j] != Cancelled(es[i].timer)
    requires var due := TicksIn(es[..i]) + es[i].delay; TicksIn(es) > due || (TicksIn(es) == due && Ready(es))
    ensures FiresAt(es, i, TicksIn(es[..i]) + es[i].delay)
  {
    forall j | i < j < |es| ensures !(es[j].Scheduled? && es[j].timer == es[i].timer) {
    }
    hide *;
    var j := FiringAfter(es, i, es[i].timer, es[i].delay);
    FiringIs(es, i, TicksIn(es[..i]) + es[i].delay, j);
  }

  lemma FiringIs<K>(es: seq<Event<K>>, i: nat, due: nat, j: nat)
    requires i < j < |es| && es[i].Scheduled? && es[j] == Fired(es[i].timer) && TicksIn(es[..j]) == due
    requires forall j' :: i < j' < |es| && es[j'] == Fired(es[i].timer) ==> j' == j
    ensures FiresAt(es, i, due)
  {
  }

  lemma FiringAfter<K>(es: seq<Event<K>>, i: nat, k: K, delay: nat) returns (j: nat)
    requires IsRun(map[], es) && Disciplined(es) && i < |es| && es[i] == Scheduled(k, delay) && delay >= 1
    requires forall j :: i < j < |es| ==> es[j] != Cancelled(k) && !(es[j].Scheduled? && es[j].timer == k)
    requires var due := TicksIn(es[..i]) + delay; TicksIn(es) > due || (TicksIn(es) == due && Ready(es))
    ensures i < j < |es| && es[j] == Fired(k) && TicksIn(es[..j]) == TicksIn(es[..i]) + delay
    ensures forall j' :: i < j' < |es| && es[j'] == Fired(k) ==> j' == j
  {
    hide IsRun, Disciplined, Ready, After, TicksIn;
    var b, rest := After(map[], es[..i + 1]), es[i + 1..];
    RunSuffix(map[], es, i + 1);
    DisciplinedSuffix(es, i + 1);
    ReadySuffix(es, i + 1);
    TicksSplit(es, i + 1);
    JustScheduled(es, i);
    var m := FiringInRest(b, k, rest);
    j := i + 1 + m;
    TicksSplit(es[..j], i + 1);
    assert es[..j][..i + 1] == es[..i + 1] && es[..j][i + 1..] == rest[..m];
    assert forall j' :: i < j' < |es| ==> es[j'] == rest[j' - i - 1];
  }

  lemma JustScheduled<K>(es: seq<Event<K>>, i: nat)
    requires i < |es| && es[i].Scheduled?
    ensures es[i].timer in After(map[], es[..i + 1]) && After(map[], es[..i + 1])[es[i].timer] == es[i].delay
    ensures TicksIn(es[..i + 1]) == TicksIn(es[..i])
    ensures TicksIn<K>([]) == 0
  {
    assert es[..i + 1][..i] == es[..i];
  }

  lemma FiringInRest<K>(b: Bag<K>, k: K, es: seq<Event<K>>) returns (m: nat)
    requires k in b && b[k] >= 1 && IsRun(b, es) && Disciplined(es)
    requires forall i :: 0 <= i < |es| ==> es[i] != Cancelled(k) && !(es[i].Scheduled? && es[i].timer == k)
    requires TicksIn(es) > b[k] || (TicksIn(es) == b[k] && Ready(es))
    ensures m < |es| && es[m] == Fired(k) && TicksIn(es[..m]) == b[k]
    ensures forall j :: 0 <= j < |es| && es[j] == Fired(k) ==> j == m
  {
    FiresOnceOnTime(b, k, es);
    m :| 0 <= m < |es| && es[m] == Fired(k) && TicksIn(es[..m]) == b[k] &&
         forall j :: 0 <= j < |es| && es[j] == Fired(k) ==> j == m;
  }
}
