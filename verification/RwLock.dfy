/** The fallback readers/writer lock: each stretch that runs with the mutex held is one step. `unlock` releases
    the mutex without having taken it; that its body is one step all the same is an assumption here. */
module RwLock {

  /** One claim on the lock, by one thread. */
  type Claim = nat

  datatype Mode =
    | Idle
    | Reading
    | Writing
    | ReadBlocked   // waiting for `readers` to be signalled
    | ReadWoken     // signalled, about to look again
    | WriteBlocked  // queued and waiting for `writers` to be signalled
    | WriteWoken    // queued and signalled, about to look again

  datatype Lock = Lock(state: int, waiters: int, claims: map<Claim, Mode>)

  datatype Step =
    | RdLock(c: Claim)
    | RdLook(c: Claim)               // a woken reader looks again; also a spurious wake-up
    | TryRdLock(c: Claim)
    | WrLock(c: Claim)
    | WrLook(c: Claim)
    | TryWrLock(c: Claim)
    | Unlock(c: Claim, wake: Claim)  // `wake` is the blocked writer that a signal would go to
    | CancelRead(c: Claim)
    | CancelWrite(c: Claim)

  function In(l: Lock, m: Mode): (r: set<Claim>)
    ensures forall c :: c in r <==> c in l.claims && l.claims[c] == m
  {
    set c | c in l.claims && l.claims[c] == m
  }

  /** `c` is the only writer that has been signalled, the lock is free, and others are waiting for a signal. POSIX does
      not let a thread that is cancelled at such a moment take the signal with it. */
  predicate TakesTheSignal(l: Lock, c: Claim) {
    In(l, WriteWoken) == {c} && l.state == 0 && In(l, WriteBlocked) != {}
  }

  predicate Enabled(l: Lock, s: Step) {
    s.c in l.claims &&
    var m := l.claims[s.c];
    match s
    case RdLock(_) => m == Idle
    case RdLook(_) => m == ReadWoken || m == ReadBlocked
    case TryRdLock(_) => m == Idle
    case WrLock(_) => m == Idle
    case WrLook(_) => m == WriteWoken || m == WriteBlocked
    case TryWrLock(_) => m == Idle
    case Unlock(_, wake) =>
      (m == Reading || m == Writing) &&
      (In(l, WriteBlocked) != {} ==> wake in l.claims && l.claims[wake] == WriteBlocked)
    case CancelRead(_) => m == ReadBlocked || m == ReadWoken
    case CancelWrite(_) => (m == WriteBlocked || m == WriteWoken) && !TakesTheSignal(l, s.c)
  }

  function Set(l: Lock, c: Claim, m: Mode): Lock {
    l.(claims := l.claims[c := m])
  }

  /** `pthread_cond_broadcast` on `readers`. */
  function WakeReaders(l: Lock): Lock {
    l.(claims := map c | c in l.claims :: if l.claims[c] == ReadBlocked then ReadWoken else l.claims[c])
  }

  /** `pthread_cond_signal` on `writers`: one blocked writer wakes up, if there is one. */
  function WakeWriter(l: Lock, wake: Claim): Lock {
    if wake in l.claims && l.claims[wake] == WriteBlocked then Set(l, wake, WriteWoken) else l
  }

  function Read(l: Lock, c: Claim): Lock {
    if l.state == -1 || l.waiters != 0 then Set(l, c, ReadBlocked) else Set(l, c, Reading).(state := l.state + 1)
  }

  /** A queued writer looks at the state; with the lock goes its place in the queue. */
  function Write(l: Lock, c: Claim): Lock {
    if l.state != 0 then Set(l, c, WriteBlocked) else LeaveQueue(Set(l, c, Writing).(state := -1))
  }

  /** `wrlock_cleanup`. */
  function LeaveQueue(l: Lock): Lock {
    var m := l.(waiters := l.waiters - 1);
    if m.waiters == 0 && m.state != -1 then WakeReaders(m) else m
  }

  function Release(l: Lock, wake: Claim): Lock {
    if l.state == -1 then
      var m := l.(state := 0);
      if m.waiters != 0 then WakeWriter(m, wake) else WakeReaders(m)
    else
      var m := l.(state := l.state - 1);
      if m.state == 0 then WakeWriter(m, wake) else m
  }

  function Apply(l: Lock, s: Step): Lock {
    match s
    case RdLock(c) => Read(l, c)
    case RdLook(c) => Read(l, c)
    case TryRdLock(c) => if l.state != -1 && l.waiters == 0 then Set(l, c, Reading).(state := l.state + 1) else l
    case WrLock(c) => Write(l.(waiters := l.waiters + 1), c)
    case WrLook(c) => Write(l, c)
    case TryWrLock(c) => if l.state == 0 && l.waiters == 0 then Set(l, c, Writing).(state := -1) else l
    case Unlock(c, wake) => Release(Set(l, c, Idle), wake)
    case CancelRead(c) => Set(l, c, Idle)
    case CancelWrite(c) => LeaveQueue(Set(l, c, Idle))
  }

  // ----- what holds in every state

  /** The number of claims in a mode. */
  function N(l: Lock, m: Mode): nat {
    |In(l, m)|
  }

  /** The two numbers of the lock say who holds it and who is queued for it. */
  ghost predicate Counts(l: Lock) {
    && (if l.state == -1 then N(l, Writing) == 1 && N(l, Reading) == 0
        else N(l, Writing) == 0 && l.state == N(l, Reading))
    && l.waiters == N(l, WriteBlocked) + N(l, WriteWoken)
  }

  /** If the lock is free and writers are queued, one of them is about to look. */
  ghost predicate NoWriterForgotten(l: Lock) {
    l.state == 0 && l.waiters > 0 ==> N(l, WriteWoken) > 0
  }

  /** A reader is only blocked while a writer has the lock or is queued for it. */
  ghost predicate NoReaderForgotten(l: Lock) {
    N(l, ReadBlocked) > 0 ==> l.state == -1 || l.waiters > 0
  }

  ghost predicate Inv(l: Lock) {
    Counts(l) && NoWriterForgotten(l) && NoReaderForgotten(l)
  }

  ghost predicate Init(l: Lock) {
    l.state == 0 && l.waiters == 0 && forall c :: c in l.claims ==> l.claims[c] == Idle
  }

  ghost predicate IsRun(run: seq<Lock>) {
    run != [] && Init(run[0]) && forall i :: 0 <= i < |run| - 1 ==> Next(run[i], run[i + 1])
  }

  ghost predicate Next(l: Lock, l': Lock) {
    exists s :: Enabled(l, s) && l' == Apply(l, s)
  }

  // ----- steps

  function One(b: bool): nat {
    if b then 1 else 0
  }

  lemma SetCounts(l: Lock, c: Claim, m: Mode)
    requires c in l.claims
    ensures forall k :: N(Set(l, c, m), k) == N(l, k) + One(k == m) - One(k == l.claims[c])
    ensures Set(l, c, m).state == l.state && Set(l, c, m).waiters == l.waiters
    ensures N(l, l.claims[c]) > 0
  {
    forall k ensures N(Set(l, c, m), k) == N(l, k) + One(k == m) - One(k == l.claims[c]) {
      SetCount(l, c, m, k);
    }
    SetCount(l, c, m, l.claims[c]);
    assert c in In(l, l.claims[c]);
  }

  lemma SetCount(l: Lock, c: Claim, m: Mode, k: Mode)
    requires c in l.claims
    ensures N(Set(l, c, m), k) == N(l, k) + One(k == m) - One(k == l.claims[c])
  {
    var before, after := In(l, k), In(Set(l, c, m), k);
    assert after == if k == m then before + {c} else before - {c};
    assert c in before <==> k == l.claims[c];
  }

  lemma WakeReadersCounts(l: Lock)
    ensures forall k :: k != ReadBlocked && k != ReadWoken ==> N(WakeReaders(l), k) == N(l, k)
    ensures N(WakeReaders(l), ReadBlocked) == 0
    ensures WakeReaders(l).state == l.state && WakeReaders(l).waiters == l.waiters
  {
    forall k | k != ReadBlocked && k != ReadWoken ensures N(WakeReaders(l), k) == N(l, k) {
      assert In(WakeReaders(l), k) == In(l, k);
    }
    assert In(WakeReaders(l), ReadBlocked) == {};
  }

  /** Who is counted does not depend on the two numbers. */
  lemma NumbersApart(l: Lock, state: int, waiters: int)
    ensures forall k :: N(l.(state := state, waiters := waiters), k) == N(l, k)
  {
    forall k ensures N(l.(state := state, waiters := waiters), k) == N(l, k) {
      assert In(l.(state := state, waiters := waiters), k) == In(l, k);
    }
  }

  lemma LeaveQueueCounts(l: Lock)
    ensures forall k :: k != ReadBlocked && k != ReadWoken ==> N(LeaveQueue(l), k) == N(l, k)
    ensures LeaveQueue(l).state == l.state && LeaveQueue(l).waiters == l.waiters - 1
    ensures N(LeaveQueue(l), ReadBlocked) > 0 ==>
              (l.waiters != 1 || l.state == -1) && N(LeaveQueue(l), ReadBlocked) == N(l, ReadBlocked)
  {
    hide N, WakeReaders;
    NumbersApart(l, l.state, l.waiters - 1);
    WakeReadersCounts(l.(waiters := l.waiters - 1));
  }

  lemma ReadKeeps(l: Lock, c: Claim)
    requires Inv(l) && c in l.claims && (l.claims[c] == Idle || l.claims[c] == ReadWoken || l.claims[c] == ReadBlocked)
    ensures Inv(Read(l, c))
  {
    hide N, Set;
    SetCounts(l, c, ReadBlocked);
    SetCounts(l, c, Reading);
    NumbersApart(Set(l, c, Reading), l.state + 1, l.waiters);
  }

  lemma WriteKeeps(l: Lock, c: Claim)
    requires c in l.claims && (l.claims[c] == WriteWoken || l.claims[c] == WriteBlocked)
    requires Inv(l)
    ensures Inv(Write(l, c))
  {
    hide N, Set, LeaveQueue;
    SetCounts(l, c, WriteBlocked);
    SetCounts(l, c, Writing);
    NumbersApart(Set(l, c, Writing), -1, l.waiters);
    LeaveQueueCounts(Set(l, c, Writing).(state := -1));
  }

  /** Nobody has the lock for writing or is queued for that. */
  ghost predicate NoWriters(l: Lock) {
    forall c :: c in l.claims ==> l.claims[c] != Writing && l.claims[c] != WriteBlocked && l.claims[c] != WriteWoken
  }

  /** Nobody has the lock. */
  ghost predicate IsFree(l: Lock) {
    forall c :: c in l.claims ==> l.claims[c] != Reading && l.claims[c] != Writing
  }

  lemma CountsTell(l: Lock)
    requires Counts(l)
    ensures NoWriters(l) <==> l.state != -1 && l.waiters == 0
    ensures IsFree(l) <==> l.state == 0
  {
    forall m ensures N(l, m) == 0 <==> forall c :: c in l.claims ==> l.claims[c] != m {
      assert N(l, m) == 0 <==> In(l, m) == {};
      assert (exists c :: c in l.claims && l.claims[c] == m) ==> In(l, m) != {} by {
        if c :| c in l.claims && l.claims[c] == m {
          assert c in In(l, m);
        }
      }
    }
    hide N, In;
  }

  /** Who gets the lock. A reader gets it exactly if there are no writers that have it or are queued for it; a
      writer that waits for it exactly if nobody has it; and one that tries exactly if also nobody is queued.
      Otherwise a call that waits is blocked and one that tries changes nothing. No other claim gets or loses the
      lock by it. */
  lemma Granted(l: Lock, s: Step)
    requires Inv(l) && Enabled(l, s)
    ensures var after := Apply(l, s).claims;
            match s
            case RdLock(c) => after == l.claims[c := if NoWriters(l) then Reading else ReadBlocked]
            case RdLook(c) => after == l.claims[c := if NoWriters(l) then Reading else ReadBlocked]
            case TryRdLock(c) => if NoWriters(l) then after == l.claims[c := Reading] else Apply(l, s) == l
            case WrLock(c) => after == l.claims[c := if IsFree(l) then Writing else WriteBlocked]
            case WrLook(c) => after == l.claims[c := if IsFree(l) then Writing else WriteBlocked]
            case TryWrLock(c) =>
              if IsFree(l) && NoWriters(l) then after == l.claims[c := Writing] else Apply(l, s) == l
            case _ => true
  {
    CountsTell(l);
    hide Counts, NoWriters, IsFree;
  }

  /** Joining the queue: a writer that arrives looks at once. */
  lemma ArriveKeeps(l: Lock, c: Claim)
    requires Inv(l) && c in l.claims && l.claims[c] == Idle
    ensures Inv(Write(l.(waiters := l.waiters + 1), c))
  {
    hide N, Set, LeaveQueue;
    var q := l.(waiters := l.waiters + 1);
    NumbersApart(l, l.state, l.waiters + 1);
    SetCounts(q, c, WriteBlocked);
    SetCounts(q, c, Writing);
    NumbersApart(Set(q, c, Writing), -1, q.waiters);
    LeaveQueueCounts(Set(q, c, Writing).(state := -1));
  }

  lemma TryKeeps(l: Lock, c: Claim)
    requires Inv(l) && c in l.claims && l.claims[c] == Idle
    ensures Inv(Apply(l, TryRdLock(c))) && Inv(Apply(l, TryWrLock(c)))
  {
    hide N, Set;
    SetCounts(l, c, Reading);
    SetCounts(l, c, Writing);
    NumbersApart(Set(l, c, Reading), l.state + 1, l.waiters);
    NumbersApart(Set(l, c, Writing), -1, l.waiters);
  }

  lemma CancelReadKeeps(l: Lock, c: Claim)
    requires Inv(l) && c in l.claims && (l.claims[c] == ReadBlocked || l.claims[c] == ReadWoken)
    ensures Inv(Set(l, c, Idle))
  {
    hide N, Set;
    SetCounts(l, c, Idle);
  }

  /** A queued writer may be cancelled, blocked or signalled, unless it takes with it a signal that others wait for:
      exactly then the invariant would break. */
  lemma CancelWriteKeeps(l: Lock, c: Claim)
    requires Inv(l) && c in l.claims && (l.claims[c] == WriteBlocked || l.claims[c] == WriteWoken)
    ensures Inv(LeaveQueue(Set(l, c, Idle))) <==> !TakesTheSignal(l, c)
  {
    TakesIt(l, c);
    hide N, Set, LeaveQueue, TakesTheSignal;
    SetCounts(l, c, Idle);
    LeaveQueueCounts(Set(l, c, Idle));
  }

  lemma TakesIt(l: Lock, c: Claim)
    requires c in l.claims
    ensures TakesTheSignal(l, c) <==>
            l.claims[c] == WriteWoken && N(l, WriteWoken) == 1 && l.state == 0 && N(l, WriteBlocked) > 0
  {
    var woken := In(l, WriteWoken);
    if l.claims[c] == WriteWoken {
      assert woken == {c} + (woken - {c});
    }
    assert N(l, WriteBlocked) > 0 <==> In(l, WriteBlocked) != {};
  }

  /** A signal is not lost while a writer is blocked. */
  lemma WakeWriterCounts(l: Lock, wake: Claim)
    requires N(l, WriteBlocked) > 0 ==> wake in l.claims && l.claims[wake] == WriteBlocked
    ensures forall k :: k != WriteBlocked && k != WriteWoken ==> N(WakeWriter(l, wake), k) == N(l, k)
    ensures N(WakeWriter(l, wake), WriteBlocked) + N(WakeWriter(l, wake), WriteWoken) ==
            N(l, WriteBlocked) + N(l, WriteWoken)
    ensures N(l, WriteBlocked) + N(l, WriteWoken) > 0 ==> N(WakeWriter(l, wake), WriteWoken) > 0
    ensures WakeWriter(l, wake).state == l.state && WakeWriter(l, wake).waiters == l.waiters
  {
    hide N, Set;
    if wake in l.claims && l.claims[wake] == WriteBlocked {
      SetCounts(l, wake, WriteWoken);
    }
  }

  lemma UnlockKeeps(l: Lock, c: Claim, wake: Claim)
    requires Inv(l) && Enabled(l, Unlock(c, wake))
    ensures Inv(Release(Set(l, c, Idle), wake))
  {
    BlockedStays(l, c, wake);
    SetCounts(l, c, Idle);
    if l.state == -1 {
      ReleaseWrite(Set(l, c, Idle), wake);
    } else {
      ReleaseRead(Set(l, c, Idle), wake);
    }
  }

  lemma ReleaseWrite(m: Lock, wake: Claim)
    requires m.state == -1 && N(m, Writing) == 0 && N(m, Reading) == 0 &&
             m.waiters == N(m, WriteBlocked) + N(m, WriteWoken)
    requires N(m, WriteBlocked) > 0 ==> wake in m.claims && m.claims[wake] == WriteBlocked
    ensures Inv(Release(m, wake))
  {
    hide N, WakeWriter, WakeReaders;
    NumbersApart(m, 0, m.waiters);
    WakeWriterCounts(m.(state := 0), wake);
    WakeReadersCounts(m.(state := 0));
  }

  lemma ReleaseRead(m: Lock, wake: Claim)
    requires m.state == N(m, Reading) + 1 && N(m, Writing) == 0 && m.waiters == N(m, WriteBlocked) + N(m, WriteWoken)
    requires N(m, WriteBlocked) > 0 ==> wake in m.claims && m.claims[wake] == WriteBlocked
    requires N(m, ReadBlocked) > 0 ==> m.waiters > 0
    ensures Inv(Release(m, wake))
  {
    hide N, WakeWriter, WakeReaders;
    NumbersApart(m, m.state - 1, m.waiters);
    WakeWriterCounts(m.(state := m.state - 1), wake);
  }

  lemma BlockedStays(l: Lock, c: Claim, wake: Claim)
    requires Enabled(l, Unlock(c, wake))
    ensures N(Set(l, c, Idle), WriteBlocked) > 0 ==>
            wake in Set(l, c, Idle).claims && Set(l, c, Idle).claims[wake] == WriteBlocked
  {
    assert In(Set(l, c, Idle), WriteBlocked) == In(l, WriteBlocked);
  }

  lemma StepKeeps(l: Lock, s: Step)
    requires Inv(l) && Enabled(l, s)
    ensures Inv(Apply(l, s))
  {
    hide Inv, Read, Write, Release, LeaveQueue, Set, N;
    match s
    case RdLock(c) => ReadKeeps(l, c);
    case RdLook(c) => ReadKeeps(l, c);
    case TryRdLock(c) => TryKeeps(l, c);
    case WrLock(c) => ArriveKeeps(l, c);
    case WrLook(c) => WriteKeeps(l, c);
    case TryWrLock(c) => TryKeeps(l, c);
    case Unlock(c, wake) => UnlockKeeps(l, c, wake);
    case CancelRead(c) => CancelReadKeeps(l, c);
    case CancelWrite(c) => CancelWriteKeeps(l, c);
  }

  // ----- over whole runs

  lemma {:induction false} RunKeeps(run: seq<Lock>, i: nat)
    requires IsRun(run) && i < |run|
    ensures Inv(run[i])
  {
    if i == 0 {
      InitInv(run[0]);
    } else {
      RunKeeps(run, i - 1);
      assert Next(run[i - 1], run[i - 1 + 1]);
      var s :| Enabled(run[i - 1], s) && run[i] == Apply(run[i - 1], s);
      StepKeeps(run[i - 1], s);
    }
  }

  lemma InitInv(l: Lock)
    requires Init(l)
    ensures Inv(l)
  {
    assert In(l, Writing) == {} && In(l, Reading) == {} && In(l, ReadBlocked) == {};
    assert In(l, WriteBlocked) == {} && In(l, WriteWoken) == {};
  }

  /** Main result: in every run a writer excludes everybody else, readers exclude writers, and the state says which
      it is. */
  lemma Exclusion(run: seq<Lock>, i: nat)
    requires IsRun(run) && i < |run|
    ensures var l := run[i];
            && (l.state == -1 <==> In(l, Writing) != {})
            && (In(l, Writing) != {} ==> |In(l, Writing)| == 1 && In(l, Reading) == {})
            && (l.state >= 0 ==> l.state == |In(l, Reading)|)
            && l.state >= -1
  {
    RunKeeps(run, i);
  }

  /** Nobody waits for nothing: if a claim is blocked, somebody holds the lock or is about to look at it. */
  lemma SomebodyMoves(run: seq<Lock>, i: nat)
    requires IsRun(run) && i < |run|
    requires In(run[i], ReadBlocked) != {} || In(run[i], WriteBlocked) != {}
    ensures In(run[i], Reading) != {} || In(run[i], Writing) != {} || In(run[i], WriteWoken) != {}
  {
    RunKeeps(run, i);
  }

  /** No reader gets the lock while a writer is queued, nor a late writer past the queue by trying. */
  lemma WritersFirst(l: Lock, s: Step)
    requires Inv(l) && Enabled(l, s) && l.waiters > 0
    ensures In(Apply(l, s), Reading) <= In(l, Reading)
    ensures s.TryWrLock? ==> Apply(l, s) == l
  {
  }

  // ----- without the assumption

  /** The store with which `unlock` ends its decrement, and the signal after it; `seen` is what the state was when
      it was loaded. With the mutex held it is what the state still is. */
  function Stored(l: Lock, c: Claim, seen: int, wake: Claim): Lock {
    Release(Set(l, c, Idle).(state := seen), wake)
  }

  /** For a reader that leaves, this is right exactly when nobody has changed the state since it was loaded. */
  lemma StoreKeepsExactly(l: Lock, c: Claim, seen: int, wake: Claim)
    requires Inv(l) && Enabled(l, Unlock(c, wake)) && l.claims[c] == Reading && seen >= 1
    ensures Inv(Stored(l, c, seen, wake)) <==> seen == l.state
    ensures Stored(l, c, seen, wake).state == seen - 1 && N(Stored(l, c, seen, wake), Reading) == l.state - 1
  {
    var m := Set(l, c, Idle).(state := seen);
    BlockedStays(l, c, wake);
    SetCounts(l, c, Idle);
    NumbersApart(Set(l, c, Idle), seen, l.waiters);
    ReleasedCounts(m, wake);
    if seen == l.state {
      assert m == Set(l, c, Idle);
      UnlockKeeps(l, c, wake);
    }
  }

  lemma ReleasedCounts(m: Lock, wake: Claim)
    requires m.state >= 1 && (N(m, WriteBlocked) > 0 ==> wake in m.claims && m.claims[wake] == WriteBlocked)
    ensures Release(m, wake).state == m.state - 1 && N(Release(m, wake), Reading) == N(m, Reading)
  {
    hide N, WakeWriter;
    NumbersApart(m, m.state - 1, m.waiters);
    WakeWriterCounts(m.(state := m.state - 1), wake);
  }

  /** Two readers that leave at the same time, both having loaded the state before either stores: the state then
      counts a reader that is not there, so no writer ever finds it zero again. */
  lemma TornUnlockMiscounts(l: Lock, c: Claim, d: Claim, wake: Claim)
    requires Inv(l) && c != d && Enabled(l, Unlock(c, wake)) && Enabled(l, Unlock(d, wake))
    requires l.claims[c] == Reading && l.claims[d] == Reading
    ensures var torn := Stored(Stored(l, c, l.state, wake), d, l.state, wake);
            torn.state == N(torn, Reading) + 1 && !Inv(torn)
  {
    TwoReaders(l, c, d);
    StoreKeepsExactly(l, c, l.state, wake);
    var m := Stored(l, c, l.state, wake);
    assert m == Set(l, c, Idle).(state := l.state - 1);
    BlockedStays(l, c, wake);
    NumbersApart(Set(l, c, Idle), l.state - 1, l.waiters);
    assert Enabled(m, Unlock(d, wake));
    StoreKeepsExactly(m, d, l.state, wake);
  }

  lemma TwoReaders(l: Lock, c: Claim, d: Claim)
    requires Inv(l) && c in In(l, Reading) && d in In(l, Reading) && c != d
    ensures l.state >= 2
  {
    assert {c, d} <= In(l, Reading);
    var rest := In(l, Reading) - {c, d};
    assert In(l, Reading) == {c, d} + rest;
  }

  /** A reader that has found a writer in the lock holds the mutex until it waits. If the writer could leave in between,
      the reader would wait for a broadcast that is over, unless another writer is queued. */
  lemma LateReaderIsForgotten(l: Lock, w: Claim, wake: Claim, c: Claim)
    requires Inv(l) && Enabled(l, Unlock(w, wake)) && l.claims[w] == Writing && c in l.claims && l.claims[c] == Idle
    ensures NoReaderForgotten(Set(Release(Set(l, w, Idle), wake), c, ReadBlocked)) <==> l.waiters > 0
  {
    var m := Release(Set(l, w, Idle), wake);
    UnlockKeeps(l, w, wake);
    SetCounts(l, w, Idle);
    HoldsAlone(l, w);
    WakesOthersOnly(l, w, wake, c);
    SetCounts(m, c, ReadBlocked);
  }

  lemma HoldsAlone(l: Lock, w: Claim)
    requires Inv(l) && w in In(l, Writing)
    ensures l.state == -1
  {
  }

  lemma WakesOthersOnly(l: Lock, w: Claim, wake: Claim, c: Claim)
    requires l.state == -1 && w in l.claims && c in l.claims && l.claims[c] == Idle && w != c
    ensures var m := Release(Set(l, w, Idle), wake);
            c in m.claims && m.claims[c] == Idle && m.state == 0 && m.waiters == l.waiters
  {
  }
}
