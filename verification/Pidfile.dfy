/** Processes racing for a locked pidfile: one step per system call, any number of processes and paths. */
module Pidfile {

  type Proc = nat
  type Path = nat
  type File = nat  // a file's identity; never used twice, unlike its inode number

  /** Where a process is in `daemon_lock_pidfile`, `daemon_is_running` or at the end of `daemon_stop`. */
  datatype Pc =
    | Idle                                // outside these functions and not holding a pidfile
    | Start                               // about to open exclusively
    | Exists                              // the exclusive open said EEXIST
    | Opened(file: File)                  // about to lock
    | Locked(file: File)                  // about to fstat
    | Statted(file: File, number: nat)    // about to stat the path
    | Refused(file: File)                 // about to close and fail
    | Stale(file: File)                   // about to close and start again
    | Holding(file: File)                 // returned successfully, not yet unlinked
    | ProbeOpened(file: File)             // `daemon_is_running`: about to ask for a read lock
    | ProbeAsked(file: File, running: bool)
    | ProbeFailed(file: File)             // the read lock was refused for another reason
    | Unlinking                           // `daemon_stop` found nobody running and has closed the file: about to unlink

  predicate HasFile(pc: Pc) {
    || pc.Opened? || pc.Locked? || pc.Statted? || pc.Refused? || pc.Stale?
    || pc.Holding? || pc.ProbeOpened? || pc.ProbeAsked? || pc.ProbeFailed?
  }

  datatype Process = Process(
    pc: Pc,
    path: Path,
    open: set<File>,   // files this process has a descriptor for
    begun: nat,        // unlinks of the path when the acquisition began
    since: nat,        // unlinks of the path when the current attempt began
    restarts: nat,     // times the acquisition went back to the start
    calls: nat)        // system calls made in the acquisition

  datatype State = State(
    links: map<Path, File>,
    numbers: map<File, nat>,       // inode numbers of all files there ever were
    writer: map<File, Proc>,       // fcntl write locks
    readers: set<(Proc, File)>,    // fcntl read locks
    unlinks: map<Path, nat>,       // how often each path has been unlinked
    procs: map<Proc, Process>)

  datatype Call =
    | Begin(path: Path)
    | OpenNew(file: File, number: nat)  // open(O_RDWR | O_CREAT | O_EXCL); `number` is the new file's inode number
    | OpenOld                           // open(O_RDWR)
    | Lock                              // fcntl(F_SETLK, F_WRLCK)
    | Fstat
    | Stat
    | Close
    | Trouble                           // any of the calls above failing for another reason
    | Unlink                            // `daemon_close`
    | StopClose                         // `daemon_stop`, having got the lock itself, closes the file ...
    | StopUnlink                        // ... and then unlinks the path, whoever holds it by now
    | Die
    | ProbeOpen(path: Path)             // open(O_RDONLY)
    | ProbeLock                         // fcntl(F_SETLK, F_RDLCK)
    | ProbeClose

  function Unlinks(s: State, path: Path): nat {
    if path in s.unlinks then s.unlinks[path] else 0
  }

  /** A file with a name or a descriptor keeps its inode number. */
  ghost predicate Live(s: State, f: File) {
    f in s.links.Values || exists p :: p in s.procs && f in s.procs[p].open
  }

  /** Any number no live file has may be given to a new file, also one that was used before. */
  ghost predicate FreeNumber(s: State, n: nat) {
    forall f :: f in s.numbers && Live(s, f) ==> s.numbers[f] != n
  }

  ghost predicate Enabled(s: State, p: Proc, c: Call) {
    p in s.procs &&
    var me := s.procs[p];
    match c
    case Begin(_) => me.pc.Idle?
    case OpenNew(f, n) => me.pc.Start? && (me.path !in s.links ==> f !in s.numbers && FreeNumber(s, n))
    case OpenOld => me.pc.Exists?
    case Lock => me.pc.Opened?
    case Fstat => me.pc.Locked? && me.pc.file in s.numbers
    case Stat => me.pc.Statted? && (me.path in s.links ==> s.links[me.path] in s.numbers)
    case Close => me.pc.Refused? || me.pc.Stale?
    case Trouble =>
      me.pc.Start? || me.pc.Exists? || me.pc.Opened? || me.pc.Locked? || me.pc.Statted? || me.pc.ProbeOpened?
    case Unlink => me.pc.Holding?
    case StopClose => me.pc.Holding?
    case StopUnlink => me.pc.Unlinking?
    case Die => true
    case ProbeOpen(_) => me.pc.Idle?
    case ProbeLock => me.pc.ProbeOpened?
    case ProbeClose => me.pc.ProbeAsked? || me.pc.ProbeFailed?
  }

  /** Does a lock held by another process conflict with a write lock of `p`? */
  predicate WriteConflict(s: State, p: Proc, f: File) {
    (f in s.writer && s.writer[f] != p) || exists r :: r in s.readers && r.1 == f && r.0 != p
  }

  predicate ReadConflict(s: State, p: Proc, f: File) {
    f in s.writer && s.writer[f] != p
  }

  function WithProc(s: State, p: Proc, me: Process): State {
    s.(procs := s.procs[p := me])
  }

  /** Closing any descriptor of a file gives up all locks the process has on that file. */
  function Closed(s: State, p: Proc, f: File): State
    requires p in s.procs
  {
    s.(writer := (map g | g in s.writer && !(g == f && s.writer[g] == p) :: s.writer[g]),
       readers := (set r | r in s.readers && r != (p, f)),
       procs := s.procs[p := s.procs[p].(open := s.procs[p].open - {f})])
  }

  /** The end of a process closes everything it has open. */
  function Dead(s: State, p: Proc): State
    requires p in s.procs
  {
    s.(writer := (map g | g in s.writer && s.writer[g] != p :: s.writer[g]),
       readers := (set r | r in s.readers && r.0 != p),
       procs := s.procs[p := s.procs[p].(pc := Idle, open := {})])
  }

  function Restarted(s: State, me: Process): Process {
    me.(pc := Start, since := Unlinks(s, me.path), restarts := me.restarts + 1)
  }

  /** The process as it goes into its next system call. */
  function Me(s: State, p: Proc): Process
    requires p in s.procs
  {
    s.procs[p].(calls := s.procs[p].calls + 1)
  }

  function Create(s: State, p: Proc, f: File, n: nat): State
    requires p in s.procs
  {
    var me := Me(s, p);
    s.(links := s.links[me.path := f], numbers := s.numbers[f := n],
       procs := s.procs[p := me.(pc := Opened(f), open := me.open + {f})])
  }

  function OpenAgain(s: State, p: Proc): State
    requires p in s.procs
  {
    var me := Me(s, p);
    if me.path in s.links then
      var f := s.links[me.path];
      WithProc(s, p, me.(pc := Opened(f), open := me.open + {f}))
    else WithProc(s, p, Restarted(s, me))
  }

  function LockWrite(s: State, p: Proc): State
    requires p in s.procs && s.procs[p].pc.Opened?
  {
    var me := Me(s, p);
    var f := me.pc.file;
    if WriteConflict(s, p, f) then WithProc(s, p, me.(pc := Refused(f)))
    else WithProc(s, p, me.(pc := Locked(f)))
           .(writer := s.writer[f := p], readers := (set r | r in s.readers && r != (p, f)))
  }

  function Compare(s: State, p: Proc): State
    requires p in s.procs && s.procs[p].pc.Statted?
    requires s.procs[p].path in s.links ==> s.links[s.procs[p].path] in s.numbers
  {
    var me := Me(s, p);
    if me.path in s.links && s.numbers[s.links[me.path]] == me.pc.number
    then WithProc(s, p, me.(pc := Holding(me.pc.file)))
    else WithProc(s, p, me.(pc := Stale(me.pc.file)))
  }

  function CloseIt(s: State, p: Proc): State
    requires p in s.procs && HasFile(s.procs[p].pc)
  {
    var me := Me(s, p);
    var t := Closed(s, p, me.pc.file);
    var after := me.(open := me.open - {me.pc.file});
    WithProc(t, p, if me.pc.Stale? then Restarted(s, after) else after.(pc := Idle))
  }

  function Remove(s: State, p: Proc): State
    requires p in s.procs
  {
    var me := Me(s, p);
    s.(links := s.links - {me.path}, unlinks := s.unlinks[me.path := Unlinks(s, me.path) + 1],
       procs := s.procs[p := me.(pc := Idle)])
  }

  function StopClosed(s: State, p: Proc): State
    requires p in s.procs && HasFile(s.procs[p].pc)
  {
    var t := CloseIt(s, p);
    WithProc(t, p, t.procs[p].(pc := Unlinking))
  }

  function OpenToProbe(s: State, p: Proc, path: Path): State
    requires p in s.procs
  {
    var me := Me(s, p);
    if path in s.links
    then WithProc(s, p, me.(pc := ProbeOpened(s.links[path]), path := path, open := me.open + {s.links[path]}))
    else WithProc(s, p, me.(pc := Idle))
  }

  /** A read lock replaces the process's own write lock, if it has one. */
  function LockRead(s: State, p: Proc): State
    requires p in s.procs && s.procs[p].pc.ProbeOpened?
  {
    var me := Me(s, p);
    var f := me.pc.file;
    if ReadConflict(s, p, f) then WithProc(s, p, me.(pc := ProbeAsked(f, true)))
    else WithProc(s, p, me.(pc := ProbeAsked(f, false)))
           .(writer := s.writer - {f}, readers := s.readers + {(p, f)})
  }

  function Apply(s: State, p: Proc, c: Call): State
    requires Enabled(s, p, c)
  {
    var me := Me(s, p);
    match c
    case Begin(path) =>
      var u := Unlinks(s, path);
      WithProc(s, p, me.(pc := Start, path := path, begun := u, since := u, restarts := 0, calls := 0))
    case OpenNew(f, n) => if me.path in s.links then WithProc(s, p, me.(pc := Exists)) else Create(s, p, f, n)
    case OpenOld => OpenAgain(s, p)
    case Lock => LockWrite(s, p)
    case Fstat => WithProc(s, p, me.(pc := Statted(me.pc.file, s.numbers[me.pc.file])))
    case Stat => Compare(s, p)
    case Close => CloseIt(s, p)
    case Trouble =>
      WithProc(s, p,
               if me.pc.Start? || me.pc.Exists? then me.(pc := Idle)
               else if me.pc.ProbeOpened? then me.(pc := ProbeFailed(me.pc.file))
               else me.(pc := Refused(me.pc.file)))
    case Unlink => Remove(s, p)
    case StopClose => StopClosed(s, p)
    case StopUnlink => Remove(s, p)
    case Die => Dead(s, p)
    case ProbeOpen(path) => OpenToProbe(s, p, path)
    case ProbeLock => LockRead(s, p)
    case ProbeClose => CloseIt(s, p)
  }

  ghost predicate Init(s: State) {
    && s.links == map[] && s.numbers == map[] && s.writer == map[] && s.readers == {} && s.unlinks == map[]
    && forall p :: p in s.procs ==> s.procs[p].pc.Idle? && s.procs[p].open == {}
  }

  /** Has a pidfile: between a successful `daemon_lock_pidfile` and the unlink or the end of the process. */
  predicate Holds(s: State, p: Proc, path: Path) {
    p in s.procs && s.procs[p].pc.Holding? && s.procs[p].path == path
  }

  ghost predicate Held(s: State, path: Path) {
    exists q :: Holds(s, q, path)
  }

  /** `daemon_stop` unlinks the path while nobody holds it. */
  ghost predicate Careful(s: State, p: Proc, c: Call)
    requires p in s.procs
  {
    c.StopUnlink? ==> !Held(s, s.procs[p].path)
  }

  ghost predicate Next(s: State, t: State) {
    exists p, c :: Enabled(s, p, c) && Careful(s, p, c) && t == Apply(s, p, c)
  }

  ghost predicate IsRunFrom(s: State, run: seq<State>) {
    run != [] && run[0] == s && forall i :: 0 <= i < |run| - 1 ==> Next(run[i], run[i + 1])
  }

  ghost predicate IsRun(run: seq<State>) {
    run != [] && Init(run[0]) && IsRunFrom(run[0], run)
  }

  /** At most one process at a time holds the pidfile at a path. */
  ghost predicate Exclusive(s: State) {
    forall p, q, path :: Holds(s, p, path) && Holds(s, q, path) ==> p == q
  }

  // ----- the invariant

  predicate HasLock(pc: Pc) {
    pc.Locked? || pc.Statted? || pc.Stale? || pc.Holding?
  }

  /** The files there are, and that live ones have different numbers. */
  ghost predicate FilesSound(s: State) {
    && (forall path :: path in s.links ==> s.links[path] in s.numbers)
    && (forall a, b :: a in s.links && b in s.links && s.links[a] == s.links[b] ==> a == b)
    && (forall p, f :: p in s.procs && f in s.procs[p].open ==> f in s.numbers)
    && (forall f, g :: f in s.numbers && g in s.numbers && Live(s, f) && Live(s, g) ==>
          s.numbers[f] == s.numbers[g] ==> f == g)
  }

  ghost predicate LocksSound(s: State) {
    && (forall f :: f in s.writer ==> s.writer[f] in s.procs && f in s.procs[s.writer[f]].open)
    && (forall r :: r in s.readers ==> r.0 in s.procs && r.1 in s.procs[r.0].open)
    && (forall r :: r in s.readers ==> r.1 !in s.writer)
  }

  ghost predicate ProcessSound(s: State, p: Proc)
    requires p in s.procs
  {
    var me := s.procs[p];
    && (HasFile(me.pc) ==> me.pc.file in me.open)
    && (HasLock(me.pc) ==> me.pc.file in s.writer && s.writer[me.pc.file] == p)
    && (me.pc.Statted? ==> me.pc.file in s.numbers && s.numbers[me.pc.file] == me.pc.number)
    && (me.pc.Holding? ==> me.path in s.links && s.links[me.path] == me.pc.file)
    && (forall f :: f in me.open && f in s.links.Values ==> HasFile(me.pc) && me.pc.file == f)
  }

  /** In the middle of an acquisition. */
  predicate Acquiring(pc: Pc) {
    pc.Start? || pc.Exists? || pc.Opened? || pc.Locked? || pc.Statted? || pc.Stale? || pc.Refused?
  }

  /** The way through one attempt, in system calls. */
  function Way(pc: Pc): nat {
    match pc
    case Start => 0
    case Exists => 1
    case Opened(_) => 2
    case Locked(_) => 3
    case Statted(_, _) => 4
    case _ => 5
  }

  /** As long as the path has not been unlinked since the attempt began, what the attempt has seen of it is still
      there. */
  ghost predicate AttemptSound(s: State, p: Proc)
    requires p in s.procs
  {
    var me := s.procs[p];
    Acquiring(me.pc) ==>
      && me.begun <= me.since <= Unlinks(s, me.path)
      && me.restarts <= me.since - me.begun
      && me.calls <= 6 * me.restarts + Way(me.pc)
      && (me.pc.Exists? && Unlinks(s, me.path) == me.since ==> me.path in s.links)
      && ((me.pc.Opened? || me.pc.Locked? || me.pc.Statted?) && Unlinks(s, me.path) == me.since ==>
            me.path in s.links && s.links[me.path] == me.pc.file)
      && (me.pc.Stale? ==> Unlinks(s, me.path) > me.since)
  }

  ghost predicate Inv(s: State) {
    && FilesSound(s) && LocksSound(s)
    && (forall p :: p in s.procs ==> ProcessSound(s, p))
    && (forall p :: p in s.procs ==> AttemptSound(s, p))
  }

  // ----- every step keeps the invariant

  /** Names and descriptors may go away, and descriptors for live files may be added. */
  ghost predicate NoNewFiles(s: State, t: State) {
    && t.numbers == s.numbers
    && (forall path :: path in t.links ==> path in s.links && t.links[path] == s.links[path])
    && (forall p, f :: p in t.procs && f in t.procs[p].open ==> f in s.numbers && Live(s, f))
  }

  lemma FilesStaySound(s: State, t: State)
    requires FilesSound(s) && NoNewFiles(s, t)
    ensures FilesSound(t)
  {
    forall f | Live(t, f) ensures Live(s, f) {
      if f in t.links.Values {
        var path :| path in t.links && t.links[path] == f;
        assert s.links[path] == f;
      }
    }
  }

  /** A step of `p` that leaves the names of other holders' files and the locks of other processes alone. */
  ghost predicate OthersUntouched(s: State, t: State, p: Proc) {
    && t.procs.Keys == s.procs.Keys
    && (forall q :: q in s.procs && q != p ==> t.procs[q] == s.procs[q])
    && (forall f :: f in s.writer && s.writer[f] != p ==> f in t.writer && t.writer[f] == s.writer[f])
    && (forall f :: f in s.numbers ==> f in t.numbers && t.numbers[f] == s.numbers[f])
    && (forall path, q :: Holds(s, q, path) && q != p && path in s.links ==>
          path in t.links && t.links[path] == s.links[path])
    && (forall f :: f in s.numbers && f in t.links.Values ==> f in s.links.Values)
  }

  lemma OthersStaySound(s: State, t: State, p: Proc, q: Proc)
    requires FilesSound(s) && q in s.procs && ProcessSound(s, q) && q != p
    requires OthersUntouched(s, t, p)
    ensures ProcessSound(t, q)
  {
    var me := s.procs[q];
    assert me.pc.Holding? ==> Holds(s, q, me.path);
  }

  /** Unlinking counts, and only what was unlinked is gone. */
  ghost predicate UnlinksCounted(s: State, t: State) {
    forall path :: Unlinks(s, path) <= Unlinks(t, path) &&
      (Unlinks(s, path) == Unlinks(t, path) && path in s.links ==> path in t.links && t.links[path] == s.links[path])
  }

  lemma OtherAttemptsStaySound(s: State, t: State, q: Proc)
    requires q in s.procs && AttemptSound(s, q) && q in t.procs && t.procs[q] == s.procs[q]
    requires UnlinksCounted(s, t)
    ensures AttemptSound(t, q)
  {
  }

  /** What is left to show of a step: the files and the locks, and the process that made it. */
  lemma StepSound(s: State, t: State, p: Proc)
    requires Inv(s) && p in s.procs && OthersUntouched(s, t, p) && UnlinksCounted(s, t)
    requires FilesSound(t) && LocksSound(t) && ProcessSound(t, p) && AttemptSound(t, p)
    ensures Inv(t)
  {
    hide FilesSound, LocksSound, ProcessSound, AttemptSound, UnlinksCounted;
    forall q | q in t.procs ensures ProcessSound(t, q) && AttemptSound(t, q) {
      if q != p {
        OthersStaySound(s, t, p, q);
        OtherAttemptsStaySound(s, t, q);
      }
    }
  }

  /** Steps that change nothing but the process's own record, apart from opening a file that has a name. */
  lemma RecordStep(s: State, p: Proc, me: Process)
    requires Inv(s) && p in s.procs
    requires forall f :: f in me.open ==> f in s.procs[p].open || f in s.links.Values
    requires s.procs[p].open <= me.open
    requires var t := WithProc(s, p, me); ProcessSound(t, p) && AttemptSound(t, p)
    ensures Inv(WithProc(s, p, me))
  {
    RecordParts(s, p, me);
    hide *;
    StepSound(s, WithProc(s, p, me), p);
  }

  lemma RecordParts(s: State, p: Proc, me: Process)
    requires Inv(s) && p in s.procs && s.procs[p].open <= me.open
    requires forall f :: f in me.open ==> f in s.procs[p].open || f in s.links.Values
    ensures var t := WithProc(s, p, me);
            FilesSound(t) && LocksSound(t) && OthersUntouched(s, t, p) && UnlinksCounted(s, t)
  {
    RecordFiles(s, p, me);
    RecordLocks(s, p, me);
    hide Inv, FilesSound, LocksSound, Live;
  }

  lemma RecordFiles(s: State, p: Proc, me: Process)
    requires Inv(s) && p in s.procs
    requires forall f :: f in me.open ==> f in s.procs[p].open || f in s.links.Values
    ensures FilesSound(WithProc(s, p, me))
  {
    hide ProcessSound, AttemptSound, LocksSound;
    FilesStaySound(s, WithProc(s, p, me));
  }

  lemma RecordLocks(s: State, p: Proc, me: Process)
    requires Inv(s) && p in s.procs && s.procs[p].open <= me.open
    ensures LocksSound(WithProc(s, p, me))
  {
    hide ProcessSound, AttemptSound, FilesSound;
  }

  /** The names stay, nothing is opened, and only the process's own locks may come and go. */
  ghost predicate OwnLocksOnly(s: State, t: State, p: Proc) {
    && p in s.procs && t.procs.Keys == s.procs.Keys
    && t.links == s.links && t.numbers == s.numbers && t.unlinks == s.unlinks
    && t.procs[p].open <= s.procs[p].open
    && (forall q :: q in s.procs && q != p ==> t.procs[q] == s.procs[q])
    && (forall f :: f in s.writer && s.writer[f] != p ==> f in t.writer && t.writer[f] == s.writer[f])
    && (forall f :: f in t.writer ==>
          if t.writer[f] == p then f in t.procs[p].open else f in s.writer && t.writer[f] == s.writer[f])
    && (forall r :: r in t.readers ==> if r.0 == p then r.1 in t.procs[p].open else r in s.readers)
    && (forall r :: r in t.readers ==> r.1 !in t.writer)
  }

  lemma OwnLocksFiles(s: State, t: State, p: Proc)
    requires FilesSound(s) && OwnLocksOnly(s, t, p)
    ensures FilesSound(t)
  {
    FilesStaySound(s, t);
  }

  lemma OwnLocksSound(s: State, t: State, p: Proc)
    requires LocksSound(s) && OwnLocksOnly(s, t, p)
    ensures LocksSound(t)
  {
  }

  lemma OwnLocksOthers(s: State, t: State, p: Proc)
    requires OwnLocksOnly(s, t, p)
    ensures OthersUntouched(s, t, p) && UnlinksCounted(s, t)
  {
  }

  lemma LockStep(s: State, t: State, p: Proc)
    requires Inv(s) && OwnLocksOnly(s, t, p)
    requires ProcessSound(t, p) && AttemptSound(t, p)
    ensures Inv(t)
  {
    hide FilesSound, LocksSound, ProcessSound, AttemptSound;
    OwnLocksFiles(s, t, p);
    OwnLocksSound(s, t, p);
    OwnLocksOthers(s, t, p);
    hide OwnLocksOnly;
    StepSound(s, t, p);
  }

  lemma BeginSound(s: State, p: Proc, path: Path)
    requires Inv(s) && Enabled(s, p, Begin(path))
    ensures Inv(Apply(s, p, Begin(path)))
  {
    RecordStep(s, p, Apply(s, p, Begin(path)).procs[p]);
  }

  lemma OpenNewSound(s: State, p: Proc, f: File, n: nat)
    requires Inv(s) && Enabled(s, p, OpenNew(f, n))
    ensures Inv(Apply(s, p, OpenNew(f, n)))
  {
    if s.procs[p].path in s.links {
      RecordStep(s, p, Apply(s, p, OpenNew(f, n)).procs[p]);
    } else {
      CreateSound(s, p, f, n);
    }
  }

  lemma CreateSound(s: State, p: Proc, f: File, n: nat)
    requires Inv(s) && Enabled(s, p, OpenNew(f, n)) && s.procs[p].path !in s.links
    ensures Inv(Create(s, p, f, n))
  {
    var t := Create(s, p, f, n);
    NewFileSound(s, p, f, n);
    hide *;
    CreateLocks(s, p, f, n);
    CreateProcess(s, p, f, n);
    CreateOthers(s, p, f, n);
    StepSound(s, t, p);
  }

  lemma CreateLocks(s: State, p: Proc, f: File, n: nat)
    requires Inv(s) && Enabled(s, p, OpenNew(f, n)) && s.procs[p].path !in s.links
    ensures LocksSound(Create(s, p, f, n))
  {
    hide FilesSound, ProcessSound, AttemptSound, Live, FreeNumber;
  }

  lemma CreateProcess(s: State, p: Proc, f: File, n: nat)
    requires Inv(s) && Enabled(s, p, OpenNew(f, n)) && s.procs[p].path !in s.links
    ensures var t := Create(s, p, f, n); ProcessSound(t, p) && AttemptSound(t, p)
  {
    hide LocksSound, Live, FreeNumber;
  }

  lemma CreateOthers(s: State, p: Proc, f: File, n: nat)
    requires Inv(s) && Enabled(s, p, OpenNew(f, n)) && s.procs[p].path !in s.links
    ensures var t := Create(s, p, f, n); OthersUntouched(s, t, p) && UnlinksCounted(s, t)
  {
    hide LocksSound, AttemptSound, Live, FreeNumber;
  }

  /** A file may be given any number no live file has, and still live files have different numbers. */
  lemma NewFileSound(s: State, p: Proc, f: File, n: nat)
    requires Inv(s) && Enabled(s, p, OpenNew(f, n)) && s.procs[p].path !in s.links
    ensures FilesSound(Create(s, p, f, n))
  {
    var t := Create(s, p, f, n);
    forall g | Live(t, g) && g != f ensures Live(s, g) {
      if g in t.links.Values {
        var path :| path in t.links && t.links[path] == g;
        assert s.links[path] == g;
      } else {
        var q :| q in t.procs && g in t.procs[q].open;
        assert g in s.procs[q].open;
      }
    }
  }

  lemma OpenOldSound(s: State, p: Proc)
    requires Inv(s) && Enabled(s, p, OpenOld)
    ensures Inv(OpenAgain(s, p))
  {
    OpenOldProcess(s, p);
    hide ProcessSound, AttemptSound, FilesSound, LocksSound;
    RecordStep(s, p, OpenAgain(s, p).procs[p]);
  }

  lemma OpenOldProcess(s: State, p: Proc)
    requires Inv(s) && Enabled(s, p, OpenOld)
    ensures var t := OpenAgain(s, p); ProcessSound(t, p) && AttemptSound(t, p)
  {
    hide LocksSound, Live;
  }

  lemma LockSound(s: State, p: Proc)
    requires Inv(s) && Enabled(s, p, Lock)
    ensures Inv(LockWrite(s, p))
  {
    if WriteConflict(s, p, s.procs[p].pc.file) {
      hide WriteConflict, FilesSound, LocksSound, Live;
      RecordStep(s, p, Me(s, p).(pc := Refused(s.procs[p].pc.file)));
    } else {
      GrantSound(s, p);
    }
  }

  lemma GrantOwn(s: State, p: Proc)
    requires Inv(s) && Enabled(s, p, Lock) && !WriteConflict(s, p, s.procs[p].pc.file)
    ensures OwnLocksOnly(s, LockWrite(s, p), p)
  {
    hide FilesSound, AttemptSound;
  }

  lemma GrantProcess(s: State, p: Proc)
    requires Inv(s) && Enabled(s, p, Lock) && !WriteConflict(s, p, s.procs[p].pc.file)
    ensures var t := LockWrite(s, p); ProcessSound(t, p) && AttemptSound(t, p)
  {
    hide FilesSound, LocksSound;
  }

  lemma GrantSound(s: State, p: Proc)
    requires Inv(s) && Enabled(s, p, Lock) && !WriteConflict(s, p, s.procs[p].pc.file)
    ensures Inv(LockWrite(s, p))
  {
    GrantOwn(s, p);
    GrantProcess(s, p);
    hide *;
    LockStep(s, LockWrite(s, p), p);
  }

  lemma FstatSound(s: State, p: Proc)
    requires Inv(s) && Enabled(s, p, Fstat)
    ensures Inv(Apply(s, p, Fstat))
  {
    RecordStep(s, p, Apply(s, p, Fstat).procs[p]);
  }

  /** The comparison of inode numbers tells whether the locked file is the one with the name,
      because the open descriptor keeps the number from being given to another file. */
  lemma NumbersTellFiles(s: State, p: Proc)
    requires Inv(s) && p in s.procs && s.procs[p].pc.Statted? && s.procs[p].path in s.links
    ensures s.numbers[s.links[s.procs[p].path]] == s.procs[p].pc.number <==>
            s.links[s.procs[p].path] == s.procs[p].pc.file
  {
    assert Live(s, s.procs[p].pc.file) && Live(s, s.links[s.procs[p].path]);
  }

  lemma StatSound(s: State, p: Proc)
    requires Inv(s) && Enabled(s, p, Stat)
    ensures Inv(Compare(s, p))
  {
    if s.procs[p].path in s.links {
      NumbersTellFiles(s, p);
    }
    RecordStep(s, p, Compare(s, p).procs[p]);
  }

  predicate MayClose(pc: Pc) {
    pc.Refused? || pc.Stale? || pc.ProbeAsked? || pc.ProbeFailed?
  }

  lemma CloseOwn(s: State, p: Proc)
    requires Inv(s) && p in s.procs && HasFile(s.procs[p].pc)
    ensures OwnLocksOnly(s, CloseIt(s, p), p)
  {
    hide FilesSound, ProcessSound, AttemptSound;
  }

  lemma CloseProcess(s: State, p: Proc)
    requires Inv(s) && p in s.procs && MayClose(s.procs[p].pc)
    ensures var t := CloseIt(s, p); ProcessSound(t, p) && AttemptSound(t, p)
  {
    hide FilesSound, LocksSound;
  }

  lemma CloseSound(s: State, p: Proc)
    requires Inv(s) && p in s.procs && MayClose(s.procs[p].pc)
    ensures Inv(CloseIt(s, p))
  {
    CloseOwn(s, p);
    CloseProcess(s, p);
    hide Inv, OwnLocksOnly, ProcessSound, AttemptSound, CloseIt;
    LockStep(s, CloseIt(s, p), p);
  }

  lemma TroubleSound(s: State, p: Proc)
    requires Inv(s) && Enabled(s, p, Trouble)
    ensures Inv(Apply(s, p, Trouble))
  {
    TroubleProcess(s, p);
    hide ProcessSound, AttemptSound, FilesSound, LocksSound;
    RecordStep(s, p, Apply(s, p, Trouble).procs[p]);
  }

  lemma TroubleProcess(s: State, p: Proc)
    requires Inv(s) && Enabled(s, p, Trouble)
    ensures var t := Apply(s, p, Trouble); ProcessSound(t, p) && AttemptSound(t, p)
  {
    hide FilesSound, LocksSound, Live;
  }

  /** `p` may unlink its path: it is the holder, or there is none. */
  ghost predicate MayUnlink(s: State, p: Proc)
    requires p in s.procs
  {
    s.procs[p].pc.Holding? || (s.procs[p].pc.Unlinking? && !Held(s, s.procs[p].path))
  }

  lemma UnlinkSound(s: State, p: Proc)
    requires Inv(s) && p in s.procs && MayUnlink(s, p)
    ensures Inv(Remove(s, p))
  {
    var t := Remove(s, p);
    UnlinkOwn(s, p);
    UnlinkOthers(s, p);
    hide *;
    StepSound(s, t, p);
  }

  lemma UnlinkOwn(s: State, p: Proc)
    requires Inv(s) && p in s.procs && MayUnlink(s, p)
    ensures var t := Remove(s, p); FilesSound(t) && LocksSound(t) && ProcessSound(t, p) && AttemptSound(t, p)
  {
    UnlinkFiles(s, p);
    UnlinkProcess(s, p);
    hide *;
  }

  lemma UnlinkFiles(s: State, p: Proc)
    requires Inv(s) && p in s.procs
    ensures FilesSound(Remove(s, p)) && LocksSound(Remove(s, p))
  {
    hide ProcessSound, AttemptSound;
    FilesStaySound(s, Remove(s, p));
  }

  lemma UnlinkProcess(s: State, p: Proc)
    requires Inv(s) && p in s.procs && MayUnlink(s, p)
    ensures ProcessSound(Remove(s, p), p) && AttemptSound(Remove(s, p), p)
  {
    hide Held, LocksSound, AttemptSound, Live;
    assert ProcessSound(s, p);
    UnlinkedIdle(s, p);
  }

  lemma UnlinkedIdle(s: State, p: Proc)
    requires p in s.procs
    ensures AttemptSound(Remove(s, p), p)
  {
  }

  /** Only `p` itself loses the file it unlinks, because nobody else holds the path. */
  lemma UnlinkOthers(s: State, p: Proc)
    requires Inv(s) && p in s.procs && MayUnlink(s, p)
    ensures var t := Remove(s, p); OthersUntouched(s, t, p) && UnlinksCounted(s, t)
  {
    NobodyElse(s, p);
    hide Inv, MayUnlink;
  }

  lemma NobodyElse(s: State, p: Proc)
    requires Inv(s) && p in s.procs && MayUnlink(s, p)
    ensures forall q :: Holds(s, q, s.procs[p].path) ==> q == p
  {
    OnlyHolder(s, p);
  }

  lemma StopCloseSound(s: State, p: Proc)
    requires Inv(s) && Enabled(s, p, StopClose)
    ensures Inv(StopClosed(s, p))
  {
    StopCloseOwn(s, p);
    StopCloseProcess(s, p);
    hide Inv, OwnLocksOnly, ProcessSound, AttemptSound, StopClosed;
    LockStep(s, StopClosed(s, p), p);
  }

  lemma StopCloseOwn(s: State, p: Proc)
    requires Inv(s) && p in s.procs && HasFile(s.procs[p].pc)
    ensures OwnLocksOnly(s, StopClosed(s, p), p)
  {
    CloseOwn(s, p);
    hide Inv;
  }

  lemma StopCloseProcess(s: State, p: Proc)
    requires Inv(s) && Enabled(s, p, StopClose)
    ensures var t := StopClosed(s, p); ProcessSound(t, p) && AttemptSound(t, p)
  {
    hide FilesSound, LocksSound;
  }

  /** The unlink at the end of `daemon_stop` keeps the invariant exactly when nobody holds the path at that moment. */
  lemma StopUnlinkSound(s: State, p: Proc)
    requires Inv(s) && Enabled(s, p, StopUnlink)
    ensures Inv(Remove(s, p)) <==> !Held(s, s.procs[p].path)
  {
    if Held(s, s.procs[p].path) {
      var q :| Holds(s, q, s.procs[p].path);
      assert Holds(Remove(s, p), q, s.procs[p].path) && q in Remove(s, p).procs;
    } else {
      UnlinkSound(s, p);
    }
  }

  lemma OnlyHolder(s: State, p: Proc)
    requires Inv(s)
    ensures forall q, path :: Holds(s, p, path) && Holds(s, q, path) ==> p == q
  {
  }

  lemma DieSound(s: State, p: Proc)
    requires Inv(s) && p in s.procs
    ensures Inv(Dead(s, p))
  {
    var t := Dead(s, p);
    LockStep(s, t, p);
  }

  lemma ProbeOpenSound(s: State, p: Proc, path: Path)
    requires Inv(s) && Enabled(s, p, ProbeOpen(path))
    ensures Inv(OpenToProbe(s, p, path))
  {
    ProbeOpenProcess(s, p, path);
    hide ProcessSound, AttemptSound, FilesSound, LocksSound;
    RecordStep(s, p, OpenToProbe(s, p, path).procs[p]);
  }

  lemma ProbeOpenProcess(s: State, p: Proc, path: Path)
    requires Inv(s) && Enabled(s, p, ProbeOpen(path))
    ensures var t := OpenToProbe(s, p, path); ProcessSound(t, p) && AttemptSound(t, p)
  {
    hide LocksSound, Live;
  }

  lemma ProbeLockSound(s: State, p: Proc)
    requires Inv(s) && Enabled(s, p, ProbeLock)
    ensures Inv(LockRead(s, p))
  {
    if ReadConflict(s, p, s.procs[p].pc.file) {
      RecordStep(s, p, LockRead(s, p).procs[p]);
    } else {
      ProbeGranted(s, p);
    }
  }

  lemma ProbeGranted(s: State, p: Proc)
    requires Inv(s) && Enabled(s, p, ProbeLock) && !ReadConflict(s, p, s.procs[p].pc.file)
    ensures Inv(LockRead(s, p))
  {
    ProbeGrantedOwn(s, p);
    ProbeGrantedProcess(s, p);
    hide *;
    LockStep(s, LockRead(s, p), p);
  }

  lemma ProbeGrantedOwn(s: State, p: Proc)
    requires Inv(s) && Enabled(s, p, ProbeLock) && !ReadConflict(s, p, s.procs[p].pc.file)
    ensures OwnLocksOnly(s, LockRead(s, p), p)
  {
    hide FilesSound, AttemptSound;
  }

  lemma ProbeGrantedProcess(s: State, p: Proc)
    requires Inv(s) && Enabled(s, p, ProbeLock) && !ReadConflict(s, p, s.procs[p].pc.file)
    ensures ProcessSound(LockRead(s, p), p) && AttemptSound(LockRead(s, p), p)
  {
    hide FilesSound, LocksSound, Live;
  }

  lemma EveryStepSound(s: State, p: Proc, c: Call)
    requires Inv(s) && Enabled(s, p, c) && Careful(s, p, c)
    ensures Inv(Apply(s, p, c))
  {
    hide Inv;
    match c
    case Begin(path) => BeginSound(s, p, path);
    case OpenNew(f, n) => OpenNewSound(s, p, f, n);
    case OpenOld => OpenOldSound(s, p);
    case Lock => LockSound(s, p);
    case Fstat => FstatSound(s, p);
    case Stat => StatSound(s, p);
    case Close => CloseSound(s, p);
    case Trouble => TroubleSound(s, p);
    case Unlink => UnlinkSound(s, p);
    case StopClose => StopCloseSound(s, p);
    case StopUnlink => StopUnlinkSound(s, p);
    case Die => DieSound(s, p);
    case ProbeOpen(path) => ProbeOpenSound(s, p, path);
    case ProbeLock => ProbeLockSound(s, p);
    case ProbeClose => CloseSound(s, p);
  }

  // ----- safety over whole runs

  lemma InvExcludes(s: State)
    requires Inv(s)
    ensures Exclusive(s)
  {
    forall p, q, path | Holds(s, p, path) && Holds(s, q, path) ensures p == q {
      OnlyHolder(s, p);
    }
  }

  lemma InitSound(s: State)
    requires Init(s)
    ensures Inv(s)
  {
    assert forall f :: !Live(s, f);
  }

  lemma {:induction false} RunFromSound(s: State, run: seq<State>, i: nat)
    requires Inv(s) && IsRunFrom(s, run) && i < |run|
    ensures Inv(run[i])
  {
    if i > 0 {
      RunFromSound(s, run, i - 1);
      hide Inv, Enabled, Apply, Careful;
      assert Next(run[i - 1], run[i - 1 + 1]);
      var p, c :| Enabled(run[i - 1], p, c) && Careful(run[i - 1], p, c) && run[i] == Apply(run[i - 1], p, c);
      EveryStepSound(run[i - 1], p, c);
    }
  }

  lemma RunSound(run: seq<State>, i: nat)
    requires IsRun(run) && i < |run|
    ensures Inv(run[i])
  {
    InitSound(run[0]);
    RunFromSound(run[0], run, i);
  }

  /** Main result: at no moment of any run do two processes hold the pidfile at one path. In the run `daemon_stop`
      may clean up after a process that is not running, as long as nobody holds the path when it unlinks it. */
  lemma MutualExclusion(run: seq<State>)
    requires IsRun(run)
    ensures forall i :: 0 <= i < |run| ==> Exclusive(run[i])
  {
    forall i | 0 <= i < |run| ensures Exclusive(run[i]) {
      RunSound(run, i);
      InvExcludes(run[i]);
    }
  }

  /** A holder's file is the one the path names, and the holder has it locked. */
  lemma HolderHasTheFile(run: seq<State>, i: nat, p: Proc, path: Path)
    requires IsRun(run) && i < |run| && Holds(run[i], p, path)
    ensures path in run[i].links && run[i].links[path] in run[i].writer && run[i].writer[run[i].links[path]] == p
  {
    RunSound(run, i);
  }

  /** `daemon_is_running`, having opened the file at the path, says "running" if somebody else holds the pidfile,
      and only if another process has the file write-locked. */
  lemma ProbeAnswers(run: seq<State>, i: nat, p: Proc)
    requires IsRun(run) && i < |run| && Enabled(run[i], p, ProbeLock)
    ensures var s, t := run[i], Apply(run[i], p, ProbeLock);
            var f := s.procs[p].pc.file;
            && t.procs[p].pc.ProbeAsked?
            && (t.procs[p].pc.running <==> exists q :: q in s.procs && q != p && f in s.writer && s.writer[f] == q)
            && (forall q :: Holds(s, q, s.procs[p].path) && s.procs[p].path in s.links ==>
                  s.links[s.procs[p].path] == f ==> t.procs[p].pc.running)
  {
    RunSound(run, i);
    var s := run[i];
    var f := s.procs[p].pc.file;
    assert f in s.writer ==> s.writer[f] in s.procs;
    forall q | Holds(s, q, s.procs[p].path) && s.procs[p].path in s.links && s.links[s.procs[p].path] == f
      ensures Apply(s, p, ProbeLock).procs[p].pc.running
    {
      assert s.writer[f] == q && q != p;
    }
  }

  /** The whole of `daemon_is_running` up to its answer, if nothing comes in between: "not running" if there is no file,
      and otherwise "running" exactly if some other process has the file of that name write-locked; so for every path
      that is held. */
  lemma ProbeTells(run: seq<State>, i: nat, p: Proc, path: Path)
    requires IsRun(run) && i < |run| && Enabled(run[i], p, ProbeOpen(path))
    ensures var s, t := run[i], Apply(run[i], p, ProbeOpen(path));
            && (path !in s.links ==> t.procs[p].pc == Idle)
            && (path in s.links ==>
                  && Enabled(t, p, ProbeLock)
                  && Apply(t, p, ProbeLock).procs[p].pc ==
                     ProbeAsked(s.links[path], s.links[path] in s.writer && s.writer[s.links[path]] != p))
            && (forall q :: Holds(s, q, path) ==> path in s.links && s.links[path] in s.writer &&
                                                  s.writer[s.links[path]] == q != p)
  {
    RunSound(run, i);
    var s := run[i];
    forall q | Holds(s, q, path)
      ensures path in s.links && s.links[path] in s.writer && s.writer[s.links[path]] == q != p
    {
      HolderHasTheFile(run, i, q, path);
    }
    hide Inv, IsRun;
  }

  /** Each restart of an acquisition is paid for by an unlink of the path since the acquisition began, no two
      restarts by the same one; and the acquisition makes at most six system calls for each unlink and for itself.
      A process in the middle of an acquisition unlinks nothing itself. */
  lemma RestartsArePaidFor(run: seq<State>, i: nat, p: Proc)
    requires IsRun(run) && i < |run| && p in run[i].procs && Acquiring(run[i].procs[p].pc)
    ensures var me := run[i].procs[p];
            var unlinked := Unlinks(run[i], me.path) - me.begun;
            && me.restarts <= unlinked
            && me.calls < 6 * (unlinked + 1)
            && !Enabled(run[i], p, Unlink)
  {
    RunSound(run, i);
  }

  /** Going back to the start takes an unlink since the start of this very attempt. */
  lemma RestartTakesAnUnlink(run: seq<State>, i: nat, p: Proc, c: Call)
    requires IsRun(run) && i < |run| && Enabled(run[i], p, c) && Acquiring(run[i].procs[p].pc)
    requires var t := Apply(run[i], p, c); t.procs[p].restarts > run[i].procs[p].restarts
    ensures Unlinks(run[i], run[i].procs[p].path) > run[i].procs[p].since
    ensures var t := Apply(run[i], p, c); t.procs[p].pc.Start? && t.procs[p].since == Unlinks(t, t.procs[p].path)
  {
    RunSound(run, i);
  }

  // ----- what the steps above leave out, and why they have to

  /** Process `q` makes these calls, one after the other. */
  ghost predicate Calls(s: State, q: Proc, cs: seq<Call>, t: State)
    decreases |cs|
  {
    if cs == [] then s == t else Enabled(s, q, cs[0]) && Calls(Apply(s, q, cs[0]), q, cs[1..], t)
  }

  lemma CallOne(s: State, q: Proc, c: Call, cs: seq<Call>, t: State)
    requires Enabled(s, q, c) && Calls(Apply(s, q, c), q, cs, t)
    ensures Calls(s, q, [c] + cs, t)
  {
    assert ([c] + cs)[1..] == cs;
  }

  /** The files, as far as an acquisition looks at them, and a path whose file nobody has locked. */
  ghost predicate Unlocked(s: State, path: Path) {
    && path in s.links && s.links[path] in s.numbers
    && s.links[path] !in s.writer && forall r :: r in s.readers ==> r.1 != s.links[path]
  }

  /** With the file there and unlocked, an acquisition that is not disturbed succeeds. */
  lemma AcquiresUnlocked(s: State, q: Proc, path: Path) returns (t: State)
    requires Unlocked(s, path) && q in s.procs && s.procs[q].pc.Idle?
    ensures Calls(s, q, [Begin(path), OpenNew(0, 0), OpenOld, Lock, Fstat, Stat], t)
    ensures Holds(t, q, path) && t.links == s.links && t.numbers == s.numbers
    ensures t.procs.Keys == s.procs.Keys && forall p :: p in s.procs && p != q ==> t.procs[p] == s.procs[p]
    ensures forall f :: f in t.writer ==> f in s.writer || f == s.links[path]
    ensures t.readers <= s.readers
  {
    var s3 := ReachesFile(s, q, path);
    t := LocksFile(s3, q);
    CallsThen(s, q, [Begin(path), OpenNew(0, 0), OpenOld], s3, [Lock, Fstat, Stat], t);
    assert [Begin(path), OpenNew(0, 0), OpenOld] + [Lock, Fstat, Stat] ==
           [Begin(path), OpenNew(0, 0), OpenOld, Lock, Fstat, Stat];
  }

  lemma {:induction false} CallsThen(s: State, q: Proc, cs: seq<Call>, m: State, ds: seq<Call>, t: State)
    requires Calls(s, q, cs, m) && Calls(m, q, ds, t)
    ensures Calls(s, q, cs + ds, t)
    decreases |cs|
  {
    if cs == [] {
      assert cs + ds == ds;
    } else {
      CallsThen(Apply(s, q, cs[0]), q, cs[1..], m, ds, t);
      assert (cs + ds)[1..] == cs[1..] + ds;
    }
  }

  /** Up to the open descriptor. */
  lemma ReachesFile(s: State, q: Proc, path: Path) returns (t: State)
    requires Unlocked(s, path) && q in s.procs && s.procs[q].pc.Idle?
    ensures Calls(s, q, [Begin(path), OpenNew(0, 0), OpenOld], t)
    ensures t == s.(procs := t.procs) && t.procs.Keys == s.procs.Keys
    ensures forall p :: p in s.procs && p != q ==> t.procs[p] == s.procs[p]
    ensures t.procs[q].pc == Opened(s.links[path]) && t.procs[q].path == path
  {
    var s1 := Apply(s, q, Begin(path));
    var s2 := Apply(s1, q, OpenNew(0, 0));
    t := Apply(s2, q, OpenOld);
    CallOne(s2, q, OpenOld, [], t);
    CallOne(s1, q, OpenNew(0, 0), [OpenOld], t);
    CallOne(s, q, Begin(path), [OpenNew(0, 0), OpenOld], t);
    assert [OpenNew(0, 0)] + [OpenOld] == [OpenNew(0, 0), OpenOld];
    assert [Begin(path)] + [OpenNew(0, 0), OpenOld] == [Begin(path), OpenNew(0, 0), OpenOld];
  }

  /** From there to holding the pidfile. */
  lemma LocksFile(s: State, q: Proc) returns (t: State)
    requires q in s.procs && s.procs[q].pc.Opened?
    requires Unlocked(s, s.procs[q].path) && s.links[s.procs[q].path] == s.procs[q].pc.file
    ensures Calls(s, q, [Lock, Fstat, Stat], t)
    ensures Holds(t, q, s.procs[q].path) && t.links == s.links && t.numbers == s.numbers
    ensures t.procs.Keys == s.procs.Keys && forall p :: p in s.procs && p != q ==> t.procs[p] == s.procs[p]
    ensures forall f :: f in t.writer ==> f in s.writer || f == s.procs[q].pc.file
    ensures t.readers <= s.readers
  {
    var s1 := Apply(s, q, Lock);
    var s2 := Apply(s1, q, Fstat);
    t := Apply(s2, q, Stat);
    CallOne(s2, q, Stat, [], t);
    CallOne(s1, q, Fstat, [Stat], t);
    CallOne(s, q, Lock, [Fstat, Stat], t);
    assert [Fstat] + [Stat] == [Fstat, Stat];
    assert [Lock] + [Fstat, Stat] == [Lock, Fstat, Stat];
  }

  /** What `daemon_is_running` does to a holder: it opens, asks for a read lock and closes. The descriptor of the
      pidfile it holds stays open. */
  function HolderProbed(s: State, p: Proc, path: Path): State
    requires p in s.procs && s.procs[p].pc.Holding?
  {
    var t := OpenToProbe(s, p, path);
    if path in s.links then CloseIt(LockRead(t, p), p).(procs := s.procs) else s
  }

  /** A holder can probe any path but its own: a read lock of its own replaces the write lock it has, and closing any
      descriptor of a file gives up all locks on it. */
  lemma HolderMayProbe(s: State, p: Proc, mine: Path, path: Path)
    requires Inv(s) && Holds(s, p, mine)
    ensures Inv(HolderProbed(s, p, path)) <==> path != mine
    ensures path != mine ==> HolderProbed(s, p, path) == s
  {
    hide *;
    HolderIsLinked(s, p, mine);
    if path != mine && path in s.links {
      NotOpen(s, p, mine, path);
    }
    if path != mine {
      ProbesAnother(s, p, path);
    } else {
      ProbesItsOwn(s, p, path);
    }
  }

  lemma HolderIsLinked(s: State, p: Proc, mine: Path)
    requires Inv(s) && Holds(s, p, mine)
    ensures p in s.procs && s.procs[p].pc.Holding? && mine in s.links
  {
  }

  lemma ProbesItsOwn(s: State, p: Proc, path: Path)
    requires Inv(s) && Holds(s, p, path) && path in s.links
    ensures !Inv(HolderProbed(s, p, path))
  {
    assert s.links[path] == s.procs[p].pc.file && s.writer[s.links[path]] == p;
    hide Inv;
    var t := HolderProbed(s, p, path);
    assert s.links[path] !in t.writer && t.procs == s.procs;
    Unlockless(t, p);
  }

  lemma ProbesAnother(s: State, p: Proc, path: Path)
    requires p in s.procs && s.procs[p].pc.Holding?
    requires path in s.links ==>
               var f := s.links[path];
               && f !in s.procs[p].open && (f in s.writer ==> s.writer[f] != p) && (p, f) !in s.readers
               && (forall r :: r in s.readers ==> r.1 !in s.writer)
    ensures HolderProbed(s, p, path) == s
  {
    if path in s.links {
      var f, t := s.links[path], OpenToProbe(s, p, path);
      var u := LockRead(t, p);
      if f in s.writer {
        assert u.writer == s.writer && u.readers == s.readers;
      } else {
        assert u.writer == s.writer && u.readers == s.readers + {(p, f)};
      }
      LockGivenUp(s, u, p, f);
    }
  }

  lemma LockGivenUp(s: State, u: State, p: Proc, f: File)
    requires p in u.procs && HasFile(u.procs[p].pc) && u.procs[p].pc.file == f && !u.procs[p].pc.Stale?
    requires u.writer == s.writer && (f in s.writer ==> s.writer[f] != p)
    requires (p, f) !in s.readers && (u.readers == s.readers || u.readers == s.readers + {(p, f)})
    requires u == s.(writer := u.writer, readers := u.readers, procs := u.procs)
    ensures CloseIt(u, p).(procs := s.procs) == s
  {
    var t := CloseIt(u, p);
    assert t.writer == s.writer && t.readers == s.readers;
  }

  /** What the same holder does at the end of `daemon_stop`, or when an acquisition of a path it has already fails:
      it opens the file, asks for the write lock, which its own does not stand against, and closes it again. */
  function HolderReopened(s: State, p: Proc, path: Path): State
    requires p in s.procs && s.procs[p].pc.Holding? && path in s.links
  {
    var t := OpenAgain(WithProc(s, p, s.procs[p].(path := path)), p);
    CloseIt(LockWrite(t, p), p).(procs := s.procs)
  }

  /** That, too, is harmless exactly for other paths than its own. */
  lemma HolderMayReopen(s: State, p: Proc, mine: Path, path: Path)
    requires Inv(s) && Holds(s, p, mine) && path in s.links
    ensures Inv(HolderReopened(s, p, path)) <==> path != mine
    ensures path != mine ==> HolderReopened(s, p, path) == s
  {
    hide *;
    HolderIsLinked(s, p, mine);
    if path != mine {
      NotOpen(s, p, mine, path);
      ReopensAnother(s, p, path);
    } else {
      ReopensItsOwn(s, p, path);
    }
  }

  lemma ReopensItsOwn(s: State, p: Proc, path: Path)
    requires Inv(s) && Holds(s, p, path) && path in s.links
    ensures !Inv(HolderReopened(s, p, path))
  {
    assert s.links[path] == s.procs[p].pc.file;
    hide Inv;
    var t := HolderReopened(s, p, path);
    assert s.links[path] !in t.writer && t.procs == s.procs;
    Unlockless(t, p);
  }

  lemma Unlockless(t: State, p: Proc)
    requires p in t.procs && t.procs[p].pc.Holding? && t.procs[p].pc.file !in t.writer
    ensures !Inv(t)
  {
    assert !ProcessSound(t, p);
  }

  lemma ReopensAnother(s: State, p: Proc, path: Path)
    requires p in s.procs && s.procs[p].pc.Holding? && path in s.links
    requires var f := s.links[path];
             && f !in s.procs[p].open && (f in s.writer ==> s.writer[f] != p) && (p, f) !in s.readers
             && (forall r :: r in s.readers ==> r.1 !in s.writer)
    ensures HolderReopened(s, p, path) == s
  {
    var t := HolderReopened(s, p, path);
    assert t.writer == s.writer && t.readers == s.readers;
  }

  lemma NotOpen(s: State, p: Proc, mine: Path, path: Path)
    requires Inv(s) && Holds(s, p, mine) && path in s.links && path != mine
    ensures var f := s.links[path];
            && f !in s.procs[p].open && (f in s.writer ==> s.writer[f] != p) && (p, f) !in s.readers
            && (forall r :: r in s.readers ==> r.1 !in s.writer)
  {
    assert s.links[path] != s.links[mine];
  }

  /** And after it has probed its own, any other idle process becomes a second holder. */
  lemma SelfProbeLetsAnotherIn(s: State, p: Proc, q: Proc, path: Path) returns (t: State)
    requires Inv(s) && Holds(s, p, path) && q in s.procs && q != p && s.procs[q].pc.Idle?
    ensures Calls(HolderProbed(s, p, path), q, [Begin(path), OpenNew(0, 0), OpenOld, Lock, Fstat, Stat], t)
    ensures Holds(t, p, path) && Holds(t, q, path) && !Exclusive(t)
  {
    SelfProbeUnlocks(s, p, path);
    hide Inv, HolderProbed, Unlocked;
    t := AcquiresUnlocked(HolderProbed(s, p, path), q, path);
    TwoHolders(t, p, q, path);
  }

  lemma SelfProbeUnlocks(s: State, p: Proc, path: Path)
    requires Inv(s) && Holds(s, p, path)
    ensures Unlocked(HolderProbed(s, p, path), path) && HolderProbed(s, p, path).procs == s.procs
  {
    var f := s.links[path];
    assert s.writer[f] == p;
  }

  /** Between the two halves of the end of `daemon_stop` any idle process may become the holder. */
  lemma StopLetsAnotherIn(s: State, p: Proc, q: Proc, path: Path) returns (t: State)
    requires Inv(s) && Holds(s, p, path) && q in s.procs && q != p && s.procs[q].pc.Idle?
    ensures Calls(StopClosed(s, p), q, [Begin(path), OpenNew(0, 0), OpenOld, Lock, Fstat, Stat], t)
    ensures Enabled(t, p, StopUnlink) && t.procs[p].path == path && Holds(t, q, path)
  {
    var m := StopClosed(s, p);
    assert Unlocked(m, path);
    hide Inv, Unlocked;
    t := AcquiresUnlocked(m, q, path);
  }

  /** Then, after the unlink, every other idle process can become a second holder, the one that stops among them. */
  lemma StopRaces(s: State, p: Proc, q: Proc, r: Proc, path: Path, f: File, n: nat) returns (t: State)
    requires Inv(s) && Enabled(s, p, StopUnlink) && s.procs[p].path == path && Holds(s, q, path)
    requires r in s.procs && r != q && (r == p || s.procs[r].pc.Idle?)
    requires f !in s.numbers && forall g :: g in s.numbers ==> s.numbers[g] != n
    ensures Calls(Apply(s, p, StopUnlink), r, [Begin(path), OpenNew(f, n), Lock, Fstat, Stat], t)
    ensures Holds(t, q, path) && Holds(t, r, path) && !Exclusive(t)
  {
    NotLocked(s, f);
    var m := Apply(s, p, StopUnlink);
    assert Holds(m, q, path) && m.procs[r].pc.Idle?;
    hide Inv, Calls;
    t := CreatesAnew(m, r, path, f, n);
    TwoHolders(t, q, r, path);
  }

  /** So the end of `daemon_stop` is safe exactly when nobody holds the path at the moment of the unlink: only then
      do all runs from there keep exclusion. */
  lemma StopIsSafeExactly(s: State, p: Proc)
    requires Inv(s) && Enabled(s, p, StopUnlink)
    ensures (forall run :: IsRunFrom(Apply(s, p, StopUnlink), run) ==> Exclusive(run[|run| - 1])) <==>
            !Held(s, s.procs[p].path)
  {
    var m := Apply(s, p, StopUnlink);
    if Held(s, s.procs[p].path) {
      var run := StopRacesInARun(s, p);
      assert IsRunFrom(m, run) && !Exclusive(run[|run| - 1]);
    } else {
      StopUnlinkSound(s, p);
      forall run | IsRunFrom(m, run) ensures Exclusive(run[|run| - 1]) {
        RunFromSound(m, run, |run| - 1);
        InvExcludes(run[|run| - 1]);
      }
    }
  }

  lemma StopRacesInARun(s: State, p: Proc) returns (run: seq<State>)
    requires Inv(s) && Enabled(s, p, StopUnlink) && Held(s, s.procs[p].path)
    ensures IsRunFrom(Apply(s, p, StopUnlink), run) && !Exclusive(run[|run| - 1])
  {
    hide *;
    var q := SomeHolder(s, p);
    var path := s.procs[p].path;
    var f, n := NewNumbers(s);
    var t := StopRaces(s, p, q, p, path, f, n);
    run := RunOfCalls(Apply(s, p, StopUnlink), p, [Begin(path), OpenNew(f, n), Lock, Fstat, Stat], t);
  }

  lemma SomeHolder(s: State, p: Proc) returns (q: Proc)
    requires Enabled(s, p, StopUnlink) && Held(s, s.procs[p].path)
    ensures p in s.procs && Holds(s, q, s.procs[p].path) && q != p
  {
    q :| Holds(s, q, s.procs[p].path);
  }

  lemma NewNumbers(s: State) returns (f: File, n: nat)
    ensures f !in s.numbers && forall g :: g in s.numbers ==> s.numbers[g] != n
  {
    f := Beyond(s.numbers.Keys);
    n := Beyond(s.numbers.Values);
    assert f !in s.numbers.Keys;
    forall g | g in s.numbers ensures s.numbers[g] != n {
      assert s.numbers[g] in s.numbers.Values;
    }
  }

  lemma {:induction false} Beyond(s: set<nat>) returns (n: nat)
    ensures forall m :: m in s ==> m < n
  {
    if s == {} {
      n := 0;
    } else {
      var m :| m in s;
      var n' := Beyond(s - {m});
      n := if n' > m then n' else m + 1;
      forall k | k in s ensures k < n {
        assert k == m || k in s - {m};
      }
    }
  }

  lemma {:induction false} RunOfCalls(s: State, q: Proc, cs: seq<Call>, t: State) returns (run: seq<State>)
    requires Calls(s, q, cs, t) && forall i :: 0 <= i < |cs| ==> !cs[i].StopUnlink?
    ensures IsRunFrom(s, run) && run[|run| - 1] == t
    decreases |cs|
  {
    if cs == [] {
      run := [s];
    } else {
      hide Apply, Enabled;
      var m := Apply(s, q, cs[0]);
      var rest := RunOfCalls(m, q, cs[1..], t);
      assert Careful(s, q, cs[0]);
      assert Next(s, m);
      run := [s] + rest;
      forall i | 0 <= i < |run| - 1 ensures Next(run[i], run[i + 1]) {
        if i > 0 {
          assert Next(rest[i - 1], rest[i - 1 + 1]);
        }
      }
    }
  }

  lemma NotLocked(s: State, f: File)
    requires Inv(s) && f !in s.numbers
    ensures f !in s.writer && forall r :: r in s.readers ==> r.1 != f
    ensures forall path :: path in s.links ==> s.links[path] != f
  {
  }

  lemma TwoHolders(s: State, p: Proc, q: Proc, path: Path)
    requires Holds(s, p, path) && Holds(s, q, path) && p != q
    ensures !Exclusive(s)
  {
  }

  lemma CreatesAnew(s: State, q: Proc, path: Path, f: File, n: nat) returns (t: State)
    requires path !in s.links && q in s.procs && s.procs[q].pc.Idle?
    requires f !in s.numbers && (forall g :: g in s.numbers ==> s.numbers[g] != n)
    requires f !in s.writer && forall r :: r in s.readers ==> r.1 != f
    ensures Calls(s, q, [Begin(path), OpenNew(f, n), Lock, Fstat, Stat], t)
    ensures Holds(t, q, path) && forall p :: p in s.procs && p != q ==> p in t.procs && t.procs[p] == s.procs[p]
  {
    var s1 := Apply(s, q, Begin(path));
    var s2 := Apply(s1, q, OpenNew(f, n));
    CallOne(s1, q, OpenNew(f, n), [], s2);
    CallOne(s, q, Begin(path), [OpenNew(f, n)], s2);
    assert [Begin(path)] + [OpenNew(f, n)] == [Begin(path), OpenNew(f, n)];
    t := LocksFile(s2, q);
    CallsThen(s, q, [Begin(path), OpenNew(f, n)], s2, [Lock, Fstat, Stat], t);
    assert [Begin(path), OpenNew(f, n)] + [Lock, Fstat, Stat] == [Begin(path), OpenNew(f, n), Lock, Fstat, Stat];
  }
}
