# Verified models of libslack and daemon

Dafny models of the stateful core of `libslack` (the C library under `daemon/libslack`) and of two functions of the
`daemon` program, with proofs of what that code is for. `dafny verify dfyconfig.toml` checks everything.

| files | part of the system |
|---|---|
| TimerBag, TimerRounds | the simple thing the timing wheel speeds up: a bag of timers with the ticks they have left, and its runs |
| WheelPosition, ActionLinks, Timevals, TimingWheel | the timing wheel of `agent.c`: five wheels of doubly linked lists, cascades, day rebasing, sleeping and waking |
| WheelCalls, WheelPasses, AgentLoop | callbacks that schedule and cancel and what they leave in a wheel's history, looking at the clock, and the agent's main loop |
| FreeList | the doubly linked free lists of `link.c` |
| Pidfile | the pidfile protocol of `daemon.c`: any number of processes, one system call a step |
| Paths, AbsolutePath, CheckPath, Memory | cleaning up a path in place, and checking every directory and link on the way to a file |
| Exchange, Getopt, GetoptWriting | the permuting option scanner, its block exchange, and options written out as arguments |
| HeapSort, SmartCompare | the heap sort and the file name comparison it is used with |
| RwLock | the readers/writer lock used where the system has none |
| ItemList, ListWalk | growable, possibly owning lists and their iterator |
| FdTable | the sparse table of connected descriptors |
| Respawn | the throttle on respawning a client that ends too soon |

## How to read the proofs

**Timing wheel.** `TimerBag` gives timers their meaning: a bag maps each timer to the ticks it has left, and a run is a
sequence of events (scheduled, cancelled, advanced by a tick, fired, swept). `TimingWheel` is a class with the original's
fields: slot heads, digits of the current position, and actions with `next`, `prev`, `parent` and their own digits. It
carries the ghost log of what it has done; `Valid` says that the log is a run of the bag that ends in the bag of the timers
that are installed. So every theorem about runs of the bag is a theorem about the wheel. A log is *disciplined* if a slot
has been found empty between any two ticks, and *ready* if the next event may be a tick; `FiresOnTime` is about disciplined
logs. That the agent's log is disciplined is not an assumption: `AgentLoop.Life` runs `agent_start` from a new wheel, with any
requests before it, any poll outcomes, any clock and any callbacks. Its contract tells the whole story without a wheel
(`Story`): with timers pending the agent catches up in passes, each of exactly the jiffies between the wheel's time and
what it sees on the clock, and after an empty poll the hand moves on by exactly the way to the first timer or to the end of the
second. The ticks of the history are the sum of these; every timer asked for a tick or more ahead, not cancelled, and whose
tick has come has fired exactly once, at its tick, for any delay and across any number of day wrap-arounds. Callbacks are a
function from the number of the call and the callback to what it asks of the wheel; any program is one. The contracts
say which events the log grows by, and what the wheel's own time becomes: apart from ticks and sweeps there are firings, each
followed by exactly what its own callback asked for, to the tick of each delay and the timer of each cancellation; and
scheduling takes the wheel's time back to a clock that is behind it, and nothing else does. A call returns only if callbacks
do not go on for ever; `Patient` and `Ends` say when they do not. The bounds in them are arbitrary, and a call that returns has
run only so many callbacks, so no such call is left out.
The key invariant is `InPlace`: a timer sits in the wheel of the most significant digit where its target and the position differ,
or is on its way there within a cascade.

**Pidfile.** A state holds the path map, inode numbers (which are reused once nothing links or holds the file), write
and read locks and, for each process, where it is in the code. `Inv` is kept by every step of every process, crashes included.
`MutualExclusion` follows for every run. `daemon_stop` is among the steps; a run is one in which it unlinks only what
nobody holds, and `StopIsSafeExactly` shows that this condition is exact.

**Paths.** `CleanUp` moves a cursor back and forth over a shrinking buffer. The loop is proved against `Normalise`, which
splits at separators and keeps a stack of components; the loop invariant is that everything to the left of the cursor is clean and that
the stack of the whole has not changed.

**Getopt.** `Read` reads the arguments from left to right and moves nothing. `Scanner` is the lazy, permuting scan with the
original's four static variables; each call takes one event off the outcome `Read` promises, and the call that answers -1 leaves the
vector as `Read` says. What an option reports is pinned down from the other side: `GetoptWriting` writes options and operands
out as arguments, with the class of each option read off the option string and the table by position. `WritingIsReadBack`: every
such writing is read back exactly. `EveryVectorIsWritten`: every vector that the scan does not leave is such a writing.

**Names.** `Compared` is what `strsmartcmp` computes, for all strings and any `atoi`; the loops are proved against it, and it
against the comparison of token lists. `EqualIff`, `FirstCharacterDecides`, `FirstNumberDecides` and `ShorterNameFirst` say what
that comes to for the characters themselves: letters count by their place in the alphabet, runs of digits by their value.

**Not as promised.** Where the code does not do what one would expect, a lemma says exactly when it does.

- A timer of zero ticks is not looked at before its slot comes round again unless it fires within the same tick: `FiringTicks` gives
  exactly the ticks at which a timer of any delay may fire.
- `timeval_add` and `agent_schedule` carry once: `TargetTicks` says that the target has its digits in range if and only if
  `InRange`, which looks at the jiffies of the delay and of the position. Less than two million microseconds in all are always in range.
- Probing one's own pidfile (`daemon_is_running` in the process that holds it) replaces and then gives up the lock, since
  record locks belong to processes. `HolderMayProbe`: a holder may probe a path if and only if it is not its own;
  `SelfProbeLetsAnotherIn` shows what follows otherwise. `HolderMayReopen` says the same of opening, locking and closing, as at
  the end of `daemon_stop`.
- `daemon_stop`, when it finds nobody running, closes the pidfile before it unlinks it. `StopLetsAnotherIn` and `StopRaces`
  lead to two holders, the stopping process possibly one of them; `StopIsSafeExactly`: all runs from the unlink on keep
  exclusion if and only if nobody holds the path at that moment.
- `pthread_rwlock_unlock` ends by releasing the mutex but shows no matching acquire. The steps assume that it has it.
  `StoreKeepsExactly`: without it, a reader's decrement keeps the invariant if and only if the state has not changed since it was
  loaded; `TornUnlockMiscounts` and `LateReaderIsForgotten` show a miscount and a lost wake-up.
- The comparison of two numbers in a name is a subtraction of unsigned numbers seen as an `int`. `ComparedSign`: where
  `atoi` reads the numbers, the comparison orders names like their token lists if and only if these are `NearEnough`;
  `LargeNamesGoInACircle` has three names for which it is no order at all.
- An ambiguous name after -W uses up one element too many. `DecodeOverruns` says exactly when that leaves the vector, and
  `ReadOverruns` that a scan does so exactly if it comes to such an option. `AmbiguousAtTheEnd` gives an input,
  `StaysInside` excludes it when there is no "W;".
- `agent_connect` doubles its sparse array once: `MakeRoomForFd` says for which descriptors that is enough.

## Model

| member | source | states |
|---|---|---|
| `AgentLoop.Life` | daemon/libslack/agent.c:2103-2282 | the whole life of an agent: it makes exactly the ticks of its naps and of its looks at the clock; every timer asked for D >= 1 ticks ahead, not cancelled by a request or callback, and whose tick has come has fired exactly once, at exactly the D-th tick; and the history holds nothing but the requests, the firings and what their callbacks asked for |
| `AgentLoop.Start` | daemon/libslack/agent.c:2103-2282 | the main loop catches up, waits, catches up and so on, each of these done as its task says, until the turns are over, a callback fails, or there are neither timers nor connections; it takes a turn only if there are connections or timers; the wheel stays disciplined |
| `AgentLoop.Poll` | daemon/libslack/agent.c:2124-2187 | a poll with events serves the reactions; one without moves the hand by exactly the way to the first timer or the end of the second, and fires what is due then |
| `AgentLoop.Update` | daemon/libslack/agent.c:2114-2115 | with timers pending the agent makes the passes of the update, and otherwise nothing happens |
| `AgentLoop.StoryAdds` | daemon/libslack/agent.c:2103-2282 | the ticks and events of a story are the sums of those of its deeds |
| `WheelPasses.PassKeepsTime` | daemon/libslack/agent.c:2004-2009 | after a pass the wheel has the time the pass has seen, if and only if no callback of it saw an earlier one |
| `WheelPasses.LooksFollow` | daemon/libslack/agent.c:1997-2028 | if no callback sees an earlier time than its pass, each pass counts from exactly what the one before has seen |
| `WheelPasses.RestsAfter` | daemon/libslack/agent.c:1997-2028 | once the clock stands still within a jiffy a further look sees none pass, though callbacks go on scheduling |
| `TimingWheel.TimingWheel.FiresOnTime` | daemon/libslack/agent.c:1661-2031 | in a wheel with a disciplined log, a timer scheduled D >= 1 ticks ahead and not cancelled has fired once that tick has been dealt with: exactly once, at exactly the D-th tick after it was scheduled |
| `TimerRounds.ScheduledFiresOnTime` | daemon/libslack/agent.c:1661-2031 | the same for every run of the bag, for a timer scheduled at any point of the run |
| `TimerBag.FiresOnceOnTime` | daemon/libslack/agent.c:1973-2031 | in every disciplined run from any bag, a timer with D >= 1 ticks left fires exactly once and after exactly D ticks |
| `TimerBag.FiringTicks` | daemon/libslack/agent.c:2017-2025 | a timer may fire after n ticks if and only if n is its delay or later by a multiple of a turn of the jiffy wheel, zero delays included |
| `TimerBag.PendingWait` | daemon/libslack/agent.c:2011-2027 | what a pending timer still has to wait after any run |
| `TimerBag.OnTime` | daemon/libslack/agent.c:2017-2025 | in a disciplined run a timer can fire at its tick and at no other, and its slot does not pass for empty before it has |
| `TimerBag.NoOverrun` | daemon/libslack/agent.c:2011-2027 | no disciplined run ticks past a timer that has not fired |
| `TimerBag.EndsOnlyOnce` | daemon/libslack/agent.c:1973-1987 | a timer that has fired does not fire again |
| `TimerRounds.QuietIsTicks` | daemon/libslack/agent.c:2174-2187 | n ticks on which nothing is due, taken at once, are n single ticks |
| `TimerRounds.RunQuiet` | daemon/libslack/agent.c:2174-2187 | any run can be continued by as many quiet ticks as nothing is due for |
| `TimerRounds.JumpGone` | daemon/libslack/agent.c:2174-2187 | a jump that then fires what is due leaves the bag that as many single ticks leave |
| `WheelPosition.ScheduledInPlace` | daemon/libslack/agent.c:1725-1734 | the slot chosen for a new action is the one the invariant wants, and the time left there is the distance to the target |
| `WheelPosition.TargetExact` | daemon/libslack/agent.c:1698-1723 | the digit-wise sum of position and delay, with its carries, is the position plus the delay in jiffies, for all delays; its digits are in range if and only if one carry of the jiffies is enough |
| `WheelPosition.CarryInPlace` | daemon/libslack/agent.c:1868-1912 | turning a full digit over into the next keeps every action in place and its time left |
| `WheelPosition.Descend` | daemon/libslack/agent.c:1844-1922 | moving the actions of the current slot one wheel down keeps them in place and their time left |
| `WheelPosition.Rebase` | daemon/libslack/agent.c:1833-1842 | taking DAYS off the day counter and off every waiting action changes no time left |
| `WheelPosition.RemainingAfterJiffies` | daemon/libslack/agent.c:2174-2187 | moving the jiffy hand by k takes k ticks off every timer, modulo a turn for those it passes |
| `WheelPosition.RemainingBeyondSecond` | daemon/libslack/agent.c:1932-1940 | an action above the jiffy wheel is not due before the second ends |
| `TimingWheel.TargetTicks` | daemon/libslack/agent.c:1679-1723 | the delay a new action gets, in ticks: at least the delay asked for, and what the wheel has not caught up with on top; and exactly when the digits of its target are in range |
| `TimingWheel.TicksExact` | daemon/libslack/agent.c:2004-2008 | the borrow loop runs exactly 100 * sec + usec / 10000 times, and this is the time passed in whole jiffies |
| `Timevals.DiffExact` | daemon/libslack/agent.c:1630-1638 | the difference is exact, and normal if and only if the microseconds do not differ by a million or more |
| `Timevals.AddNormal` | daemon/libslack/agent.c:1640-1647 | the sum is exact, and normal if and only if a single carry is enough |
| `ActionLinks.DlinkInsert` | daemon/libslack/link.c:243-264 | an item is linked in before another, with all four links right |
| `ActionLinks.DlinkRemove` | daemon/libslack/link.c:302-318 | an item is taken out and its neighbours are joined; its own links stay |
| `TimingWheel.TimingWheel.SlotList` | daemon/libslack/agent.c:1655-1659 | every slot holds a doubly linked list without repetition, of exactly the actions whose `parent` names the slot |
| `TimingWheel.TimingWheel.ListFromLinks` | daemon/libslack/link.c:243-318 | from any action on, the links lead through actions of the same slot, forwards and back, to the end |
| `TimingWheel.TimingWheel.ListFromComplete` | daemon/libslack/link.c:243-318 | no action of a slot is missing from its list |
| `TimingWheel.TimingWheel.Install` | daemon/libslack/agent.c:1655-1659 | an action becomes the head of its slot; all lists stay well linked |
| `TimingWheel.TimingWheel.Remove` | daemon/libslack/agent.c:1792-1795 | an action is unlinked from whatever slot it is in, at its head or not |
| `TimingWheel.TimingWheel.Schedule` | daemon/libslack/agent.c:1661-1739 | negative delays are refused; otherwise a new timer is pending with exactly its delay and nothing else changes, also when the clock has gone back; the log stays ready |
| `TimingWheel.TimingWheel.Cancel` | daemon/libslack/agent.c:1784-1802 | exactly one timer disappears, from any slot; the log stays ready |
| `TimingWheel.TimingWheel.EveryTimerIsBooked` | daemon/libslack/agent.c:1661-1739 | whatever is pending is known to the program, by what scheduling has returned |
| `TimingWheel.TimingWheel.Perform` | daemon/libslack/agent.c:1943-1956 | one thing a callback asks for: a timer with exactly its delay, the wheel having gone back to a clock behind it and not otherwise, or the cancellation of exactly that timer if it is pending; nothing new is due unless less than a jiffy was asked for |
| `TimingWheel.TimingWheel.Answer` | daemon/libslack/agent.c:1943-1956 | all that a callback asks for, in its order, and nothing else, with the wheel's time after it |
| `TimingWheel.TimingWheel.MoveDown` | daemon/libslack/agent.c:1915-1922 | a detached slot is emptied into the next finer wheel; no other action moves |
| `TimingWheel.TimingWheel.RebaseDays` | daemon/libslack/agent.c:1837-1841 | all actions in day slots, and no others, lose DAYS days |
| `TimingWheel.TimingWheel.MoveToday` | daemon/libslack/agent.c:1844-1859 | of the day slot, the actions due today go to their hours and the others stay |
| `TimingWheel.TimingWheel.NextDay` | daemon/libslack/agent.c:1825-1860 | the wheel stays sound across midnight and across the end of the day wheel, and no timer gains or loses a tick |
| `TimingWheel.TimingWheel.NextHour` | daemon/libslack/agent.c:1862-1881 | the same at the end of an hour |
| `TimingWheel.TimingWheel.NextMinute` | daemon/libslack/agent.c:1883-1902 | the same at the end of a minute |
| `TimingWheel.TimingWheel.NextSecond` | daemon/libslack/agent.c:1904-1923 | the same at the end of a second, after which everything is in place again |
| `TimingWheel.TimingWheel.Turn` | daemon/libslack/agent.c:2017-2018 | moving the jiffy hand, cascades and all, takes that many ticks off every timer |
| `TimingWheel.TimingWheel.SlotEmpty` | daemon/libslack/agent.c:2020 | a null head means that no installed action belongs to the slot, and conversely |
| `TimingWheel.TimingWheel.DueSlot` | daemon/libslack/agent.c:1977 | the actions that are due are exactly those in the current jiffy slot |
| `TimingWheel.TimingWheel.FireOne` | daemon/libslack/agent.c:1977-1986 | what is fired was due, and it alone is gone |
| `TimingWheel.TimingWheel.Expire` | daemon/libslack/agent.c:1973-1990 | everything due is fired, each firing followed by what its callback asks for, until nothing is due or one fails, and the wheel's time is as these leave it; for callbacks that keep still, exactly what was due is gone |
| `TimingWheel.TimingWheel.Tick` | daemon/libslack/agent.c:2013-2026 | one round of the loop is a tick, the firings with what their callbacks do, and a sweep: one tick of the bag if callbacks keep still |
| `TimingWheel.TimingWheel.UpdatePass` | daemon/libslack/agent.c:2001-2027 | one pass takes the wheel as many ticks on as whole jiffies have passed, none if the clock has gone back; apart from that there are only firings and what their callbacks asked for, and nothing is left due |
| `TimingWheel.TimingWheel.Update` | daemon/libslack/agent.c:1992-2031 | passes until one fires nothing, each by exactly the jiffies from the wheel's time to what it sees on the clock, where the wheel's time is what the pass before saw and its callbacks left; it ends if callbacks stop scheduling or the clock comes to rest |
| `TimingWheel.TimingWheel.Timeout` | daemon/libslack/agent.c:1925-1941 | -1 if and only if there are no timers; otherwise no timer is due earlier, the sleep stays within the second, and if it ends within it, something is due then |
| `TimingWheel.TimingWheel.Wake` | daemon/libslack/agent.c:2174-2187 | the jump after a sleep without events logs quiet ticks, the firings with what their callbacks do, and a sweep; it leaves the bag that as many single ticks leave |
| `TimingWheel.TimingWheel.Jump` | daemon/libslack/agent.c:2182-2183 | moving the hand at once is that many quiet ticks |
| `WheelCalls.RoundMore` | daemon/libslack/agent.c:2011-2027 | rounds add up: firings after firings, with one tick more |
| `WheelCalls.CalledMore` | daemon/libslack/agent.c:2011-2027 | callbacks that run after others do so at the stage these have left |
| `WheelCalls.BookedIsPending` | daemon/libslack/agent.c:1784-1802 | a booked timer is pending exactly until it fires or is cancelled |
| `WheelCalls.TimelessBlocks` | daemon/libslack/agent.c:1977-1987 | firings and what callbacks did are no ticks |
| `WheelCalls.QuietBlocks` | daemon/libslack/agent.c:1977-1987 | callbacks that keep still leave firings alone |
| `FreeList.Init` | daemon/libslack/link.c:361-378 | the items of an array, in their order, are one doubly linked chain |
| `FreeList.Pool.Attach` | daemon/libslack/link.c:426-443 | the second chain follows the first |
| `FreeList.Pool.Alloc` | daemon/libslack/link.c:487-501 | an item that nobody has, the first free one; null if and only if none is free; no item is lost |
| `FreeList.Pool.Free` | daemon/libslack/link.c:537-543 | an item handed back is the first free one again, whatever was done to its links; no item is lost |
| `Pidfile.MutualExclusion` | daemon/libslack/daemon.c:641-771 | in every run of any number of processes in which `daemon_stop` unlinks only what nobody holds, at most one process at a time has acquired a pidfile and neither unlinked it nor died |
| `Pidfile.EveryStepSound` | daemon/libslack/daemon.c:641-729 | every system call of every process, a crash included, keeps the invariant, the unlink of `daemon_stop` if nobody holds the path |
| `Pidfile.HolderHasTheFile` | daemon/libslack/daemon.c:678-728 | who has acquired the pidfile has the write lock on the very file the path names |
| `Pidfile.NumbersTellFiles` | daemon/libslack/daemon.c:696-722 | the comparison of inode numbers decides whether the path still names the opened file, although numbers are reused |
| `Pidfile.NewFileSound` | daemon/libslack/daemon.c:650-676 | a new file may take the number of any file that is neither linked nor open |
| `Pidfile.ProbeTells` | daemon/libslack/daemon.c:1170-1218 | a probe that nothing comes in between of, from the open on: no file, not running; else running if and only if another process has the file of that name locked, as for every path that is held |
| `Pidfile.ProbeAnswers` | daemon/libslack/daemon.c:1170-1218 | a probe answers yes if and only if another process has the file locked; in particular while the pidfile is held |
| `Pidfile.RestartsArePaidFor` | daemon/libslack/daemon.c:646-722 | the restarts of an attempt are at most the unlinks of the path since it began, and its calls fewer than six for each and six more; none of those unlinks is its own |
| `Pidfile.RestartTakesAnUnlink` | daemon/libslack/daemon.c:646-722 | each restart takes an unlink since the previous one |
| `Pidfile.HolderMayProbe` | daemon/libslack/daemon.c:1170-1218 | open, read lock and close by a holder keep the invariant if and only if the path is not its own |
| `Pidfile.HolderMayReopen` | daemon/libslack/daemon.c:1259-1298 | opening, locking and closing by a holder, as at the end of `daemon_stop`, keep the invariant if and only if the path is not its own |
| `Pidfile.SelfProbeLetsAnotherIn` | daemon/libslack/daemon.c:1187-1213 | whoever probes a pidfile it holds can be joined by another holder |
| `Pidfile.StopUnlinkSound` | daemon/libslack/daemon.c:1296-1299 | the unlink at the end of `daemon_stop` keeps the invariant if and only if nobody holds the path |
| `Pidfile.StopIsSafeExactly` | daemon/libslack/daemon.c:1296-1299 | all runs from that unlink on keep exclusion if and only if nobody holds the path |
| `Pidfile.StopLetsAnotherIn` | daemon/libslack/daemon.c:1296-1299 | between its two halves any idle process can become the holder |
| `Pidfile.StopRaces` | daemon/libslack/daemon.c:1296-1299 | after the unlink any idle process, the stopping one included, can become a second holder |
| `AbsolutePath.CleanUp` | daemon/libslack/daemon.c:329-376 | the in-place clean-up turns every absolute path into what the component stack gives |
| `AbsolutePath.RoundInPlace` | daemon/libslack/daemon.c:333-370 | one round of the loop on the buffer, all three `memmove`s and the stored length included |
| `AbsolutePath.FindParent` | daemon/libslack/daemon.c:355-362 | the backwards scan stops at the separator before the component |
| `AbsolutePath.RoundKeeps` | daemon/libslack/daemon.c:333-370 | a round keeps the meaning of the path and the cleanness left of the cursor, and the part right of it gets shorter |
| `AbsolutePath.CleanIsNormal` | daemon/libslack/daemon.c:329-376 | a clean path is its own component stack written out |
| `AbsolutePath.CleanedIsNormal` | daemon/libslack/daemon.c:373-376 | with the cursor at the end, stripping trailing separators leaves the normal form |
| `AbsolutePath.CanonicalIsFixed` | daemon/libslack/daemon.c:329-376 | the result is canonical (absolute, no empty component, no dots, no trailing separator but the root), and exactly the canonical paths are fixed |
| `AbsolutePath.MakeAbsolute` | daemon/libslack/daemon.c:278-378 | a relative path is put behind the current directory first; too long a path is an error |
| `Paths.NormaliseKeepsMeaning` | daemon/libslack/daemon.c:329-376 | the normal form leads where the path leads |
| `Paths.NormaliseTwice` | daemon/libslack/daemon.c:329-376 | normalising again changes nothing |
| `Paths.StackJoin` | daemon/libslack/daemon.c:329-376 | a stack of proper components can be read back from the path it is written as |
| `Memory.MemMove` | daemon/libslack/daemon.c:337-365 | overlapping move within a buffer |
| `AbsolutePath.AnchorLeads` | daemon/libslack/daemon.c:288-326 | an absolute path stands for itself and a relative one leads on from the working directory; it is too long if and only if the two do not fit together |
| `CheckPath.SafeIff` | daemon/libslack/daemon.c:400-493 | a path is judged safe if and only if every name met, along it or along any chain of followed links, exists, can be followed and is not writable for group or world, and no chain is too long |
| `CheckPath.WhyNot` | daemon/libslack/daemon.c:406-492 | what an answer of 0 or -1 was given for |
| `CheckPath.Check` | daemon/libslack/daemon.c:406-492 | the loop that shortens the path in place terminates with the verdict |
| `CheckPath.CheckName` | daemon/libslack/daemon.c:411-486 | one name: its mode, or what its link leads to |
| `CheckPath.PathIsSafe` | daemon/libslack/daemon.c:495-511 | the exported check, for relative paths too: 1 if and only if everything met from the path made absolute on is safe; 0 only for something met that others can write to; -1 only for trouble met on the way, or if the path cannot be made absolute |
| `CheckPath.FollowAbsolute` | daemon/libslack/daemon.c:434-464 | what a link leads to is absolute again |
| `CheckPath.FollowRelative` | daemon/libslack/daemon.c:434-464 | a relative link leads to where its target leads from the directory the link is in |
| `CheckPath.FollowAbsoluteTarget` | daemon/libslack/daemon.c:434-464 | an absolute one leads where its target leads |
| `CheckPath.AncestryIs` | daemon/libslack/daemon.c:409-492 | the names looked at are the path, what is in front of each of its separators, and the root |
| `CheckPath.EntryOfDirectory` | daemon/libslack/daemon.c:409-492 | for a canonical path each of them but the root is an entry of a directory |
| `Getopt.ScanAll` | daemon/libslack/getopt.c:943-1395 | calling until -1 reports what a reading that moves nothing reports, leaves consumed elements first and operands last, both in their order, and `optind` at the first operand |
| `Getopt.Scanner.Next` | daemon/libslack/getopt.c:943-1395 | one call takes one report off what is still to come and changes nothing of the rest, or is the one with which the index leaves the vector |
| `Getopt.Scanner.Run` | daemon/libslack/getopt.c:943-1395 | the same over all calls from any state of the scanner |
| `Getopt.ReadingIsStable` | daemon/libslack/getopt.c:973-1048 | the elements used up and the operands together are the arguments, neither kind reordered |
| `Getopt.Scanner.Gather` | daemon/libslack/getopt.c:984-992 | options used up since the operands were skipped come before them |
| `Getopt.Scanner.SkipOperands` | daemon/libslack/getopt.c:994-999 | operands are skipped without a change to what will be reported |
| `Getopt.Scanner.EndOfOptions` | daemon/libslack/getopt.c:1007-1018 | "--" is used up like an option and everything behind it is an operand |
| `Getopt.Scanner.AtEnd` | daemon/libslack/getopt.c:1023-1030 | with nothing left, the vector is in its final order |
| `Getopt.Scanner.TakeOption` | daemon/libslack/getopt.c:1199-1395 | one option, its argument in the same or the next element; the index leaves the vector if and only if it is an ambiguous last argument of -W |
| `Getopt.DecodeOverruns` | daemon/libslack/getopt.c:1050-1395 | an option uses up more elements than there are if and only if it is a short -W whose argument comes last and is ambiguous |
| `Getopt.ReadOverruns` | daemon/libslack/getopt.c:943-1395 | a scan leaves the vector if and only if it comes to such an option |
| `Getopt.StaysInside` | daemon/libslack/getopt.c:943-1395 | without "W;" no scan leaves the vector |
| `Getopt.AmbiguousAtTheEnd` | daemon/libslack/getopt.c:1291-1300 | an input with which it does |
| `Getopt.FindLongMatches` | daemon/libslack/getopt.c:1077-1103 | the table search finds the exact name if there is one, else the abbreviation if it is the only one, and tells ambiguous from unknown |
| `GetoptWriting.WritingIsReadBack` | daemon/libslack/getopt.c:943-1395 | whatever is written out as arguments (letters, clusters, arguments attached or apart, long names full or short, names behind -W, unknown, ambiguous and incomplete options, operands in between, "--") is read back: exactly the values, arguments, indexes and flags, the elements used up, and the operands |
| `GetoptWriting.EveryVectorIsWritten` | daemon/libslack/getopt.c:943-1395 | and every vector that the scan does not leave can be written so |
| `GetoptWriting.ReadElement` | daemon/libslack/getopt.c:1050-1395 | one element with options: a report for each letter and the last option, and just what belongs to it is used up |
| `GetoptWriting.LetterSaysSo` | daemon/libslack/getopt.c:1348-1394 | a letter with no colon behind it takes no argument, with one colon the rest of the element or else the next one, with two only the rest; a required one that is missing is reported as such |
| `GetoptWriting.NameSays` | daemon/libslack/getopt.c:1120-1166 | a long option, by its name or an unambiguous beginning: its argument behind the equals sign or in the next element, its index, and its value or the flag set to it |
| `GetoptWriting.WordSays` | daemon/libslack/getopt.c:1268-1341 | the same behind -W, whose argument stays the one reported where the option has none |
| `GetoptWriting.UnknownSays` | daemon/libslack/getopt.c:1210-1222 | a letter that is not declared is reported with `optopt` and costs nothing else |
| `Getopt.Decode` | daemon/libslack/getopt.c:1050-1395 | an element is left only when it is used up, and no more is consumed than there is but for an ambiguous name after -W |
| `Exchange.ExchangeSegments` | daemon/libslack/getopt.c:736-813 | two neighbouring segments change places, each in its order, and nothing else moves |
| `Exchange.SwapBlocks` | daemon/libslack/getopt.c:780-802 | two blocks of equal length change places |
| `Exchange.BottomMoved` | daemon/libslack/getopt.c:773-788 | a swap of the shorter bottom segment leaves a smaller exchange with the same result |
| `Exchange.TopMoved` | daemon/libslack/getopt.c:790-805 | the same for the top segment |
| `HeapSort.Sort` | daemon/libslack/hsort.c:199-291 | for every total preorder: ascending, a permutation, and at most 3 * n * floor(log2 n) comparisons |
| `HeapSort.BuildHeap` | daemon/libslack/hsort.c:232-259 | phase one makes a heap of nodes 2 to n only, with so many comparisons |
| `HeapSort.FixHeap` | daemon/libslack/hsort.c:236-258 | sifting one node down extends the heap by that node, touches nothing beyond, two comparisons a level |
| `HeapSort.ExtractOne` | daemon/libslack/hsort.c:273-289 | a round of phase two repairs node 1, and the greatest item joins the sorted end |
| `HeapSort.ExtractAll` | daemon/libslack/hsort.c:269-290 | phase two sorts |
| `HeapSort.RootIsGreatest` | daemon/libslack/hsort.c:269-290 | the first node of a heap is a greatest one |
| `HeapSort.SiftStep` | daemon/libslack/hsort.c:236-258 | exchanging a node with its greater child moves the only fault of the heap down |
| `HeapSort.DepthOfRoot` | daemon/libslack/hsort.c:232-290 | no path in the heap is longer than log2 n |
| `SmartCompare.CompareText` | daemon/daemon.c:4502-4571 | the loops compute `Compared`, for all strings and any `atoi` |
| `SmartCompare.StrSmartCmp` | daemon/daemon.c:4484-4572 | so does the whole function, null pointers coming first |
| `SmartCompare.ComparedSign` | daemon/daemon.c:4502-4571 | it has the sign of the comparison of token lists if and only if they do not first differ in two numbers too far apart, for all names whose numbers `atoi` reads |
| `SmartCompare.DifferenceSign` | daemon/daemon.c:4536-4552 | the subtraction of two numbers has the right sign if and only if their difference fits an `int` |
| `SmartCompare.SmallNamesAgree` | daemon/daemon.c:4484-4572 | for names with numbers below 2^31 it always has that sign |
| `SmartCompare.SmartIsTotalPreorder` | daemon/daemon.c:4484-4572 | on those names the function itself is a total preorder |
| `SmartCompare.LargeNamesGoInACircle` | daemon/daemon.c:4536-4552 | with larger numbers it is none: three names each before the next |
| `SmartCompare.EqualIff` | daemon/daemon.c:4502-4571 | names with small numbers are equal if and only if they agree piece by piece: letters up to case, runs of digits by value, all else exactly |
| `SmartCompare.FirstCharacterDecides` | daemon/daemon.c:4502-4571 | behind beginnings that agree a letter of either case precedes a later letter of either case, and other characters have their places by their codes |
| `SmartCompare.FirstNumberDecides` | daemon/daemon.c:4520-4557 | behind beginnings that agree the smaller of two numbers comes first, whatever their lengths |
| `SmartCompare.ShorterNameFirst` | daemon/daemon.c:4559-4571 | a name that agrees with the beginning of another comes before it |
| `SmartCompare.NullsFirst` | daemon/daemon.c:4486-4500 | null pointers are equal and come before all names |
| `SmartCompare.TokensTransitive` | daemon/daemon.c:4484-4572 | token lists are compared transitively |
| `SmartCompare.TokensAntisymmetric` | daemon/daemon.c:4484-4572 | exchanging the arguments turns the sign |
| `SmartCompare.SortNames` | daemon/daemon.c:4675 | sorting names with numbers below 2^31 by the function itself gives a permutation in ascending order, null pointers first, which is also the order of token lists |
| `RwLock.Exclusion` | daemon/libslack/locker.c:612-791 | in every run, the state is -1 if and only if a writer holds the lock, which then is alone, and otherwise counts the readers |
| `RwLock.SomebodyMoves` | daemon/libslack/locker.c:612-791 | no wake-up is lost: while anyone is blocked, someone holds the lock or a woken writer is about to |
| `RwLock.WritersFirst` | daemon/libslack/locker.c:612-663 | while a writer waits, no step lets a reader in |
| `RwLock.Granted` | daemon/libslack/locker.c:612-747 | who gets the lock: a reader if and only if no writer has it or is queued, a waiting writer if and only if nobody has it, a trying one if and only if also nobody is queued; otherwise waiting calls block and trying ones change nothing |
| `RwLock.StepKeeps` | daemon/libslack/locker.c:612-791 | every step, cancellation of a waiting or signalled thread included, keeps the invariant |
| `RwLock.UnlockKeeps` | daemon/libslack/locker.c:760-791 | releasing, and waking a writer or the readers, keeps the invariant |
| `RwLock.CancelWriteKeeps` | daemon/libslack/locker.c:677-690 | a queued writer, waiting or signalled, can be cancelled if and only if it does not take with it a signal that others wait for |
| `RwLock.StoreKeepsExactly` | daemon/libslack/locker.c:784 | a reader that decrements a state loaded earlier keeps the invariant if and only if the state is still the same |
| `RwLock.TornUnlockMiscounts` | daemon/libslack/locker.c:784 | two readers that both load before they store count as one |
| `RwLock.LateReaderIsForgotten` | daemon/libslack/locker.c:622-623 | a reader that waits after the writer it saw has left is forgotten if and only if no writer is queued |
| `ItemList.List.Insert` | daemon/libslack/list.c:1130-1150 | insertion at any position, counted from either end |
| `ItemList.List.Append` | daemon/libslack/list.c:1294-1297 | appending |
| `ItemList.List.RemoveRange` | daemon/libslack/list.c:1059-1085 | a range is cut out; what an owning list loses is destroyed, once |
| `ItemList.List.Replace` | daemon/libslack/list.c:1500-1528 | a range becomes one item |
| `ItemList.List.ReplaceList` | daemon/libslack/list.c:1620-1653 | a range becomes the items of another list, copied if and only if the list owns its items; with an empty range, insertion of a list |
| `ItemList.List.TakeAt` | daemon/libslack/list.c:1874-1987 | pop and shift hand back the last or first item, which is not destroyed |
| `ItemList.List.Extract` | daemon/libslack/list.c:1734-1769 | a new list of the items of a range; the list itself does not change |
| `ItemList.List.Splice` | daemon/libslack/list.c:2164-2181 | the range moves into a new list, as copies if the list owns its items, which it then destroys |
| `ItemList.List.Grow` | daemon/libslack/list.c:216-234 | room for more items, and no more than need be, at a capacity of zero or a power of two, at least four |
| `ItemList.List.Shrink` | daemon/libslack/list.c:245-262 | room is given back until the items fill half of it or the least is reached, and no further |
| `ItemList.List.Expand` | daemon/libslack/list.c:273-282 | a gap opens, everything around it keeps its order |
| `ItemList.List.Contract` | daemon/libslack/list.c:294-304 | a gap closes |
| `ItemList.List.Adjust` | daemon/libslack/list.c:316-325 | a range changes its length |
| `ItemList.List.KillItems` | daemon/libslack/list.c:335-343 | the destructor gets each non-null item of the range, and null stays behind |
| `ItemList.BalancedAfter` | daemon/libslack/list.c:1059-1653 | putting items over a range keeps the account: everything ever put in is held, handed back or destroyed, exactly once |
| `ItemList.BalancedTaken` | daemon/libslack/list.c:1874-1987 | so does handing one back |
| `ItemList.SplicedNonNull` | daemon/libslack/list.c:1059-1653 | what a splice puts in and takes out, as multisets |
| `ItemList.NegativeForms` | daemon/libslack/list.c:1500-1528 | when a doubly negative range is accepted, and which items it names |
| `ListWalk.Lister.Next` | daemon/libslack/list.c:2839-2845 | the items are answered in order, each once, whatever is removed between |
| `ListWalk.Lister.HasNext` | daemon/libslack/list.c:2820-2826 | there is no next item if and only if all the items the list began with have been answered |
| `ListWalk.Lister.Remove` | daemon/libslack/list.c:2878-2894 | the last item passed and still there goes, and the items to come are not disturbed |
| `FdTable.EventsAreMasks` | daemon/libslack/agent.c:659 | the events accepted are the combinations of `R_OK`, `W_OK` and `X_OK`, but for none of them |
| `FdTable.Agent.Connect` | daemon/libslack/agent.c:655-804 | the table gains or changes one connection; an existing one keeps its activity |
| `FdTable.Agent.MakeRoomForFd` | daemon/libslack/agent.c:663-679 | one doubling of the sparse array makes room for exactly the descriptors below twice its size |
| `FdTable.Agent.Disconnect` | daemon/libslack/agent.c:847-916 | the table loses one connection, the last slot filling the hole |
| `FdTable.Agent.Transfer` | daemon/libslack/agent.c:965-1006 | a connection moves to another agent with its activity, or both tables stay as they are |
| `FdTable.Agent.SlotsAreConnections` | daemon/libslack/agent.c:847-916 | the slots in use are as many as the connections |
| `FdTable.VacatedConsistent` | daemon/libslack/agent.c:847-916 | moving the last slot into the hole and zeroing it keeps `ids`, pollfds, reactions and activity in step |
| `FdTable.TableWith` | daemon/libslack/agent.c:740-801 | writing a slot is the update of the map |
| `FdTable.TableWithout` | daemon/libslack/agent.c:873-913 | vacating a slot is the removal from the map |
| `Respawn.FailuresCost` | daemon/daemon.c:3506-3550 | k runs that were too short cost exactly floor(k / A) delays until the supervisor gives up, which with a limit it does at exactly the (A * limit)-th |
| `Respawn.FailuresAre` | daemon/daemon.c:3506-3550 | with the lifetimes read off the events, the failures are the clients since the last reset that lasted less than `acceptable`, and the supervisor has given up if and only if these were once as many as all bursts allow |
| `Respawn.LongRunsAreFree` | daemon/daemon.c:3518-3526 | a client that lasts long enough costs no attempt, no delay and no giving up, and any other is a failure |
| `Respawn.RunKeeps` | daemon/daemon.c:3506-3550 | the failures since the last reset are always `attempt` and A for every burst |
| `Respawn.StepKeeps` | daemon/daemon.c:2943-2960 | so they are across a client's end and across SIGUSR1 |
| `Respawn.Supervisor.Respawn` | daemon/daemon.c:3495-3594 | what one respawn does to the counters; signals during the delay change nothing, since `pid` is 0 then |
| `Respawn.Supervisor.HandleUsr1` | daemon/daemon.c:2943-2960 | the counters are reset if and only if a client is running |

## Left out

- Clocks, system calls and libraries: `gettimeofday`, `time`, `poll`, `nap` and `getcwd` are parameters, results that only report errors (`errno`, messages) are dropped, and allocation succeeds. `poll` answering an event instead of a timeout does not touch the wheel.
- The `select` part of `agent_connect`, `agent_disconnect` and the event loop, whose sets never lose a bit when a descriptor is reconnected with fewer events.
- Order of the actions within one jiffy: slots are filled last-in first-out and cascades turn them round; none is promised.
- Real time: the wheel drops what is less than a jiffy whenever it updates, so everything is stated in its ticks.
- TimingWheel.TimingWheel.Schedule: only delays that fit the wheel (`InRange`; `TargetTicks` is the exact condition). With others a digit is out of range and the original indexes a wheel beyond its slots. The clock is read once; the wheel exists.
- TimingWheel.TimingWheel.Answer: what callbacks ask for is in range wherever the hands are (less than two million microseconds together with the clock's). Cancelling what is no longer pending, which is undefined in the original, changes nothing.
- TimingWheel.TimingWheel.Update: where it ends (`Ends`): callbacks stop scheduling at some call, or the clock comes to rest; otherwise the original need not end either.
- TimingWheel.TimingWheel.Expire: callbacks ask for at least a jiffy from some call on; with some that go on for ever asking for less, the original does not end.
- AgentLoop.Start: `agent_stop`, interrupted polls and the reactions' work on connections; the turns given are those that happen.
- TimingWheel.TimingWheel.MoveDown: one method for the three equal loops at the end of an hour, a minute and a second.
- WheelPosition.TargetExact: digits are unbounded integers; the width of `long` and `int` is not modelled.
- FreeList.Pool.Free: handing back an item that is not out (freeing twice) is not modelled; the singly linked lists are not either.
- Pidfile.MutualExclusion: a process that holds a pidfile neither acquires nor probes one among the steps (`HolderMayProbe` and `HolderMayReopen` treat each as one), and `daemon_stop` unlinks only what nobody holds (`StopIsSafeExactly`). Writing and reading the process number is left out.
- Pidfile.RestartsArePaidFor: no fairness is assumed, so it bounds the calls of an attempt and does not say that each is answered.
- CheckPath.SafeIff: the file system does not change during the check. Names are looked up as whole strings, as the code does after normalising; `readlink` and overlong paths are the parameter `limit`.
- Getopt.ScanAll: the PERMUTE ordering only, and scans that stay inside the vector (`ReadOverruns` says which do); "W;" only with long options, without which the original follows a null pointer. Error messages and a caller that moves `optind` back are not modelled.
- GetoptWriting.EveryVectorIsWritten: scans that stay inside the vector; what one that leaves it reports last is unspecified in the original too.
- HeapSort.Sort: byte counters are unbounded; in the original they stay in range while twice the array fits the counter's type. `hsort_closure`, the same with a closure, is not modelled apart, and `list_sort` uses `qsort` below 10000 items.
- SmartCompare.SortNames: names whose runs of digits are below 2^31 and fit the number buffer; for others `ComparedSign` says when the order is that of token lists.
- RwLock.Exclusion: `unlock` is atomic, as it would be with the mutex held (`StoreKeepsExactly` says what becomes of it otherwise), and a cancelled thread takes no signal that others wait for, as POSIX has it.
- ItemList.List.ReplaceList: source and destination are distinct lists; the copies are made before the range is overwritten instead of one by one.
- FdTable.Agent.Connect: the poll arrays, and descriptors for which one doubling of `ids` is enough (`MakeRoomForFd`); for others the original writes beyond the array.
- Respawn.Supervisor.Respawn: signals other than SIGUSR1 during the delay, and everything that starts the client.
- The locked wrappers, the `_int` variants, `coproc.c`, `err.c`, `lim.c`, `fio.c`, the option tables and the event loop of `daemon`: thin wrappers and plumbing with nothing to prove about them.
