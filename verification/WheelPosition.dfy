/** Positions on the wheel: digits, slots, and how far a slot's timers are from the current position. */
module WheelPosition {
  import opened ActionLinks

  const DAYS := 10
  const HOURS := 24
  const MINUTES := 60
  const SECONDS := 60
  const JIFFIES := 100

  // The five wheels lie one after the other; a slot is its index in the whole.
  const HOUR_SLOTS := DAYS
  const MINUTE_SLOTS := HOUR_SLOTS + HOURS
  const SECOND_SLOTS := MINUTE_SLOTS + MINUTES
  const JIFFY_SLOTS := SECOND_SLOTS + SECONDS
  const SLOTS := JIFFY_SLOTS + JIFFIES

  datatype Wheel = Days | Hours | Minutes | Seconds | Jiffies

  function WheelOf(slot: nat): Wheel {
    if slot < HOUR_SLOTS then Days
    else if slot < MINUTE_SLOTS then Hours
    else if slot < SECOND_SLOTS then Minutes
    else if slot < JIFFY_SLOTS then Seconds
    else Jiffies
  }

  /** The number of jiffies that digits stand for; overflowing digits included. */
  function Code(d: Digits): int {
    (((d.day * HOURS + d.hour) * MINUTES + d.minute) * SECONDS + d.second) * JIFFIES + d.jiffy
  }

  predicate Normal(d: Digits) {
    && 0 <= d.day && 0 <= d.hour < HOURS && 0 <= d.minute < MINUTES
    && 0 <= d.second < SECONDS && 0 <= d.jiffy < JIFFIES
  }

  /** The slot for digits `d` in a given wheel. */
  function SlotIn(w: Wheel, d: Digits): (s: nat)
    requires Normal(d)
    ensures s < SLOTS && WheelOf(s) == w
  {
    match w
    case Days => d.day % DAYS
    case Hours => HOUR_SLOTS + d.hour
    case Minutes => MINUTE_SLOTS + d.minute
    case Seconds => SECOND_SLOTS + d.second
    case Jiffies => JIFFY_SLOTS + d.jiffy
  }

  /** The digits coarser than wheel `w` agree. */
  predicate AgreeAbove(w: Wheel, now: Digits, d: Digits) {
    match w
    case Days => true
    case Hours => d.day == now.day
    case Minutes => d.day == now.day && d.hour == now.hour
    case Seconds => d.day == now.day && d.hour == now.hour && d.minute == now.minute
    case Jiffies => d.day == now.day && d.hour == now.hour && d.minute == now.minute && d.second == now.second
  }

  function Digit(w: Wheel, d: Digits): int {
    match w
    case Days => d.day
    case Hours => d.hour
    case Minutes => d.minute
    case Seconds => d.second
    case Jiffies => d.jiffy
  }

  /** A timer sits in the wheel of the most significant digit in which its target differs from the
      position. While a cascade has only got as far as wheel `open`, that digit may still be equal there.
      In the jiffy wheel the slot is all that counts: a timer that was passed over keeps stale upper digits. */
  predicate InPlace(now: Digits, d: Digits, slot: nat, open: Wheel) {
    && Normal(d) && slot < SLOTS
    && var w := WheelOf(slot);
    && slot == SlotIn(w, d)
    && (w != Jiffies ==>
          AgreeAbove(w, now, d) && if w == open then Digit(w, d) >= Digit(w, now) else Digit(w, d) > Digit(w, now))
  }

  /** Ticks until the timer in `slot` is due. */
  function Remaining(now: Digits, d: Digits, slot: nat): int {
    if slot < JIFFY_SLOTS then Code(d) - Code(now)
    else if slot - JIFFY_SLOTS >= now.jiffy then slot - JIFFY_SLOTS - now.jiffy
    else slot - JIFFY_SLOTS + JIFFIES - now.jiffy
  }

  /** Outside the jiffy wheel every timer is beyond the end of the current second. */
  lemma RemainingBeyondSecond(now: Digits, d: Digits, slot: nat)
    requires InPlace(now, d, slot, Jiffies) && Normal(now)
    ensures slot < JIFFY_SLOTS ==> Remaining(now, d, slot) >= JIFFIES - now.jiffy
    ensures Remaining(now, d, slot) >= 0
  {
  }

  /** The jiffy digit counts up to the end of the second. */
  lemma RemainingAfterJiffies(now: Digits, d: Digits, slot: nat, k: nat)
    requires InPlace(now, d, slot, Jiffies) && Normal(now) && now.jiffy + k <= JIFFIES
    ensures var later := now.(jiffy := now.jiffy + k);
            && InPlace(later, d, slot, Jiffies)
            && Remaining(later, d, slot) ==
               if Remaining(now, d, slot) >= k then Remaining(now, d, slot) - k
               else Remaining(now, d, slot) - k + JIFFIES
  {
  }

  // ----- cascades

  function Finer(w: Wheel): Wheel
    requires w != Jiffies
  {
    match w
    case Days => Hours
    case Hours => Minutes
    case Minutes => Seconds
    case Seconds => Jiffies
  }

  /** A digit that has run over carries into the next coarser digit. */
  function Carry(w: Wheel, now: Digits): Digits {
    match w
    case Jiffies => now.(second := now.second + 1, jiffy := 0)
    case Seconds => now.(minute := now.minute + 1, second := 0)
    case Minutes => now.(hour := now.hour + 1, minute := 0)
    case Hours => now.(day := now.day + 1, hour := 0)
    case Days => now
  }

  function Coarser(w: Wheel): Wheel
    requires w != Days
  {
    match w
    case Hours => Days
    case Minutes => Hours
    case Seconds => Minutes
    case Jiffies => Seconds
  }

  /** The digits finer than `w` stand at zero. */
  predicate ZeroBelow(w: Wheel, now: Digits) {
    match w
    case Days => now.hour == 0 && now.minute == 0 && now.second == 0 && now.jiffy == 0
    case Hours => now.minute == 0 && now.second == 0 && now.jiffy == 0
    case Minutes => now.second == 0 && now.jiffy == 0
    case Seconds => now.jiffy == 0
    case Jiffies => true
  }

  function Size(w: Wheel): nat
    requires w != Days
  {
    match w
    case Hours => HOURS
    case Minutes => MINUTES
    case Seconds => SECONDS
    case Jiffies => JIFFIES
  }

  /** Carrying out of wheel `w` opens the current slot of the next coarser wheel and moves no deadline. */
  lemma CarryInPlace(w: Wheel, now: Digits, d: Digits, slot: nat)
    requires w != Days && ZeroBelow(w, now) && Digit(w, now) == Size(w)
    requires InPlace(now, d, slot, w)
    ensures InPlace(Carry(w, now), d, slot, Coarser(w))
    ensures Remaining(Carry(w, now), d, slot) == Remaining(now, d, slot)
    ensures w == Hours ==> WheelOf(slot) == Days || WheelOf(slot) == Jiffies
  {
  }

  /** The slot of a timer after the current slot of wheel `w` has been emptied into the next finer wheel. */
  function SlotAfter(w: Wheel, now: Digits, d: Digits, slot: nat): nat
    requires w != Jiffies && Normal(d) && Normal(now)
  {
    if slot == SlotIn(w, now) && Digit(w, d) == Digit(w, now) then SlotIn(Finer(w), d) else slot
  }

  /** Emptying the current slot of wheel `w` into the next finer wheel closes `w` and moves no deadline. */
  lemma Descend(w: Wheel, now: Digits, d: Digits, slot: nat)
    requires w != Jiffies && ZeroBelow(w, now) && Normal(now) && now.day < DAYS
    requires InPlace(now, d, slot, w)
    ensures InPlace(now, d, SlotAfter(w, now, d, slot), Finer(w))
    ensures Remaining(now, d, SlotAfter(w, now, d, slot)) == Remaining(now, d, slot)
    ensures w != Days ==> (slot == SlotIn(w, now) ==> Digit(w, d) == Digit(w, now))
  {
  }

  /** Taking DAYS off the position and off every timer in the day wheel changes nothing else:
      at midnight only timers of the day wheel, which move along, and of the jiffy wheel remain. */
  lemma Rebase(now: Digits, d: Digits, slot: nat)
    requires ZeroBelow(Days, now) && now.day == DAYS
    requires InPlace(now, d, slot, Days) && WheelOf(slot) == Days
    ensures InPlace(now.(day := 0), d.(day := d.day - DAYS), slot, Days)
    ensures Remaining(now.(day := 0), d.(day := d.day - DAYS), slot) == Remaining(now, d, slot)
  {
  }

  // ----- scheduling

  /** A span, digit by digit. */
  function Spread(sec: nat, usec: nat): (d: Digits)
    ensures 0 <= d.day && 0 <= d.hour < HOURS && 0 <= d.minute < MINUTES && 0 <= d.second < SECONDS
    ensures d.jiffy == usec / 10000 >= 0
    ensures Code(d) == sec * JIFFIES + usec / 10000
  {
    var day := sec / (HOURS * MINUTES * SECONDS);
    var sec1 := sec - day * HOURS * MINUTES * SECONDS;
    var hour := sec1 / (MINUTES * SECONDS);
    var sec2 := sec1 - hour * MINUTES * SECONDS;
    var minute := sec2 / SECONDS;
    Digits(day, hour, minute, sec2 - minute * SECONDS, usec / 10000)
  }

  /** The digits of a span added to those of a position, with carries. */
  function Sum(now: Digits, d: Digits): Digits {
    var jiffy := d.jiffy + now.jiffy;
    var jc := jiffy >= JIFFIES;
    var second := d.second + (if jc then 1 else 0) + now.second;
    var sc := second >= SECONDS;
    var minute := d.minute + (if sc then 1 else 0) + now.minute;
    var mc := minute >= MINUTES;
    var hour := d.hour + (if mc then 1 else 0) + now.hour;
    var hc := hour >= HOURS;
    Digits(d.day + (if hc then 1 else 0) + now.day,
           if hc then hour - HOURS else hour,
           if mc then minute - MINUTES else minute,
           if sc then second - SECONDS else second,
           if jc then jiffy - JIFFIES else jiffy)
  }

  /** The target digits of `agent_schedule_unlocked`, `sec` and `usec` ahead. */
  function Target(now: Digits, sec: nat, usec: nat): Digits {
    Sum(now, Spread(sec, usec))
  }

  /** The target is exactly that many jiffies ahead, and its digits are in range just when one carry is enough. */
  lemma TargetExact(now: Digits, sec: nat, usec: nat)
    requires Normal(now)
    ensures Code(Target(now, sec, usec)) == Code(now) + sec * JIFFIES + usec / 10000
    ensures Normal(Target(now, sec, usec)) <==> usec / 10000 + now.jiffy < 2 * JIFFIES
  {
    hide Spread, Code;
    SumExact(now, Spread(sec, usec));
  }

  lemma SumExact(now: Digits, d: Digits)
    requires Normal(now) && Normal(d.(jiffy := 0)) && d.jiffy >= 0
    ensures Code(Sum(now, d)) == Code(now) + Code(d)
    ensures Normal(Sum(now, d)) <==> d.jiffy + now.jiffy < 2 * JIFFIES
  {
  }

  /** The wheel in which scheduling installs a target. */
  function WheelFor(now: Digits, d: Digits): Wheel {
    if d.day != now.day then Days
    else if d.hour != now.hour then Hours
    else if d.minute != now.minute then Minutes
    else if d.second != now.second then Seconds
    else Jiffies
  }

  lemma ScheduledInPlace(now: Digits, d: Digits)
    requires Normal(now) && Normal(d) && Code(d) >= Code(now)
    ensures var slot := SlotIn(WheelFor(now, d), d);
            InPlace(now, d, slot, Jiffies) && Remaining(now, d, slot) == Code(d) - Code(now)
  {
  }
}
