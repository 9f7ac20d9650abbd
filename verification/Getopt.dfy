/** The permuting option scanner, and a reading of the same arguments that moves nothing. */
module Getopt {
  import opened Options
  import opened Exchange

  datatype HasArg = No | Required | Optional

  datatype LongOption = LongOption(name: string, hasArg: HasArg, setsFlag: bool, val: int)

  /** The option string, without an ordering prefix, and the long options, if there are any. */
  datatype Config = Config(short: string, longs: Option<seq<LongOption>>, longOnly: bool)

  /** What one call reports: the value returned, the argument, the index of a long option, the flag it set, and
      `optopt`. */
  datatype Event = Event(ret: int, arg: Option<string>, longIndex: Option<nat>, flag: Option<int>, optopt: Option<int>)

  const QUESTION := '?' as int
  const COLON := ':' as int

  // ----- one option

  function At(s: string, i: nat): Option<char> {
    if i < |s| then Some(s[i]) else None
  }

  /** The option string from the first occurrence of a character on. */
  function Index(s: string, c: char): (r: Option<string>)
    ensures r.Some? ==> r.value != "" && r.value[0] == c
    ensures r.None? ==> c !in s
  {
    if s == "" then None else if s[0] == c then Some(s) else Index(s[1..], c)
  }

  predicate IsPrefix(p: string, s: string) {
    p <= s
  }

  datatype Match = NoMatch | Ambiguous | Found(index: nat)

  /** An option of that very name, or else the one option whose name it abbreviates. */
  ghost predicate IsMatch(longs: seq<LongOption>, name: string, m: Match) {
    match m
    case Found(i) =>
      && i < |longs| && name <= longs[i].name
      && (if longs[i].name == name then forall j :: 0 <= j < i ==> longs[j].name != name
          else forall j :: 0 <= j < |longs| && j != i ==> !(name <= longs[j].name))
    case Ambiguous =>
      && (forall j :: 0 <= j < |longs| ==> longs[j].name != name)
      && exists i, j :: 0 <= i < j < |longs| && name <= longs[i].name && name <= longs[j].name
    case NoMatch => forall j :: 0 <= j < |longs| ==> !(name <= longs[j].name)
  }

  /** Looks through the long options from `i` on, `first` being the first abbreviation found so far. */
  function FindFrom(longs: seq<LongOption>, name: string, i: nat, first: Option<nat>, ambiguous: bool): (m: Match)
    requires i <= |longs| && (first.Some? ==> first.value < |longs|)
    ensures m.Found? ==> m.index < |longs|
    decreases |longs| - i
  {
    if i == |longs| then
      if first.None? then NoMatch else if ambiguous then Ambiguous else Found(first.value)
    else if !IsPrefix(name, longs[i].name) then FindFrom(longs, name, i + 1, first, ambiguous)
    else if |name| == |longs[i].name| then Found(i)
    else if first.None? then FindFrom(longs, name, i + 1, Some(i), ambiguous)
    else FindFrom(longs, name, i + 1, first, true)
  }

  function FindLong(longs: seq<LongOption>, name: string): (m: Match)
    ensures m.Found? ==> m.index < |longs|
  {
    FindFrom(longs, name, 0, None, false)
  }

  lemma {:induction false} FindFromMatches(longs: seq<LongOption>, name: string, i: nat, first: Option<nat>,
                                           ambiguous: bool)
    requires i <= |longs|
    requires forall j :: 0 <= j < i ==> longs[j].name != name
    requires first.None? ==> !ambiguous && forall j :: 0 <= j < i ==> !(name <= longs[j].name)
    requires first.Some? ==> first.value < i && name <= longs[first.value].name
    requires first.Some? && !ambiguous ==> forall j :: 0 <= j < i && j != first.value ==> !(name <= longs[j].name)
    requires ambiguous ==> exists k, l :: 0 <= k < l < i && name <= longs[k].name && name <= longs[l].name
    ensures IsMatch(longs, name, FindFrom(longs, name, i, first, ambiguous))
    decreases |longs| - i
  {
    if i < |longs| {
      if !IsPrefix(name, longs[i].name) {
        FindFromMatches(longs, name, i + 1, first, ambiguous);
      } else if |name| == |longs[i].name| {
        assert longs[i].name == name;
      } else if first.None? {
        FindFromMatches(longs, name, i + 1, Some(i), ambiguous);
      } else {
        assert first.value < i && name <= longs[first.value].name && name <= longs[i].name;
        FindFromMatches(longs, name, i + 1, first, true);
      }
    }
  }

  /** The search finds what it should, and an exact name wins over abbreviations before and after it. */
  lemma FindLongMatches(longs: seq<LongOption>, name: string)
    ensures IsMatch(longs, name, FindLong(longs, name))
    ensures (exists i :: 0 <= i < |longs| && longs[i].name == name) ==>
              FindLong(longs, name).Found? && longs[FindLong(longs, name).index].name == name
  {
    FindFromMatches(longs, name, 0, None, false);
  }

  /** The part of a long option before its equals sign. */
  function NameLength(s: string): (n: nat)
    ensures n <= |s|
  {
    if s == "" || s[0] == '=' then 0 else 1 + NameLength(s[1..])
  }

  /** What comes of one option: the report, how many elements it used up, and what is left of the current one. */
  datatype Decoded = Decoded(event: Event, advance: nat, nextchar: string)

  function Report(ret: int, arg: Option<string>, optopt: Option<int>): Event {
    Event(ret, arg, None, None, optopt)
  }

  /** The value that says an argument is missing. */
  function Missing(cfg: Config): int {
    if cfg.short != "" && cfg.short[0] == ':' then COLON else QUESTION
  }

  /** What a long option says for itself: its value, or a flag set to it. */
  function Taken(o: LongOption, arg: Option<string>, index: nat): Event {
    Event(if o.setsFlag then 0 else o.val, arg, Some(index), if o.setsFlag then Some(o.val) else None, None)
  }

  /** A long option, or None if the text is to be tried as short options; `behind` are the elements after this one. */
  function DecodeLong(cfg: Config, longs: seq<LongOption>, elem: string, nextchar: string,
                      behind: seq<string>): Option<Decoded>
    requires nextchar != ""
  {
    var n := NameLength(nextchar);
    match FindLong(longs, nextchar[..n])
    case Ambiguous => Some(Decoded(Report(QUESTION, None, Some(0)), 1, ""))
    case NoMatch =>
      if !cfg.longOnly || At(elem, 1) == Some('-') || Index(cfg.short, nextchar[0]).None?
      then Some(Decoded(Report(QUESTION, None, Some(0)), 1, ""))
      else None
    case Found(i) =>
      var o := longs[i];
      if n < |nextchar| then
        if o.hasArg != No then Some(Decoded(Taken(o, Some(nextchar[n + 1..]), i), 1, ""))
        else Some(Decoded(Report(QUESTION, None, Some(o.val)), 1, ""))
      else if o.hasArg == Required then
        if behind != [] then Some(Decoded(Taken(o, Some(behind[0]), i), 2, ""))
        else Some(Decoded(Report(Missing(cfg), None, Some(o.val)), 1, ""))
      else Some(Decoded(Taken(o, None, i), 1, ""))
  }

  /** The option string has "W;": -W foo stands for --foo. */
  predicate HasWOption(cfg: Config) {
    var temp := Index(cfg.short, 'W');
    temp.Some? && At(temp.value, 1) == Some(';')
  }

  /** The long option named by `text`, the argument of -W, which with it took `used` elements. That text stays the
      argument reported unless the option has one of its own; and an ambiguous name uses up one element too many. */
  function DecodeW(cfg: Config, longs: seq<LongOption>, text: string, used: nat, behind: seq<string>): Decoded
    requires 1 <= used <= 1 + |behind|
  {
    var n, after := NameLength(text), behind[used - 1..];
    match FindLong(longs, text[..n])
    case Ambiguous => Decoded(Report(QUESTION, Some(text), None), used + 1, "")
    case NoMatch => Decoded(Report('W' as int, Some(text), None), used, "")
    case Found(i) =>
      var o := longs[i];
      if n < |text| then
        if o.hasArg != No then Decoded(Taken(o, Some(text[n + 1..]), i), used, "")
        else Decoded(Report(QUESTION, Some(text), None), used, "")
      else if o.hasArg == Required then
        if after != [] then Decoded(Taken(o, Some(after[0]), i), used + 1, "")
        else Decoded(Report(Missing(cfg), Some(text), None), used, "")
      else Decoded(Taken(o, Some(text), i), used, "")
  }

  function DecodeShort(cfg: Config, nextchar: string, behind: seq<string>): Decoded
    requires nextchar != ""
  {
    var c, rest := nextchar[0], nextchar[1..];
    var step := if rest == "" then 1 else 0;
    var longs := if cfg.longs.Some? then cfg.longs.value else [];
    var temp := Index(cfg.short, c);
    if temp.None? || c == ':' then Decoded(Report(QUESTION, None, Some(c as int)), step, rest)
    else if c == 'W' && At(temp.value, 1) == Some(';') then
      if rest != "" then DecodeW(cfg, longs, rest, 1, behind)
      else if behind != [] then DecodeW(cfg, longs, behind[0], 2, behind)
      else Decoded(Report(Missing(cfg), None, Some(c as int)), 1, "")
    else if At(temp.value, 1) != Some(':') then Decoded(Report(c as int, None, None), step, rest)
    else if At(temp.value, 2) == Some(':') then
      Decoded(Report(c as int, if rest != "" then Some(rest) else None, None), 1, "")
    else if rest != "" then Decoded(Report(c as int, Some(rest), None), 1, "")
    else if behind != [] then Decoded(Report(c as int, Some(behind[0]), None), 2, "")
    else Decoded(Report(Missing(cfg), None, Some(c as int)), 1, "")
  }

  /** The element may be a long option. */
  predicate TriedAsLong(cfg: Config, elem: string) {
    && cfg.longs.Some?
    && (At(elem, 1) == Some('-') ||
        (cfg.longOnly && (At(elem, 2).Some? || At(elem, 1).None? || Index(cfg.short, elem[1]).None?)))
  }

  /** The next option of element `elem`, of which `nextchar` has not been looked at. It uses up no more elements
      than there are, but for an ambiguous name after -W. */
  function Decode(cfg: Config, elem: string, nextchar: string, behind: seq<string>): (d: Decoded)
    requires nextchar != ""
    ensures d.advance == 0 ==> d.nextchar != "" && |d.nextchar| < |nextchar|
    ensures d.advance > 0 ==> d.nextchar == ""
    ensures d.advance <= 1 + |behind| || (d.advance == 2 + |behind| && HasWOption(cfg) && d.event.ret == QUESTION)
  {
    if TriedAsLong(cfg, elem) then
      match DecodeLong(cfg, cfg.longs.value, elem, nextchar, behind)
      case Some(d) => d
      case None => DecodeShort(cfg, nextchar, behind)
    else DecodeShort(cfg, nextchar, behind)
  }

  function ArgumentOfW(nextchar: string, behind: seq<string>): Option<string>
    requires nextchar != ""
  {
    if |nextchar| > 1 then Some(nextchar[1..]) else if behind != [] then Some(behind[0]) else None
  }

  /** -W and its argument end the vector, and the argument is ambiguous. */
  predicate LeavesVector(cfg: Config, elem: string, nextchar: string, behind: seq<string>)
    requires nextchar != ""
  {
    var text, longs := ArgumentOfW(nextchar, behind), if cfg.longs.Some? then cfg.longs.value else [];
    && (TriedAsLong(cfg, elem) ==> DecodeLong(cfg, cfg.longs.value, elem, nextchar, behind).None?)
    && nextchar[0] == 'W' && HasWOption(cfg)
    && text.Some? && FindLong(longs, text.value[..NameLength(text.value)]).Ambiguous?
    && |behind| == if |nextchar| > 1 then 0 else 1
  }

  /** Exactly then an element too many is used up. */
  lemma DecodeOverruns(cfg: Config, elem: string, nextchar: string, behind: seq<string>)
    requires nextchar != ""
    ensures Decode(cfg, elem, nextchar, behind).advance > 1 + |behind| <==> LeavesVector(cfg, elem, nextchar, behind)
  {
    hide FindLong, NameLength;
  }

  /** An element that is no option: it does not start with a dash, or is just one. */
  predicate NonOption(s: string) {
    s == "" || s[0] != '-' || |s| == 1
  }

  /** The option characters of an element that is neither a non-option nor "--". */
  function Start(cfg: Config, s: string): (r: string)
    requires !NonOption(s) && s != "--"
    ensures r != ""
  {
    s[if cfg.longs.Some? && s[1] == '-' then 2 else 1..]
  }

  // ----- the reading that moves nothing

  /** All reports, the elements used up, and the operands, each in their order; `overrun` if more elements would be
      used up than there are, where the original goes on behind the end of the vector. */
  datatype Reading = Reading(events: seq<Event>, done: seq<string>, operands: seq<string>, overrun: bool)

  /** Reads `todo` from left to right; `nextchar` is what is left of its first element, if that has been begun. */
  function Read(cfg: Config, todo: seq<string>, nextchar: string): Reading
    requires nextchar != "" ==> todo != []
    decreases |todo|, if nextchar == "" then 1 else 0, |nextchar|
  {
    if nextchar != "" then ReadOption(cfg, todo, nextchar)
    else if todo == [] then Reading([], [], [], false)
    else if todo[0] == "--" then Reading([], todo[..1], todo[1..], false)
    else if NonOption(todo[0]) then
      var r := Read(cfg, todo[1..], "");
      r.(operands := todo[..1] + r.operands)
    else ReadOption(cfg, todo, Start(cfg, todo[0]))
  }

  function ReadOption(cfg: Config, todo: seq<string>, nextchar: string): Reading
    requires nextchar != "" && todo != []
    decreases |todo|, 0, |nextchar|, 0
  {
    var d := Decode(cfg, todo[0], nextchar, todo[1..]);
    if d.advance > |todo| then Reading([d.event], todo, [], true)
    else
      var r := Read(cfg, todo[d.advance..], d.nextchar);
      Reading([d.event] + r.events, todo[..d.advance] + r.done, r.operands, r.overrun)
  }

  /** Without -W the reading never leaves the vector. */
  lemma {:induction false} StaysInside(cfg: Config, todo: seq<string>, nextchar: string)
    requires (nextchar != "" ==> todo != []) && !HasWOption(cfg)
    ensures !Read(cfg, todo, nextchar).overrun
    decreases |todo|, if nextchar == "" then 1 else 0, |nextchar|
  {
    if nextchar != "" {
      OptionStaysInside(cfg, todo, nextchar);
    } else if todo != [] && todo[0] != "--" {
      if NonOption(todo[0]) {
        StaysInside(cfg, todo[1..], "");
      } else {
        OptionStaysInside(cfg, todo, Start(cfg, todo[0]));
      }
    }
  }

  lemma {:induction false} OptionStaysInside(cfg: Config, todo: seq<string>, nextchar: string)
    requires nextchar != "" && todo != [] && !HasWOption(cfg)
    ensures !ReadOption(cfg, todo, nextchar).overrun
    decreases |todo|, 0, |nextchar|, 0
  {
    hide HasWOption;
    var d := Decode(cfg, todo[0], nextchar, todo[1..]);
    StaysInside(cfg, todo[d.advance..], d.nextchar);
  }

  /** The reading comes to element `i` with `rest` of its option characters left. */
  ghost predicate ComesTo(cfg: Config, todo: seq<string>, nextchar: string, i: nat, rest: string)
    requires nextchar != "" ==> todo != []
    decreases |todo|, if nextchar == "" then 1 else 0, |nextchar|
  {
    if nextchar != "" then OptionComesTo(cfg, todo, nextchar, i, rest)
    else if todo == [] || todo[0] == "--" then false
    else if NonOption(todo[0]) then i > 0 && ComesTo(cfg, todo[1..], "", i - 1, rest)
    else OptionComesTo(cfg, todo, Start(cfg, todo[0]), i, rest)
  }

  ghost predicate OptionComesTo(cfg: Config, todo: seq<string>, nextchar: string, i: nat, rest: string)
    requires nextchar != "" && todo != []
    decreases |todo|, 0, |nextchar|, 0
  {
    || (i == 0 && rest == nextchar)
    || (var d := Decode(cfg, todo[0], nextchar, todo[1..]);
        d.advance <= i && d.advance <= |todo| && ComesTo(cfg, todo[d.advance..], d.nextchar, i - d.advance, rest))
  }

  ghost predicate OverrunsAt(cfg: Config, todo: seq<string>, i: nat, rest: string) {
    i < |todo| && rest != "" && LeavesVector(cfg, todo[i], rest, todo[i + 1..])
  }

  /** A reading leaves the vector exactly if it comes to an option that does. */
  lemma ReadOverruns(cfg: Config, todo: seq<string>, nextchar: string)
    requires nextchar != "" ==> todo != []
    ensures Read(cfg, todo, nextchar).overrun <==>
            exists i, rest :: ComesTo(cfg, todo, nextchar, i, rest) && OverrunsAt(cfg, todo, i, rest)
  {
    if Read(cfg, todo, nextchar).overrun {
      var i, rest := WhereItOverruns(cfg, todo, nextchar);
      assert ComesTo(cfg, todo, nextchar, i, rest);
    }
    if i, rest :| ComesTo(cfg, todo, nextchar, i, rest) && OverrunsAt(cfg, todo, i, rest) {
      ThenItOverruns(cfg, todo, nextchar, i, rest);
    }
  }

  lemma {:induction false} WhereItOverruns(cfg: Config, todo: seq<string>, nextchar: string)
      returns (i: nat, rest: string)
    requires (nextchar != "" ==> todo != []) && Read(cfg, todo, nextchar).overrun
    ensures ComesTo(cfg, todo, nextchar, i, rest) && OverrunsAt(cfg, todo, i, rest)
    decreases |todo|, if nextchar == "" then 1 else 0, |nextchar|
  {
    hide LeavesVector, Decode;
    if nextchar != "" {
      i, rest := WhereOptionOverruns(cfg, todo, nextchar);
    } else if NonOption(todo[0]) {
      var k;
      k, rest := WhereItOverruns(cfg, todo[1..], "");
      i := k + 1;
      assert todo[1..][k + 1..] == todo[i + 1..];
    } else {
      i, rest := WhereOptionOverruns(cfg, todo, Start(cfg, todo[0]));
    }
  }

  lemma {:induction false} WhereOptionOverruns(cfg: Config, todo: seq<string>, nextchar: string)
      returns (i: nat, rest: string)
    requires nextchar != "" && todo != [] && ReadOption(cfg, todo, nextchar).overrun
    ensures OptionComesTo(cfg, todo, nextchar, i, rest) && OverrunsAt(cfg, todo, i, rest)
    decreases |todo|, 0, |nextchar|, 0
  {
    hide LeavesVector, Decode;
    var d := Decode(cfg, todo[0], nextchar, todo[1..]);
    if d.advance > |todo| {
      DecodeOverruns(cfg, todo[0], nextchar, todo[1..]);
      i, rest := 0, nextchar;
    } else {
      var k;
      k, rest := WhereItOverruns(cfg, todo[d.advance..], d.nextchar);
      i := k + d.advance;
      assert todo[d.advance..][k + 1..] == todo[i + 1..];
    }
  }

  lemma {:induction false} ThenItOverruns(cfg: Config, todo: seq<string>, nextchar: string, i: nat, rest: string)
    requires (nextchar != "" ==> todo != []) && ComesTo(cfg, todo, nextchar, i, rest) && OverrunsAt(cfg, todo, i, rest)
    ensures Read(cfg, todo, nextchar).overrun
    decreases |todo|, if nextchar == "" then 1 else 0, |nextchar|
  {
    hide LeavesVector, Decode;
    if nextchar != "" {
      ThenOptionOverruns(cfg, todo, nextchar, i, rest);
    } else if NonOption(todo[0]) {
      assert todo[1..][i..] == todo[i + 1..];
      ThenItOverruns(cfg, todo[1..], "", i - 1, rest);
    } else {
      ThenOptionOverruns(cfg, todo, Start(cfg, todo[0]), i, rest);
    }
  }

  lemma {:induction false} ThenOptionOverruns(cfg: Config, todo: seq<string>, nextchar: string, i: nat, rest: string)
    requires nextchar != "" && todo != [] && OptionComesTo(cfg, todo, nextchar, i, rest)
    requires OverrunsAt(cfg, todo, i, rest)
    ensures ReadOption(cfg, todo, nextchar).overrun
    decreases |todo|, 0, |nextchar|, 0
  {
    hide LeavesVector, Decode;
    var d := Decode(cfg, todo[0], nextchar, todo[1..]);
    if i == 0 && rest == nextchar {
      DecodeOverruns(cfg, todo[0], nextchar, todo[1..]);
    } else {
      var k := i - d.advance;
      assert todo[d.advance..][k + 1..] == todo[i + 1..];
      ThenItOverruns(cfg, todo[d.advance..], d.nextchar, k, rest);
    }
  }

  /** With it the original can read behind the end: -W fo, when there are --foo and --fob. */
  lemma AmbiguousAtTheEnd()
    ensures var cfg := Config("W;", Some([LongOption("foo", No, false, 1), LongOption("fob", No, false, 2)]), false);
            Read(cfg, ["-W", "fo"], "").overrun
  {
    var longs := [LongOption("foo", No, false, 1), LongOption("fob", No, false, 2)];
    var cfg := Config("W;", Some(longs), false);
    assert FindLong(longs, "fo") == Ambiguous by {
      assert FindFrom(longs, "fo", 2, Some(0), true) == Ambiguous;
      assert FindFrom(longs, "fo", 1, Some(0), false) == Ambiguous;
    }
    assert NameLength("fo") == 2 by {
      assert "fo"[1..] == "o" && "o"[1..] == "";
    }
    assert "fo"[..2] == "fo";
    hide FindLong, NameLength;
    assert Index("W;", 'W') == Some("W;");
    assert ["-W", "fo"][1..] == ["fo"] && "-W"[1..] == "W" && Start(cfg, "-W") == "W";
    DecodeOverruns(cfg, "-W", "W", ["fo"]);
    assert ReadOption(cfg, ["-W", "fo"], "W").overrun;
  }

  /** `s` is made of `a` and `b`, each in its own order. */
  ghost predicate Interleaved(s: seq<string>, a: seq<string>, b: seq<string>)
    decreases |s|
  {
    if s == [] then a == [] && b == []
    else
      || (a != [] && a[0] == s[0] && Interleaved(s[1..], a[1..], b))
      || (b != [] && b[0] == s[0] && Interleaved(s[1..], a, b[1..]))
  }

  lemma {:induction false} AllOnOneSide(s: seq<string>, t: seq<string>, a: seq<string>, b: seq<string>)
    requires Interleaved(t, a, b)
    ensures Interleaved(s + t, s + a, b)
    ensures Interleaved(s + t, a, s + b)
    decreases |s|
  {
    if s == [] {
      assert s + t == t && s + a == a && s + b == b;
    } else {
      AllOnOneSide(s[1..], t, a, b);
      assert (s + t)[1..] == s[1..] + t && (s + a)[1..] == s[1..] + a && (s + b)[1..] == s[1..] + b;
    }
  }

  /** The elements used up and the operands together are the arguments, and neither kind changes its order. */
  lemma {:induction false} ReadingIsStable(cfg: Config, todo: seq<string>, nextchar: string)
    requires nextchar != "" ==> todo != []
    ensures var r := Read(cfg, todo, nextchar); Interleaved(todo, r.done, r.operands)
    decreases |todo|, if nextchar == "" then 1 else 0, |nextchar|, 1
  {
    if nextchar != "" {
      ReadingOptionIsStable(cfg, todo, nextchar);
    } else if todo == [] {
    } else if todo[0] == "--" {
      AllOperands(todo[1..]);
      AllOnOneSide(todo[..1], todo[1..], [], todo[1..]);
      assert todo[..1] + todo[1..] == todo && todo[..1] + [] == todo[..1];
    } else if NonOption(todo[0]) {
      ReadingIsStable(cfg, todo[1..], "");
      var r := Read(cfg, todo[1..], "");
      AllOnOneSide(todo[..1], todo[1..], r.done, r.operands);
      assert todo[..1] + todo[1..] == todo;
    } else {
      ReadingOptionIsStable(cfg, todo, Start(cfg, todo[0]));
    }
  }

  lemma {:induction false} AllOperands(s: seq<string>)
    ensures Interleaved(s, [], s)
  {
    if s != [] {
      AllOperands(s[1..]);
    }
  }

  lemma {:induction false} ReadingOptionIsStable(cfg: Config, todo: seq<string>, nextchar: string)
    requires nextchar != "" && todo != []
    ensures var r := ReadOption(cfg, todo, nextchar); Interleaved(todo, r.done, r.operands)
    decreases |todo|, 0, |nextchar|, 0
  {
    var d := Decode(cfg, todo[0], nextchar, todo[1..]);
    if d.advance > |todo| {
      AllOnOneSide(todo, [], [], []);
      assert todo + [] == todo;
      return;
    }
    ReadingIsStable(cfg, todo[d.advance..], d.nextchar);
    var r := Read(cfg, todo[d.advance..], d.nextchar);
    AllOnOneSide(todo[..d.advance], todo[d.advance..], r.done, r.operands);
    assert todo[..d.advance] + todo[d.advance..] == todo;
  }

  // ----- the permuting scanner

  class Scanner {
    const cfg: Config
    const argv: array<string>
    const start: nat       // where the scan began: 1, after the program's name, unless the caller says otherwise
    var optind: nat
    var firstNonopt: nat   // the operands skipped so far are [firstNonopt, lastNonopt)
    var lastNonopt: nat
    var nextchar: string   // "" where the original has null or the end of a string

    constructor (cfg: Config, argv: array<string>, optind: nat)
      requires (if optind == 0 then 1 else optind) <= argv.Length
      ensures this.cfg == cfg && this.argv == argv && start == if optind == 0 then 1 else optind
      ensures Valid() && Done() == [] && Operands() == [] && Todo() == argv[start..] && nextchar == ""
    {
      var o := if optind == 0 then 1 else optind;
      this.cfg, this.argv, start := cfg, argv, o;
      this.optind, firstNonopt, lastNonopt, nextchar := o, o, o, "";
    }

    /** The vector is: what the scan leaves alone, options used up, operands skipped, options used up since, the
        rest. */
    ghost predicate Valid()
      reads this
    {
      start <= firstNonopt <= lastNonopt <= optind <= argv.Length && (nextchar != "" ==> optind < argv.Length)
    }

    ghost function Done(): seq<string>
      requires Valid()
      reads this, argv
    {
      argv[start..firstNonopt] + argv[lastNonopt..optind]
    }

    ghost function Operands(): seq<string>
      requires Valid()
      reads this, argv
    {
      argv[firstNonopt..lastNonopt]
    }

    ghost function Todo(): seq<string>
      requires Valid()
      reads this, argv
    {
      argv[optind..]
    }

    /** What the scan will still report and where everything will end up. */
    ghost function Outcome(): Reading
      requires Valid()
      reads this, argv
    {
      var r := Read(cfg, Todo(), nextchar);
      Reading(r.events, Done() + r.done, Operands() + r.operands, r.overrun)
    }

    /** Brings the options processed last in front of the operands skipped before them; `lastNonopt` is for the
        caller to set. */
    method Gather()
      requires Valid() && nextchar == ""
      modifies `firstNonopt, `lastNonopt, argv
      ensures start <= firstNonopt <= optind && argv[..start] == old(argv[..start])
      ensures argv[start..firstNonopt] == old(Done()) && argv[firstNonopt..optind] == old(Operands()) &&
              argv[optind..] == old(Todo())
    {
      Exchanged(argv[..], start, firstNonopt, lastNonopt, optind);
      hide Rotated;
      if firstNonopt != lastNonopt && lastNonopt != optind {
        ExchangeSegments(argv, firstNonopt, lastNonopt, optind);
        SlicesAre(argv, argv[..], start, firstNonopt + (optind - lastNonopt), optind);
        firstNonopt := firstNonopt + (optind - lastNonopt);
        lastNonopt := optind;
      } else if lastNonopt != optind {
        firstNonopt := optind;
      }
    }

    /** Gathers, and skips the operands that follow. */
    method SkipOperands()
      requires Valid() && nextchar == ""
      modifies `optind, `firstNonopt, `lastNonopt, argv
      ensures Valid() && Outcome() == old(Outcome()) && argv[..start] == old(argv[..start])
      ensures lastNonopt == optind && (optind < argv.Length ==> !NonOption(argv[optind]))
    {
      hide Read, Promised;
      ghost var was := Outcome();
      Gather();
      ghost var t := argv[..];
      StillPromised(was);
      while optind < argv.Length && NonOption(argv[optind])
        invariant start <= firstNonopt <= optind <= argv.Length && argv[..] == t && nextchar == ""
        invariant Promised(cfg, t, start, firstNonopt, optind, was)
      {
        PromisedMore(cfg, t, start, firstNonopt, optind, was);
        optind := optind + 1;
      }
      lastNonopt := optind;
      AsPromised(t, was);
    }

    lemma StillPromised(was: Reading)
      requires start <= firstNonopt <= optind <= argv.Length
      requires var r := Read(cfg, argv[optind..], "");
               was == Reading(r.events, argv[start..firstNonopt] + r.done,
                              argv[firstNonopt..optind] + r.operands, r.overrun)
      ensures Promised(cfg, argv[..], start, firstNonopt, optind, was)
    {
      hide Read;
      SlicesAre(argv, argv[..], start, firstNonopt, optind);
    }

    lemma AsPromised(t: seq<string>, was: Reading)
      requires Valid() && nextchar == "" && lastNonopt == optind && argv[..] == t
      requires Promised(cfg, t, start, firstNonopt, optind, was)
      ensures Outcome() == was
    {
      hide Read;
      SlicesAre(argv, t, start, firstNonopt, optind);
      assert argv[lastNonopt..optind] == [] && argv[start..firstNonopt] + [] == argv[start..firstNonopt];
    }

    /** The element "--": used up like an option, everything after it is an operand. */
    method EndOfOptions()
      requires Valid() && nextchar == "" && lastNonopt == optind < argv.Length && argv[optind] == "--"
      modifies `optind, `firstNonopt, `lastNonopt, argv
      ensures argv[..start] == old(argv[..start])
      ensures argv[..] == old(argv[..start]) + (old(Done()) + ["--"]) + (old(Operands()) + old(Todo())[1..])
      ensures optind == start + |old(Done())| + 1
    {
      ghost var s := argv[..];
      SlicesAre(argv, s, start, firstNonopt, optind);
      ghost var goal := argv[..start] + (Done() + ["--"]) + (Operands() + Todo()[1..]);
      EndLayout(s, start, firstNonopt, optind);
      assert Done() == s[start..firstNonopt] && |Done()| == firstNonopt - start;
      hide *;
      assert goal == Rotated(s, firstNonopt, optind, optind + 1);
      assert firstNonopt == lastNonopt ==> s == goal;
      assert goal[..start] == argv[..start];
      optind := optind + 1;
      if firstNonopt != lastNonopt && lastNonopt != optind {
        ExchangeSegments(argv, firstNonopt, lastNonopt, optind);
        firstNonopt := firstNonopt + (optind - lastNonopt);
      } else if firstNonopt == lastNonopt {
        firstNonopt := optind;
      }
      lastNonopt := argv.Length;
      optind := argv.Length;
      if firstNonopt != lastNonopt {
        optind := firstNonopt;
      }
    }

    lemma AtMark()
      requires Valid() && nextchar == "" && optind < argv.Length && argv[optind] == "--"
      ensures Outcome() == Reading([], Done() + ["--"], Operands() + Todo()[1..], false)
    {
      ReadHead(cfg, Todo());
      hide Read;
      assert Todo()[0] == "--" && Todo()[..1] == ["--"];
    }

    lemma AtEnd()
      requires Valid() && nextchar == "" && lastNonopt == optind == argv.Length
      ensures Outcome() == Reading([], Done(), Operands(), false)
      ensures argv[..] == argv[..start] + Done() + Operands() && firstNonopt == start + |Done()|
    {
      ReadHead(cfg, Todo());
      hide Read;
      assert Todo() == [] && Done() + [] == Done() && Operands() + [] == Operands();
      assert argv[lastNonopt..optind] == [];
      assert argv[..] == argv[..start] + argv[start..firstNonopt] + argv[firstNonopt..lastNonopt];
    }

    /** Comes to the first option character of the next element. */
    method Begin()
      requires Valid() && nextchar == "" && optind < argv.Length && argv[optind] != "--" && !NonOption(argv[optind])
      modifies `nextchar
      ensures Valid() && nextchar != "" && Outcome() == old(Outcome())
    {
      ReadHead(cfg, Todo());
      hide Read, NonOption;
      assert Todo()[0] == argv[optind];
      nextchar := Start(cfg, argv[optind]);
    }

    /** The report is the last that can be told; the index has left the vector by one. */
    ghost predicate LeftWith(was: Reading, e: Event)
      reads `optind
    {
      was.overrun && was.events == [e] && optind == argv.Length + 1
    }

    /** Decodes one option of the current element. */
    method TakeOption() returns (e: Event)
      requires Valid() && nextchar != ""
      modifies `optind, `nextchar
      ensures optind > argv.Length <==> LeavesVector(cfg, old(Todo()[0]), old(nextchar), old(Todo()[1..]))
      ensures if optind > argv.Length then LeftWith(old(Outcome()), e)
              else Valid() && old(Outcome()) == Outcome().(events := [e] + Outcome().events)
    {
      hide Read, ReadOption, Decode, Done, Operands, Todo, LeavesVector;
      ghost var todo, done, operands, rest := Todo(), Done(), Operands(), nextchar;
      e := UseUp();
      DecodeOverruns(cfg, todo[0], rest, todo[1..]);
      ReadOne(cfg, todo, rest);
      ghost var d := Decode(cfg, todo[0], rest, todo[1..]);
      if d.advance <= |todo| {
        ghost var r := Read(cfg, todo[d.advance..], d.nextchar);
        assert done + (todo[..d.advance] + r.done) == done + todo[..d.advance] + r.done;
      }
    }

    /** Moves on past the option and its argument. */
    method UseUp() returns (e: Event)
      requires Valid() && nextchar != ""
      modifies `optind, `nextchar
      ensures |old(Todo())| == argv.Length - old(optind) > 0
      ensures var todo := old(Todo());
              var d := Decode(cfg, todo[0], old(nextchar), todo[1..]);
              && e == d.event && optind == old(optind) + d.advance
              && (d.advance <= |todo| ==>
                    && Valid() && nextchar == d.nextchar && Todo() == todo[d.advance..]
                    && Done() == old(Done()) + todo[..d.advance] && Operands() == old(Operands()))
    {
      hide Decode;
      ghost var todo := Todo();
      assert argv[optind + 1..] == todo[1..] && todo[0] == argv[optind];
      var d := Decode(cfg, argv[optind], nextchar, argv[optind + 1..]);
      if d.advance <= |todo| {
        UsedUp(argv[..], start, firstNonopt, lastNonopt, optind, d.advance);
      }
      optind := optind + d.advance;
      nextchar := d.nextchar;
      e := d.event;
    }

    /** One call: the next report, or None for -1. A report takes one event off what is still to come; with -1 the
        vector is rearranged for good, options first, and `optind` is at the first operand. If the index leaves the
        vector there must be no further call. */
    method Next() returns (e: Option<Event>)
      requires Valid()
      modifies `optind, `firstNonopt, `lastNonopt, `nextchar, argv
      ensures argv[..start] == old(argv[..start])
      ensures e.Some? ==>
                if optind > argv.Length then LeftWith(old(Outcome()), e.value)
                else Valid() && old(Outcome()) == Outcome().(events := [e.value] + Outcome().events)
      ensures e.None? ==>
                && old(Outcome()).events == [] && !old(Outcome()).overrun
                && argv[..] == old(argv[..start]) + old(Outcome()).done + old(Outcome()).operands
                && optind == start + |old(Outcome()).done|
    {
      hide Outcome, Done, Operands, Todo, NonOption, Start, LeavesVector;
      if nextchar == "" {
        SkipOperands();
        if optind != argv.Length && argv[optind] == "--" {
          AtMark();
          EndOfOptions();
          return None;
        }
        if optind == argv.Length {
          AtEnd();
          if firstNonopt != lastNonopt {
            optind := firstNonopt;
          }
          return None;
        }
        Begin();
      }
      var d := TakeOption();
      e := Some(d);
    }

    /** Calls until -1. */
    method Run() returns (events: seq<Event>)
      requires Valid() && !Outcome().overrun
      modifies `optind, `firstNonopt, `lastNonopt, `nextchar, argv
      ensures events == old(Outcome()).events
      ensures argv[..] == old(argv[..start]) + old(Outcome()).done + old(Outcome()).operands
      ensures optind == start + |old(Outcome()).done|
    {
      hide Outcome;
      events := [];
      while true
        invariant Valid() && argv[..start] == old(argv[..start])
        invariant old(Outcome()) == Outcome().(events := events + Outcome().events)
        decreases |Outcome().events|
      {
        var e := Next();
        if e.None? {
          return;
        }
        events := events + [e.value];
      }
    }
  }

  lemma ReadOne(cfg: Config, todo: seq<string>, nextchar: string)
    requires nextchar != "" && todo != []
    ensures var d := Decode(cfg, todo[0], nextchar, todo[1..]);
            if d.advance > |todo| then Read(cfg, todo, nextchar) == Reading([d.event], todo, [], true)
            else
              var r := Read(cfg, todo[d.advance..], d.nextchar);
              Read(cfg, todo, nextchar) ==
              Reading([d.event] + r.events, todo[..d.advance] + r.done, r.operands, r.overrun)
  {
  }

  lemma UsedUp(s: seq<string>, start: nat, first: nat, last: nat, optind: nat, k: nat)
    requires start <= first <= last <= optind && optind + k <= |s|
    ensures s[start..first] + s[last..optind + k] == s[start..first] + s[last..optind] + s[optind..][..k]
    ensures s[optind + k..] == s[optind..][k..]
  {
  }

  /** With options up to `first` and operands up to `optind`, this is what is still promised. */
  ghost predicate Promised(cfg: Config, t: seq<string>, start: nat, first: nat, optind: nat, was: Reading) {
    && start <= first <= optind <= |t|
    && var r := Read(cfg, t[optind..], "");
       was == Reading(r.events, t[start..first] + r.done, t[first..optind] + r.operands, r.overrun)
  }

  lemma PromisedMore(cfg: Config, t: seq<string>, start: nat, first: nat, optind: nat, was: Reading)
    requires Promised(cfg, t, start, first, optind, was) && optind < |t| && NonOption(t[optind])
    ensures Promised(cfg, t, start, first, optind + 1, was)
  {
    ReadOperand(cfg, t, first, optind);
    hide Read, NonOption;
  }

  lemma SlicesAre(a: array<string>, s: seq<string>, i: nat, j: nat, k: nat)
    requires a[..] == s && i <= j <= k <= |s|
    ensures a[..i] == s[..i] && a[i..j] == s[i..j] && a[j..k] == s[j..k] && a[k..] == s[k..]
  {
  }

  lemma EndLayout(s: seq<string>, start: nat, first: nat, optind: nat)
    requires start <= first <= optind < |s|
    ensures Rotated(s, first, optind, optind + 1) ==
            s[..start] + (s[start..first] + [s[optind]]) + (s[first..optind] + s[optind..][1..])
    ensures first == optind ==> Rotated(s, first, optind, optind + 1) == s
  {
  }

  /** How options and operands may be mixed. */
  datatype Ordering = RequireOrder | Permute | ReturnInOrder

  function OrderingOf(optstring: string, posixlyCorrect: bool): Ordering {
    if optstring != "" && optstring[0] == '-' then ReturnInOrder
    else if optstring != "" && optstring[0] == '+' then RequireOrder
    else if posixlyCorrect then RequireOrder
    else Permute
  }

  /** Main result: calling the scanner until it answers -1 gives the reports that reading the arguments from left to
      right, without moving any, gives; and leaves the vector with the elements used up first, "--" included, and
      the operands last, both in their old order, and the index of the first operand in between. */
  method ScanAll(cfg: Config, argv: array<string>, optind0: nat, posixlyCorrect: bool)
      returns (events: seq<Event>, optind: nat)
    requires OrderingOf(cfg.short, posixlyCorrect) == Permute && (HasWOption(cfg) ==> cfg.longs.Some?)
    requires var start := if optind0 == 0 then 1 else optind0;
             start <= argv.Length && !Read(cfg, argv[start..], "").overrun
    modifies argv
    ensures var start := if optind0 == 0 then 1 else optind0;
            var args := old(argv[..])[start..];
            var r := Read(cfg, args, "");
            && events == r.events
            && argv[..] == old(argv[..])[..start] + r.done + r.operands
            && optind == start + |r.done|
            && Interleaved(args, r.done, r.operands)
  {
    ghost var s := argv[..];
    var scanner := new Scanner(cfg, argv, optind0);
    assert s[scanner.start..] == argv[scanner.start..] && s[..scanner.start] == argv[..scanner.start];
    ReadingIsStable(cfg, s[scanner.start..], "");
    hide Read, Interleaved;
    assert scanner.Outcome() == Read(cfg, s[scanner.start..], "");
    events := scanner.Run();
    optind := scanner.optind;
  }

  /** What comes first in a reading that is not inside an element. */
  lemma ReadHead(cfg: Config, todo: seq<string>)
    ensures todo == [] ==> Read(cfg, todo, "") == Reading([], [], [], false)
    ensures todo != [] && todo[0] == "--" ==> Read(cfg, todo, "") == Reading([], todo[..1], todo[1..], false)
    ensures todo != [] && todo[0] != "--" && !NonOption(todo[0]) ==>
              Read(cfg, todo, "") == Read(cfg, todo, Start(cfg, todo[0]))
  {
  }

  lemma ReadOperand(cfg: Config, t: seq<string>, first: nat, i: nat)
    requires first <= i < |t| && NonOption(t[i])
    ensures var r, r' := Read(cfg, t[i..], ""), Read(cfg, t[i + 1..], "");
            r.events == r'.events && r.done == r'.done && r.overrun == r'.overrun &&
              t[first..i] + r.operands == t[first..i + 1] + r'.operands
  {
    assert t[i..][1..] == t[i + 1..] && t[i..][..1] == [t[i]] && t[first..i] + [t[i]] == t[first..i + 1];
    assert t[i] != "--";
  }

  lemma Exchanged(s: seq<string>, start: nat, first: nat, last: nat, optind: nat)
    requires start <= first <= last <= optind <= |s|
    ensures var t := Rotated(s, first, last, optind);
            var mid := first + (optind - last);
            && |t| == |s| && t[..start] == s[..start] && t[optind..] == s[optind..]
            && t[start..mid] == s[start..first] + s[last..optind] && t[mid..optind] == s[first..last]
  {
  }
}
