/** Options written out as arguments, and what the scanner reads there. */
module GetoptWriting {
  import opened Options
  import opened Getopt

  // ----- what the option string and the table declare, read off them by position

  ghost predicate FirstAt(short: string, c: char, i: nat) {
    i < |short| && short[i] == c && forall j :: 0 <= j < i ==> short[j] != c
  }

  predicate Has(s: string, i: nat, c: char) {
    i < |s| && s[i] == c
  }

  /** No colon behind the letter: no argument; one colon: an argument; two: perhaps an argument. */
  ghost predicate Takes(short: string, c: char, h: HasArg) {
    c != ':' && exists i: nat ::
      && FirstAt(short, c, i) && !(c == 'W' && Has(short, i + 1, ';'))
      && match h
         case No => !Has(short, i + 1, ':')
         case Required => Has(short, i + 1, ':') && !Has(short, i + 2, ':')
         case Optional => Has(short, i + 1, ':') && Has(short, i + 2, ':')
  }

  predicate Unknown(short: string, c: char) {
    c == ':' || c !in short
  }

  /** With "W;" -W foo stands for --foo. */
  ghost predicate WordsFollowW(cfg: Config) {
    cfg.longs.Some? && exists i: nat :: FirstAt(cfg.short, 'W', i) && Has(cfg.short, i + 1, ';')
  }

  // ----- what can be written

  /** The argument of an option: none, in the same element, in the next one, or none where there should be one. */
  datatype Given = Nothing | Attached(text: string) | Apart(text: string) | Lacking

  /** The last option of an element: a letter, the name of a long option, or W and such a name, in the same element or
      `apart`. Names may be unknown or ambiguous; then there may be a `rest` from an equals sign on. An ambiguous name
      behind W costs the element after it. */
  datatype Last =
    | Letter(c: char, given: Given)
    | Name(name: string, index: nat, given: Given)
    | NoName(name: string, rest: string)
    | Word(apart: bool, name: string, index: nat, given: Given)
    | NoWord(apart: bool, name: string, rest: string)
    | VagueWord(apart: bool, name: string, rest: string, lost: string)
    | LoneW

  /** An operand, or an element with options: one dash or two, letters, and the last option. */
  datatype Piece = Operand(text: string) | Element(double: bool, letters: string, last: Last)

  function WithEquals(given: Given): string {
    if given.Attached? then "=" + given.text else ""
  }

  /** The text that names a long option. */
  function Named(l: Last): string {
    match l
    case Name(name, _, given) => name + WithEquals(given)
    case NoName(name, rest) => name + rest
    case Word(_, name, _, given) => name + WithEquals(given)
    case NoWord(_, name, rest) => name + rest
    case VagueWord(_, name, rest, _) => name + rest
    case _ => ""
  }

  function WithW(apart: bool, text: string): string {
    if apart then "W" else "W" + text
  }

  /** What is written of the last option in its element, and in the elements behind. */
  function Text(l: Last): string {
    match l
    case Letter(c, given) => [c] + if given.Attached? then given.text else ""
    case Name(_, _, _) => Named(l)
    case NoName(_, _) => Named(l)
    case LoneW => "W"
    case _ => WithW(l.apart, Named(l))
  }

  function ApartOf(given: Given): seq<string> {
    if given.Apart? then [given.text] else []
  }

  /** What is written behind the name that W has for its argument. */
  function BehindName(l: Last): seq<string> {
    match l
    case Word(_, _, _, given) => ApartOf(given)
    case VagueWord(_, _, _, lost) => [lost]
    case _ => []
  }

  function Behind(l: Last): seq<string> {
    match l
    case Letter(_, given) => ApartOf(given)
    case Name(_, _, given) => ApartOf(given)
    case NoName(_, _) => []
    case LoneW => []
    case _ => (if l.apart then [Named(l)] else []) + BehindName(l)
  }

  function Dashes(double: bool): string {
    if double then "--" else "-"
  }

  function Written(p: Piece): seq<string> {
    match p
    case Operand(text) => [text]
    case Element(double, letters, last) => [Dashes(double) + (letters + Text(last))] + Behind(last)
  }

  function AllWritten(ps: seq<Piece>): seq<string> {
    if ps == [] then [] else Written(ps[0]) + AllWritten(ps[1..])
  }

  // ----- which of these are options

  /** The argument is where an option of this kind has it; a name may be given one too many. */
  predicate Fits(h: HasArg, given: Given, named: bool) {
    match given
    case Nothing => h != Required
    case Attached(text) => named || (h != No && text != "")
    case Apart(_) => h == Required
    case Lacking => h == Required
  }

  /** `name` is what of `text` precedes an equals sign. */
  predicate NameOf(text: string, name: string) {
    name <= text && '=' !in name && (|name| < |text| ==> text[|name|] == '=')
  }

  /** Whether an element may name a long option. */
  predicate MayName(cfg: Config, double: bool, text: string) {
    cfg.longs.Some? && (double || (cfg.longOnly && (|text| != 1 || text[0] !in cfg.short)))
  }

  /** No long option begins like `text`. */
  ghost predicate NamesNothing(longs: seq<LongOption>, text: string) {
    forall name :: NameOf(text, name) ==> IsMatch(longs, name, NoMatch)
  }

  /** The first character of `text` is taken for a letter. */
  ghost predicate IsLetter(cfg: Config, double: bool, long: bool, text: string) {
    text != "" && (long ==> !double && text[0] in cfg.short && cfg.longs.Some? && NamesNothing(cfg.longs.value, text))
  }

  ghost predicate IsFound(cfg: Config, name: string, index: nat, given: Given) {
    && cfg.longs.Some? && '=' !in name && IsMatch(cfg.longs.value, name, Found(index))
    && Fits(Entry(cfg, index).hasArg, given, true)
  }

  /** The last option is one that is declared, or else none that is. */
  ghost predicate LastFits(cfg: Config, double: bool, long: bool, l: Last) {
    && Text(l) != ""
    && match l
       case Letter(c, given) =>
         && IsLetter(cfg, double, long, Text(l))
         && if Unknown(cfg.short, c) then given == Nothing
            else exists h :: Takes(cfg.short, c, h) && Fits(h, given, false)
       case Name(name, index, given) => long && IsFound(cfg, name, index, given)
       case NoName(name, rest) =>
         && long && cfg.longs.Some? && NameOf(Text(l), name)
         && (IsMatch(cfg.longs.value, name, Ambiguous) ||
             (IsMatch(cfg.longs.value, name, NoMatch) && (double || Text(l)[0] !in cfg.short)))
       case Word(apart, name, index, given) =>
         && IsLetter(cfg, double, long, Text(l)) && WordsFollowW(cfg) && (apart || Named(l) != "")
         && IsFound(cfg, name, index, given)
       case NoWord(apart, name, rest) =>
         && IsLetter(cfg, double, long, Text(l)) && WordsFollowW(cfg) && (apart || Named(l) != "")
         && NameOf(Named(l), name) && IsMatch(cfg.longs.value, name, NoMatch)
       case VagueWord(apart, name, rest, _) =>
         && IsLetter(cfg, double, long, Text(l)) && WordsFollowW(cfg) && (apart || Named(l) != "")
         && NameOf(Named(l), name) && IsMatch(cfg.longs.value, name, Ambiguous)
       case LoneW => IsLetter(cfg, double, long, "W") && WordsFollowW(cfg)
  }

  /** The letters before it are options without arguments, or none at all. */
  ghost predicate LettersFit(cfg: Config, double: bool, long: bool, letters: string, end: string) {
    forall k :: 0 <= k < |letters| ==>
      && IsLetter(cfg, double, long, letters[k..] + end)
      && (Unknown(cfg.short, letters[k]) || Takes(cfg.short, letters[k], No))
  }

  ghost predicate PieceFits(cfg: Config, p: Piece) {
    match p
    case Operand(text) => text == "" || text == "-" || text[0] != '-'
    case Element(double, letters, last) =>
      var text := letters + Text(last);
      && Dashes(double) + text != "--" && (double ==> cfg.longs.Some?)
      && (!double && cfg.longs.Some? && text != "" ==> text[0] != '-')
      && LettersFit(cfg, double, MayName(cfg, double, text), letters, Text(last))
      && LastFits(cfg, double, MayName(cfg, double, text), last)
  }

  predicate Lacks(l: Last) {
    match l
    case Letter(_, given) => given.Lacking?
    case Name(_, _, given) => given.Lacking?
    case Word(_, _, _, given) => given.Lacking?
    case LoneW => true
    case _ => false
  }

  /** An argument is lacking only at the very end. */
  ghost predicate AllFit(cfg: Config, ps: seq<Piece>, marked: bool) {
    && (forall i :: 0 <= i < |ps| ==> PieceFits(cfg, ps[i]))
    && (forall i :: 0 <= i < |ps| && ps[i].Element? && Lacks(ps[i].last) ==> i == |ps| - 1 && !marked)
  }

  // ----- what is to be reported

  function MissingArgument(cfg: Config): int {
    if Has(cfg.short, 0, ':') then ':' as int else '?' as int
  }

  function Argument(given: Given): Option<string> {
    match given
    case Attached(text) => Some(text)
    case Apart(text) => Some(text)
    case _ => None
  }

  function LetterSays(cfg: Config, c: char, given: Given): Event {
    if Unknown(cfg.short, c) then Event('?' as int, None, None, None, Some(c as int))
    else if given.Lacking? then Event(MissingArgument(cfg), None, None, None, Some(c as int))
    else Event(c as int, Argument(given), None, None, None)
  }

  /** A long option answers with its value, or sets its flag to it; `word` is the argument of W before it. */
  function LongSays(cfg: Config, o: LongOption, index: nat, given: Given, word: Option<string>): Event {
    var optopt := if word.None? then Some(o.val) else None;
    if given.Lacking? then Event(MissingArgument(cfg), word, None, None, optopt)
    else if given.Attached? && o.hasArg == No then Event('?' as int, word, None, None, optopt)
    else
      var arg := if given.Nothing? then word else Argument(given);
      if o.setsFlag then Event(0, arg, Some(index), Some(o.val), None)
      else Event(o.val, arg, Some(index), None, None)
  }

  function Entry(cfg: Config, index: nat): LongOption {
    if cfg.longs.Some? && index < |cfg.longs.value| then cfg.longs.value[index] else LongOption("", No, false, 0)
  }

  function LastSays(cfg: Config, l: Last): Event {
    match l
    case Letter(c, given) => LetterSays(cfg, c, given)
    case Name(_, index, given) => LongSays(cfg, Entry(cfg, index), index, given, None)
    case NoName(_, _) => Event('?' as int, None, None, None, Some(0))
    case Word(_, _, index, given) => LongSays(cfg, Entry(cfg, index), index, given, Some(Named(l)))
    case NoWord(_, _, _) => Event('W' as int, Some(Named(l)), None, None, None)
    case VagueWord(_, _, _, _) => Event('?' as int, Some(Named(l)), None, None, None)
    case LoneW => Event(MissingArgument(cfg), None, None, None, Some('W' as int))
  }

  function LettersSay(cfg: Config, letters: string): seq<Event> {
    if letters == "" then [] else [LetterSays(cfg, letters[0], Nothing)] + LettersSay(cfg, letters[1..])
  }

  function PieceSays(cfg: Config, p: Piece): seq<Event> {
    match p
    case Operand(_) => []
    case Element(_, letters, last) => LettersSay(cfg, letters) + [LastSays(cfg, last)]
  }

  /** All reports in their order, the elements of the options, and the operands. */
  function Says(cfg: Config, ps: seq<Piece>): seq<Event> {
    if ps == [] then [] else PieceSays(cfg, ps[0]) + Says(cfg, ps[1..])
  }

  function Used(p: Piece): seq<string> {
    if p.Element? then Written(p) else []
  }

  function OptionElements(ps: seq<Piece>): seq<string> {
    if ps == [] then [] else Used(ps[0]) + OptionElements(ps[1..])
  }

  function Kept(p: Piece): seq<string> {
    if p.Operand? then Written(p) else []
  }

  function OperandElements(ps: seq<Piece>): seq<string> {
    if ps == [] then [] else Kept(ps[0]) + OperandElements(ps[1..])
  }

  // ----- the declarations as the scanner looks them up

  lemma {:induction false} IndexIs(short: string, c: char, i: nat)
    requires FirstAt(short, c, i)
    ensures Index(short, c) == Some(short[i..])
  {
    if i > 0 {
      assert FirstAt(short[1..], c, i - 1);
      IndexIs(short[1..], c, i - 1);
      assert short[1..][i - 1..] == short[i..];
    }
  }

  lemma IndexSome(short: string, c: char)
    ensures Index(short, c).Some? <==> c in short
  {
    if c in short {
      var i := FirstOne(short, c);
      IndexIs(short, c, i);
    }
  }

  lemma {:induction false} FirstOne(short: string, c: char) returns (i: nat)
    requires c in short
    ensures FirstAt(short, c, i)
  {
    if short[0] == c {
      i := 0;
    } else {
      i := FirstOne(short[1..], c);
      i := i + 1;
      assert forall j :: 0 < j < i ==> short[j] == short[1..][j - 1];
    }
  }

  lemma TakesIs(short: string, c: char, h: HasArg)
    requires Takes(short, c, h)
    ensures c in short && c != ':' && Index(short, c).Some?
    ensures var t := Index(short, c).value;
            && (h == No <==> At(t, 1) != Some(':'))
            && (h == Optional <==> At(t, 1) == Some(':') && At(t, 2) == Some(':'))
            && !(c == 'W' && At(t, 1) == Some(';'))
  {
    var i: nat :| FirstAt(short, c, i) && !(c == 'W' && Has(short, i + 1, ';')) &&
      (h == No <==> !Has(short, i + 1, ':'));
    IndexIs(short, c, i);
  }

  lemma {:induction false} NameLengthIs(text: string, name: string)
    requires NameOf(text, name)
    ensures NameLength(text) == |name| && text[..NameLength(text)] == name
  {
    if name != "" {
      assert text[0] == name[0] && name[0] in name;
      NameLengthIs(text[1..], name[1..]);
    }
  }

  lemma MatchIs(longs: seq<LongOption>, name: string, m: Match)
    requires IsMatch(longs, name, m)
    ensures FindLong(longs, name) == m
  {
    FindLongMatches(longs, name);
    hide FindLong;
  }

  lemma MayNameIs(cfg: Config, double: bool, text: string)
    requires text != "" && (double ==> cfg.longs.Some?) && (!double && cfg.longs.Some? ==> text[0] != '-')
    ensures TriedAsLong(cfg, Dashes(double) + text) <==> MayName(cfg, double, text)
    ensures Dashes(double) + text != "--" ==>
              !NonOption(Dashes(double) + text) && Start(cfg, Dashes(double) + text) == text
  {
    var elem := Dashes(double) + text;
    assert elem[|Dashes(double)|..] == text;
    if !double {
      assert elem[1] == text[0] && At(elem, 1) == Some(text[0]) && (At(elem, 2).Some? <==> |text| > 1);
      IndexSome(cfg.short, text[0]);
    }
  }

  // ----- what is made of one option

  /** A text taken for a letter is given to the short options. */
  lemma LetterIsShort(cfg: Config, double: bool, elem: string, text: string, behind: seq<string>)
    requires IsLetter(cfg, double, TriedAsLong(cfg, elem), text) && (Has(elem, 1, '-') && cfg.longs.Some? ==> double)
    ensures Decode(cfg, elem, text, behind) == DecodeShort(cfg, text, behind)
  {
    hide DecodeShort, Index;
    if TriedAsLong(cfg, elem) {
      var name := text[..NameLength(text)];
      NameLengthSplits(text);
      MatchIs(cfg.longs.value, name, NoMatch);
      IndexSome(cfg.short, text[0]);
    }
  }

  lemma {:induction false} NameLengthSplits(text: string)
    ensures NameOf(text, text[..NameLength(text)])
  {
    if text != "" && text[0] != '=' {
      NameLengthSplits(text[1..]);
      assert text[..NameLength(text)] == [text[0]] + text[1..][..NameLength(text[1..])];
    }
  }

  lemma UnknownSays(cfg: Config, text: string, behind: seq<string>)
    requires text != "" && Unknown(cfg.short, text[0])
    ensures DecodeShort(cfg, text, behind) ==
            Decoded(LetterSays(cfg, text[0], Nothing), if |text| == 1 then 1 else 0, text[1..])
  {
    IndexSome(cfg.short, text[0]);
  }

  lemma FlagSays(cfg: Config, text: string, behind: seq<string>)
    requires text != "" && Takes(cfg.short, text[0], No)
    ensures DecodeShort(cfg, text, behind) ==
            Decoded(LetterSays(cfg, text[0], Nothing), if |text| == 1 then 1 else 0, text[1..])
  {
    TakesIs(cfg.short, text[0], No);
    hide Index, Takes, DecodeW;
  }

  lemma LetterSaysSo(cfg: Config, h: HasArg, c: char, given: Given, more: seq<string>)
    requires Takes(cfg.short, c, h) && Fits(h, given, false) && (given.Lacking? ==> more == [])
    ensures DecodeShort(cfg, Text(Letter(c, given)), ApartOf(given) + more) ==
            Decoded(LetterSays(cfg, c, given), 1 + |ApartOf(given)|, "")
  {
    TakesIs(cfg.short, c, h);
    hide Index, Takes, DecodeW;
    var text := Text(Letter(c, given));
    assert text[0] == c && text[1..] == if given.Attached? then given.text else "";
  }

  lemma NamedText(name: string, given: Given)
    requires '=' !in name
    ensures var text := name + WithEquals(given);
            && NameLength(text) == |name| && text[..|name|] == name
            && (given.Attached? <==> |name| < |text|) && (given.Attached? ==> text[|name| + 1..] == given.text)
  {
    NameLengthIs(name + WithEquals(given), name);
    hide NameLength;
  }

  lemma NameSays(cfg: Config, elem: string, name: string, index: nat, given: Given, more: seq<string>)
    requires TriedAsLong(cfg, elem) && IsFound(cfg, name, index, given) && (given.Lacking? ==> more == [])
    requires name + WithEquals(given) != ""
    ensures Decode(cfg, elem, name + WithEquals(given), ApartOf(given) + more) ==
            Decoded(LongSays(cfg, Entry(cfg, index), index, given, None), 1 + |ApartOf(given)|, "")
  {
    hide TriedAsLong, DecodeShort, Index, NameLength, FindLong;
    NamedText(name, given);
    MatchIs(cfg.longs.value, name, Found(index));
  }

  lemma NoNameSays(cfg: Config, double: bool, elem: string, name: string, rest: string, behind: seq<string>)
    requires TriedAsLong(cfg, elem) && LastFits(cfg, double, true, NoName(name, rest))
    requires double ==> Has(elem, 1, '-')
    ensures Decode(cfg, elem, name + rest, behind) == Decoded(LastSays(cfg, NoName(name, rest)), 1, "")
  {
    hide TriedAsLong, DecodeShort, Index, NameLength, FindLong;
    NameLengthIs(name + rest, name);
    IndexSome(cfg.short, (name + rest)[0]);
    if IsMatch(cfg.longs.value, name, Ambiguous) {
      MatchIs(cfg.longs.value, name, Ambiguous);
    } else {
      MatchIs(cfg.longs.value, name, NoMatch);
    }
  }

  /** The words behind W. */
  lemma WIs(cfg: Config)
    requires WordsFollowW(cfg)
    ensures Index(cfg.short, 'W').Some? && At(Index(cfg.short, 'W').value, 1) == Some(';') && cfg.longs.Some?
    ensures HasWOption(cfg)
  {
    var i: nat :| FirstAt(cfg.short, 'W', i) && Has(cfg.short, i + 1, ';');
    IndexIs(cfg.short, 'W', i);
  }

  lemma WSays(cfg: Config, apart: bool, text: string, after: seq<string>)
    requires WordsFollowW(cfg) && (apart || text != "")
    ensures var behind := (if apart then [text] else []) + after;
            DecodeShort(cfg, WithW(apart, text), behind) ==
            DecodeW(cfg, cfg.longs.value, text, if apart then 2 else 1, behind)
  {
    WIs(cfg);
    hide Index, DecodeW;
    assert !apart ==> ("W" + text)[1..] == text && [] + after == after;
  }

  lemma LoneWSays(cfg: Config)
    requires WordsFollowW(cfg)
    ensures DecodeShort(cfg, "W", []) == Decoded(LastSays(cfg, LoneW), 1, "")
  {
    WIs(cfg);
    hide Index;
  }

  lemma WordSays(cfg: Config, apart: bool, name: string, index: nat, given: Given, more: seq<string>)
    requires WordsFollowW(cfg) && IsFound(cfg, name, index, given) && (given.Lacking? ==> more == [])
    ensures var text := name + WithEquals(given);
            var behind := (if apart then [text] else []) + (ApartOf(given) + more);
            var used := if apart then 2 else 1;
            DecodeW(cfg, cfg.longs.value, text, used, behind) ==
            Decoded(LongSays(cfg, Entry(cfg, index), index, given, Some(text)), used + |ApartOf(given)|, "")
  {
    hide NameLength, FindLong, Index;
    NamedText(name, given);
    MatchIs(cfg.longs.value, name, Found(index));
    var text := name + WithEquals(given);
    var word := if apart then [text] else [];
    assert (word + (ApartOf(given) + more))[|word|..] == ApartOf(given) + more;
  }

  lemma NoWordSays(cfg: Config, name: string, rest: string, used: nat, behind: seq<string>, m: Match)
    requires cfg.longs.Some? && NameOf(name + rest, name) && IsMatch(cfg.longs.value, name, m) && !m.Found?
    requires 1 <= used <= 1 + |behind|
    ensures DecodeW(cfg, cfg.longs.value, name + rest, used, behind) ==
            if m.Ambiguous? then Decoded(Event('?' as int, Some(name + rest), None, None, None), used + 1, "")
            else Decoded(Event('W' as int, Some(name + rest), None, None, None), used, "")
  {
    hide NameLength, FindLong;
    NameLengthIs(name + rest, name);
    MatchIs(cfg.longs.value, name, m);
  }

  /** The element is one with one dash or two. */
  predicate Dashed(cfg: Config, double: bool, elem: string) {
    (Has(elem, 1, '-') && cfg.longs.Some? ==> double) && (double ==> Has(elem, 1, '-'))
  }

  /** The last option is decoded to what it says, and uses up what was written of it. */
  lemma LastSaysSo(cfg: Config, double: bool, elem: string, l: Last, more: seq<string>)
    requires LastFits(cfg, double, TriedAsLong(cfg, elem), l) && Dashed(cfg, double, elem) && (Lacks(l) ==> more == [])
    ensures Decode(cfg, elem, Text(l), Behind(l) + more) == Decoded(LastSays(cfg, l), 1 + |Behind(l)|, "")
  {
    hide Decode, DecodeShort, DecodeW, TriedAsLong, IsMatch, Takes, WordsFollowW, LongSays, LetterSays;
    var behind := Behind(l) + more;
    if l.Name? {
      NameSays(cfg, elem, l.name, l.index, l.given, more);
    } else if l.NoName? {
      assert behind == more;
      NoNameSays(cfg, double, elem, l.name, l.rest, behind);
    } else {
      LetterIsShort(cfg, double, elem, Text(l), behind);
      if l.Letter? {
        LastLetterSaysSo(cfg, l.c, l.given, more);
      } else if l.LoneW? {
        LoneWSays(cfg);
      } else {
        LastWordSaysSo(cfg, double, TriedAsLong(cfg, elem), l, more);
      }
    }
  }

  lemma LastLetterSaysSo(cfg: Config, c: char, given: Given, more: seq<string>)
    requires given.Lacking? ==> more == []
    requires if Unknown(cfg.short, c) then given == Nothing
             else exists h :: Takes(cfg.short, c, h) && Fits(h, given, false)
    ensures DecodeShort(cfg, Text(Letter(c, given)), ApartOf(given) + more) ==
            Decoded(LetterSays(cfg, c, given), 1 + |ApartOf(given)|, "")
  {
    hide DecodeShort, Takes;
    if Unknown(cfg.short, c) {
      assert Text(Letter(c, given)) == [c] && ApartOf(given) == [];
      UnknownSays(cfg, [c], ApartOf(given) + more);
    } else {
      var h :| Takes(cfg.short, c, h) && Fits(h, given, false);
      LetterSaysSo(cfg, h, c, given, more);
    }
  }

  lemma LastWordSaysSo(cfg: Config, double: bool, long: bool, l: Last, more: seq<string>)
    requires l.Word? || l.NoWord? || l.VagueWord?
    requires LastFits(cfg, double, long, l) && (Lacks(l) ==> more == [])
    ensures DecodeShort(cfg, Text(l), Behind(l) + more) == Decoded(LastSays(cfg, l), 1 + |Behind(l)|, "")
  {
    WordParts(cfg, double, long, l, more);
    NamedSaysSo(cfg, double, long, l, more);
    hide *;
    WSays(cfg, l.apart, Named(l), BehindName(l) + more);
  }

  lemma WordParts(cfg: Config, double: bool, long: bool, l: Last, more: seq<string>)
    requires (l.Word? || l.NoWord? || l.VagueWord?) && LastFits(cfg, double, long, l)
    ensures WordsFollowW(cfg) && cfg.longs.Some? && (l.apart || Named(l) != "") && Text(l) == WithW(l.apart, Named(l))
    ensures Behind(l) + more == (if l.apart then [Named(l)] else []) + (BehindName(l) + more)
    ensures |Behind(l)| == (if l.apart then 1 else 0) + |BehindName(l)|
  {
    hide IsLetter, IsFound, IsMatch, NameOf, Named, BehindName, WithW;
    Regroup(if l.apart then [Named(l)] else [], BehindName(l), more);
  }

  lemma NamedSaysSo(cfg: Config, double: bool, long: bool, l: Last, more: seq<string>)
    requires (l.Word? || l.NoWord? || l.VagueWord?) && LastFits(cfg, double, long, l) && (Lacks(l) ==> more == [])
    requires cfg.longs.Some?
    ensures var used := if l.apart then 2 else 1;
            DecodeW(cfg, cfg.longs.value, Named(l), used,
                    (if l.apart then [Named(l)] else []) + (BehindName(l) + more)) ==
            Decoded(LastSays(cfg, l), used + |BehindName(l)|, "")
  {
    hide DecodeW, IsMatch, WordsFollowW, LongSays, IsLetter, NameOf, WithEquals, Text;
    var used, word := if l.apart then 2 else 1, if l.apart then [Named(l)] else [];
    match l
    case Word(apart, name, index, given) => WordSays(cfg, apart, name, index, given, more);
    case NoWord(_, name, rest) => NoWordSays(cfg, name, rest, used, word + ([] + more), NoMatch);
    case VagueWord(_, name, rest, lost) => NoWordSays(cfg, name, rest, used, word + ([lost] + more), Ambiguous);
  }

  // ----- what is read

  /** The reading `r` after some reports and their elements. */
  function After(events: seq<Event>, done: seq<string>, r: Reading): Reading {
    Reading(events + r.events, done + r.done, r.operands, r.overrun)
  }

  lemma LastNotEmpty(cfg: Config, double: bool, long: bool, l: Last)
    requires LastFits(cfg, double, long, l)
    ensures Text(l) != ""
  {
  }

  lemma ReadLast(cfg: Config, double: bool, elem: string, l: Last, more: seq<string>)
    requires LastFits(cfg, double, TriedAsLong(cfg, elem), l) && Dashed(cfg, double, elem) && (Lacks(l) ==> more == [])
    ensures Read(cfg, [elem] + (Behind(l) + more), Text(l)) ==
            After([LastSays(cfg, l)], [elem] + Behind(l), Read(cfg, more, ""))
  {
    hide Read, Decode, TriedAsLong, LastSays, Text, Behind;
    var todo := [elem] + (Behind(l) + more);
    LastNotEmpty(cfg, double, TriedAsLong(cfg, elem), l);
    LastSaysSo(cfg, double, elem, l, more);
    hide LastFits;
    assert todo[0] == elem && todo[1..] == Behind(l) + more;
    ReadOne(cfg, todo, Text(l));
    assert todo[1 + |Behind(l)|..] == more && todo[..1 + |Behind(l)|] == [elem] + Behind(l);
  }

  lemma {:induction false} ReadLetters(cfg: Config, double: bool, elem: string, letters: string, l: Last,
                                       more: seq<string>)
    requires LettersFit(cfg, double, TriedAsLong(cfg, elem), letters, Text(l))
    requires LastFits(cfg, double, TriedAsLong(cfg, elem), l) && Dashed(cfg, double, elem) && (Lacks(l) ==> more == [])
    ensures Read(cfg, [elem] + (Behind(l) + more), letters + Text(l)) ==
            After(LettersSay(cfg, letters) + [LastSays(cfg, l)], [elem] + Behind(l), Read(cfg, more, ""))
    decreases |letters|
  {
    hide Read, Decode, TriedAsLong, LastSays, Behind, LetterSays, LastFits, Text;
    if letters == "" {
      assert letters + Text(l) == Text(l);
      ReadLast(cfg, double, elem, l, more);
    } else {
      LastNotEmpty(cfg, double, TriedAsLong(cfg, elem), l);
      OneLetter(cfg, double, elem, letters, Text(l), Behind(l) + more);
      LettersRest(cfg, double, TriedAsLong(cfg, elem), letters, Text(l));
      ReadLetters(cfg, double, elem, letters[1..], l, more);
    }
  }

  lemma LettersRest(cfg: Config, double: bool, long: bool, letters: string, end: string)
    requires LettersFit(cfg, double, long, letters, end) && letters != ""
    ensures LettersFit(cfg, double, long, letters[1..], end)
  {
    forall k | 0 <= k < |letters| - 1 ensures letters[1..][k..] == letters[k + 1..] {
    }
    hide IsLetter, Takes;
  }

  lemma OneLetter(cfg: Config, double: bool, elem: string, letters: string, end: string, behind: seq<string>)
    requires LettersFit(cfg, double, TriedAsLong(cfg, elem), letters, end) && Dashed(cfg, double, elem)
    requires letters != "" && end != ""
    ensures Read(cfg, [elem] + behind, letters + end) ==
            After([LetterSays(cfg, letters[0], Nothing)], [], Read(cfg, [elem] + behind, letters[1..] + end))
  {
    hide Read, Decode, DecodeShort, TriedAsLong, IsLetter, LetterSays, Takes;
    var text, todo := letters + end, [elem] + behind;
    assert letters[0..] == letters && text[0] == letters[0] && text[1..] == letters[1..] + end && todo[1..] == behind;
    LetterIsShort(cfg, double, elem, text, behind);
    if Unknown(cfg.short, text[0]) {
      UnknownSays(cfg, text, behind);
    } else {
      FlagSays(cfg, text, behind);
    }
    ReadOne(cfg, todo, text);
    assert todo[0..] == todo;
  }

  /** One element with options. */
  lemma ReadElement(cfg: Config, p: Piece, more: seq<string>)
    requires p.Element? && PieceFits(cfg, p) && (Lacks(p.last) ==> more == [])
    ensures Read(cfg, Written(p) + more, "") ==
            After(LettersSay(cfg, p.letters) + [LastSays(cfg, p.last)], Written(p), Read(cfg, more, ""))
  {
    hide Read, TriedAsLong, MayName, LettersFit, Start, NonOption, LastSays, LettersSay, Behind, Text;
    var text := p.letters + Text(p.last);
    var elem := Dashes(p.double) + text;
    assert Text(p.last) != "";
    hide LastFits;
    MayNameIs(cfg, p.double, text);
    var todo := [elem] + (Behind(p.last) + more);
    assert Written(p) + more == todo;
    ReadHead(cfg, todo);
    ReadLetters(cfg, p.double, elem, p.letters, p.last, more);
  }

  lemma ReadPlain(cfg: Config, text: string, more: seq<string>)
    requires PieceFits(cfg, Operand(text))
    ensures var r := Read(cfg, more, "");
            Read(cfg, [text] + more, "") == r.(operands := [text] + r.operands)
  {
    assert ([text] + more)[1..] == more && ([text] + more)[..1] == [text];
  }

  /** What may follow: nothing, or the mark and whatever comes behind it. */
  function Tail(marked: Option<seq<string>>): seq<string> {
    if marked.Some? then ["--"] + marked.value else []
  }

  /** Main result: whatever is written out, with letters, clusters, arguments attached or apart, long names, full or
      short, operands in between, and unknown, ambiguous and incomplete options, is read back: exactly the reports due
      to it, with their values, arguments, indexes and flags, exactly the elements of the options used up, and exactly
      the operands. */
  lemma {:induction false} WritingIsReadBack(cfg: Config, ps: seq<Piece>, marked: Option<seq<string>>)
    requires AllFit(cfg, ps, marked.Some?)
    ensures Read(cfg, AllWritten(ps) + Tail(marked), "") ==
            Reading(Says(cfg, ps), OptionElements(ps) + if marked.Some? then ["--"] else [],
                    OperandElements(ps) + if marked.Some? then marked.value else [], false)
    decreases |ps|
  {
    if ps == [] {
      ReadTail(cfg, marked);
      hide Read, Tail;
    } else {
      FirstPiece(cfg, ps, marked);
      WritingIsReadBack(cfg, ps[1..], marked);
      FirstOf(cfg, ps);
      hide *;
      Regroup(Used(ps[0]), OptionElements(ps[1..]), if marked.Some? then ["--"] else []);
      Regroup(Kept(ps[0]), OperandElements(ps[1..]), if marked.Some? then marked.value else []);
    }
  }

  lemma FirstOf(cfg: Config, ps: seq<Piece>)
    requires ps != []
    ensures AllWritten(ps) == Written(ps[0]) + AllWritten(ps[1..])
    ensures Says(cfg, ps) == PieceSays(cfg, ps[0]) + Says(cfg, ps[1..])
    ensures OptionElements(ps) == Used(ps[0]) + OptionElements(ps[1..])
    ensures OperandElements(ps) == Kept(ps[0]) + OperandElements(ps[1..])
  {
  }

  lemma Regroup<T>(a: seq<T>, b: seq<T>, c: seq<T>)
    ensures a + b + c == a + (b + c)
  {
  }

  /** What is read of the first piece. */
  lemma FirstPiece(cfg: Config, ps: seq<Piece>, marked: Option<seq<string>>)
    requires AllFit(cfg, ps, marked.Some?) && ps != []
    ensures AllFit(cfg, ps[1..], marked.Some?)
    ensures var r := Read(cfg, AllWritten(ps[1..]) + Tail(marked), "");
            Read(cfg, AllWritten(ps) + Tail(marked), "") ==
            Reading(PieceSays(cfg, ps[0]) + r.events, Used(ps[0]) + r.done, Kept(ps[0]) + r.operands, r.overrun)
  {
    hide Read, LettersSay, LastSays, PieceFits, Lacks, Written, Tail, AllWritten;
    var more := AllWritten(ps[1..]) + Tail(marked);
    FirstOf(cfg, ps);
    assert AllWritten(ps) + Tail(marked) == Written(ps[0]) + more;
    match ps[0]
    case Operand(text) =>
      PlainWritten(text);
      ReadPlain(cfg, text, more);
    case Element(_, _, last) =>
      if Lacks(last) {
        LacksAtTheEnd(cfg, ps, marked);
      }
      ReadElement(cfg, ps[0], more);
  }

  lemma PlainWritten(text: string)
    ensures Written(Operand(text)) == [text]
  {
  }

  lemma LacksAtTheEnd(cfg: Config, ps: seq<Piece>, marked: Option<seq<string>>)
    requires AllFit(cfg, ps, marked.Some?) && ps != [] && ps[0].Element? && Lacks(ps[0].last)
    ensures AllWritten(ps[1..]) + Tail(marked) == []
  {
  }

  lemma ReadTail(cfg: Config, marked: Option<seq<string>>)
    ensures Read(cfg, Tail(marked), "") ==
            Reading([], if marked.Some? then ["--"] else [], if marked.Some? then marked.value else [], false)
  {
    ReadHead(cfg, Tail(marked));
    hide Read;
    if marked.Some? {
      assert Tail(marked)[..1] == ["--"] && Tail(marked)[1..] == marked.value;
    }
  }

  // ----- everything can be written so

  lemma TakesSome(cfg: Config, c: char) returns (h: HasArg)
    requires !Unknown(cfg.short, c) && !(c == 'W' && HasWOption(cfg))
    ensures Takes(cfg.short, c, h)
  {
    var i := FirstOne(cfg.short, c);
    IndexIs(cfg.short, c, i);
    h := if !Has(cfg.short, i + 1, ':') then No else if Has(cfg.short, i + 2, ':') then Optional else Required;
  }

  lemma WordsMayFollow(cfg: Config)
    requires HasWOption(cfg) && cfg.longs.Some?
    ensures WordsFollowW(cfg)
  {
    IndexSome(cfg.short, 'W');
    var i := FirstOne(cfg.short, 'W');
    IndexIs(cfg.short, 'W', i);
  }

  /** The argument that a long option finds, where it looks for it. */
  function GivenTo(h: HasArg, name: string, text: string, behind: seq<string>): Given
    requires NameOf(text, name)
  {
    if |name| < |text| then Attached(text[|name| + 1..])
    else if h != Required then Nothing
    else if behind != [] then Apart(behind[0])
    else Lacking
  }

  lemma GivenIs(cfg: Config, name: string, text: string, index: nat, behind: seq<string>)
    requires cfg.longs.Some? && NameOf(text, name) && IsMatch(cfg.longs.value, name, Found(index))
    ensures var given := GivenTo(Entry(cfg, index).hasArg, name, text, behind);
            && IsFound(cfg, name, index, given) && name + WithEquals(given) == text
            && ApartOf(given) <= behind && (given.Lacking? ==> behind == [])
  {
    hide IsMatch;
    assert |name| < |text| ==> text == name + "=" + text[|name| + 1..];
  }

  /** A text that names a long option, or should. */
  lemma SpellName(cfg: Config, double: bool, long: bool, text: string, behind: seq<string>) returns (l: Last)
    requires text != "" && (long ==> cfg.longs.Some?) && !IsLetter(cfg, double, long, text)
    ensures LastFits(cfg, double, long, l) && Text(l) == text && Behind(l) <= behind &&
            (Lacks(l) ==> Behind(l) == behind)
  {
    var name := text[..NameLength(text)];
    NameLengthSplits(text);
    FindLongMatches(cfg.longs.value, name);
    var m := FindLong(cfg.longs.value, name);
    hide FindLong, NameLength;
    if m.Found? {
      GivenIs(cfg, name, text, m.index, behind);
      l := Name(name, m.index, GivenTo(Entry(cfg, m.index).hasArg, name, text, behind));
    } else {
      l := NoName(name, text[|name|..]);
      assert name + text[|name|..] == text;
      if m.NoMatch? && !double && text[0] in cfg.short {
        forall name' | NameOf(text, name') ensures IsMatch(cfg.longs.value, name', NoMatch) {
          NameLengthIs(text, name');
          NameLengthIs(text, name);
        }
      }
    }
  }

  /** A text behind W, unless it is ambiguous and the last. */
  lemma SpellWord(cfg: Config, double: bool, long: bool, apart: bool, text: string, after: seq<string>)
      returns (l: Last)
    requires IsLetter(cfg, double, long, WithW(apart, text)) && WordsFollowW(cfg) && (apart || text != "")
    requires after == [] ==> !FindLong(cfg.longs.value, text[..NameLength(text)]).Ambiguous?
    ensures LastFits(cfg, double, long, l) && Text(l) == WithW(apart, text)
    ensures Behind(l) == (if apart then [text] else []) + BehindName(l)
    ensures BehindName(l) <= after && (Lacks(l) ==> after == [])
  {
    WIs(cfg);
    NameLengthSplits(text);
    var name := text[..NameLength(text)];
    FindLongMatches(cfg.longs.value, name);
    var m := FindLong(cfg.longs.value, name);
    hide *;
    var rest := text[|name|..];
    assert name + rest == text;
    match m
    case Found(i) =>
      GivenIs(cfg, name, text, i, after);
      l := FoundWordFits(cfg, double, long, apart, name, i, GivenTo(Entry(cfg, i).hasArg, name, text, after));
    case NoMatch => l := NoWordFits(cfg, double, long, apart, name, rest);
    case Ambiguous =>
      l := VagueWordFits(cfg, double, long, apart, name, rest, after[0]);
      assert [after[0]] <= after;
  }

  lemma FoundWordFits(cfg: Config, double: bool, long: bool, apart: bool, name: string, i: nat, given: Given)
      returns (l: Last)
    requires var text := name + WithEquals(given);
             IsLetter(cfg, double, long, WithW(apart, text)) && WordsFollowW(cfg) && (apart || text != "")
    requires IsFound(cfg, name, i, given)
    ensures LastFits(cfg, double, long, l) && Text(l) == WithW(apart, name + WithEquals(given))
    ensures Behind(l) == (if apart then [name + WithEquals(given)] else []) + BehindName(l)
    ensures BehindName(l) == ApartOf(given) && (Lacks(l) <==> given.Lacking?)
  {
    hide IsLetter, IsFound, WordsFollowW, WithEquals;
    l := Word(apart, name, i, given);
    WNotEmpty(apart, Named(l));
  }

  lemma NoWordFits(cfg: Config, double: bool, long: bool, apart: bool, name: string, rest: string) returns (l: Last)
    requires IsLetter(cfg, double, long, WithW(apart, name + rest)) && WordsFollowW(cfg) && (apart || name + rest != "")
    requires cfg.longs.Some? && NameOf(name + rest, name) && IsMatch(cfg.longs.value, name, NoMatch)
    ensures LastFits(cfg, double, long, l) && Text(l) == WithW(apart, name + rest)
    ensures Behind(l) == (if apart then [name + rest] else []) + BehindName(l)
    ensures BehindName(l) == [] && !Lacks(l)
  {
    hide IsLetter, WordsFollowW, NameOf, IsMatch;
    l := NoWord(apart, name, rest);
    WNotEmpty(apart, Named(l));
  }

  lemma VagueWordFits(cfg: Config, double: bool, long: bool, apart: bool, name: string, rest: string, lost: string)
      returns (l: Last)
    requires IsLetter(cfg, double, long, WithW(apart, name + rest)) && WordsFollowW(cfg) && (apart || name + rest != "")
    requires cfg.longs.Some? && NameOf(name + rest, name) && IsMatch(cfg.longs.value, name, Ambiguous)
    ensures LastFits(cfg, double, long, l) && Text(l) == WithW(apart, name + rest)
    ensures Behind(l) == (if apart then [name + rest] else []) + BehindName(l)
    ensures BehindName(l) == [lost] && !Lacks(l)
  {
    hide IsLetter, WordsFollowW, NameOf, IsMatch;
    l := VagueWord(apart, name, rest, lost);
    WNotEmpty(apart, Named(l));
  }

  lemma WNotEmpty(apart: bool, text: string)
    ensures WithW(apart, text) != ""
  {
  }

  /** A letter, and what belongs to it, unless it leaves the vector or is but one of several. */
  lemma SpellLetter(cfg: Config, double: bool, elem: string, text: string, behind: seq<string>) returns (l: Last)
    requires HasWOption(cfg) ==> cfg.longs.Some?
    requires IsLetter(cfg, double, TriedAsLong(cfg, elem), text) && Dashed(cfg, double, elem)
    requires !LeavesVector(cfg, elem, text, behind)
    requires |text| == 1 || !(Unknown(cfg.short, text[0]) || Takes(cfg.short, text[0], No))
    ensures LastFits(cfg, double, TriedAsLong(cfg, elem), l) && Text(l) == text
    ensures Behind(l) <= behind && (Lacks(l) ==> Behind(l) == behind)
  {
    hide TriedAsLong, Takes, LastFits;
    var long, c, rest := TriedAsLong(cfg, elem), text[0], text[1..];
    assert text == [c] + rest;
    if Unknown(cfg.short, c) {
      l := LetterFits(cfg, double, long, text, No, Nothing);
    } else if c == 'W' && HasWOption(cfg) {
      WordsMayFollow(cfg);
      l := SpellW(cfg, double, elem, rest, behind);
    } else {
      var h := TakesSome(cfg, c);
      var given :=
        if rest != "" then Attached(rest) else if h != Required then Nothing
        else if behind != [] then Apart(behind[0]) else Lacking;
      l := LetterFits(cfg, double, long, text, h, given);
    }
  }

  lemma LetterFits(cfg: Config, double: bool, long: bool, text: string, h: HasArg, given: Given) returns (l: Last)
    requires IsLetter(cfg, double, long, text) && text == Text(Letter(text[0], given))
    requires if Unknown(cfg.short, text[0]) then given == Nothing
             else Takes(cfg.short, text[0], h) && Fits(h, given, false)
    ensures l == Letter(text[0], given) && LastFits(cfg, double, long, l) && Text(l) == text
  {
    l := Letter(text[0], given);
  }

  lemma SpellW(cfg: Config, double: bool, elem: string, rest: string, behind: seq<string>) returns (l: Last)
    requires IsLetter(cfg, double, TriedAsLong(cfg, elem), "W" + rest) && Dashed(cfg, double, elem)
    requires WordsFollowW(cfg) && !LeavesVector(cfg, elem, "W" + rest, behind)
    ensures LastFits(cfg, double, TriedAsLong(cfg, elem), l) && Text(l) == "W" + rest
    ensures Behind(l) <= behind && (Lacks(l) ==> Behind(l) == behind)
  {
    hide *;
    var long := TriedAsLong(cfg, elem);
    W(rest);
    if rest != "" {
      NotVagueAtTheEnd(cfg, double, elem, rest, behind);
      l := SpellWord(cfg, double, long, false, rest, behind);
      BehindFits([], l, behind);
    } else if behind == [] {
      assert "W" + rest == "W";
      LoneFits(cfg, double, long);
      l := LoneW;
    } else {
      NotVagueAtTheEnd(cfg, double, elem, rest, behind);
      l := SpellWord(cfg, double, long, true, behind[0], behind[1..]);
      BehindFits([behind[0]], l, behind);
    }
  }

  lemma W(rest: string)
    ensures WithW(rest == "", rest) == "W" + rest
    ensures rest == "" ==> forall text :: WithW(true, text) == "W" + rest
    ensures ("W" + rest)[1..] == rest && |"W" + rest| == 1 + |rest|
  {
  }

  lemma NotVagueAtTheEnd(cfg: Config, double: bool, elem: string, rest: string, behind: seq<string>)
    requires IsLetter(cfg, double, TriedAsLong(cfg, elem), "W" + rest) && Dashed(cfg, double, elem)
    requires WordsFollowW(cfg) && !LeavesVector(cfg, elem, "W" + rest, behind)
    requires rest != "" || behind != []
    ensures var text := if rest != "" then rest else behind[0];
            cfg.longs.Some? &&
            (|behind| == (if rest != "" then 0 else 1) ==>
               !FindLong(cfg.longs.value, text[..NameLength(text)]).Ambiguous?)
  {
    WIs(cfg);
    LetterIsNoName(cfg, double, elem, "W" + rest, behind);
    W(rest);
    hide TriedAsLong, DecodeLong, IsLetter, Dashed, FindLong, NameLength;
  }

  lemma BehindFits(word: seq<string>, l: Last, behind: seq<string>)
    requires Behind(l) == word + BehindName(l) && word <= behind && BehindName(l) <= behind[|word|..]
    requires Lacks(l) ==> behind[|word|..] == []
    ensures Behind(l) <= behind && (Lacks(l) ==> Behind(l) == behind)
  {
    hide Behind, BehindName, Lacks;
    assert behind == word + behind[|word|..];
  }

  lemma LoneFits(cfg: Config, double: bool, long: bool)
    requires IsLetter(cfg, double, long, "W") && WordsFollowW(cfg)
    ensures LastFits(cfg, double, long, LoneW) && Text(LoneW) == "W" && Behind(LoneW) == []
  {
  }

  lemma LetterIsNoName(cfg: Config, double: bool, elem: string, text: string, behind: seq<string>)
    requires IsLetter(cfg, double, TriedAsLong(cfg, elem), text) && Dashed(cfg, double, elem)
    ensures TriedAsLong(cfg, elem) ==> DecodeLong(cfg, cfg.longs.value, elem, text, behind).None?
  {
    hide Index;
    if TriedAsLong(cfg, elem) {
      NameLengthSplits(text);
      MatchIs(cfg.longs.value, text[..NameLength(text)], NoMatch);
      IndexSome(cfg.short, text[0]);
    }
  }

  /** The rest of an element, from some letter on, and what belongs to it. */
  lemma {:induction false} SpellElement(cfg: Config, double: bool, elem: string, text: string, behind: seq<string>)
      returns (letters: string, l: Last)
    requires HasWOption(cfg) ==> cfg.longs.Some?
    requires text != "" && Dashed(cfg, double, elem) && (TriedAsLong(cfg, elem) ==> cfg.longs.Some?)
    requires !Read(cfg, [elem] + behind, text).overrun
    ensures text == letters + Text(l)
    ensures LettersFit(cfg, double, TriedAsLong(cfg, elem), letters, Text(l))
    ensures LastFits(cfg, double, TriedAsLong(cfg, elem), l)
    ensures Behind(l) <= behind && (Lacks(l) ==> Behind(l) == behind)
    decreases |text|
  {
    hide TriedAsLong, Takes, LastFits, LettersFit, IsLetter, Read, Behind, Text;
    var long := TriedAsLong(cfg, elem);
    if IsLetter(cfg, double, long, text) && |text| > 1 &&
       (Unknown(cfg.short, text[0]) || Takes(cfg.short, text[0], No)) {
      assert text == [text[0]] + "" + text[1..];
      NoLettersFit(cfg, double, long, text[1..]);
      LettersMore(cfg, double, long, text[0], "", text[1..]);
      OneLetter(cfg, double, elem, [text[0]] + "", text[1..], behind);
      assert ([text[0]] + "")[1..] + text[1..] == text[1..] && ([text[0]] + "")[0] == text[0];
      letters, l := SpellElement(cfg, double, elem, text[1..], behind);
      assert text == [text[0]] + letters + Text(l);
      LettersMore(cfg, double, long, text[0], letters, Text(l));
      letters := [text[0]] + letters;
    } else {
      letters := "";
      if IsLetter(cfg, double, long, text) {
        StaysIn(cfg, elem, text, behind);
        l := SpellLetter(cfg, double, elem, text, behind);
      } else {
        l := SpellName(cfg, double, long, text, behind);
      }
      NoLettersFit(cfg, double, long, Text(l));
    }
  }

  lemma NoLettersFit(cfg: Config, double: bool, long: bool, end: string)
    ensures LettersFit(cfg, double, long, "", end)
  {
  }

  lemma LettersMore(cfg: Config, double: bool, long: bool, c: char, letters: string, end: string)
    requires IsLetter(cfg, double, long, [c] + letters + end) && (Unknown(cfg.short, c) || Takes(cfg.short, c, No))
    requires LettersFit(cfg, double, long, letters, end)
    ensures LettersFit(cfg, double, long, [c] + letters, end)
  {
    hide IsLetter, Takes, Unknown;
    var more := [c] + letters;
    forall k | 0 <= k < |more|
      ensures IsLetter(cfg, double, long, more[k..] + end) &&
              (Unknown(cfg.short, more[k]) || Takes(cfg.short, more[k], No))
    {
      if k > 0 {
        assert more[k..] == letters[k - 1..];
      } else {
        assert more[k..] == more;
      }
    }
  }

  lemma StaysIn(cfg: Config, elem: string, text: string, behind: seq<string>)
    requires text != "" && !Read(cfg, [elem] + behind, text).overrun
    ensures !LeavesVector(cfg, elem, text, behind)
  {
    var todo := [elem] + behind;
    ReadOne(cfg, todo, text);
    assert todo[1..] == behind;
    DecodeOverruns(cfg, elem, text, behind);
    hide Read, Decode, LeavesVector;
  }

  /** One element with options, and what belongs to it. */
  lemma SpellPiece(cfg: Config, elem: string, behind: seq<string>) returns (p: Piece)
    requires HasWOption(cfg) ==> cfg.longs.Some?
    requires !NonOption(elem) && elem != "--" && !Read(cfg, [elem] + behind, "").overrun
    ensures p.Element? && PieceFits(cfg, p) && Written(p) <= [elem] + behind
    ensures Lacks(p.last) ==> Written(p) == [elem] + behind
  {
    var double := cfg.longs.Some? && elem[1] == '-';
    var text := Start(cfg, elem);
    assert elem == Dashes(double) + text;
    ReadHead(cfg, [elem] + behind);
    assert ([elem] + behind)[0] == elem;
    MayNameIs(cfg, double, text);
    hide TriedAsLong, LettersFit, LastFits, Read, MayName, Behind, Text, NonOption, Start;
    assert Dashed(cfg, double, elem);
    assert !double && cfg.longs.Some? ==> text[0] != '-' by {
      assert !double ==> elem[1] == text[0];
    }
    var letters, l := SpellElement(cfg, double, elem, text, behind);
    p := Element(double, letters, l);
    assert Written(p) == [elem] + Behind(l);
  }

  /** And nothing else can be read: every vector that the scanner does not leave is such a writing. */
  lemma {:induction false} EveryVectorIsWritten(cfg: Config, args: seq<string>)
      returns (ps: seq<Piece>, marked: Option<seq<string>>)
    requires (HasWOption(cfg) ==> cfg.longs.Some?) && !Read(cfg, args, "").overrun
    ensures AllFit(cfg, ps, marked.Some?) && AllWritten(ps) + Tail(marked) == args
    ensures args == [] ==> ps == [] && marked == None
    decreases |args|
  {
    hide HasWOption, Read, PieceFits, Lacks, Written;
    if args == [] {
      ps, marked := [], None;
    } else if args[0] == "--" {
      ps, marked := [], Some(args[1..]);
    } else {
      var p, more := SpellFirst(cfg, args);
      ps, marked := EveryVectorIsWritten(cfg, more);
      AllFitMore(cfg, p, ps, marked.Some?);
      ps := [p] + ps;
    }
  }

  /** The first piece of a vector, and the elements behind it. */
  lemma SpellFirst(cfg: Config, args: seq<string>) returns (p: Piece, more: seq<string>)
    requires (HasWOption(cfg) ==> cfg.longs.Some?) && args != [] && args[0] != "--" && !Read(cfg, args, "").overrun
    ensures PieceFits(cfg, p) && args == Written(p) + more && |more| < |args|
    ensures p.Element? && Lacks(p.last) ==> more == []
    ensures !Read(cfg, more, "").overrun
  {
    var elem, behind := args[0], args[1..];
    assert args == [elem] + behind;
    if NonOption(elem) {
      hide Read, HasWOption;
      p := Operand(elem);
      more := behind;
      ReadPlain(cfg, elem, more);
    } else {
      hide *;
      p := SpellPiece(cfg, elem, behind);
      more := args[|Written(p)|..];
      assert args == Written(p) + more;
      SomethingWritten(p);
      ReadElement(cfg, p, more);
    }
  }

  lemma SomethingWritten(p: Piece)
    ensures Written(p) != []
    ensures forall events, done, r :: After(events, done, r).overrun == r.overrun
  {
  }

  lemma AllFitMore(cfg: Config, p: Piece, ps: seq<Piece>, marked: bool)
    requires PieceFits(cfg, p) && AllFit(cfg, ps, marked)
    requires p.Element? && Lacks(p.last) ==> ps == [] && !marked
    ensures AllFit(cfg, [p] + ps, marked)
  {
    hide PieceFits, Lacks;
    var all := [p] + ps;
    assert forall i :: 0 < i < |all| ==> all[i] == ps[i - 1];
  }
}
