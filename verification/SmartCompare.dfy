/** Comparing names without regard to case, and their numeric parts as numbers. */
module SmartCompare {
  import HeapSort

  const BUFSIZ := 8192
  const INT_LIMIT := 0x8000_0000
  const UINT_LIMIT := 0x1_0000_0000

  predicate IsDigit(ch: char) {
    '0' <= ch <= '9'
  }

  function Lower(ch: char): int {
    if 'A' <= ch <= 'Z' then ch as int + 32 else ch as int
  }

  /** The length of the run of digits at the start of `s`. */
  function RunLength(s: string): (k: nat)
    ensures k <= |s| && (forall i :: 0 <= i < k ==> IsDigit(s[i])) && (k < |s| ==> !IsDigit(s[k]))
  {
    if s != "" && IsDigit(s[0]) then 1 + RunLength(s[1..]) else 0
  }

  function DigitValue(ch: char): nat
    requires IsDigit(ch)
  {
    ch as int - '0' as int
  }

  predicate AllDigits(run: string) {
    forall i :: 0 <= i < |run| ==> IsDigit(run[i])
  }

  function Value(run: string): nat
    requires AllDigits(run)
  {
    if run == "" then 0 else 10 * Value(run[..|run| - 1]) + DigitValue(run[|run| - 1])
  }

  // ----- what a name means

  datatype Token = Chr(code: int) | Num(value: nat)

  function Tokens(s: string): seq<Token>
    decreases |s|
  {
    if s == "" then []
    else if IsDigit(s[0]) then [Num(Value(s[..RunLength(s)]))] + Tokens(s[RunLength(s)..])
    else [Chr(Lower(s[0]))] + Tokens(s[1..])
  }

  function CompareToken(x: Token, y: Token): int {
    match (x, y)
    case (Chr(c), Chr(d)) => c - d
    case (Num(m), Num(n)) => m - n
    case (Chr(c), Num(_)) => if c < '0' as int then -1 else 1
    case (Num(_), Chr(d)) => if d < '0' as int then 1 else -1
  }

  /** Lexicographic order of token lists. */
  function CompareTokens(xs: seq<Token>, ys: seq<Token>): int {
    if xs == [] then (if ys == [] then 0 else -1)
    else if ys == [] then 1
    else if CompareToken(xs[0], ys[0]) != 0 then CompareToken(xs[0], ys[0])
    else CompareTokens(xs[1..], ys[1..])
  }

  function Sign(n: int): int {
    if n < 0 then -1 else if n > 0 then 1 else 0
  }

  // ----- a total preorder

  /** A character token is never a digit. */
  predicate Proper(x: Token) {
    x.Chr? ==> !('0' as int <= x.code <= '9' as int)
  }

  predicate AllProper(xs: seq<Token>) {
    forall i :: 0 <= i < |xs| ==> Proper(xs[i])
  }

  lemma {:induction false} TokensProper(s: string)
    ensures AllProper(Tokens(s))
    decreases |s|
  {
    if s != "" {
      if IsDigit(s[0]) {
        TokensProper(s[RunLength(s)..]);
      } else {
        TokensProper(s[1..]);
      }
    }
  }

  lemma {:induction false} TokensAntisymmetric(xs: seq<Token>, ys: seq<Token>)
    ensures Sign(CompareTokens(xs, ys)) == -Sign(CompareTokens(ys, xs))
  {
    if xs != [] && ys != [] && CompareToken(xs[0], ys[0]) == 0 {
      TokensAntisymmetric(xs[1..], ys[1..]);
    }
  }

  lemma {:induction false} TokensTransitive(xs: seq<Token>, ys: seq<Token>, zs: seq<Token>)
    requires AllProper(xs) && AllProper(ys) && AllProper(zs)
    requires CompareTokens(xs, ys) <= 0 && CompareTokens(ys, zs) <= 0
    ensures CompareTokens(xs, zs) <= 0
  {
    if xs != [] && ys != [] && zs != [] {
      if CompareToken(xs[0], ys[0]) == 0 && CompareToken(ys[0], zs[0]) == 0 {
        TokensTransitive(xs[1..], ys[1..], zs[1..]);
      }
    }
  }

  // ----- the comparison itself

  function StrCaseCmp(x: string, y: string): int {
    if x == "" && y == "" then 0
    else if x == "" then -Lower(y[0])
    else if y == "" then Lower(x[0])
    else if Lower(x[0]) != Lower(y[0]) then Lower(x[0]) - Lower(y[0])
    else StrCaseCmp(x[1..], y[1..])
  }

  /** `atoi`, seen as unsigned. It reads every number below `limit`, which the C standard promises for 2^31 and a system
      with a wider `long` keeps up to 2^32; what it makes of larger ones is its own business. */
  type Reader = string -> nat

  ghost predicate Reads(atoi: Reader, limit: nat) {
    forall run :: AllDigits(run) ==> atoi(run) < UINT_LIMIT && (Value(run) < limit ==> atoi(run) == Value(run))
  }

  /** What of a run of digits fits into the buffer. */
  function Cut(run: string): string {
    if |run| < BUFSIZ then run else run[..BUFSIZ - 1]
  }

  /** An unsigned difference, seen as an int again. */
  function UnsignedDifference(a: nat, b: nat): int {
    var d := (a - b) % UINT_LIMIT;
    if d < INT_LIMIT then d else d - UINT_LIMIT
  }

  /** It has the right sign exactly when the difference fits into an int. */
  lemma DifferenceSign(a: nat, b: nat)
    requires a < UINT_LIMIT && b < UINT_LIMIT
    ensures Sign(UnsignedDifference(a, b)) == Sign(a - b) <==> -INT_LIMIT <= a - b < INT_LIMIT
    ensures UnsignedDifference(a, b) == 0 <==> a == b
  {
    var d := (a - b) % UINT_LIMIT;
    assert d == if a >= b then a - b else a - b + UINT_LIMIT;
  }

  /** The comparison of two strings as `strsmartcmp` makes it. */
  function Compared(atoi: Reader, a: string, b: string): int
    decreases |a|
  {
    if a == "" || b == "" then StrCaseCmp(a, b)
    else if IsDigit(a[0]) && IsDigit(b[0]) then
      var ja, jb := RunLength(a), RunLength(b);
      var d := UnsignedDifference(atoi(Cut(a[..ja])), atoi(Cut(b[..jb])));
      if d != 0 then d else Compared(atoi, a[ja..], b[jb..])
    else if Lower(a[0]) == Lower(b[0]) then Compared(atoi, a[1..], b[1..])
    else StrCaseCmp(a, b)
  }

  /** Its loops, on any two strings and with any `atoi`. */
  method CompareText(atoi: Reader, a: string, b: string) returns (r: int)
    ensures r == Compared(atoi, a, b)
  {
    hide StrCaseCmp, RunLength, UnsignedDifference, Cut;
    var la, lb := |a|, |b|;
    var ia, ib := 0, 0;
    assert a[0..] == a && b[0..] == b;
    while ia < la && ib < lb
      invariant 0 <= ia <= la && 0 <= ib <= lb
      invariant Compared(atoi, a[ia..], b[ib..]) == Compared(atoi, a, b)
      decreases la - ia
    {
      while ia < la && ib < lb && Lower(a[ia]) == Lower(b[ib]) && !IsDigit(a[ia])
        invariant 0 <= ia <= la && 0 <= ib <= lb
        invariant Compared(atoi, a[ia..], b[ib..]) == Compared(atoi, a, b)
        decreases la - ia
      {
        assert a[ia..][1..] == a[ia + 1..] && b[ib..][1..] == b[ib + 1..];
        ia, ib := ia + 1, ib + 1;
      }
      if ia < la && IsDigit(a[ia]) && ib < lb && IsDigit(b[ib]) {
        var ja := SkipDigits(a, ia);
        var jb := SkipDigits(b, ib);
        var anum, bnum := atoi(Cut(a[ia..ja])), atoi(Cut(b[ib..jb]));
        assert a[ia..][..ja - ia] == a[ia..ja] && a[ia..][ja - ia..] == a[ja..];
        assert b[ib..][..jb - ib] == b[ib..jb] && b[ib..][jb - ib..] == b[jb..];
        if UnsignedDifference(anum, bnum) != 0 {
          return UnsignedDifference(anum, bnum);
        }
        ia, ib := ja, jb;
        continue;
      }
      return StrCaseCmp(a[ia..], b[ib..]);
    }
    return StrCaseCmp(a[ia..], b[ib..]);
  }

  method SkipDigits(s: string, i: nat) returns (j: nat)
    requires i < |s| && IsDigit(s[i])
    ensures i < j <= |s| && j == i + RunLength(s[i..])
  {
    j := i;
    while j < |s| && IsDigit(s[j])
      invariant i <= j <= |s| && forall k :: i <= k < j ==> IsDigit(s[k])
    {
      j := j + 1;
    }
    RunIs(s[i..], j - i);
  }

  lemma {:induction false} RunIs(s: string, k: nat)
    requires k <= |s| && (forall i :: 0 <= i < k ==> IsDigit(s[i])) && (k < |s| ==> !IsDigit(s[k]))
    ensures RunLength(s) == k
  {
    if k > 0 {
      RunIs(s[1..], k - 1);
    }
  }

  // ----- when the comparison is that of token lists

  /** No terminator inside, every run of digits fits into the buffer, and its number is below `limit`. */
  ghost predicate Readable(s: string, limit: nat) {
    && (forall i :: 0 <= i < |s| ==> s[i] != '\0')
    && forall i, j :: 0 <= i <= j <= |s| && AllDigits(s[i..j]) ==> j - i < BUFSIZ && Value(s[i..j]) < limit
  }

  /** Where the lists first differ there are not two numbers whose difference is too large for an int. */
  predicate NearEnough(xs: seq<Token>, ys: seq<Token>) {
    if xs == [] || ys == [] then true
    else if xs[0] == ys[0] then NearEnough(xs[1..], ys[1..])
    else xs[0].Num? && ys[0].Num? ==> -INT_LIMIT <= xs[0].value - ys[0].value < INT_LIMIT
  }

  lemma ReadableRest(s: string, k: nat, limit: nat)
    requires Readable(s, limit) && k <= |s|
    ensures Readable(s[k..], limit)
  {
    var t := s[k..];
    forall i, j | 0 <= i <= j <= |t| && AllDigits(t[i..j]) ensures j - i < BUFSIZ && Value(t[i..j]) < limit {
      assert t[i..j] == s[i + k..j + k];
    }
  }

  lemma ReadableRun(atoi: Reader, s: string, limit: nat)
    requires Reads(atoi, limit) && Readable(s, limit)
    ensures var run := s[..RunLength(s)];
            AllDigits(run) && Value(run) < limit && atoi(Cut(run)) == Value(run) < UINT_LIMIT
  {
    var k := RunLength(s);
    assert s[0..k] == s[..k] && AllDigits(s[..k]);
  }

  lemma FirstToken(x: string)
    requires x != ""
    ensures Tokens(x) != [] && (Tokens(x)[0].Num? <==> IsDigit(x[0]))
    ensures !IsDigit(x[0]) ==> Tokens(x)[0] == Chr(Lower(x[0])) && Tokens(x)[1..] == Tokens(x[1..])
    ensures IsDigit(x[0]) ==>
              Tokens(x)[0] == Num(Value(x[..RunLength(x)])) && Tokens(x)[1..] == Tokens(x[RunLength(x)..])
  {
  }

  /** Where single characters decide. */
  lemma FirstDifference(x: string, y: string)
    requires (forall i :: 0 <= i < |x| ==> x[i] != '\0') && (forall i :: 0 <= i < |y| ==> y[i] != '\0')
    requires x != "" && y != "" ==> Lower(x[0]) != Lower(y[0]) && !(IsDigit(x[0]) && IsDigit(y[0]))
    ensures Sign(StrCaseCmp(x, y)) == Sign(CompareTokens(Tokens(x), Tokens(y))) && NearEnough(Tokens(x), Tokens(y))
  {
    hide Tokens;
    assert Tokens("") == [] by {
      NoTokens();
    }
    if x != "" {
      FirstToken(x);
    }
    if y != "" {
      FirstToken(y);
    }
  }

  lemma NoTokens()
    ensures Tokens("") == []
  {
  }

  /** The comparison has the sign of that of the token lists exactly when these are near enough, for all strings with
      numbers that `atoi` can read. */
  lemma {:induction false} ComparedSign(atoi: Reader, limit: nat, a: string, b: string)
    requires limit <= UINT_LIMIT && Reads(atoi, limit) && Readable(a, limit) && Readable(b, limit)
    ensures Sign(Compared(atoi, a, b)) == Sign(CompareTokens(Tokens(a), Tokens(b))) <==>
            NearEnough(Tokens(a), Tokens(b))
    decreases |a|
  {
    hide Tokens, Readable, Reads, RunLength, Cut, UnsignedDifference, StrCaseCmp;
    NoNuls(a, limit);
    NoNuls(b, limit);
    if a == "" || b == "" {
      FirstDifference(a, b);
      return;
    }
    FirstToken(a);
    FirstToken(b);
    if IsDigit(a[0]) && IsDigit(b[0]) {
      ReadableRun(atoi, a, limit);
      ReadableRun(atoi, b, limit);
      var ja, jb := RunLength(a), RunLength(b);
      DifferenceSign(Value(a[..ja]), Value(b[..jb]));
      ReadableRest(a, ja, limit);
      ReadableRest(b, jb, limit);
      SomeDigits(a);
      ComparedSign(atoi, limit, a[ja..], b[jb..]);
    } else if Lower(a[0]) == Lower(b[0]) {
      ReadableRest(a, 1, limit);
      ReadableRest(b, 1, limit);
      ComparedSign(atoi, limit, a[1..], b[1..]);
    } else {
      FirstDifference(a, b);
    }
  }

  lemma NoNuls(s: string, limit: nat)
    requires Readable(s, limit)
    ensures forall i :: 0 <= i < |s| ==> s[i] != '\0'
  {
  }

  lemma SomeDigits(s: string)
    requires s != "" && IsDigit(s[0])
    ensures RunLength(s) >= 1
  {
  }

  ghost predicate Below(xs: seq<Token>, limit: nat) {
    forall i :: 0 <= i < |xs| ==> xs[i].Num? ==> xs[i].value < limit
  }

  lemma {:induction false} TokensBelow(s: string, limit: nat)
    requires Readable(s, limit)
    ensures Below(Tokens(s), limit)
    decreases |s|
  {
    if s != "" {
      var k := if IsDigit(s[0]) then RunLength(s) else 1;
      ReadableRest(s, k, limit);
      assert s[0..RunLength(s)] == s[..RunLength(s)];
      TokensBelow(s[k..], limit);
    }
  }

  lemma {:induction false} NearIfSmall(xs: seq<Token>, ys: seq<Token>)
    requires Below(xs, INT_LIMIT) && Below(ys, INT_LIMIT)
    ensures NearEnough(xs, ys)
  {
    if xs != [] && ys != [] && xs[0] == ys[0] {
      NearIfSmall(xs[1..], ys[1..]);
    }
  }

  // ----- what the comparison makes of letters, digits and the rest

  const UPPER := "ABCDEFGHIJKLMNOPQRSTUVWXYZ"
  const LOWER := "abcdefghijklmnopqrstuvwxyz"
  const DIGITS := "0123456789"

  /** A capital letter counts as the small one at its place in the alphabet, anything else as itself. */
  ghost predicate CountsAs(x: char, y: char) {
    if x in UPPER then exists i :: 0 <= i < 26 && x == UPPER[i] && y == LOWER[i] else y == x
  }

  lemma Alphabets()
    ensures |UPPER| == |LOWER| == 26 && |DIGITS| == 10
    ensures forall i :: 0 <= i < 26 ==> UPPER[i] as int == 65 + i && LOWER[i] as int == 97 + i
    ensures forall i :: 0 <= i < 10 ==> DIGITS[i] as int == 48 + i
  {
  }

  lemma DigitsAre(x: char)
    ensures IsDigit(x) <==> x in DIGITS
    ensures forall i :: 0 <= i < 10 && x == DIGITS[i] ==> IsDigit(x) && DigitValue(x) == i
  {
    Alphabets();
    if IsDigit(x) {
      assert x == DIGITS[x as int - 48];
    }
  }

  lemma LowerIs(x: char, y: char)
    requires CountsAs(x, y)
    ensures Lower(x) == y as int
  {
    Alphabets();
    if 'A' <= x <= 'Z' {
      assert x == UPPER[x as int - 65];
    }
  }

  lemma CountsAsSome(x: char) returns (y: char)
    ensures CountsAs(x, y)
  {
    if x in UPPER {
      Alphabets();
      var i :| 0 <= i < 26 && x == UPPER[i];
      y := LOWER[i];
    } else {
      y := x;
    }
  }

  /** The same character, but for the case of a letter. */
  ghost predicate Alike(x: char, y: char) {
    exists z :: CountsAs(x, z) && CountsAs(y, z)
  }

  lemma AlikeIff(x: char, y: char)
    ensures Alike(x, y) <==> Lower(x) == Lower(y)
  {
    var x' := CountsAsSome(x);
    var y' := CountsAsSome(y);
    LowerIs(x, x');
    LowerIs(y, y');
    if z :| CountsAs(x, z) && CountsAs(y, z) {
      LowerIs(x, z);
      LowerIs(y, z);
    }
  }

  /** A run of digits from the start of a name, as long as possible. */
  ghost predicate LeadingRun(s: string, k: nat) {
    0 < k <= |s| && (forall i :: 0 <= i < k ==> s[i] in DIGITS) && (k < |s| ==> s[k] !in DIGITS)
  }

  /** Two names agree piece by piece: runs of digits by their value, all else character by character but for case. */
  ghost predicate Agree(a: string, b: string)
    decreases |a|
  {
    || (a == "" && b == "")
    || (exists j: nat, k: nat :: LeadingRun(a, j) && LeadingRun(b, k) && AllDigits(a[..j]) && AllDigits(b[..k]) &&
          Value(a[..j]) == Value(b[..k]) && Agree(a[j..], b[k..]))
    || (a != "" && b != "" && a[0] !in DIGITS && b[0] !in DIGITS && Alike(a[0], b[0]) && Agree(a[1..], b[1..]))
  }

  lemma RunIsLeading(s: string, k: nat)
    ensures LeadingRun(s, k) <==> s != "" && IsDigit(s[0]) && k == RunLength(s)
  {
    forall x: char ensures IsDigit(x) <==> x in DIGITS {
      DigitsAre(x);
    }
    if LeadingRun(s, k) {
      RunIs(s, k);
    }
  }

  lemma {:induction false} AgreeIff(a: string, b: string)
    ensures Agree(a, b) <==> Tokens(a) == Tokens(b)
    decreases |a|
  {
    if a == "" || b == "" {
      AgreeAtEnd(a, b);
    } else {
      FirstToken(a);
      FirstToken(b);
      DigitsAre(a[0]);
      DigitsAre(b[0]);
      if IsDigit(a[0]) && IsDigit(b[0]) {
        AgreeIff(a[RunLength(a)..], b[RunLength(b)..]);
        AgreeAtRuns(a, b);
      } else if !IsDigit(a[0]) && !IsDigit(b[0]) {
        AgreeIff(a[1..], b[1..]);
        AlikeIff(a[0], b[0]);
        AgreeAtCharacters(a, b);
      } else {
        NoAgreement(a, b);
      }
      TokensJoin(a);
      TokensJoin(b);
    }
  }

  lemma TokensJoin(x: string)
    requires x != ""
    ensures Tokens(x) != [] && Tokens(x) == [Tokens(x)[0]] + Tokens(x)[1..]
  {
    FirstToken(x);
  }

  lemma AgreeAtEnd(a: string, b: string)
    requires a == "" || b == ""
    ensures Agree(a, b) <==> a == b
    ensures Tokens(a) == Tokens(b) <==> a == b
  {
    NoTokens();
    if a != "" {
      FirstToken(a);
    }
    if b != "" {
      FirstToken(b);
    }
  }

  lemma AgreeAtRuns(a: string, b: string)
    requires a != "" && b != "" && IsDigit(a[0]) && IsDigit(b[0])
    ensures Agree(a, b) <==>
            Value(a[..RunLength(a)]) == Value(b[..RunLength(b)]) && Agree(a[RunLength(a)..], b[RunLength(b)..])
  {
    DigitsAre(a[0]);
    RunIsLeading(a, RunLength(a));
    RunIsLeading(b, RunLength(b));
    forall k ensures LeadingRun(a, k) ==> k == RunLength(a) {
      RunIsLeading(a, k);
    }
    forall k ensures LeadingRun(b, k) ==> k == RunLength(b) {
      RunIsLeading(b, k);
    }
  }

  lemma AgreeAtCharacters(a: string, b: string)
    requires a != "" && b != "" && !IsDigit(a[0]) && !IsDigit(b[0])
    ensures Agree(a, b) <==> Alike(a[0], b[0]) && Agree(a[1..], b[1..])
  {
    DigitsAre(a[0]);
    DigitsAre(b[0]);
    forall k: nat ensures !LeadingRun(a, k) {
      RunIsLeading(a, k);
    }
  }

  lemma NoAgreement(a: string, b: string)
    requires a != "" && b != "" && (IsDigit(a[0]) <==> !IsDigit(b[0]))
    ensures !Agree(a, b)
  {
    DigitsAre(a[0]);
    DigitsAre(b[0]);
    forall k: nat ensures !LeadingRun(a, k) || !LeadingRun(b, k) {
    }
  }

  lemma {:induction false} EqualTokens(xs: seq<Token>, ys: seq<Token>)
    ensures CompareTokens(xs, ys) == 0 <==> xs == ys
  {
    if xs != [] && ys != [] {
      EqualTokens(xs[1..], ys[1..]);
      assert xs == [xs[0]] + xs[1..] && ys == [ys[0]] + ys[1..];
    }
  }

  /** Names with small numbers compare equal exactly if they agree piece by piece. */
  lemma EqualIff(atoi: Reader, a: string, b: string)
    requires Reads(atoi, INT_LIMIT) && Readable(a, INT_LIMIT) && Readable(b, INT_LIMIT)
    ensures Compared(atoi, a, b) == 0 <==> Agree(a, b)
  {
    hide *;
    SmallNamesAgree(atoi, Text(a), Text(b));
    SmartlyText(atoi, a, b);
    EqualTokens(Tokens(a), Tokens(b));
    AgreeIff(a, b);
  }

  lemma SmartlyText(atoi: Reader, a: string, b: string)
    ensures Smartly(atoi, Text(a), Text(b)) == Compared(atoi, a, b)
    ensures Smart(Text(a), Text(b)) == CompareTokens(Tokens(a), Tokens(b))
    ensures forall m, n :: Sign(m) == Sign(n) ==> (m == 0 <==> n == 0) && (m < 0 <==> n < 0)
  {
  }

  /** Where a name may be cut without cutting a number. */
  predicate Cuts(p: string, s: string) {
    p == "" || s == "" || !IsDigit(p[|p| - 1]) || !IsDigit(s[0])
  }

  lemma {:induction false} TokensCut(p: string, s: string)
    requires Cuts(p, s)
    ensures Tokens(p + s) == Tokens(p) + Tokens(s)
    decreases |p|
  {
    hide Tokens, RunLength, Value, AllDigits;
    if p == "" {
      NoTokens();
      assert p + s == s;
    } else if IsDigit(p[0]) {
      var k := RunLength(p);
      RunCut(p, s);
      SomeDigits(p);
      TokensCut(p[k..], s);
      TokensFront(p);
      TokensFront(p + s);
    } else {
      assert (p + s)[1..] == p[1..] + s;
      TokensCut(p[1..], s);
      TokensFront(p);
      TokensFront(p + s);
    }
  }

  lemma RunCut(p: string, s: string)
    requires Cuts(p, s) && p != ""
    ensures var k := RunLength(p);
            RunLength(p + s) == k && (p + s)[..k] == p[..k] && (p + s)[k..] == p[k..] + s && Cuts(p[k..], s)
  {
    hide RunLength;
    var k := RunLength(p);
    RunIs(p + s, k);
  }

  lemma TokensFront(x: string)
    requires x != ""
    ensures Tokens(x) ==
            if IsDigit(x[0]) then [Num(Value(x[..RunLength(x)]))] + Tokens(x[RunLength(x)..])
            else [Chr(Lower(x[0]))] + Tokens(x[1..])
  {
  }

  lemma {:induction false} SameFront(ts: seq<Token>, xs: seq<Token>, ys: seq<Token>)
    ensures CompareTokens(ts + xs, ts + ys) == CompareTokens(xs, ys)
  {
    if ts == [] {
      assert ts + xs == xs && ts + ys == ys;
    } else {
      SameFront(ts[1..], xs, ys);
      assert (ts + xs)[1..] == ts[1..] + xs && (ts + ys)[1..] == ts[1..] + ys;
    }
  }

  /** Behind beginnings that agree the first different character decides, unless two numbers meet there: a letter of
      either case precedes a later letter of either case, and all others have their places by their codes. */
  lemma FirstCharacterDecides(atoi: Reader, p: string, q: string, s: string, t: string, x: char, y: char)
    requires Reads(atoi, INT_LIMIT) && Readable(p + s, INT_LIMIT) && Readable(q + t, INT_LIMIT)
    requires Agree(p, q) && Cuts(p, s) && Cuts(q, t) && s != "" && t != "" && !(s[0] in DIGITS && t[0] in DIGITS)
    requires CountsAs(s[0], x) && CountsAs(t[0], y) && x < y
    ensures Compared(atoi, p + s, q + t) < 0 < Compared(atoi, q + t, p + s)
  {
    hide *;
    CharactersDiffer(s, t, x, y);
    Behind(atoi, p, q, s, t);
  }

  lemma CharactersDiffer(s: string, t: string, x: char, y: char)
    requires s != "" && t != "" && !(s[0] in DIGITS && t[0] in DIGITS)
    requires CountsAs(s[0], x) && CountsAs(t[0], y) && x < y
    ensures CompareTokens(Tokens(s), Tokens(t)) < 0 < CompareTokens(Tokens(t), Tokens(s))
  {
    hide Tokens, CountsAs, Value, RunLength;
    DigitsAre(s[0]);
    DigitsAre(t[0]);
    LowerIs(s[0], x);
    LowerIs(t[0], y);
    FirstToken(s);
    FirstToken(t);
  }

  /** What follows beginnings that agree decides alone. */
  lemma Behind(atoi: Reader, p: string, q: string, s: string, t: string)
    requires Reads(atoi, INT_LIMIT) && Readable(p + s, INT_LIMIT) && Readable(q + t, INT_LIMIT)
    requires Agree(p, q) && Cuts(p, s) && Cuts(q, t)
    ensures Sign(Compared(atoi, p + s, q + t)) == Sign(CompareTokens(Tokens(s), Tokens(t)))
    ensures Sign(Compared(atoi, q + t, p + s)) == Sign(CompareTokens(Tokens(t), Tokens(s)))
    ensures forall n :: (Sign(n) < 0 <==> n < 0) && (Sign(n) > 0 <==> n > 0)
  {
    hide Tokens, Readable, Reads, Agree, Cuts, Compared, CompareTokens;
    AgreeIff(p, q);
    TokensCut(p, s);
    TokensCut(q, t);
    SameFront(Tokens(p), Tokens(s), Tokens(t));
    SameFront(Tokens(p), Tokens(t), Tokens(s));
    SmallNamesAgree(atoi, Text(p + s), Text(q + t));
    SmallNamesAgree(atoi, Text(q + t), Text(p + s));
  }

  /** So do runs of digits, by their values. */
  lemma FirstNumberDecides(atoi: Reader, p: string, s: string, q: string, t: string, j: nat, k: nat)
    requires Reads(atoi, INT_LIMIT) && Readable(p + s, INT_LIMIT) && Readable(q + t, INT_LIMIT)
    requires Agree(p, q) && Cuts(p, s) && Cuts(q, t) && LeadingRun(s, j) && LeadingRun(t, k)
    requires AllDigits(s[..j]) && AllDigits(t[..k]) && Value(s[..j]) < Value(t[..k])
    ensures Compared(atoi, p + s, q + t) < 0 < Compared(atoi, q + t, p + s)
  {
    RunIsLeading(s, j);
    RunIsLeading(t, k);
    TokensFront(s);
    TokensFront(t);
    hide Tokens, Readable, Reads, Agree, LeadingRun, Compared, Cuts;
    Behind(atoi, p, q, s, t);
  }

  /** And where one of them has come to its end it comes first. */
  lemma ShorterNameFirst(atoi: Reader, p: string, q: string, t: string)
    requires Reads(atoi, INT_LIMIT) && Readable(p, INT_LIMIT) && Readable(q + t, INT_LIMIT)
    requires Agree(p, q) && Cuts(q, t) && t != ""
    ensures Compared(atoi, p, q + t) < 0 < Compared(atoi, q + t, p)
  {
    NoTokens();
    FirstToken(t);
    hide Tokens, Readable, Reads, Agree, Compared;
    assert p + "" == p;
    Behind(atoi, p, q, "", t);
  }

  // ----- sorting names

  /** A name; null pointers come first. */
  datatype Name = Null | Text(s: string)

  /** `strsmartcmp` as a function. */
  function Smartly(atoi: Reader, x: Name, y: Name): int {
    match (x, y)
    case (Null, Null) => 0
    case (Null, Text(_)) => -1
    case (Text(_), Null) => 1
    case (Text(a), Text(b)) => Compared(atoi, a, b)
  }

  /** `strsmartcmp` itself. */
  method StrSmartCmp(atoi: Reader, x: Name, y: Name) returns (r: int)
    ensures r == Smartly(atoi, x, y)
  {
    if x.Null? && y.Text? {
      return -1;
    }
    if x.Text? && y.Null? {
      return 1;
    }
    if x.Null? && y.Null? {
      return 0;
    }
    r := CompareText(atoi, x.s, y.s);
  }

  /** Names in the order of their token lists. */
  function Smart(x: Name, y: Name): int {
    match (x, y)
    case (Null, Null) => 0
    case (Null, Text(_)) => -1
    case (Text(_), Null) => 1
    case (Text(a), Text(b)) => CompareTokens(Tokens(a), Tokens(b))
  }

  /** Names whose numbers every `atoi` reads. */
  type SmallName = x: Name | x.Text? ==> Readable(x.s, INT_LIMIT) witness Null

  lemma SmallNamesAgree(atoi: Reader, x: SmallName, y: SmallName)
    requires Reads(atoi, INT_LIMIT)
    ensures Sign(Smartly(atoi, x, y)) == Sign(Smart(x, y))
  {
    if x.Text? && y.Text? {
      hide Readable, Compared, CompareTokens, Tokens;
      TokensBelow(x.s, INT_LIMIT);
      TokensBelow(y.s, INT_LIMIT);
      NearIfSmall(Tokens(x.s), Tokens(y.s));
      ComparedSign(atoi, INT_LIMIT, x.s, y.s);
    }
  }

  lemma SmartOrder(x: Name, y: Name, z: Name)
    ensures Smart(x, y) >= 0 <==> Smart(y, x) <= 0
    ensures Smart(x, y) <= 0 && Smart(y, z) <= 0 ==> Smart(x, z) <= 0
  {
    hide Tokens, CompareTokens;
    if x.Text? && y.Text? {
      TokensAntisymmetric(Tokens(x.s), Tokens(y.s));
      if z.Text? && Smart(x, y) <= 0 && Smart(y, z) <= 0 {
        TokensProper(x.s);
        TokensProper(y.s);
        TokensProper(z.s);
        TokensTransitive(Tokens(x.s), Tokens(y.s), Tokens(z.s));
      }
    }
  }

  /** `strsmartcmp` as it is handed to the sort. */
  function Comparator(atoi: Reader): (SmallName, SmallName) -> int {
    (x, y) => Smartly(atoi, x, y)
  }

  lemma SmartIsTotalPreorder(atoi: Reader)
    requires Reads(atoi, INT_LIMIT)
    ensures HeapSort.TotalPreorder<SmallName>(Comparator(atoi))
  {
    hide Reads, Smartly, Smart;
    var cmp := Comparator(atoi);
    forall x: SmallName, y: SmallName ensures cmp(x, y) >= 0 <==> cmp(y, x) <= 0 {
      SmallNamesAgree(atoi, x, y);
      SmallNamesAgree(atoi, y, x);
      SmartOrder(x, y, y);
    }
    forall x: SmallName, y: SmallName, z: SmallName | cmp(x, y) <= 0 && cmp(y, z) <= 0 ensures cmp(x, z) <= 0 {
      SmallNamesAgree(atoi, x, y);
      SmallNamesAgree(atoi, y, z);
      SmallNamesAgree(atoi, x, z);
      SmartOrder(x, y, z);
    }
  }

  /** Larger numbers, where `atoi` reads them, go round in a circle: no sort could put these three in order. */
  lemma LargeNamesGoInACircle(atoi: Reader)
    requires Reads(atoi, UINT_LIMIT)
    ensures Smartly(atoi, Text("0"), Text("1500000000")) < 0
    ensures Smartly(atoi, Text("1500000000"), Text("3000000000")) < 0
    ensures Smartly(atoi, Text("3000000000"), Text("0")) < 0
  {
    ZeroRead();
    FifteenRead();
    ThirtyRead();
    hide Value, Compared, Reads, AllDigits;
    TwoNumbers(atoi, "0", "1500000000");
    TwoNumbers(atoi, "1500000000", "3000000000");
    TwoNumbers(atoi, "3000000000", "0");
  }

  lemma ZeroRead()
    ensures AllDigits("0") && Value("0") == 0
  {
    ValueMore("", '0');
    assert "" + ['0'] == "0";
  }

  lemma FifteenRead()
    ensures AllDigits("1500000000") && Value("1500000000") == 1500000000
  {
    ValueMore("", '1');
    ValueMore("1", '5');
    assert "" + ['1'] == "1" && "1" + ['5'] == "15";
    WithZeros("15", "1500000000", 8);
    hide Value;
  }

  lemma ThirtyRead()
    ensures AllDigits("3000000000") && Value("3000000000") == 3000000000
  {
    ValueMore("", '3');
    assert "" + ['3'] == "3";
    WithZeros("3", "3000000000", 9);
    hide Value;
  }

  lemma ValueMore(run: string, c: char)
    requires AllDigits(run) && IsDigit(c)
    ensures AllDigits(run + [c]) && Value(run + [c]) == 10 * Value(run) + DigitValue(c)
  {
    assert (run + [c])[..|run|] == run;
  }

  function Power(k: nat): nat {
    if k == 0 then 1 else 10 * Power(k - 1)
  }

  lemma {:induction false} WithZeros(run: string, long: string, k: nat)
    requires AllDigits(run) && |long| == |run| + k && long[..|run|] == run
    requires forall i :: |run| <= i < |long| ==> long[i] == '0'
    ensures AllDigits(long) && Value(long) == Value(run) * Power(k)
  {
    if k == 0 {
      assert long == run;
    } else {
      var init := long[..|long| - 1];
      WithZeros(run, init, k - 1);
      ValueMore(init, '0');
      assert init + ['0'] == long;
    }
  }

  lemma TwoNumbers(atoi: Reader, a: string, b: string)
    requires Reads(atoi, UINT_LIMIT) && a != "" && b != "" && AllDigits(a) && AllDigits(b) && |a| < BUFSIZ &&
             |b| < BUFSIZ
    requires Value(a) < UINT_LIMIT && Value(b) < UINT_LIMIT && Value(a) != Value(b)
    ensures Compared(atoi, a, b) == UnsignedDifference(Value(a), Value(b))
  {
    RunIs(a, |a|);
    RunIs(b, |b|);
    assert a[..|a|] == a && b[..|b|] == b;
    DifferenceSign(Value(a), Value(b));
  }

  /** `list_sort` where it uses `hsort`, comparing with `strsmartcmp`: the names come out in the order of their
      token lists. */
  method SortNames(a: array<SmallName>, atoi: Reader)
    requires Reads(atoi, INT_LIMIT)
    modifies a
    ensures forall i, j :: 0 <= i < j < a.Length ==> Smartly(atoi, a[i], a[j]) <= 0 && Smart(a[i], a[j]) <= 0
    ensures forall i, j :: 0 <= i < j < a.Length && a[j].Null? ==> a[i].Null?
    ensures multiset(a[..]) == old(multiset(a[..]))
  {
    SmartIsTotalPreorder(atoi);
    hide Reads, Smart, Smartly;
    ghost var calls := HeapSort.Sort(a, Comparator(atoi));
    forall i, j | 0 <= i < j < a.Length ensures Smartly(atoi, a[i], a[j]) <= 0 && Smart(a[i], a[j]) <= 0 {
      assert Comparator(atoi)(a[i], a[j]) <= 0;
      SmallNamesAgree(atoi, a[i], a[j]);
    }
    forall i, j | 0 <= i < j < a.Length && a[j].Null? ensures a[i].Null? {
      NullsFirst(atoi, a[i], a[j]);
    }
  }

  /** Null pointers are equal, and come before all names. */
  lemma NullsFirst(atoi: Reader, x: Name, y: Name)
    ensures x.Null? ==> Smartly(atoi, x, y) <= 0 <= Smartly(atoi, y, x)
    ensures x.Null? && Smartly(atoi, y, x) <= 0 ==> y.Null?
    ensures y.Null? && Smartly(atoi, x, y) <= 0 ==> x.Null?
  {
  }
}
