/** The in-place clean-up of an absolute path in a C string buffer. */
module AbsolutePath {
  import opened Options
  import opened Memory
  import opened Paths

  /** The character at `k`, the terminator being part of the string. */
  function At(t: string, k: nat): char {
    if k < |t| then t[k] else NUL
  }

  predicate Ends(ch: char) {
    ch == SEP || ch == NUL
  }

  predicate Dot(t: string, i: nat) {
    At(t, i) == '.' && Ends(At(t, i + 1))
  }

  predicate DotDot(t: string, i: nat) {
    At(t, i) == '.' && At(t, i + 1) == '.' && Ends(At(t, i + 2))
  }

  /** Nothing to clean up right after the separator at `i`. */
  predicate CleanAt(t: string, i: nat) {
    At(t, i + 1) != SEP && !Dot(t, i + 1) && !DotDot(t, i + 1)
  }

  /** Nothing to clean up before `p`. */
  ghost predicate CleanBefore(t: string, p: nat) {
    forall i :: 0 <= i < p && i < |t| && t[i] == SEP ==> CleanAt(t, i)
  }

  /** The separator that starts the component before the one that starts at `p`. */
  function Parent(t: string, p: nat): (q: nat)
    requires p < |t|
    ensures q <= p
    ensures q < p ==> t[q] == SEP
    ensures forall i :: (if q < p then q + 1 else 0) <= i < p ==> t[i] != SEP
  {
    ParentFrom(t, p, p)
  }

  function ParentFrom(t: string, p: nat, scan: nat): (q: nat)
    requires scan <= p < |t| && forall i :: scan <= i < p ==> t[i] != SEP
    ensures q <= p
    ensures q < p ==> t[q] == SEP
    ensures forall i :: (if q < p then q + 1 else 0) <= i < p ==> t[i] != SEP
  {
    if scan == 0 then p else if t[scan - 1] == SEP then scan - 1 else ParentFrom(t, p, scan - 1)
  }

  /** The separator is kept only when the whole path would go. */
  function Keep(at: nat, next: char): nat {
    if at == 0 && next == NUL then 1 else 0
  }

  /** One round of the clean-up loop at cursor `p`: the new string and the new cursor. */
  function Round(t: string, p: nat): (string, nat)
    requires p < |t|
  {
    if t[p] != SEP then (t, p + 1)
    else if At(t, p + 1) == SEP then (t[..p] + t[p + 1..], p)
    else if Dot(t, p + 1) then (t[..p + Keep(p, At(t, p + 2))] + t[p + 2..], p)
    else if DotDot(t, p + 1) then
      var q := Parent(t, p);
      (t[..q + Keep(q, At(t, p + 3))] + t[p + 3..], q)
    else (t, p + 1)
  }

  /** `t` is what is left of a path with this stack, cleaned up to `p`. */
  ghost predicate Cleaning(t: string, p: nat, stack: seq<string>) {
    && t != "" && t[0] == SEP && NUL !in t && p <= |t|
    && CleanBefore(t, p)
    && Stack(t) == stack
  }

  // ----- a round keeps the meaning

  lemma StackDoubleSep(x: string, y: string)
    ensures Stack(x + [SEP] + [SEP] + y) == Stack(x + [SEP] + y)
  {
    StackOne(x, "");
    assert x + [SEP] + "" == x + [SEP];
    SameStack(x + [SEP], x, y);
  }

  /** Cutting off a component that changes nothing, with what follows it. */
  lemma StackCut(x: string, c: string, y: string, x': string)
    requires SEP !in c && Enter(Stack(x), c) == Stack(x') && (y == "" || y[0] == SEP)
    ensures Stack(x + [SEP] + c + y) == Stack(x' + y)
  {
    StackOne(x, c);
    if y == "" {
      assert x + [SEP] + c + y == x + [SEP] + c && x' + y == x';
    } else {
      var z := y[1..];
      SameStack(x + [SEP] + c, x', z);
      assert x + [SEP] + c + y == (x + [SEP] + c) + [SEP] + z && x' + y == x' + [SEP] + z;
    }
  }

  lemma CleanComponent(t: string, q: nat, p: nat)
    requires q < p < |t| && t[q] == SEP && t[p] == SEP && CleanAt(t, q) && NUL !in t
    requires forall i :: q < i < p ==> t[i] != SEP
    ensures Proper(t[q + 1..p])
  {
    var c := t[q + 1..p];
    assert forall i :: 0 <= i < |c| ==> c[i] == t[q + 1 + i];
    assert At(t, q + 1) != SEP;
  }

  lemma RoundDot(t: string, p: nat, stack: seq<string>)
    requires Cleaning(t, p, stack) && p < |t| && t[p] == SEP && Dot(t, p + 1)
    ensures Stack(Round(t, p).0) == stack
  {
    var x, y := t[..p], t[p + 2..];
    assert t == x + [SEP] + "." + y;
    StackCut(x, ".", y, x);
    if p == 0 && y == "" {
      StackEmpty();
      assert Round(t, p).0 == [SEP];
    } else {
      assert Round(t, p).0 == x + y;
    }
  }

  /** A directory and the way back out of it. */
  lemma InAndOut(x: string, c: string)
    requires Proper(c)
    ensures Enter(Stack(x + [SEP] + c), "..") == Stack(x)
  {
    StackOne(x, c);
  }

  lemma RoundDotDot(t: string, p: nat, stack: seq<string>)
    requires Cleaning(t, p, stack) && p < |t| && t[p] == SEP && At(t, p + 1) != SEP && !Dot(t, p + 1) &&
             DotDot(t, p + 1)
    ensures Stack(Round(t, p).0) == stack
  {
    hide Stack, Enter;
    var q := Parent(t, p);
    var x, y := t[..q], t[p + 3..];
    assert t == t[..p] + [SEP] + ".." + y;
    if q == p {
      RootDotDot();
      StackCut(t[..p], "..", y, x);
    } else {
      var c := t[q + 1..p];
      assert CleanAt(t, q);
      CleanComponent(t, q, p);
      assert t[..p] == x + [SEP] + c;
      InAndOut(x, c);
      StackCut(t[..p], "..", y, x);
    }
    if q == 0 && y == "" {
      RootDotDot();
      assert Round(t, p).0 == [SEP] && x + y == "";
    } else {
      assert Round(t, p).0 == x + y;
    }
  }

  lemma RootDotDot()
    ensures Stack("") == [] && Stack([SEP]) == [] && Enter([], "..") == []
  {
    StackEmpty();
  }

  /** Removing text from `q` on keeps what is before `q` clean, if a separator or the end takes the place of a
      separator. */
  lemma CutKeepsClean(t: string, q: nat, u: string)
    requires q < |t| && t[q] == SEP && CleanBefore(t, q)
    requires q <= |u| && u[..q] == t[..q] && Ends(At(u, q)) && NUL !in t
    ensures CleanBefore(u, q)
  {
    forall i | 0 <= i < q && u[i] == SEP ensures CleanAt(u, i) {
      assert u[i] == u[..q][i] == t[i];
      assert CleanAt(t, i);
      assert forall k :: 0 <= k < q ==> u[k] == u[..q][k] == t[k];
    }
  }

  lemma NoDoubleSep(t: string, q: nat)
    requires CleanBefore(t, |t|) && 0 < q < |t| && t[q] == SEP
    ensures t[q - 1] != SEP
  {
  }

  lemma RoundSep(t: string, p: nat, stack: seq<string>)
    requires Cleaning(t, p, stack) && p < |t| && t[p] == SEP && At(t, p + 1) == SEP
    ensures Stack(Round(t, p).0) == stack
  {
    hide Stack;
    var x, y := t[..p], t[p + 2..];
    assert t == x + [SEP] + [SEP] + y && Round(t, p).0 == x + [SEP] + y;
    StackDoubleSep(x, y);
  }

  /** A round that cuts something out keeps the text before the cut, and a separator or the end follows it. */
  lemma RoundShape(t: string, p: nat)
    requires t != "" && t[0] == SEP && p < |t| && NUL !in t
    ensures var (u, q) := Round(t, p);
            && u != "" && u[0] == SEP && NUL !in u && q <= |u| && |u| - q < |t| - p
            && ((u == t && q == p + 1 && (t[p] == SEP ==> CleanAt(t, p))) ||
                (q <= p && t[q] == SEP && u[..q] == t[..q] && Ends(At(u, q))))
  {
  }

  /** Every round keeps the meaning of the path, the text to the left of the cursor clean, and shortens what is
      right of it. */
  lemma RoundKeeps(t: string, p: nat, stack: seq<string>)
    requires Cleaning(t, p, stack) && p < |t|
    ensures var (u, q) := Round(t, p);
            Cleaning(u, q, stack) && |u| - q < |t| - p
  {
    if t[p] == SEP && At(t, p + 1) == SEP {
      RoundSep(t, p, stack);
    } else if t[p] == SEP && Dot(t, p + 1) {
      RoundDot(t, p, stack);
    } else if t[p] == SEP && DotDot(t, p + 1) {
      RoundDotDot(t, p, stack);
    }
    RoundShape(t, p);
    hide Stack, Round, CleanAt;
    var (u, q) := Round(t, p);
    if q <= p {
      CutKeepsClean(t, q, u);
    }
  }

  // ----- clean paths are normal

  /** A path clean throughout, not ending in a separator, is its own normal form. */
  lemma {:induction false} CleanIsNormal(t: string)
    requires t != "" && t[0] == SEP && t[|t| - 1] != SEP && NUL !in t && CleanBefore(t, |t|)
    ensures Join(Stack(t)) == t
    decreases |t|
  {
    hide Stack, Enter, Join;
    var q := LastSep(t, |t|);
    var x, c := t[..q], t[q + 1..];
    assert t == x + [SEP] + c;
    LastComponent(t, q);
    JoinOne(x, c);
    if x == "" {
      JoinRoot();
    } else {
      NoDoubleSep(t, q);
      CutKeepsClean(t, q, x);
      CleanIsNormal(x);
    }
  }

  lemma LastComponent(t: string, q: nat)
    requires q < |t| && t[q] == SEP && t[|t| - 1] != SEP && NUL !in t && CleanBefore(t, |t|)
    requires forall i :: q < i < |t| ==> t[i] != SEP
    ensures Proper(t[q + 1..])
  {
    var c := t[q + 1..];
    assert CleanAt(t, q);
    assert forall i :: 0 <= i < |c| ==> c[i] == t[q + 1 + i];
  }

  lemma JoinOne(x: string, c: string)
    requires Proper(c)
    ensures Join(Stack(x + [SEP] + c)) == Join(Stack(x)) + [SEP] + c
  {
    StackOne(x, c);
    assert (Stack(x) + [c])[..|Stack(x)|] == Stack(x);
  }

  lemma JoinRoot()
    ensures Join(Stack("")) == ""
  {
    StackEmpty();
  }

  lemma {:induction false} LastSep(t: string, n: nat) returns (q: nat)
    requires t != "" && t[0] == SEP && 0 < n <= |t|
    ensures q < n && t[q] == SEP && forall i :: q < i < n ==> t[i] != SEP
  {
    if t[n - 1] == SEP {
      q := n - 1;
    } else {
      q := LastSep(t, n - 1);
    }
  }

  function Stripped(t: string): string {
    if |t| > 1 && t[|t| - 1] == SEP then Stripped(t[..|t| - 1]) else t
  }

  /** What the clean-up loop leaves is normal once trailing separators are gone. */
  lemma CleanedIsNormal(t: string, stack: seq<string>)
    requires Cleaning(t, |t|, stack)
    ensures Stripped(t) == Render(stack)
  {
    hide Stack, Enter, Join;
    if t == [SEP] {
      RootDotDot();
    } else if t[|t| - 1] == SEP {
      var x := t[..|t| - 1];
      assert CleanAt(t, |t| - 1);
      NoDoubleSep(t, |x|);
      CutKeepsClean(t, |x|, x);
      CleanIsNormal(x);
      TrailingSep(x);
      assert x + [SEP] == t;
      NotRoot(x);
      assert Stripped(x) == x;
    } else {
      CleanIsNormal(t);
      NotRoot(t);
    }
  }

  lemma TrailingSep(x: string)
    ensures Stack(x + [SEP]) == Stack(x)
  {
    StackOne(x, "");
    assert x + [SEP] + "" == x + [SEP];
  }

  lemma NotRoot(x: string)
    requires Join(Stack(x)) == x && x != ""
    ensures Render(Stack(x)) == x
  {
  }

  /** Canonical: separators only in front of proper components, and none at the end but in the root. */
  ghost predicate Canonical(t: string) {
    t != "" && t[0] == SEP && CleanBefore(t, |t|) && (t == [SEP] || t[|t| - 1] != SEP)
  }

  lemma AppendClean(x: string, c: string)
    requires CleanBefore(x, |x|) && (x != "" ==> x[|x| - 1] != SEP) && Proper(c) && NUL !in c
    ensures CleanBefore(x + [SEP] + c, |x| + 1 + |c|)
  {
    var t := x + [SEP] + c;
    assert forall k :: 0 <= k < |c| ==> t[|x| + 1 + k] == c[k];
    assert forall k :: 0 <= k < |x| ==> t[k] == x[k];
    forall i | 0 <= i < |t| && t[i] == SEP ensures CleanAt(t, i) {
      if i < |x| {
        assert x[i] == SEP && CleanAt(x, i) && i < |x| - 1;
      } else {
        assert i == |x|;
        ProperIsClean(t, c, i);
      }
    }
  }

  lemma ProperIsClean(t: string, c: string, i: nat)
    requires i < |t| && t[i + 1..] == c && Proper(c) && NUL !in c
    ensures CleanAt(t, i)
  {
    assert forall k :: 0 <= k < |c| ==> t[i + 1 + k] == c[k];
    assert |c| == 1 && c[0] == '.' ==> c == ".";
    assert |c| == 2 && c[0] == '.' && c[1] == '.' ==> c == "..";
    assert At(t, i + 1 + |c|) == NUL;
  }

  lemma {:induction false} JoinClean(stack: seq<string>)
    requires forall c :: c in stack ==> Proper(c) && NUL !in c
    ensures var t := Join(stack);
            && CleanBefore(t, |t|)
            && (stack != [] ==> t != "" && t[0] == SEP && t[|t| - 1] != SEP)
  {
    if stack != [] {
      var init, c := stack[..|stack| - 1], stack[|stack| - 1];
      JoinClean(init);
      AppendClean(Join(init), c);
      assert c[|c| - 1] != SEP;
    }
  }

  lemma {:induction false} StackHasNoNul(cs: seq<string>)
    requires forall c :: c in cs ==> NUL !in c
    ensures forall c :: c in Resolve([], cs) ==> NUL !in c
  {
    if cs != [] {
      StackHasNoNul(cs[..|cs| - 1]);
    }
  }

  lemma {:induction false} SplitHasNoNul(s: string)
    requires NUL !in s
    ensures forall c :: c in Split(s) ==> NUL !in c
  {
    if s != "" {
      SplitHasNoNul(s[..|s| - 1]);
    }
  }

  /** Normalised paths are canonical, and the canonical paths are exactly those that normalising leaves alone. */
  lemma CanonicalIsFixed(t: string)
    requires NUL !in t
    ensures Canonical(Normalise(t))
    ensures Canonical(t) <==> Normalise(t) == t
  {
    SplitHasNoSep(t);
    StackProper(Split(t));
    SplitHasNoNul(t);
    StackHasNoNul(Split(t));
    JoinClean(Stack(t));
    if Canonical(t) {
      if t == [SEP] {
        StackEmpty();
      } else {
        CleanIsNormal(t);
      }
    }
  }

  // ----- the buffer

  /** `buf` holds the C string `t`. */
  ghost predicate HoldsString(buf: array<char>, t: string)
    reads buf
  {
    |t| < buf.Length && buf[..|t|] == t && buf[|t|] == NUL && NUL !in t
  }

  /** Moves the end of the string, with its terminator, from `src` to `dst`. */
  method MoveTail(buf: array<char>, dst: nat, src: nat, len: nat, ghost t: string)
    requires HoldsString(buf, t) && dst <= src <= |t| == len
    modifies buf
    ensures HoldsString(buf, t[..dst] + t[src..])
  {
    MemMove(buf, dst, src, len + 1 - src);
    ghost var u := t[..dst] + t[src..];
    forall i | 0 <= i <= |u| ensures buf[i] == if i < |u| then u[i] else NUL {
      assert buf[i] == buf[..][i];
      assert i < dst ==> old(buf[..dst])[i] == old(buf[..|t|])[i];
      assert i >= dst ==> old(buf[src..src + (len + 1 - src)])[i - dst] == old(buf[src + i - dst]);
      assert i >= dst && src + i - dst < |t| ==> old(buf[src + i - dst]) == old(buf[..|t|])[src + i - dst];
    }
  }

  lemma CharAt(buf: array<char>, t: string, k: nat)
    requires HoldsString(buf, t) && k <= |t|
    ensures buf[k] == At(t, k) && (buf[k] == NUL <==> k == |t|)
  {
    assert k < |t| ==> buf[k] == buf[..|t|][k];
  }

  /** The position of the separator before `p`, found by walking back. */
  method FindParent(buf: array<char>, p: nat, ghost t: string) returns (parent: nat)
    requires HoldsString(buf, t) && p < |t|
    ensures parent == Parent(t, p)
  {
    var scan: nat := p;
    parent := p;
    while scan > 0
      invariant scan <= p && parent == p
      invariant forall i :: scan <= i < p ==> t[i] != SEP
      invariant Parent(t, p) == ParentFrom(t, p, scan)
    {
      scan := scan - 1;
      CharAt(buf, t, scan);
      if buf[scan] == SEP {
        parent := scan;
        break;
      }
    }
  }

  /** One round of the clean-up loop, on the buffer: edits the string and moves the cursor. */
  method RoundInPlace(buf: array<char>, pathLen: nat, cursor: nat, ghost t: string) returns (newLen: nat, p: nat)
    requires HoldsString(buf, t) && cursor < |t| && t[0] == SEP
    requires pathLen == |t| || (pathLen == 0 && t == [SEP])
    modifies buf
    ensures HoldsString(buf, Round(t, cursor).0) && p == Round(t, cursor).1
    ensures var u := Round(t, cursor).0; newLen == |u| || (newLen == 0 && u == [SEP])
  {
    newLen, p := pathLen, cursor;
    CharAt(buf, t, p);
    CharAt(buf, t, p + 1);
    if buf[p] == SEP {
      if buf[p + 1] == SEP {
        MoveTail(buf, p, p + 1, pathLen, t);
        return pathLen - 1, p;
      } else if buf[p + 1] == '.' {
        CharAt(buf, t, p + 2);
        if buf[p + 2] == SEP || buf[p + 2] == NUL {
          var keepSep := if p == 0 && buf[p + 2] == NUL then 1 else 0;
          MoveTail(buf, p + keepSep, p + 2, pathLen, t);
          return pathLen - (2 - keepSep), p;
        } else if buf[p + 2] == '.' {
          CharAt(buf, t, p + 3);
          if buf[p + 3] == SEP || buf[p + 3] == NUL {
            var parent := FindParent(buf, p, t);
            var keepSep := if parent == 0 && buf[p + 3] == NUL then 1 else 0;
            MoveTail(buf, parent + keepSep, p + 3, pathLen, t);
            return pathLen - (p + 3 - parent), parent;
          }
        }
      }
    }
    p := p + 1;
  }

  /** Cleans up an absolute path in place. */
  method CleanUp(buf: array<char>, len: nat, ghost t0: string)
    requires HoldsString(buf, t0) && t0 != "" && t0[0] == SEP && len == |t0|
    modifies buf
    ensures HoldsString(buf, Normalise(t0))
  {
    hide Round, Stack, Render, CleanBefore, Stripped;
    ghost var t := t0;
    var pathLen: nat, p: nat := len, 0;
    StartCleaning(t0);
    CharAt(buf, t, 0);
    while buf[p] != NUL
      invariant HoldsString(buf, t) && Cleaning(t, p, Stack(t0))
      invariant pathLen == |t| || (pathLen == 0 && t == [SEP])
      invariant buf[p] == NUL <==> p == |t|
      decreases |t| - p
    {
      RoundKeeps(t, p, Stack(t0));
      ghost var (u, q) := Round(t, p);
      pathLen, p := RoundInPlace(buf, pathLen, p, t);
      t := u;
      CharAt(buf, t, p);
    }
    CleanedIsNormal(t, Stack(t0));
    StripOnce(t);
    while pathLen > 1 && buf[pathLen - 1] == SEP
      invariant HoldsString(buf, t) && t != "" && Stripped(t) == Normalise(t0)
      invariant pathLen == |t| || (pathLen == 0 && t == [SEP])
    {
      StripOnce(t);
      CharAt(buf, t, pathLen - 1);
      pathLen := pathLen - 1;
      buf[pathLen] := NUL;
      t := t[..pathLen];
    }
    StripOnce(t);
    if pathLen > 1 {
      CharAt(buf, t, pathLen - 1);
    }
  }

  lemma StripOnce(t: string)
    ensures Stripped(t) == if |t| > 1 && t[|t| - 1] == SEP then Stripped(t[..|t| - 1]) else t
  {
  }

  lemma StartCleaning(t: string)
    requires t != "" && t[0] == SEP && NUL !in t
    ensures Cleaning(t, 0, Stack(t))
  {
  }

  // ----- daemon_absolute_path

  datatype Outcome = Absolute(path: string) | NameTooLong | NoWorkingDirectory

  /** `path` made absolute against the working directory, as long as the two fit into a path. */
  function Anchor(path: string, cwd: Option<string>, limit: nat): Outcome {
    if path != "" && path[0] == SEP then Absolute(path)
    else if cwd.None? then NoWorkingDirectory
    else if |cwd.value| + 1 + |path| >= limit then NameTooLong
    else Absolute(cwd.value + [SEP] + path)
  }

  /** To where the components of `path` lead from `dir`. */
  predicate LeadsOn(r: Outcome, dir: string, path: string) {
    && r.Absolute? && Stack(r.path) == Resolve(Stack(dir), Split(path)) && Stack(Normalise(r.path)) == Stack(r.path)
  }

  /** An absolute path stands for itself, and a relative one leads from the working directory to where its
      components lead. It has to fit into a path together with that. */
  lemma AnchorLeads(path: string, cwd: Option<string>, limit: nat)
    ensures path != "" && path[0] == SEP ==> Anchor(path, cwd, limit) == Absolute(path)
    ensures path == "" || path[0] != SEP ==>
              (if cwd.None? then Anchor(path, cwd, limit) == NoWorkingDirectory
               else if |cwd.value| + |path| + 1 >= limit then Anchor(path, cwd, limit) == NameTooLong
               else LeadsOn(Anchor(path, cwd, limit), cwd.value, path))
  {
    if cwd.Some? {
      StackAtSep(cwd.value, path);
      NormaliseKeepsMeaning(cwd.value + [SEP] + path);
    }
  }

  method MakeAbsolute(path: string, cwd: Option<string>, limit: nat) returns (r: Outcome)
    requires NUL !in path && (cwd.Some? ==> cwd.value != "" && cwd.value[0] == SEP && NUL !in cwd.value)
    ensures r == match Anchor(path, cwd, limit)
                 case Absolute(t) => Absolute(Normalise(t))
                 case failure => failure
  {
    hide Normalise;
    var start := Anchor(path, cwd, limit);
    if !start.Absolute? {
      return start;
    }
    var t := start.path;
    var buf := new char[|t| + 1](i requires 0 <= i <= |t| => if i < |t| then t[i] else NUL);
    assert buf[..|t|] == t;
    CleanUp(buf, |t|, t);
    var len := 0;
    while buf[len] != NUL
      invariant len <= |Normalise(t)| && HoldsString(buf, Normalise(t))
      decreases |Normalise(t)| - len
    {
      CharAt(buf, Normalise(t), len);
      len := len + 1;
    }
    CharAt(buf, Normalise(t), len);
    r := Absolute(buf[..len]);
  }
}
