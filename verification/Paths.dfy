/** What a path means: its components, resolved against a stack. */
module Paths {

  const SEP := '/'
  const NUL := '\0'

  /** The pieces of a path one character longer. */
  function Lengthen(r: seq<string>, ch: char): (r': seq<string>)
    requires |r| >= 1
    ensures |r'| >= 1
  {
    if ch == SEP then r + [""] else r[..|r| - 1] + [r[|r| - 1] + [ch]]
  }

  /** The pieces between separators; there is always at least one. */
  function Split(s: string): (r: seq<string>)
    ensures |r| >= 1
  {
    if s == "" then [""] else Lengthen(Split(s[..|s| - 1]), s[|s| - 1])
  }

  /** One component on top of the directories so far. */
  function Enter(stack: seq<string>, c: string): seq<string> {
    if c == "" || c == "." then stack
    else if c == ".." then if stack == [] then [] else stack[..|stack| - 1]
    else stack + [c]
  }

  function Resolve(stack: seq<string>, cs: seq<string>): seq<string> {
    if cs == [] then stack else Enter(Resolve(stack, cs[..|cs| - 1]), cs[|cs| - 1])
  }

  /** The directories a path goes through, from the root. */
  function Stack(s: string): seq<string> {
    Resolve([], Split(s))
  }

  function Join(stack: seq<string>): string {
    if stack == [] then "" else Join(stack[..|stack| - 1]) + [SEP] + stack[|stack| - 1]
  }

  function Render(stack: seq<string>): string {
    if stack == [] then [SEP] else Join(stack)
  }

  /** The component-stack normaliser. */
  function Normalise(s: string): string {
    Render(Stack(s))
  }

  ghost predicate Proper(c: string) {
    c != "" && c != "." && c != ".." && SEP !in c
  }

  // ----- splitting and resolving

  lemma SplitOneMore(z: string, ch: char)
    ensures Split(z + [ch]) == if ch == SEP then Split(z) + [""] else Lengthen(Split(z), ch)
  {
    assert (z + [ch])[..|z|] == z;
  }

  lemma SplitNothing()
    ensures Split("") == [""]
  {
  }

  lemma {:induction false} SplitAtSep(x: string, y: string)
    ensures Split(x + [SEP] + y) == Split(x) + Split(y)
  {
    hide Split, Lengthen;
    if y == "" {
      SplitNothing();
      SplitOneMore(x, SEP);
      assert x + [SEP] + y == x + [SEP];
    } else {
      var y', ch := y[..|y| - 1], y[|y| - 1];
      SplitAtSep(x, y');
      LengthenLast(Split(x), Split(y'), ch);
      SplitOneMore(y', ch);
      SplitOneMore(x + [SEP] + y', ch);
      assert y' + [ch] == y && x + [SEP] + y' + [ch] == x + [SEP] + y;
    }
  }

  lemma LengthenLast(a: seq<string>, b: seq<string>, ch: char)
    requires |b| >= 1
    ensures Lengthen(a + b, ch) == a + Lengthen(b, ch)
  {
  }

  lemma {:induction false} SplitNoSep(c: string)
    requires SEP !in c
    ensures Split(c) == [c]
  {
    if c != "" {
      SplitNoSep(c[..|c| - 1]);
      assert c[..|c| - 1] + [c[|c| - 1]] == c;
    }
  }

  lemma {:induction false} ResolveMore(stack: seq<string>, a: seq<string>, b: seq<string>)
    ensures Resolve(stack, a + b) == Resolve(Resolve(stack, a), b)
  {
    if b == [] {
      assert a + b == a;
    } else {
      ResolveMore(stack, a, b[..|b| - 1]);
      assert (a + b)[..|a + b| - 1] == a + b[..|b| - 1];
    }
  }

  lemma StackAtSep(x: string, y: string)
    ensures Stack(x + [SEP] + y) == Resolve(Stack(x), Split(y))
  {
    SplitAtSep(x, y);
    ResolveMore([], Split(x), Split(y));
  }

  /** One more component at the end. */
  lemma StackOne(x: string, c: string)
    requires SEP !in c
    ensures Stack(x + [SEP] + c) == Enter(Stack(x), c)
  {
    StackAtSep(x, c);
    SplitNoSep(c);
    assert [c][..0] == [];
    assert Resolve(Stack(x), [c]) == Enter(Resolve(Stack(x), []), c);
  }

  lemma StackEmpty()
    ensures Stack("") == [] && Stack([SEP]) == []
  {
    assert Split("") == [""];
    assert [""][..0] == [];
    StackOne("", "");
    assert "" + [SEP] + "" == [SEP];
  }

  /** Paths that have come to the same directory stay together, whatever follows. */
  lemma SameStack(x: string, x': string, y: string)
    requires Stack(x) == Stack(x')
    ensures Stack(x + [SEP] + y) == Stack(x' + [SEP] + y)
  {
    StackAtSep(x, y);
    StackAtSep(x', y);
  }

  // ----- normal forms

  lemma {:induction false} StackProper(cs: seq<string>)
    requires forall c :: c in cs ==> SEP !in c
    ensures forall c :: c in Resolve([], cs) ==> Proper(c)
  {
    if cs != [] {
      StackProper(cs[..|cs| - 1]);
    }
  }

  lemma {:induction false} SplitHasNoSep(s: string)
    ensures forall c :: c in Split(s) ==> SEP !in c
  {
    if s != "" {
      SplitHasNoSep(s[..|s| - 1]);
    }
  }

  lemma {:induction false} StackJoin(stack: seq<string>)
    requires forall c :: c in stack ==> Proper(c)
    ensures Stack(Join(stack)) == stack
  {
    if stack == [] {
      StackEmpty();
    } else {
      var init, c := stack[..|stack| - 1], stack[|stack| - 1];
      StackJoin(init);
      assert Proper(c);
      StackOne(Join(init), c);
      assert init + [c] == stack;
    }
  }

  /** A normalised path leads where the path led. */
  lemma NormaliseKeepsMeaning(s: string)
    ensures Stack(Normalise(s)) == Stack(s)
  {
    SplitHasNoSep(s);
    StackProper(Split(s));
    StackJoin(Stack(s));
    StackEmpty();
  }

  /** Normalising twice is normalising once. */
  lemma NormaliseTwice(s: string)
    ensures Normalise(Normalise(s)) == Normalise(s)
  {
    NormaliseKeepsMeaning(s);
  }
}
