/** Is a file safe from being tampered with by others? Follows symbolic links through a fixed file system. */
module CheckPath {
  import opened Paths
  import opened AbsolutePath
  import opened Options

  datatype Entry = Plain(groupWritable: bool, worldWritable: bool) | Link(target: string)

  /** What `lstat` and `readlink` find under each name. */
  type FileSystem = map<string, Entry>

  const LEVELS := 16

  predicate Absolutely(path: string) {
    path != "" && path[0] == SEP && NUL !in path
  }

  function FinalSep(path: string): (s: nat)
    requires Absolutely(path)
    ensures s < |path| && path[s] == SEP && forall i :: s < i < |path| ==> path[i] != SEP
  {
    if path[|path| - 1] == SEP then |path| - 1 else FinalSep(path[..|path| - 1])
  }

  /** The names looked at for a path: the path itself and all its ancestors up to the root. */
  function Ancestry(path: string): (names: seq<string>)
    requires Absolutely(path)
    ensures forall n :: n in names ==> Absolutely(n)
    decreases |path|
  {
    var s := FinalSep(path);
    [path] + if s == 0 then ["/"] else Ancestry(path[..s])
  }

  /** The path a link leads to: a relative target is joined to the link's own directory. */
  function Joined(name: string, target: string): string {
    if target != "" && target[0] == SEP then target else name + "/../" + target
  }

  function Follow(name: string, target: string): string {
    Normalise(Joined(name, target))
  }

  predicate Fits(name: string, target: string, limit: nat) {
    (target != "" && target[0] == SEP) || |name| + 4 + |target| < limit
  }

  lemma FollowAbsolute(name: string, target: string)
    requires Absolutely(name) && NUL !in target
    ensures Absolutely(Follow(name, target))
  {
    var t := Joined(name, target);
    CanonicalIsFixed(t);
    SplitHasNoNul(t);
    StackHasNoNul(Split(t));
    JoinHasNoNul(Stack(t));
  }

  /** A relative link leads to where its target leads from the link's own directory. */
  lemma FollowRelative(dir: string, c: string, target: string)
    requires Proper(c) && (target == "" || target[0] != SEP)
    ensures Stack(Follow(dir + [SEP] + c, target)) == Stack(dir + [SEP] + target)
  {
    var name := dir + [SEP] + c;
    var up := name + [SEP] + "..";
    InAndOut(dir, c);
    StackOne(name, "..");
    SameStack(up, dir, target);
    assert Joined(name, target) == up + [SEP] + target;
    NormaliseKeepsMeaning(Joined(name, target));
  }

  /** It is followed if the two written together fit into a path. */
  lemma FitsWritten(name: string, target: string, limit: nat)
    requires target == "" || target[0] != SEP
    ensures Fits(name, target, limit) <==> |Joined(name, target)| < limit
  {
  }

  /** An absolute one leads where its target leads. */
  lemma FollowAbsoluteTarget(name: string, target: string)
    requires target != "" && target[0] == SEP
    ensures Stack(Follow(name, target)) == Stack(target)
  {
    NormaliseKeepsMeaning(target);
  }

  /** The names that are checked: the path, what is in front of each separator in it, and the root. */
  lemma {:induction false} AncestryIs(path: string, n: string)
    requires Absolutely(path)
    ensures n in Ancestry(path) <==>
            n == "/" || n == path || exists k :: 0 < k < |path| && path[k] == SEP && n == path[..k]
    decreases |path|
  {
    var s := FinalSep(path);
    if s > 0 {
      var up := path[..s];
      AncestryIs(up, n);
      assert forall k :: 0 < k < s ==> up[k] == path[k] && up[..k] == path[..k];
      if k :| 0 < k < |path| && path[k] == SEP && n == path[..k] {
        assert k == s || (k < s && up[k] == SEP && n == up[..k]);
      }
    } else {
      assert forall k :: 0 < k < |path| ==> path[k] != SEP;
    }
  }

  /** All of them are canonical if the path is, so each but the root is an entry of a directory. */
  lemma EntryOfDirectory(path: string, n: string)
    requires Absolutely(path) && Canonical(path) && n in Ancestry(path) && n != "/"
    ensures Canonical(n)
    ensures var s := FinalSep(n); n == n[..s] + [SEP] + n[s + 1..] && Proper(n[s + 1..])
  {
    hide *;
    AncestryIs(path, n);
    if n != path {
      var k :| 0 < k < |path| && path[k] == SEP && n == path[..k];
      CutIsCanonical(path, k);
    }
    LastEntry(n);
  }

  lemma LastEntry(n: string)
    requires Absolutely(n) && Canonical(n) && n != "/"
    ensures var s := FinalSep(n); n == n[..s] + [SEP] + n[s + 1..] && Proper(n[s + 1..])
  {
    LastComponent(n, FinalSep(n));
  }

  lemma CutIsCanonical(path: string, k: nat)
    requires Absolutely(path) && Canonical(path) && 0 < k < |path| && path[k] == SEP
    ensures Canonical(path[..k])
  {
    var n := path[..k];
    NoDoubleSep(path, k);
    forall i | 0 <= i < k && n[i] == SEP ensures CleanAt(n, i) {
      assert path[i] == SEP && CleanAt(path, i);
      assert forall j :: 0 <= j < k ==> At(n, j) == At(path, j);
    }
  }

  lemma {:induction false} JoinHasNoNul(stack: seq<string>)
    requires forall c :: c in stack ==> NUL !in c
    ensures NUL !in Join(stack)
  {
    if stack != [] {
      JoinHasNoNul(stack[..|stack| - 1]);
    }
  }

  ghost predicate NoNul(fs: FileSystem) {
    forall n :: n in fs && fs[n].Link? ==> NUL !in fs[n].target
  }

  /** The answer for one name: 1 is safe, 0 is unsafe, -1 is an error. */
  ghost function One(fs: FileSystem, name: string, level: nat, limit: nat): int
    requires Absolutely(name) && NoNul(fs) && level <= LEVELS
    decreases LEVELS + 1 - level, 0, 0
  {
    if name !in fs then -1
    else match fs[name]
      case Plain(group, world) => if group || world then 0 else 1
      case Link(target) =>
        if !Fits(name, target, limit) then -1
        else
          FollowAbsolute(name, target);
          Verdict(fs, Follow(name, target), level + 1, limit)
  }

  ghost function All(fs: FileSystem, names: seq<string>, level: nat, limit: nat): int
    requires (forall n :: n in names ==> Absolutely(n)) && NoNul(fs) && level <= LEVELS
    decreases LEVELS + 1 - level, 1, |names|
  {
    if names == [] then 1
    else
      var first := One(fs, names[0], level, limit);
      if first != 1 then first else All(fs, names[1..], level, limit)
  }

  /** What `daemon_check_path` answers, name by name. */
  ghost function Verdict(fs: FileSystem, path: string, level: nat, limit: nat): int
    requires Absolutely(path) && NoNul(fs)
    decreases if level <= LEVELS then LEVELS + 1 - level else 0, 2, 0
  {
    if level > LEVELS then -1 else All(fs, Ancestry(path), level, limit)
  }

  /** `q` is met when checking `path`, after following the links `ls` one into the other. */
  ghost predicate Met(fs: FileSystem, path: string, ls: seq<string>, q: string, limit: nat)
    requires Absolutely(path) && NoNul(fs)
    decreases |ls|
  {
    if ls == [] then q in Ancestry(path)
    else
      && ls[0] in Ancestry(path) && ls[0] in fs && fs[ls[0]].Link?
      && Fits(ls[0], fs[ls[0]].target, limit)
      && (FollowAbsolute(ls[0], fs[ls[0]].target);
          Met(fs, Follow(ls[0], fs[ls[0]].target), ls[1..], q, limit))
  }

  /** Nobody else can write to it; a link is as safe as what it leads to, which is met in its turn. */
  ghost predicate SafeName(fs: FileSystem, q: string, limit: nat) {
    q in fs && match fs[q]
               case Plain(group, world) => !group && !world
               case Link(target) => Fits(q, target, limit)
  }

  /** Everything met from `path` on is safe, and no chain of links goes beyond the last level. */
  ghost predicate AllSafe(fs: FileSystem, path: string, level: nat, limit: nat)
    requires Absolutely(path) && NoNul(fs)
  {
    forall ls, q :: Met(fs, path, ls, q, limit) ==> MetSafely(fs, ls, q, level, limit)
  }

  ghost predicate MetSafely(fs: FileSystem, ls: seq<string>, q: string, level: nat, limit: nat) {
    |ls| + level <= LEVELS && SafeName(fs, q, limit)
  }

  /** Main result: the answer is "safe" exactly when everything met on the way to the root, of the path and of every
      link followed, is there and not writable for others, and no chain of links is longer than 16. */
  lemma {:induction false} SafeIff(fs: FileSystem, path: string, level: nat, limit: nat)
    requires Absolutely(path) && NoNul(fs)
    ensures Verdict(fs, path, level, limit) == 1 <==> AllSafe(fs, path, level, limit)
    decreases if level <= LEVELS then LEVELS + 1 - level else 0
  {
    if level > LEVELS {
      var none: seq<string> := [];
      assert Met(fs, path, none, path, limit) && !MetSafely(fs, none, path, level, limit);
    } else {
      AllIff(fs, Ancestry(path), level, limit);
      if Verdict(fs, path, level, limit) == 1 {
        forall ls, q | Met(fs, path, ls, q, limit) ensures MetSafely(fs, ls, q, level, limit) {
          SafeMet(fs, path, ls, q, level, limit);
        }
      } else {
        var n :| n in Ancestry(path) && One(fs, n, level, limit) != 1;
        UnsafeMet(fs, path, n, level, limit);
      }
    }
  }

  /** Something that others can write to. */
  ghost predicate Writable(fs: FileSystem, q: string) {
    q in fs && fs[q].Plain? && (fs[q].groupWritable || fs[q].worldWritable)
  }

  /** What the original answers -1 for: too many links, nothing there, or a link it cannot follow. */
  ghost predicate Trouble(fs: FileSystem, ls: seq<string>, q: string, level: nat, limit: nat) {
    |ls| + level > LEVELS || q !in fs || (fs[q].Link? && !Fits(q, fs[q].target, limit))
  }

  ghost predicate Reason(fs: FileSystem, ls: seq<string>, q: string, level: nat, limit: nat, answer: int) {
    if answer == 0 then |ls| + level <= LEVELS && Writable(fs, q) else answer == -1 && Trouble(fs, ls, q, level, limit)
  }

  /** There is a reason for the answer among what is met. */
  ghost predicate Explained(fs: FileSystem, path: string, limit: nat, answer: int)
    requires Absolutely(path) && NoNul(fs)
  {
    exists ls, q :: Met(fs, path, ls, q, limit) && Reason(fs, ls, q, 0, limit, answer)
  }

  /** The answers 0 and -1 are both given for something met: the one for what others can write to, the other for
      trouble. */
  lemma {:induction false} WhyNot(fs: FileSystem, path: string, level: nat, limit: nat)
      returns (ls: seq<string>, q: string)
    requires Absolutely(path) && NoNul(fs) && Verdict(fs, path, level, limit) != 1
    ensures Met(fs, path, ls, q, limit) && Reason(fs, ls, q, level, limit, Verdict(fs, path, level, limit))
    decreases if level <= LEVELS then LEVELS + 1 - level else 0
  {
    ls := [];
    if level > LEVELS {
      q := path;
    } else {
      q := FirstBad(fs, Ancestry(path), level, limit);
      if q in fs && fs[q].Link? && Fits(q, fs[q].target, limit) {
        var n, target := q, fs[q].target;
        FollowAbsolute(n, target);
        ls, q := WhyNot(fs, Follow(n, target), level + 1, limit);
        MetThrough(fs, path, n, ls, q, limit);
        ls := [n] + ls;
      }
    }
  }

  lemma {:induction false} FirstBad(fs: FileSystem, names: seq<string>, level: nat, limit: nat) returns (q: string)
    requires (forall n :: n in names ==> Absolutely(n)) && NoNul(fs) && level <= LEVELS
    requires All(fs, names, level, limit) != 1
    ensures q in names && One(fs, q, level, limit) == All(fs, names, level, limit)
    decreases |names|
  {
    if One(fs, names[0], level, limit) != 1 {
      q := names[0];
    } else {
      q := FirstBad(fs, names[1..], level, limit);
    }
  }

  lemma {:induction false} AllIff(fs: FileSystem, names: seq<string>, level: nat, limit: nat)
    requires (forall n :: n in names ==> Absolutely(n)) && NoNul(fs) && level <= LEVELS
    ensures All(fs, names, level, limit) == 1 <==> forall n :: n in names ==> One(fs, n, level, limit) == 1
    decreases |names|
  {
    if names != [] {
      AllIff(fs, names[1..], level, limit);
      assert names == [names[0]] + names[1..];
      assert names[0] in names;
      if One(fs, names[0], level, limit) == 1 && All(fs, names[1..], level, limit) == 1 {
        forall n | n in names ensures One(fs, n, level, limit) == 1 {
          assert n == names[0] || n in names[1..];
        }
      } else if One(fs, names[0], level, limit) == 1 {
        var n :| n in names[1..] && One(fs, n, level, limit) != 1;
        assert n in names;
      }
    }
  }

  lemma SafeMet(fs: FileSystem, path: string, ls: seq<string>, q: string, level: nat, limit: nat)
    requires Absolutely(path) && NoNul(fs) && level <= LEVELS
    requires forall n :: n in Ancestry(path) ==> One(fs, n, level, limit) == 1
    requires Met(fs, path, ls, q, limit)
    ensures MetSafely(fs, ls, q, level, limit)
    decreases LEVELS + 1 - level, 0
  {
    hide *;
    if ls == [] {
      SafeHere(fs, path, q, level, limit);
    } else {
      SafeNext(fs, path, ls, q, level, limit);
      var next := Follow(ls[0], fs[ls[0]].target);
      SafeIff(fs, next, level + 1, limit);
      UseSafe(fs, next, ls[1..], q, level + 1, limit);
      OneLinkMore(fs, ls[0], ls[1..], q, level, limit);
      assert [ls[0]] + ls[1..] == ls;
    }
  }

  lemma SafeHere(fs: FileSystem, path: string, q: string, level: nat, limit: nat)
    requires Absolutely(path) && NoNul(fs) && level <= LEVELS
    requires forall n :: n in Ancestry(path) ==> One(fs, n, level, limit) == 1
    requires Met(fs, path, [], q, limit)
    ensures MetSafely(fs, [], q, level, limit)
  {
    assert One(fs, q, level, limit) == 1;
  }

  lemma UseSafe(fs: FileSystem, path: string, ls: seq<string>, q: string, level: nat, limit: nat)
    requires Absolutely(path) && NoNul(fs) && AllSafe(fs, path, level, limit) && Met(fs, path, ls, q, limit)
    ensures MetSafely(fs, ls, q, level, limit)
  {
  }

  lemma OneLinkMore(fs: FileSystem, l: string, ls: seq<string>, q: string, level: nat, limit: nat)
    ensures MetSafely(fs, [l] + ls, q, level, limit) <==> MetSafely(fs, ls, q, level + 1, limit)
  {
  }

  lemma SafeNext(fs: FileSystem, path: string, ls: seq<string>, q: string, level: nat, limit: nat)
    requires Absolutely(path) && NoNul(fs) && level <= LEVELS && ls != []
    requires forall n :: n in Ancestry(path) ==> One(fs, n, level, limit) == 1
    requires Met(fs, path, ls, q, limit)
    ensures ls[0] in fs && fs[ls[0]].Link? && Absolutely(ls[0]) && Absolutely(Follow(ls[0], fs[ls[0]].target))
    ensures var next := Follow(ls[0], fs[ls[0]].target);
            Verdict(fs, next, level + 1, limit) == 1 && Met(fs, next, ls[1..], q, limit)
  {
    FollowAbsolute(ls[0], fs[ls[0]].target);
    assert One(fs, ls[0], level, limit) == 1;
  }

  /** A name that spoils the answer either is unsafe itself or leads to something that is. */
  lemma UnsafeMet(fs: FileSystem, path: string, n: string, level: nat, limit: nat)
    requires Absolutely(path) && NoNul(fs) && level <= LEVELS
    requires n in Ancestry(path) && One(fs, n, level, limit) != 1
    ensures !AllSafe(fs, path, level, limit)
    decreases LEVELS + 1 - level, 0
  {
    if !SafeName(fs, n, limit) {
      var none: seq<string> := [];
      assert Met(fs, path, none, n, limit) && !MetSafely(fs, none, n, level, limit);
    } else {
      var target := fs[n].target;
      FollowAbsolute(n, target);
      var next := Follow(n, target);
      SafeIff(fs, next, level + 1, limit);
      var ls, q :| Met(fs, next, ls, q, limit) && !MetSafely(fs, ls, q, level + 1, limit);
      MetThrough(fs, path, n, ls, q, limit);
      hide *;
      OneLinkMore(fs, n, ls, q, level, limit);
      NotAllSafe(fs, path, [n] + ls, q, level, limit);
    }
  }

  lemma MetThrough(fs: FileSystem, path: string, n: string, ls: seq<string>, q: string, limit: nat)
    requires Absolutely(path) && NoNul(fs) && n in Ancestry(path) && n in fs && fs[n].Link? &&
             Fits(n, fs[n].target, limit)
    requires Absolutely(Follow(n, fs[n].target)) && Met(fs, Follow(n, fs[n].target), ls, q, limit)
    ensures Met(fs, path, [n] + ls, q, limit)
  {
    hide Ancestry, Follow;
    assert ([n] + ls)[1..] == ls;
  }

  lemma NotAllSafe(fs: FileSystem, path: string, ls: seq<string>, q: string, level: nat, limit: nat)
    requires Absolutely(path) && NoNul(fs) && Met(fs, path, ls, q, limit) && !MetSafely(fs, ls, q, level, limit)
    ensures !AllSafe(fs, path, level, limit)
  {
  }

  // ----- the loop

  /** One name: a link is followed, anything else must not be writable for group or world. */
  method CheckName(fs: FileSystem, name: string, level: nat, limit: nat) returns (rc: int)
    requires Absolutely(name) && NoNul(fs) && level <= LEVELS
    ensures rc == One(fs, name, level, limit)
    decreases LEVELS + 1 - level, 0
  {
    if name !in fs {
      return -1;
    }
    match fs[name] {
      case Link(target) =>
        if !Fits(name, target, limit) {
          return -1;
        }
        FollowAbsolute(name, target);
        rc := Check(fs, Follow(name, target), level + 1, limit);
      case Plain(group, world) =>
        rc := if group || world then 0 else 1;
    }
  }

  lemma NextAncestor(path: string)
    requires Absolutely(path)
    ensures Ancestry(path)[0] == path
    ensures FinalSep(path) == 0 ==> Ancestry(path)[1..] == ["/"]
    ensures FinalSep(path) > 0 ==>
            Absolutely(path[..FinalSep(path)]) && Ancestry(path)[1..] == Ancestry(path[..FinalSep(path)])
  {
  }

  lemma NextName(fs: FileSystem, names: seq<string>, level: nat, limit: nat)
    requires (forall n :: n in names ==> Absolutely(n)) && NoNul(fs) && level <= LEVELS && names != []
    ensures All(fs, names, level, limit) ==
            if One(fs, names[0], level, limit) != 1 then One(fs, names[0], level, limit)
            else All(fs, names[1..], level, limit)
    ensures names == ["/"] ==> names[1..] == [] && All(fs, [], level, limit) == 1
  {
  }

  lemma StartAncestry(fs: FileSystem, path: string, level: nat, limit: nat)
    requires Absolutely(path) && NoNul(fs) && level <= LEVELS
    ensures Verdict(fs, path, level, limit) == All(fs, Ancestry(path), level, limit)
    ensures path[..|path|] == path
  {
  }

  /** `daemon_check_path`: cuts the path back to its parent, again and again, until the root has been looked at. */
  method Check(fs: FileSystem, path0: string, level: nat, limit: nat) returns (rc: int)
    requires Absolutely(path0) && NoNul(fs)
    ensures rc == Verdict(fs, path0, level, limit)
    decreases if level <= LEVELS then LEVELS + 1 - level else 0, 1
  {
    if level > LEVELS {
      return -1;
    }
    hide NoNul, FinalSep, One, All, Verdict, Ancestry;
    var path, sep := path0, |path0|;
    ghost var rest := Ancestry(path0);
    StartAncestry(fs, path0, level, limit);
    while true
      invariant Absolutely(path) && 0 <= sep <= |path|
      invariant forall n :: n in rest ==> Absolutely(n)
      invariant All(fs, rest, level, limit) == Verdict(fs, path0, level, limit)
      invariant if sep == 0 then rest == ["/"] else rest == Ancestry(path[..sep])
      decreases sep
    {
      path := path[..if sep == 0 then 1 else sep];
      assert sep == 0 ==> path == "/";
      NextAncestor(path);
      NextName(fs, rest, level, limit);
      rc := CheckName(fs, path, level, limit);
      if rc != 1 || sep == 0 {
        return;
      }
      sep := FinalSep(path);
      rest := rest[1..];
    }
  }

  /** `daemon_path_is_safe`: what is checked is the normal form of the path, a relative one behind the working
      directory. */
  method PathIsSafe(fs: FileSystem, path: string, cwd: Option<string>, limit: nat) returns (rc: int)
    requires NUL !in path && (cwd.Some? ==> Absolutely(cwd.value)) && NoNul(fs)
    ensures match Anchor(path, cwd, limit)
            case Absolute(t) =>
              && Absolutely(Normalise(t)) && -1 <= rc <= 1
              && (rc == 1 <==> AllSafe(fs, Normalise(t), 0, limit))
              && (rc != 1 ==> Explained(fs, Normalise(t), limit, rc))
            case _ => rc == -1
  {
    var start := MakeAbsolute(path, cwd, limit);
    if !start.Absolute? {
      return -1;
    }
    NormalIsAbsolute(Anchor(path, cwd, limit).path);
    rc := Check(fs, start.path, 0, limit);
    SafeIff(fs, start.path, 0, limit);
    if rc != 1 {
      ghost var ls, q := WhyNot(fs, start.path, 0, limit);
    }
  }

  lemma NormalIsAbsolute(path: string)
    requires NUL !in path
    ensures Absolutely(Normalise(path))
  {
    CanonicalIsFixed(path);
    SplitHasNoNul(path);
    StackHasNoNul(Split(path));
    JoinHasNoNul(Stack(path));
  }
}
