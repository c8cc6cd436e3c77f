/** The POSIX paths of lib/path.js. */
module PosixPath {
  const DOT: string := "."
  const DOTS: string := ".."

  // ---------------------------------------------------------------- text and parts

  /** `split('/')` */
  function Split(s: string): (r: seq<string>)
    ensures r != []
  {
    if s == "" then [""]
    else if s[0] == '/' then [""] + Split(s[1..])
    else
      var rest := Split(s[1..]);
      [[s[0]] + rest[0]] + rest[1..]
  }

  /** `join('/')` */
  function Join(parts: seq<string>): string {
    if parts == [] then "" else if |parts| == 1 then parts[0] else parts[0] + "/" + Join(parts[1..])
  }

  function NonEmpty(parts: seq<string>): seq<string> {
    if parts == [] then [] else (if parts[0] == "" then [] else [parts[0]]) + NonEmpty(parts[1..])
  }

  function Parts(s: string): seq<string> {
    NonEmpty(Split(s))
  }

  predicate IsAbsolute(s: string) {
    s != "" && s[0] == '/'
  }

  predicate Name(s: string) {
    s != "" && '/' !in s
  }

  predicate Names(parts: seq<string>) {
    forall k :: 0 <= k < |parts| ==> Name(parts[k])
  }

  lemma {:induction false} NonEmptyAppend(a: seq<string>, b: seq<string>)
    ensures NonEmpty(a + b) == NonEmpty(a) + NonEmpty(b)
  {
    if a == [] {
      assert a + b == b;
    } else {
      assert (a + b)[1..] == a[1..] + b;
      NonEmptyAppend(a[1..], b);
    }
  }

  lemma {:induction false} SplitAppend(a: string, b: string)
    ensures Split(a + "/" + b) == Split(a) + Split(b)
  {
    var s := a + "/" + b;
    if a == "" {
      assert s[1..] == b;
    } else {
      assert s[1..] == a[1..] + "/" + b;
      SplitAppend(a[1..], b);
    }
  }

  /** What is on the two sides of a slash are parts of their own. */
  lemma PartsAppend(a: string, b: string)
    ensures Parts(a + "/" + b) == Parts(a) + Parts(b)
  {
    SplitAppend(a, b);
    NonEmptyAppend(Split(a), Split(b));
  }

  lemma {:induction false} SplitName(s: string)
    requires '/' !in s
    ensures Split(s) == [s]
  {
    if s != "" {
      SplitName(s[1..]);
      assert [s[0]] + s[1..] == s;
    }
  }

  lemma PartsOfName(s: string)
    requires Name(s)
    ensures Parts(s) == [s]
  {
    SplitName(s);
    assert [s][1..] == [];
    assert NonEmpty([s]) == [s] + NonEmpty([s][1..]);
  }

  lemma {:induction false} SplitNames(s: string)
    ensures forall k :: 0 <= k < |Split(s)| ==> '/' !in Split(s)[k]
  {
    if s != "" {
      SplitNames(s[1..]);
    }
  }

  lemma {:induction false} NonEmptyNames(parts: seq<string>)
    requires forall k :: 0 <= k < |parts| ==> '/' !in parts[k]
    ensures Names(NonEmpty(parts))
  {
    if parts != [] {
      NonEmptyNames(parts[1..]);
    }
  }

  lemma PartsAreNames(s: string)
    ensures Names(Parts(s))
  {
    SplitNames(s);
    NonEmptyNames(Split(s));
  }

  /** Joining and taking apart again changes nothing. */
  lemma {:induction false} PartsOfJoin(parts: seq<string>)
    requires Names(parts)
    ensures Parts(Join(parts)) == parts
    ensures parts != [] ==> Join(parts) != "" && Join(parts)[0] == parts[0][0] != '/'
    ensures parts != [] ==> Split(Join(parts)) == parts
  {
    if parts == [] {
      assert NonEmpty([""]) == NonEmpty([""][1..]);
    } else if |parts| == 1 {
      PartsOfName(parts[0]);
      SplitName(parts[0]);
    } else {
      PartsOfJoin(parts[1..]);
      PartsAppend(parts[0], Join(parts[1..]));
      SplitAppend(parts[0], Join(parts[1..]));
      PartsOfName(parts[0]);
      SplitName(parts[0]);
    }
  }

  // ---------------------------------------------------------------- what a path means

  /** One step of a walk from a directory; above the root is the root. */
  function Go(dir: seq<string>, part: string): seq<string> {
    if part == DOT then dir
    else if part == DOTS then (if dir == [] then [] else dir[..|dir| - 1])
    else dir + [part]
  }

  function Walk(dir: seq<string>, parts: seq<string>): seq<string> {
    if parts == [] then dir else Go(Walk(dir, parts[..|parts| - 1]), parts[|parts| - 1])
  }

  /** The `cd` commands that `resolve` stands for. */
  function Cd(dir: seq<string>, paths: seq<string>): seq<string> {
    if paths == [] then dir
    else
      var last := paths[|paths| - 1];
      Walk(if IsAbsolute(last) then [] else Cd(dir, paths[..|paths| - 1]), Parts(last))
  }

  lemma {:induction false} WalkOn(dir: seq<string>, a: seq<string>, b: seq<string>)
    ensures Walk(dir, a + b) == Walk(Walk(dir, a), b)
  {
    if b == [] {
      assert a + b == a;
    } else {
      assert (a + b)[..|a + b| - 1] == a + b[..|b| - 1];
      WalkOn(dir, a, b[..|b| - 1]);
    }
  }

  // ---------------------------------------------------------------- normalizeArray

  /** How far up a path goes, and then down: what a stack from left to right makes of it. */
  datatype Level = Level(ups: nat, names: seq<string>)

  function Climb(l: Level, part: string): Level {
    if part == DOT then l
    else if part == DOTS then
      (if l.names == [] then Level(l.ups + 1, []) else Level(l.ups, l.names[..|l.names| - 1]))
    else Level(l.ups, l.names + [part])
  }

  function Stack(parts: seq<string>): Level {
    if parts == [] then Level(0, []) else Climb(Stack(parts[..|parts| - 1]), parts[|parts| - 1])
  }

  function Ups(n: nat): seq<string> {
    if n == 0 then [] else [DOTS] + Ups(n - 1)
  }

  function Normal(parts: seq<string>, allowAboveRoot: bool): seq<string> {
    var l := Stack(parts);
    if allowAboveRoot then Ups(l.ups) + l.names else l.names
  }

  /** What is left of a level when the last n names are taken back. */
  function Undone(l: Level, n: nat): Level {
    if n <= |l.names| then Level(l.ups, l.names[..|l.names| - n]) else Level(l.ups + n - |l.names|, [])
  }

  /** Taking back goes through a part as the loop does. */
  lemma UndoneStep(l: Level, part: string, up: nat)
    ensures part == DOT ==> Undone(Climb(l, part), up) == Undone(l, up)
    ensures part == DOTS ==> Undone(Climb(l, part), up) == Undone(l, up + 1)
    ensures part != DOT && part != DOTS && up > 0 ==> Undone(Climb(l, part), up) == Undone(l, up - 1)
    ensures part != DOT && part != DOTS && up == 0 ==> Undone(Climb(l, part), 0) == Level(l.ups, l.names + [part])
    ensures Undone(l, 0) == l
  {}

  function Without<T>(s: seq<T>, i: nat): seq<T>
    requires i < |s|
  {
    s[..i] + s[i + 1..]
  }

  /** `normalizeArray`: it goes through the parts from right to left, and takes them out. */
  method NormalizeArray(input: seq<string>, allowAboveRoot: bool) returns (parts: seq<string>)
    ensures parts == Normal(input, allowAboveRoot)
  {
    parts := input;
    var up, i := 0, |parts|;
    ghost var kept: seq<string> := [];
    assert input[..i] == input && Stack(input).names + kept == Stack(input).names;
    while i > 0
      invariant 0 <= i <= |input| && parts == input[..i] + kept
      invariant Stack(input) == Level(Undone(Stack(input[..i]), up).ups, Undone(Stack(input[..i]), up).names + kept)
      invariant up >= 0
    {
      i := i - 1;
      var last := parts[i];
      assert input[..i + 1][..i] == input[..i] && last == input[i];
      UndoneStep(Stack(input[..i]), last, up);
      if last == DOT {
        parts := Without(parts, i);
      } else if last == DOTS {
        parts := Without(parts, i);
        up := up + 1;
      } else if up > 0 {
        parts := Without(parts, i);
        up := up - 1;
      } else {
        kept := [last] + kept;
      }
    }
    if allowAboveRoot {
      parts := UnshiftUps(parts, up);
    }
  }

  method UnshiftUps(parts: seq<string>, up: nat) returns (r: seq<string>)
    ensures r == Ups(up) + parts
  {
    r := parts;
    for k := 0 to up
      invariant r == Ups(k) + parts
    {
      r := [DOTS] + r;
    }
  }

  // ---------------------------------------------------------------- what normalizing keeps

  lemma {:induction false} StackNames(parts: seq<string>)
    requires Names(parts)
    ensures Names(Stack(parts).names)
    ensures forall k :: 0 <= k < |Stack(parts).names| ==> Stack(parts).names[k] != DOT && Stack(parts).names[k] != DOTS
  {
    if parts != [] {
      StackNames(parts[..|parts| - 1]);
    }
  }

  /** From any directory a path leads where its level says. */
  lemma {:induction false} WalkIsLevel(dir: seq<string>, parts: seq<string>)
    ensures var l := Stack(parts);
      Walk(dir, parts) == (if l.ups <= |dir| then dir[..|dir| - l.ups] else []) + l.names
  {
    if parts == [] {
      assert dir[..|dir|] + [] == dir;
    } else {
      WalkIsLevel(dir, parts[..|parts| - 1]);
    }
  }

  lemma UpsNames(n: nat)
    ensures Names(Ups(n)) && |Ups(n)| == n && (forall k :: 0 <= k < n ==> Ups(n)[k] == DOTS)
  {}

  lemma UpsSnoc(n: nat)
    ensures Ups(n + 1) == Ups(n) + [DOTS]
  {
    UpsNames(n);
    UpsNames(n + 1);
  }

  lemma {:induction false} StackUps(n: nat)
    ensures Stack(Ups(n)) == Level(n, [])
  {
    if n > 0 {
      UpsSnoc(n - 1);
      StackUps(n - 1);
      assert Ups(n)[..|Ups(n)| - 1] == Ups(n - 1);
    }
  }

  /** What is only names goes on top of the stack. */
  lemma {:induction false} StackOn(a: seq<string>, names: seq<string>)
    requires forall k :: 0 <= k < |names| ==> names[k] != DOT && names[k] != DOTS
    ensures Stack(a + names) == Level(Stack(a).ups, Stack(a).names + names)
  {
    if names == [] {
      assert a + names == a && Stack(a).names + names == Stack(a).names;
    } else {
      var front, x := names[..|names| - 1], names[|names| - 1];
      StackOn(a, front);
      StackSnoc(a + front, x);
      Snoc(a, names);
      Snoc(Stack(a).names, names);
    }
  }

  lemma StackSnoc(parts: seq<string>, x: string)
    ensures Stack(parts + [x]) == Climb(Stack(parts), x)
  {
    assert (parts + [x])[..|parts|] == parts;
  }

  lemma Snoc<T>(a: seq<T>, b: seq<T>)
    requires b != []
    ensures a + b == a + b[..|b| - 1] + [b[|b| - 1]]
  {}

  predicate Plain(names: seq<string>) {
    Names(names) && forall k :: 0 <= k < |names| ==> names[k] != DOT && names[k] != DOTS
  }

  lemma LevelOf(ups: nat, names: seq<string>)
    requires Plain(names)
    ensures Names(Ups(ups) + names) && Stack(Ups(ups) + names) == Level(ups, names)
  {
    UpsNames(ups);
    StackUps(ups);
    StackOn(Ups(ups), names);
    assert [] + names == names;
  }

  /** Normal parts have the same level, and normalizing them again changes nothing. */
  lemma NormalKeeps(parts: seq<string>, above: bool)
    requires Names(parts)
    ensures Names(Normal(parts, above)) && Normal(Normal(parts, above), above) == Normal(parts, above)
    ensures Stack(Normal(parts, above)) == Level(if above then Stack(parts).ups else 0, Stack(parts).names)
  {
    var l := Stack(parts);
    StackNames(parts);
    if above {
      LevelOf(l.ups, l.names);
    } else {
      LevelOf(0, l.names);
      assert Ups(0) + l.names == l.names;
    }
  }

  /** `normalize`, with the parts as their specification has them. */
  function Normalize(path: string): string {
    var above := !IsAbsolute(path);
    var body := Join(Normal(Parts(path), above));
    var named := if body == "" && above then DOT else body;
    var ended := if named != "" && path != "" && path[|path| - 1] == '/' then named + "/" else named;
    if above then ended else "/" + ended
  }

  method NormalizePath(path: string) returns (r: string)
    ensures r == Normalize(path)
  {
    var isAbsolute := IsAbsolute(path);
    var trailingSlash := path != "" && path[|path| - 1] == '/';
    var parts := NormalizeArray(Parts(path), !isAbsolute);
    r := Join(parts);
    if r == "" && !isAbsolute {
      r := DOT;
    }
    if r != "" && trailingSlash {
      r := r + "/";
    }
    r := if isAbsolute then "/" + r else r;
  }

  lemma PartsAround(body: string)
    ensures Parts("/" + body) == Parts(body) && Parts(body + "/") == Parts(body)
  {
    PartsAppend("", body);
    PartsAppend(body, "");
    assert "" + "/" + body == "/" + body && body + "/" + "" == body + "/";
    assert Split("") == [""] && NonEmpty([""]) == NonEmpty([""][1..]);
  }

  /** The parts of a normalized path are the normal ones, or a dot instead of nothing. */
  lemma NormalizedParts(path: string)
    ensures var above := !IsAbsolute(path);
      var n := Normal(Parts(path), above);
      Parts(Normalize(path)) == if n == [] && above then [DOT] else n
  {
    var above := !IsAbsolute(path);
    var n := Normal(Parts(path), above);
    PartsAreNames(path);
    NormalKeeps(Parts(path), above);
    PartsOfJoin(n);
    PartsOfName(DOT);
    var named := if Join(n) == "" && above then DOT else Join(n);
    PartsAround(named);
    PartsAround(named + "/");
  }

  lemma {:induction false} JoinLast(parts: seq<string>)
    requires Names(parts) && parts != []
    ensures Join(parts) != "" && Join(parts)[|Join(parts)| - 1] != '/'
  {
    if |parts| > 1 {
      JoinLast(parts[1..]);
    }
  }

  /** Normalizing keeps whether the path is absolute, and whether it ends with a slash, unless
      nothing but the root is left. */
  lemma NormalizedEnds(path: string)
    ensures IsAbsolute(Normalize(path)) == IsAbsolute(path)
    ensures var n := Normalize(path);
      n != "" && (n != "/" ==> (n[|n| - 1] == '/' <==> path != "" && path[|path| - 1] == '/'))
  {
    var above := !IsAbsolute(path);
    var n := Normal(Parts(path), above);
    PartsAreNames(path);
    NormalKeeps(Parts(path), above);
    PartsOfJoin(n);
    if n != [] {
      JoinLast(n);
    }
  }

  lemma StackDot()
    ensures Stack([DOT]) == Level(0, []) && Normal([DOT], true) == []
  {
    assert [DOT][..0] == [];
    assert Stack([DOT]) == Climb(Stack([DOT][..0]), DOT);
  }

  lemma NormalOfNormalized(path: string)
    ensures Normal(Parts(Normalize(path)), !IsAbsolute(path)) == Normal(Parts(path), !IsAbsolute(path))
  {
    PartsAreNames(path);
    NormalKeeps(Parts(path), !IsAbsolute(path));
    NormalizedParts(path);
    StackDot();
  }

  /** `normalize` is idempotent. */
  lemma NormalizeTwice(path: string)
    ensures Normalize(Normalize(path)) == Normalize(path)
  {
    NormalOfNormalized(path);
    NormalizedEnds(path);
    PartsAreNames(path);
    NormalKeeps(Parts(path), !IsAbsolute(path));
    PartsOfJoin(Normal(Parts(path), !IsAbsolute(path)));
  }

  /** A normalized path leads where the path does, from any directory. */
  lemma NormalizeLeads(dir: seq<string>, path: string)
    ensures Cd(dir, [Normalize(path)]) == Cd(dir, [path])
  {
    var above := !IsAbsolute(path);
    PartsAreNames(path);
    NormalizedParts(path);
    NormalizedEnds(path);
    NormalKeeps(Parts(path), above);
    StackDot();
    var from := if above then dir else [];
    assert [path][..0] == [] && [Normalize(path)][..0] == [];
    WalkIsLevel(from, Parts(path));
    WalkIsLevel(from, Parts(Normalize(path)));
  }

  // ---------------------------------------------------------------- resolve

  datatype Gathered = Gathered(path: string, absolute: bool)

  /** The paths from the right, until one is absolute. */
  function Gather(paths: seq<string>, path: string): Gathered {
    if paths == [] then Gathered(path, false)
    else
      var last := paths[|paths| - 1];
      if last == "" then Gather(paths[..|paths| - 1], path)
      else if last[0] == '/' then Gathered(last + "/" + path, true)
      else Gather(paths[..|paths| - 1], last + "/" + path)
  }

  function Resolved(g: Gathered): string {
    var body := (if g.absolute then "/" else "") + Join(Normal(Parts(g.path), !g.absolute));
    if body == "" then DOT else body
  }

  /** `resolve`; the working directory comes before the arguments. */
  function Resolve(cwd: string, args: seq<string>): string {
    Resolved(Gather([cwd] + args, ""))
  }

  method ResolvePaths(cwd: string, args: seq<string>) returns (r: string)
    ensures r == Resolve(cwd, args)
  {
    var all := [cwd] + args;
    var path, absolute := "", false;
    var i := |args| - 1;
    assert all[..i + 2] == all;
    while i >= -1 && !absolute
      invariant -1 <= i + 1 <= |args| && i >= -2
      invariant (if absolute then Gathered(path, true) else Gather(all[..i + 2], path)) == Gather(all, "")
      decreases i + 2
    {
      var arg := if i >= 0 then args[i] else cwd;
      assert all[..i + 2][..i + 1] == all[..i + 1] && all[..i + 2][i + 1] == arg;
      if arg != "" {
        path := arg + "/" + path;
        absolute := arg[0] == '/';
      }
      i := i - 1;
    }
    var parts := NormalizeArray(Parts(path), !absolute);
    r := (if absolute then "/" else "") + Join(parts);
    if r == "" {
      r := DOT;
    }
  }

  /** If one of the paths is absolute, going through all of them from the left leads where the
      gathered path does. */
  lemma {:induction false} GatherLeads(paths: seq<string>, path: string, dir: seq<string>)
    requires paths != [] && IsAbsolute(paths[0])
    ensures Gather(paths, path).absolute
    ensures Walk([], Parts(Gather(paths, path).path)) == Walk(Cd(dir, paths), Parts(path))
  {
    var front, last := paths[..|paths| - 1], paths[|paths| - 1];
    PartsAppend(last, path);
    if last == "" {
      assert Parts(last) == NonEmpty([""][1..]);
      GatherLeads(front, path, dir);
    } else if last[0] == '/' {
      WalkOn([], Parts(last), Parts(path));
    } else {
      GatherLeads(front, last + "/" + path, dir);
      WalkOn(Cd(dir, front), Parts(last), Parts(path));
    }
  }

  /** Normal parts are normal. */
  lemma NormalOfJoin(parts: seq<string>, above: bool)
    requires Names(parts)
    ensures var n := Normal(parts, above);
      Names(n) && Parts(Join(n)) == n && Normal(n, above) == n
  {
    NormalKeeps(parts, above);
    PartsOfJoin(Normal(parts, above));
  }

  /** A text of names that are normal, with or without a slash in front, is normal. */
  lemma NormalText(n: seq<string>, above: bool)
    requires Names(n) && Parts(Join(n)) == n && Normal(n, above) == n
    ensures above && n != [] ==> IsAbsolute(Join(n)) || Normalize(Join(n)) == Join(n)
    ensures !above ==> Normalize("/" + Join(n)) == "/" + Join(n)
  {
    if n != [] {
      JoinLast(n);
    }
    PartsAround(Join(n));
  }

  lemma NotAbsolute(n: seq<string>)
    requires Names(n) && n != []
    ensures !IsAbsolute(Join(n))
  {}

  lemma GatheredParts(g: Gathered)
    ensures var n := Normal(Parts(g.path), !g.absolute);
      Names(n) && Parts(Join(n)) == n && Normal(n, !g.absolute) == n
  {
    PartsAreNames(g.path);
    NormalOfJoin(Parts(g.path), !g.absolute);
  }

  lemma AbsoluteIsNormal(g: Gathered)
    requires g.absolute
    ensures Resolved(g) != "" && Normalize(Resolved(g)) == Resolved(g)
  {
    GatheredParts(g);
    NormalText(Normal(Parts(g.path), false), false);
  }

  lemma DotIsNormal()
    ensures Normalize(DOT) == DOT
  {
    StackDot();
    PartsOfName(DOT);
  }

  lemma RelativeIsNormal(g: Gathered)
    requires !g.absolute
    ensures Resolved(g) != "" && Normalize(Resolved(g)) == Resolved(g)
  {
    var n := Normal(Parts(g.path), true);
    GatheredParts(g);
    if n == [] {
      DotIsNormal();
    } else {
      NormalText(n, true);
      NotAbsolute(n);
      JoinLast(n);
      assert "" + Join(n) == Join(n);
    }
  }

  /** What `resolve` gives, with any working directory, is a normalized path, and never empty. */
  lemma ResolveIsNormal(cwd: string, args: seq<string>)
    ensures Resolve(cwd, args) != "" && Normalize(Resolve(cwd, args)) == Resolve(cwd, args)
  {
    var g := Gather([cwd] + args, "");
    if g.absolute {
      AbsoluteIsNormal(g);
    } else {
      RelativeIsNormal(g);
    }
  }

  lemma NormalIsWalk(parts: seq<string>)
    ensures Normal(parts, false) == Walk([], parts)
  {
    WalkIsLevel([], parts);
    assert [] + Stack(parts).names == Stack(parts).names;
  }

  /** With an absolute working directory `resolve` gives the directory that changing to one
      path after the other leads to. */
  lemma ResolveIsCd(cwd: string, args: seq<string>)
    requires IsAbsolute(cwd)
    ensures Resolve(cwd, args) == "/" + Join(Cd([], [cwd] + args))
  {
    var g := Gather([cwd] + args, "");
    GatherLeads([cwd] + args, "", []);
    NormalIsWalk(Parts(g.path));
    assert Parts("") == NonEmpty([""][1..]);
  }

  // ---------------------------------------------------------------- relative

  /** `slice(start, end)` of an array, for ends that are not negative. */
  function Slice<T>(s: seq<T>, start: nat, end: nat): seq<T> {
    var e := if end < |s| then end else |s|;
    if start >= e then [] else s[start..e]
  }

  /** `trim` of `relative`. */
  method Trim(arr: seq<string>) returns (r: seq<string>)
    ensures (forall k :: 0 <= k < |arr| ==> arr[k] == "") ==> r == []
    ensures forall start, end ::
      0 <= start <= end < |arr| && Around(arr, start, end) ==> r == Slice(arr, start, end - start + 1)
  {
    var start := 0;
    while start < |arr|
      invariant 0 <= start <= |arr| && forall k :: 0 <= k < start ==> arr[k] == ""
    {
      if arr[start] != "" {
        break;
      }
      start := start + 1;
    }
    var end := |arr| - 1;
    while end >= 0
      invariant -1 <= end < |arr| && forall k :: end < k < |arr| ==> arr[k] == ""
    {
      if arr[end] != "" {
        break;
      }
      end := end - 1;
    }
    if start > end {
      return [];
    }
    r := Slice(arr, start, end - start + 1);
  }

  /** The first and the last part with something in it. */
  predicate Around(arr: seq<string>, start: nat, end: nat) {
    && start <= end < |arr| && arr[start] != "" && arr[end] != ""
    && (forall k :: 0 <= k < start ==> arr[k] == "")
    && (forall k :: end < k < |arr| ==> arr[k] == "")
  }

  /** `trim` gives what is between the outer empty parts exactly if there are none in front:
      its second argument to `slice` is a length and not an end. */
  lemma TrimExact(arr: seq<string>, start: nat, end: nat)
    requires Around(arr, start, end)
    ensures Slice(arr, start, end - start + 1) == arr[start..end + 1] <==> start == 0
  {
    if start > 0 {
      assert |Slice(arr, start, end - start + 1)| < |arr[start..end + 1]|;
    }
  }

  /** How many parts the two have in common from the start. */
  function Common(a: seq<string>, b: seq<string>): (n: nat)
    ensures n <= |a| && n <= |b| && a[..n] == b[..n]
    ensures n < |a| && n < |b| ==> a[n] != b[n]
  {
    if a == [] || b == [] || a[0] != b[0] then 0 else 1 + Common(a[1..], b[1..])
  }

  lemma {:induction false} CommonIs(a: seq<string>, b: seq<string>, n: nat)
    requires n <= |a| && n <= |b| && a[..n] == b[..n]
    requires n == |a| || n == |b| || a[n] != b[n]
    ensures Common(a, b) == n
  {
    if n > 0 {
      assert a[..n][0] == b[..n][0];
      assert a[1..][..n - 1] == a[..n][1..] && b[1..][..n - 1] == b[..n][1..];
      CommonIs(a[1..], b[1..], n - 1);
    }
  }

  function RelativeParts(from: seq<string>, to: seq<string>): seq<string> {
    var n := Common(from, to);
    Ups(|from| - n) + to[n..]
  }

  /** The parts that a resolved path is made of. */
  function Located(cwd: string, path: string): seq<string> {
    Cd([], [cwd, path])
  }

  /** The loop that counts the parts in common. */
  method SamePartsLength(fromParts: seq<string>, toParts: seq<string>) returns (same: nat)
    ensures same == Common(fromParts, toParts)
  {
    var length := if |fromParts| < |toParts| then |fromParts| else |toParts|;
    same := length;
    var i := 0;
    while i < length
      invariant 0 <= i <= length && same == length && fromParts[..i] == toParts[..i]
    {
      if fromParts[i] != toParts[i] {
        same := i;
        break;
      }
      i := i + 1;
    }
    CommonIs(fromParts, toParts, same);
  }

  /** `relative` */
  method RelativePath(cwd: string, from: string, to: string) returns (r: string)
    requires IsAbsolute(cwd)
    ensures r == Join(RelativeParts(Located(cwd, from), Located(cwd, to)))
  {
    var fromParts := ResolvedParts(cwd, from);
    var toParts := ResolvedParts(cwd, to);
    r := UpAndDown(fromParts, toParts);
  }

  method UpAndDown(fromParts: seq<string>, toParts: seq<string>) returns (r: string)
    ensures r == Join(RelativeParts(fromParts, toParts))
  {
    var same := SamePartsLength(fromParts, toParts);
    var outputParts: seq<string> := [];
    for k := same to |fromParts|
      invariant outputParts == Ups(k - same)
    {
      UpsSnoc(k - same);
      outputParts := outputParts + [DOTS];
    }
    r := Join(outputParts + toParts[same..]);
  }

  lemma {:induction false} WalkNames(dir: seq<string>, parts: seq<string>)
    requires Plain(dir) && Names(parts)
    ensures Plain(Walk(dir, parts))
  {
    if parts != [] {
      WalkNames(dir, parts[..|parts| - 1]);
    }
  }

  lemma {:induction false} CdNames(dir: seq<string>, paths: seq<string>)
    requires Plain(dir)
    ensures Plain(Cd(dir, paths))
  {
    if paths != [] {
      CdNames(dir, paths[..|paths| - 1]);
      PartsAreNames(paths[|paths| - 1]);
      var from := if IsAbsolute(paths[|paths| - 1]) then [] else Cd(dir, paths[..|paths| - 1]);
      WalkNames(from, Parts(paths[|paths| - 1]));
    }
  }

  /** `trim(resolve(path).substr(1).split('/'))` */
  method ResolvedParts(cwd: string, path: string) returns (parts: seq<string>)
    requires IsAbsolute(cwd)
    ensures parts == Located(cwd, path) && Plain(parts)
  {
    var resolved := ResolvePaths(cwd, [path]);
    ghost var names := Located(cwd, path);
    ResolveOne(cwd, path);
    CdNames([], [cwd, path]);
    SplitOfJoin(names);
    assert resolved[1..] == Join(names);
    parts := Trim(Split(resolved[1..]));
  }

  /** Names that were joined come apart again, and `trim` leaves them as they are. */
  lemma SplitOfJoin(names: seq<string>)
    requires Names(names)
    ensures names == [] ==> Split(Join(names)) == [""]
    ensures names != [] ==> Around(Split(Join(names)), 0, |names| - 1)
    ensures names != [] ==> Slice(Split(Join(names)), 0, |names|) == names
  {
    PartsOfJoin(names);
  }

  /** From one directory the relative parts lead to the other. */
  lemma RelativeLeads(from: seq<string>, to: seq<string>)
    requires Plain(to)
    ensures Names(RelativeParts(from, to)) && Walk(from, RelativeParts(from, to)) == to
  {
    var n := Common(from, to);
    LevelOf(|from| - n, to[n..]);
    WalkIsLevel(from, RelativeParts(from, to));
    assert from[..n] + to[n..] == to;
  }

  /** How many steps lie between two directories: up to where they part, and down. */
  function Distance(a: seq<string>, b: seq<string>): nat {
    |a| - Common(a, b) + |b| - Common(a, b)
  }

  lemma RelativeLength(a: seq<string>, b: seq<string>)
    ensures |RelativeParts(a, b)| == Distance(a, b)
  {
    UpsNames(|a| - Common(a, b));
  }

  lemma CommonOfParent(a: seq<string>, d: seq<string>)
    requires d != []
    ensures Common(a, d[..|d| - 1]) == if Common(a, d) < |d| then Common(a, d) else |d| - 1
  {
    var n := if Common(a, d) < |d| then Common(a, d) else |d| - 1;
    assert d[..|d| - 1][..n] == d[..n] == a[..n] by {
      assert d[..Common(a, d)][..n] == a[..Common(a, d)][..n];
    }
    CommonIs(a, d[..|d| - 1], n);
  }

  /** One step up gets nearer, unless the directory is one of those above. */
  lemma StepUp(a: seq<string>, d: seq<string>)
    requires d != []
    ensures Distance(a, d[..|d| - 1]) == Distance(a, d) + (if Common(a, d) == |d| then 1 else -1)
  {
    CommonOfParent(a, d);
  }

  lemma OnlyUps(a: seq<string>, d: seq<string>)
    requires Common(a, d) == |d|
    ensures RelativeParts(a, d) == Ups(|a| - |d|)
  {
    assert d[|d|..] == [];
  }

  lemma PartsUp(a: seq<string>, d: seq<string>)
    requires d != [] && Common(a, d) == |d|
    ensures RelativeParts(a, d[..|d| - 1]) == RelativeParts(a, d) + [DOTS]
  {
    CommonOfParent(a, d);
    OnlyUps(a, d);
    OnlyUps(a, d[..|d| - 1]);
    UpsSnoc(|a| - |d|);
  }

  /** One step down gets nearer only on the way to it. */
  lemma StepDown(a: seq<string>, d: seq<string>, name: string)
    ensures Distance(a, d + [name]) <= Distance(a, d) + 1
    ensures Distance(a, d + [name]) == Distance(a, d) + 1 ==>
              RelativeParts(a, d + [name]) == RelativeParts(a, d) + [name]
  {
    CommonOfParent(a, d + [name]);
    assert (d + [name])[..|d|] == d;
    var n := Common(a, d);
    assert Common(a, d + [name]) == n ==> (d + [name])[n..] == d[n..] + [name];
  }

  /** A step makes the distance longer by one at most, and then the way goes on with that step. */
  lemma OneStep(a: seq<string>, d: seq<string>, x: string)
    ensures Distance(a, Go(d, x)) <= Distance(a, d) + 1
    ensures Distance(a, Go(d, x)) == Distance(a, d) + 1 ==> RelativeParts(a, Go(d, x)) == RelativeParts(a, d) + [x]
  {
    if x == DOTS && d != [] {
      StepUp(a, d);
      if Common(a, d) == |d| {
        PartsUp(a, d);
      }
    } else if x != DOTS && x != DOT {
      StepDown(a, d, x);
    }
  }

  /** The shortest way to `d` is no longer than these parts, and is these parts if it is as long. */
  predicate Shortest(from: seq<string>, d: seq<string>, parts: seq<string>) {
    |RelativeParts(from, d)| <= |parts| && (|RelativeParts(from, d)| == |parts| ==> parts == RelativeParts(from, d))
  }

  lemma ShortestStep(from: seq<string>, d: seq<string>, before: seq<string>, x: string)
    requires Shortest(from, d, before)
    ensures Shortest(from, Go(d, x), before + [x])
  {
    RelativeLength(from, d);
    RelativeLength(from, Go(d, x));
    OneStep(from, d, x);
  }

  /** The relative parts are the shortest way, and there is no other one that short. */
  lemma {:induction false} RelativeIsShortest(from: seq<string>, parts: seq<string>)
    ensures |RelativeParts(from, Walk(from, parts))| <= |parts|
    ensures |RelativeParts(from, Walk(from, parts))| == |parts| ==> parts == RelativeParts(from, Walk(from, parts))
  {
    if parts == [] {
      CommonIs(from, from, |from|);
      RelativeLength(from, from);
    } else {
      var before, x := parts[..|parts| - 1], parts[|parts| - 1];
      RelativeIsShortest(from, before);
      ShortestStep(from, Walk(from, before), before, x);
      assert parts == before + [x];
    }
  }

  /** For every absolute working directory: resolving the relative path from `from` to `to`
      against `from` gives what resolving `to` gives. */
  lemma RelativeResolves(cwd: string, from: string, to: string)
    requires IsAbsolute(cwd)
    ensures Resolve(cwd, [from, Join(RelativeParts(Located(cwd, from), Located(cwd, to)))]) == Resolve(cwd, [to])
  {
    var f, t := Located(cwd, from), Located(cwd, to);
    var rel := Join(RelativeParts(f, t));
    CdNames([], [cwd, to]);
    RelativeLeads(f, t);
    PartsOfJoin(RelativeParts(f, t));
    ResolveOne(cwd, to);
    ResolveTwo(cwd, from, rel);
  }

  lemma ResolveOne(cwd: string, path: string)
    requires IsAbsolute(cwd)
    ensures Resolve(cwd, [path]) == "/" + Join(Located(cwd, path))
  {
    ResolveIsCd(cwd, [path]);
    assert [cwd] + [path] == [cwd, path];
  }

  lemma ResolveTwo(cwd: string, from: string, path: string)
    requires IsAbsolute(cwd) && !IsAbsolute(path)
    ensures Resolve(cwd, [from, path]) == "/" + Join(Walk(Located(cwd, from), Parts(path)))
  {
    ResolveIsCd(cwd, [from, path]);
    assert [cwd] + [from, path] == [cwd, from, path];
    assert [cwd, from, path][..2] == [cwd, from];
  }
}
