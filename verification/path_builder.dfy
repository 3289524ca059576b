/** Second stage of the pipeline: `StructureParser.build_paths`, which turns
    parsed entries into the root folder name and an ordered list of relative
    paths, tracking nesting with a stack of directory names. Paths are kept
    as component sequences; `PosixPath.Join` renders them. */
module PathBuilder {
  import opened Wrappers
  import opened TreeText
  import PosixPath

  /** One output path: its components (ancestor directories, then its own
      clean name) and whether the source name marked it as a directory. */
  datatype PathEntry = PathEntry(parts: seq<string>, isDir: bool)

  /** The pair `build_paths` returns. */
  datatype Layout = Layout(root: Option<string>, paths: seq<PathEntry>)

  /** The loop state: the directory stack and the paths emitted so far. */
  datatype Walker = Walker(stack: seq<string>, out: seq<PathEntry>)

  /** The exception the source's pop loop raises: `IndexError` from
      `list.pop()` on an empty stack, at entry `index` of the input. */
  datatype BuildError = PopFromEmptyList(index: nat)

  function Min(a: int, b: int): int { if a <= b then a else b }

  function Max(a: int, b: int): int { if a <= b then b else a }

  /** `name.endswith('/')`. */
  predicate EndsWithSlash(s: string) {
    |s| > 0 && s[|s| - 1] == '/'
  }

  /** `name.rstrip('/')`: the name without its run of trailing slashes. */
  function RStripSlash(s: string): (r: string)
    ensures r <= s
    ensures !EndsWithSlash(r)
    ensures forall i | |r| <= i < |s| :: s[i] == '/'
    ensures EndsWithSlash(s) <==> |r| < |s|
    decreases |s|
  {
    if EndsWithSlash(s) then RStripSlash(s[..|s| - 1]) else s
  }

  /** The pop loop with the stack-emptiness guard the source lacks: pop while
      the stack is deeper than the adjusted level. */
  function PopTo(stack: seq<string>, level: int): (r: seq<string>)
    ensures r <= stack
    ensures |r| == if level <= 0 then 0 else Min(|stack|, level)
    decreases |stack|
  {
    if |stack| > level && |stack| > 0 then PopTo(stack[..|stack| - 1], level) else stack
  }

  /** The pop loop as written: `while len(stack) > level: stack.pop()`, which
      pops an empty stack (None here) whenever the level is negative. */
  function PopAsWritten(stack: seq<string>, level: int): (r: Option<seq<string>>)
    ensures r.None? <==> level < 0
    ensures r.Some? ==> r.value == PopTo(stack, level)
    decreases |stack|
  {
    if |stack| > level then
      if stack == [] then None else PopAsWritten(stack[..|stack| - 1], level)
    else
      Some(stack)
  }

  /** Emits the path for `name` under the (already popped) stack `s`, and
      pushes the clean name when it is a directory. */
  function Emit(w: Walker, s: seq<string>, name: string): (r: Walker)
    ensures |r.out| == |w.out| + 1
    ensures |r.out[|w.out|].parts| == |s| + 1
    ensures r.out[|w.out|].isDir <==> EndsWithSlash(name)
    ensures r.stack == r.out[|w.out|].parts <==> EndsWithSlash(name)
  {
    var isDir := EndsWithSlash(name);
    var clean := RStripSlash(name);
    Walker(if isDir then s + [clean] else s, w.out + [PathEntry(s + [clean], isDir)])
  }

  /** One iteration of the loop body for entry `e`. */
  function Step(w: Walker, e: Entry, rootLevel: int): (r: Walker)
    ensures |r.out| == |w.out| + 1
    ensures 1 <= |r.out[|w.out|].parts| <= Max(0, e.depth - rootLevel) + 1
  {
    Emit(w, PopTo(w.stack, e.depth - rootLevel), e.name)
  }

  /** Emitting keeps every earlier path, files the clean name under the
      popped stack, and leaves that stack in place for a file. */
  lemma {:induction false} EmitShape(w: Walker, s: seq<string>, name: string)
    ensures var r := Emit(w, s, name);
            && r.out[..|w.out|] == w.out
            && r.out[|w.out|].parts[..|s|] == s
            && r.out[|w.out|].parts[|s|] == RStripSlash(name)
            && (!EndsWithSlash(name) ==> r.stack == s)
  {
    var r := Emit(w, s, name);
    assert r.out == w.out + [r.out[|w.out|]];
  }

  /** One iteration keeps every earlier path and emits the clean name under a
      prefix of the current stack; afterwards the stack is the new path for a
      directory and its parent components for a file. */
  lemma {:induction false} StepShape(w: Walker, e: Entry, rootLevel: int)
    ensures var r := Step(w, e, rootLevel);
            var p := r.out[|w.out|].parts;
            && r.out[..|w.out|] == w.out
            && p[..|p| - 1] <= w.stack
            && p[|p| - 1] == RStripSlash(e.name)
            && r.out[|w.out|].isDir == EndsWithSlash(e.name)
            && r.stack == (if EndsWithSlash(e.name) then p else p[..|p| - 1])
  {
    var s := PopTo(w.stack, e.depth - rootLevel);
    EmitShape(w, s, e.name);
    var p := Step(w, e, rootLevel).out[|w.out|].parts;
    assert p[..|p| - 1] == s;
  }

  /** The loop over the payload entries. */
  function Walk(w: Walker, es: seq<Entry>, rootLevel: int): (w': Walker)
    ensures |w'.out| == |w.out| + |es|
    ensures w'.out[..|w.out|] == w.out
    ensures forall k | |w.out| <= k < |w'.out| :: w'.out[k].parts != []
    decreases |es|
  {
    if es == [] then w
    else
      var w1 := Step(w, es[0], rootLevel);
      assert w1.out == w.out + [w1.out[|w.out|]] && w1.out[|w.out|].parts != [];
      var r := Walk(w1, es[1..], rootLevel);
      assert r.out[..|w.out|] == r.out[..|w1.out|][..|w.out|];
      r
  }

  /** The loop as written; `base` is the input index of `es[0]`. */
  function WalkAsWritten(w: Walker, es: seq<Entry>, rootLevel: int, base: nat): (r: Result<Walker, BuildError>)
    ensures r.Success? ==> |r.value.out| == |w.out| + |es|
    ensures r.Failure? ==> base <= r.error.index < base + |es|
    decreases |es|
  {
    if es == [] then Success(w)
    else
      match PopAsWritten(w.stack, es[0].depth - rootLevel)
      case None => Failure(PopFromEmptyList(base))
      case Some(s) => WalkAsWritten(Emit(w, s, es[0].name), es[1..], rootLevel, base + 1)
  }

  /** The position of the first entry that lies below the root level. */
  function FirstShallow(es: seq<Entry>, rootLevel: int): (r: Option<nat>)
    ensures r.None? <==> forall k | 0 <= k < |es| :: es[k].depth >= rootLevel
    ensures r.Some? ==> && r.value < |es|
                        && es[r.value].depth < rootLevel
                        && forall k | 0 <= k < r.value :: es[k].depth >= rootLevel
    decreases |es|
  {
    if es == [] then None
    else if es[0].depth < rootLevel then Some(0)
    else
      var r := FirstShallow(es[1..], rootLevel);
      assert forall k | 1 <= k < |es| :: es[1..][k - 1] == es[k];
      match r
      case None => None
      case Some(j) => Some(j + 1)
  }

  /** The loop as written fails at the first entry below the root level, and
      otherwise computes what the guarded loop computes. */
  lemma {:induction false} WalkAsWrittenSpec(w: Walker, es: seq<Entry>, rootLevel: int, base: nat)
    ensures WalkAsWritten(w, es, rootLevel, base)
            == match FirstShallow(es, rootLevel)
               case None => Success(Walk(w, es, rootLevel))
               case Some(j) => Failure(PopFromEmptyList(base + j))
    decreases |es|
  {
    if es != [] {
      var p := PopAsWritten(w.stack, es[0].depth - rootLevel);
      if p.Some? {
        var w' := Emit(w, p.value, es[0].name);
        assert w' == Step(w, es[0], rootLevel);
        assert Walk(w, es, rootLevel) == Walk(w', es[1..], rootLevel);
        assert FirstShallow(es, rootLevel)
               == match FirstShallow(es[1..], rootLevel)
                  case None => None
                  case Some(j) => Some(j + 1);
        WalkAsWrittenSpec(w', es[1..], rootLevel, base + 1);
      } else {
        assert FirstShallow(es, rootLevel) == Some(0);
      }
    }
  }

  /** `parsed[2:]`: entry 0 names the root and entry 1 is skipped. */
  function Payload(parsed: seq<Entry>): seq<Entry> {
    if |parsed| < 2 then [] else parsed[2..]
  }

  const Start := Walker([], [])

  /** `build_paths` with the guarded pop loop; total. */
  function BuildPaths(parsed: seq<Entry>): (r: Layout)
    ensures r.root.None? <==> |parsed| == 0
    ensures r.root.None? ==> r.paths == []
    ensures r.root.Some? ==> && r.root.value <= parsed[0].name
                             && !EndsWithSlash(r.root.value)
                             && forall i | |r.root.value| <= i < |parsed[0].name| :: parsed[0].name[i] == '/'
    ensures |r.paths| == Max(0, |parsed| - 2)
    ensures forall k | 0 <= k < |r.paths| :: r.paths[k].parts != []
  {
    if |parsed| == 0 then Layout(None, [])
    else Layout(Some(RStripSlash(parsed[0].name)), Walk(Start, Payload(parsed), parsed[0].depth).out)
  }

  /** `build_paths` exactly as written: it raises as soon as a payload entry
      lies shallower than the root, and otherwise agrees with `BuildPaths`. */
  function BuildPathsAsWritten(parsed: seq<Entry>): (r: Result<Layout, BuildError>)
    ensures r.Failure? <==> exists k | 2 <= k < |parsed| :: parsed[k].depth < parsed[0].depth
    ensures r.Success? ==> r.value == BuildPaths(parsed)
    ensures r.Failure? ==> && 2 <= r.error.index < |parsed|
                           && parsed[r.error.index].depth < parsed[0].depth
                           && forall k | 2 <= k < r.error.index :: parsed[k].depth >= parsed[0].depth
  {
    if |parsed| == 0 then Success(Layout(None, []))
    else
      var rest := Payload(parsed);
      assert forall k | 2 <= k < |parsed| :: parsed[k] == rest[k - 2];
      WalkAsWrittenSpec(Start, rest, parsed[0].depth, 2);
      var first := FirstShallow(rest, parsed[0].depth);
      match WalkAsWritten(Start, rest, parsed[0].depth, 2)
      case Success(w) => Success(Layout(Some(RStripSlash(parsed[0].name)), w.out))
      case Failure(e) => Failure(e)
  }

  /** Running the loop over two blocks of entries is running it over each in turn. */
  lemma {:induction false} WalkAppend(w: Walker, a: seq<Entry>, b: seq<Entry>, rootLevel: int)
    ensures Walk(w, a + b, rootLevel) == Walk(Walk(w, a, rootLevel), b, rootLevel)
    decreases |a|
  {
    if a == [] {
      assert a + b == b;
    } else {
      assert (a + b)[0] == a[0];
      assert (a + b)[1..] == a[1..] + b;
      WalkAppend(Step(w, a[0], rootLevel), a[1..], b, rootLevel);
    }
  }

  /** The output of the loop up to and including entry k is what one step
      from the state before entry k emits. */
  lemma WalkAt(w: Walker, es: seq<Entry>, rootLevel: int, k: nat)
    requires k < |es|
    ensures var before := Walk(w, es[..k], rootLevel);
            Walk(w, es, rootLevel).out[..|w.out| + k + 1] == Step(before, es[k], rootLevel).out
  {
    var before := Walk(w, es[..k], rootLevel);
    assert es == es[..k] + es[k..];
    WalkAppend(w, es[..k], es[k..], rootLevel);
    assert es[k..][0] == es[k];
    assert es[k..][1..] == es[k + 1..];
  }

  /** The stack before payload entry k is handled. */
  function StackBefore(parsed: seq<Entry>, k: nat): seq<string>
    requires |parsed| > 0 && k <= |Payload(parsed)|
  {
    Walk(Start, Payload(parsed)[..k], parsed[0].depth).stack
  }

  /** Output entry k comes from input entry k + 2: its parent components are
      the stack popped to that entry's adjusted level. */
  lemma EntryShape(parsed: seq<Entry>, k: nat)
    requires k < |BuildPaths(parsed).paths|
    ensures var p := BuildPaths(parsed).paths[k];
            var e := parsed[k + 2];
            && p.isDir == EndsWithSlash(e.name)
            && p.parts == PopTo(StackBefore(parsed, k), e.depth - parsed[0].depth) + [RStripSlash(e.name)]
            && BuildPaths(parsed).paths[..k] == Walk(Start, Payload(parsed)[..k], parsed[0].depth).out
  {
    var rest := Payload(parsed);
    var rl := parsed[0].depth;
    var out := Walk(Start, rest, rl).out;
    assert BuildPaths(parsed).paths == out;
    var before := Walk(Start, rest[..k], rl);
    var after := Step(before, rest[k], rl);
    WalkAt(Start, rest, rl, k);
    assert |before.out| == k;
    assert out[k] == after.out[k];
    assert out[..k] == after.out[..k] == before.out;
    assert rest[k] == parsed[k + 2];
  }

  /** Directory classification: an output entry is a directory exactly when
      its source name ends in '/', and its last component is that name with
      every trailing '/' removed. */
  lemma Classification(parsed: seq<Entry>, k: nat)
    requires k < |BuildPaths(parsed).paths|
    ensures var p := BuildPaths(parsed).paths[k];
            var name := parsed[k + 2].name;
            && (p.isDir <==> EndsWithSlash(name))
            && p.parts != []
            && p.parts[|p.parts| - 1] <= name
            && !EndsWithSlash(p.parts[|p.parts| - 1])
            && forall i | |p.parts[|p.parts| - 1]| <= i < |name| :: name[i] == '/'
  {
    EntryShape(parsed, k);
  }

  /** The number of directory entries in `out`. */
  function CountDirs(out: seq<PathEntry>): nat {
    if out == [] then 0
    else CountDirs(out[..|out| - 1]) + (if out[|out| - 1].isDir then 1 else 0)
  }

  /** Some directory entry of `out` has exactly the components `p`. */
  ghost predicate EmittedDir(out: seq<PathEntry>, p: seq<string>) {
    exists j | 0 <= j < |out| :: out[j].isDir && out[j].parts == p
  }

  /** The loop invariant: every non-empty prefix of the stack is the path of
      a directory already emitted, and the stack is no deeper than the number
      of directories emitted. */
  ghost predicate Sound(w: Walker) {
    && (forall i | 1 <= i <= |w.stack| :: EmittedDir(w.out, w.stack[..i]))
    && |w.stack| <= CountDirs(w.out)
  }

  lemma StepSound(w: Walker, e: Entry, rootLevel: int)
    requires Sound(w)
    ensures Sound(Step(w, e, rootLevel))
  {
    var s := PopTo(w.stack, e.depth - rootLevel);
    var w' := Step(w, e, rootLevel);
    var n := |w.out|;
    assert w'.out[..n] == w.out;
    assert CountDirs(w'.out) == CountDirs(w.out) + (if w'.out[n].isDir then 1 else 0);
    forall i | 1 <= i <= |w'.stack|
      ensures EmittedDir(w'.out, w'.stack[..i])
    {
      if i <= |s| {
        assert w'.stack[..i] == w.stack[..i];
        var j :| 0 <= j < n && w.out[j].isDir && w.out[j].parts == w.stack[..i];
        assert w'.out[j] == w.out[j];
      } else {
        assert w'.stack[..i] == w'.out[n].parts;
      }
    }
  }

  lemma {:induction false} WalkSound(w: Walker, es: seq<Entry>, rootLevel: int)
    requires Sound(w)
    ensures Sound(Walk(w, es, rootLevel))
    decreases |es|
  {
    if es != [] {
      StepSound(w, es[0], rootLevel);
      WalkSound(Step(w, es[0], rootLevel), es[1..], rootLevel);
    }
  }

  /** Stack bounds: an output path has at most one component more than the
      entry's level above the root, and at most one more than the number of
      directories emitted before it. */
  lemma PathBounds(parsed: seq<Entry>, k: nat)
    requires k < |BuildPaths(parsed).paths|
    ensures var paths := BuildPaths(parsed).paths;
            && |paths[k].parts| <= Max(0, parsed[k + 2].depth - parsed[0].depth) + 1
            && |paths[k].parts| <= CountDirs(paths[..k]) + 1
  {
    EntryShape(parsed, k);
    WalkSound(Start, Payload(parsed)[..k], parsed[0].depth);
  }

  /** Parents before children: every proper non-empty prefix of an output
      path is the path of a directory emitted earlier, so a directory always
      precedes everything created inside it. */
  lemma ParentsFirst(parsed: seq<Entry>, k: nat)
    requires k < |BuildPaths(parsed).paths|
    ensures var paths := BuildPaths(parsed).paths;
            forall i | 1 <= i < |paths[k].parts| ::
              exists j | 0 <= j < k :: paths[j].isDir && paths[j].parts == paths[k].parts[..i]
  {
    var paths := BuildPaths(parsed).paths;
    var before := Walk(Start, Payload(parsed)[..k], parsed[0].depth);
    EntryShape(parsed, k);
    WalkSound(Start, Payload(parsed)[..k], parsed[0].depth);
    var s := PopTo(before.stack, parsed[k + 2].depth - parsed[0].depth);
    forall i | 1 <= i < |paths[k].parts|
      ensures exists j | 0 <= j < k :: paths[j].isDir && paths[j].parts == paths[k].parts[..i]
    {
      assert paths[k].parts[..i] == before.stack[..i];
      var j :| 0 <= j < |before.out| && before.out[j].isDir && before.out[j].parts == before.stack[..i];
      assert paths[j] == before.out[j];
    }
  }

  /** The contents of entry 1 never affect the result. */
  lemma SecondEntryIgnored(parsed: seq<Entry>, e: Entry)
    requires |parsed| >= 2
    ensures BuildPaths(parsed[1 := e]) == BuildPaths(parsed)
    ensures BuildPathsAsWritten(parsed[1 := e]) == BuildPathsAsWritten(parsed)
  {
    assert Payload(parsed[1 := e]) == Payload(parsed);
  }

  /** A payload entry no deeper than the root lands at the top level: the
      guarded pop loop empties the stack instead of failing. */
  lemma ShallowEntryIsTopLevel(parsed: seq<Entry>, k: nat)
    requires k < |BuildPaths(parsed).paths|
    requires parsed[k + 2].depth <= parsed[0].depth
    ensures BuildPaths(parsed).paths[k].parts == [RStripSlash(parsed[k + 2].name)]
  {
    EntryShape(parsed, k);
  }

  /** The stack before payload entry k + 1 is the stack one step after the
      stack before entry k. */
  lemma StackBeforeNext(parsed: seq<Entry>, k: nat)
    requires |parsed| > 0 && k < |Payload(parsed)|
    ensures var rest := Payload(parsed);
            var rl := parsed[0].depth;
            StackBefore(parsed, k + 1) == Step(Walk(Start, rest[..k], rl), rest[k], rl).stack
  {
    var rest := Payload(parsed);
    var rl := parsed[0].depth;
    assert rest[..k + 1] == rest[..k] + [rest[k]];
    WalkAppend(Start, rest[..k], [rest[k]], rl);
    assert [rest[k]][1..] == [];
  }

  /** The entry after a directory nests inside it exactly when its level above
      the root is at least the directory's component count; otherwise it
      lands beside the directory or higher up. */
  lemma ChildOfPreviousDirectory(parsed: seq<Entry>, k: nat)
    requires k + 1 < |BuildPaths(parsed).paths|
    requires BuildPaths(parsed).paths[k].isDir
    ensures var paths := BuildPaths(parsed).paths;
            paths[k + 1].parts == paths[k].parts + [RStripSlash(parsed[k + 3].name)]
            <==> parsed[k + 3].depth - parsed[0].depth >= |paths[k].parts|
  {
    var paths := BuildPaths(parsed).paths;
    var dir := paths[k].parts;
    var name := RStripSlash(parsed[k + 3].name);
    var level := parsed[k + 3].depth - parsed[0].depth;
    StackAfterDirectory(parsed, k);
    assert paths[k + 1].parts == PopTo(dir, level) + [name] by {
      EntryShape(parsed, k + 1);
    }
    NestsIffDeepEnough(dir, level, name);
  }

  /** After a directory entry the stack holds exactly that directory's components. */
  lemma StackAfterDirectory(parsed: seq<Entry>, k: nat)
    requires k < |BuildPaths(parsed).paths|
    requires BuildPaths(parsed).paths[k].isDir
    ensures StackBefore(parsed, k + 1) == BuildPaths(parsed).paths[k].parts
  {
    var rest := Payload(parsed);
    var rl := parsed[0].depth;
    var before := Walk(Start, rest[..k], rl);
    EntryShape(parsed, k);
    StackBeforeNext(parsed, k);
    assert EndsWithSlash(rest[k].name) by {
      assert rest[k] == parsed[k + 2];
    }
  }

  /** After a file entry the stack holds that file's parent components:
      nothing is pushed for a file. */
  lemma StackAfterFile(parsed: seq<Entry>, k: nat)
    requires k < |BuildPaths(parsed).paths|
    requires !BuildPaths(parsed).paths[k].isDir
    ensures var p := BuildPaths(parsed).paths[k].parts;
            StackBefore(parsed, k + 1) == p[..|p| - 1]
  {
    EntryShape(parsed, k);
    StackBeforeNext(parsed, k);
    assert Payload(parsed)[k] == parsed[k + 2];
  }

  lemma NestsIffDeepEnough(dir: seq<string>, level: int, name: string)
    requires dir != []
    ensures PopTo(dir, level) + [name] == dir + [name] <==> level >= |dir|
  {
    if level < |dir| {
      assert |PopTo(dir, level) + [name]| < |dir + [name]|;
    }
  }

  /** The path string the source emits for a component list (lines 71-74):
      the components joined by `os.path.join` when there is a stack, the bare
      name otherwise. */
  function RenderPath(parts: seq<string>): (r: string)
    requires parts != []
    ensures r == PosixPath.Join(parts)
    ensures (forall k | 0 <= k < |parts| :: PosixPath.Plain(parts[k])) ==> r == PosixPath.SlashJoin(parts)
  {
    PosixPath.JoinPlain(parts);
    if |parts| > 1 then PosixPath.Join(parts) else parts[0]
  }

  /** The source's list of `(full_path, is_dir)` pairs for a layout. */
  function Rendered(paths: seq<PathEntry>): (r: seq<(string, bool)>)
    requires forall k | 0 <= k < |paths| :: paths[k].parts != []
    ensures |r| == |paths|
    ensures forall k | 0 <= k < |paths| :: r[k] == (PosixPath.Join(paths[k].parts), paths[k].isDir)
  {
    seq(|paths|, k requires 0 <= k < |paths| => (RenderPath(paths[k].parts), paths[k].isDir))
  }

  /** One iteration of the as-written loop, at position `i` of the payload,
      that gets past the pop loop. */
  lemma {:induction false} WalkAsWrittenEmits(w: Walker, rest: seq<Entry>, rootLevel: int, i: nat)
    requires i < |rest|
    requires rest[i].depth >= rootLevel
    ensures WalkAsWritten(w, rest[i..], rootLevel, 2 + i)
            == WalkAsWritten(Step(w, rest[i], rootLevel), rest[i + 1..], rootLevel, 2 + i + 1)
  {
    var level := rest[i].depth - rootLevel;
    assert PopAsWritten(w.stack, level) == Some(PopTo(w.stack, level));
    assert rest[i..][0] == rest[i];
    assert rest[i..][1..] == rest[i + 1..];
  }

  /** One iteration of the as-written loop that pops an empty stack. */
  lemma WalkAsWrittenRaises(w: Walker, rest: seq<Entry>, rootLevel: int, i: nat)
    requires i < |rest|
    requires rest[i].depth < rootLevel
    ensures WalkAsWritten(w, rest[i..], rootLevel, 2 + i) == Failure(PopFromEmptyList(2 + i))
  {
    assert rest[i..][0] == rest[i];
  }

  /** The source's `while len(stack) > adjusted_level: stack.pop()`, failing
      where `list.pop()` would raise. */
  method PopLoop(stack0: seq<string>, level: int) returns (r: Option<seq<string>>)
    ensures r == PopAsWritten(stack0, level)
  {
    var stack := stack0;
    while |stack| > level
      invariant PopAsWritten(stack, level) == PopAsWritten(stack0, level)
      decreases |stack|
    {
      if |stack| == 0 {
        return None;
      }
      stack := stack[..|stack| - 1];
    }
    return Some(stack);
  }

  /** The source's loop, statement by statement: the outer `for` over
      `parsed[2:]` and the inner `while` pop loop, which fails on an empty
      stack. */
  method BuildPathsLoop(parsed: seq<Entry>) returns (r: Result<Layout, BuildError>)
    ensures r == BuildPathsAsWritten(parsed)
  {
    if |parsed| == 0 {
      return Success(Layout(None, []));
    }
    var rootName := RStripSlash(parsed[0].name);
    var walked := WalkLoop(Payload(parsed), parsed[0].depth);
    if walked.Failure? {
      return Failure(walked.error);
    }
    return Success(Layout(Some(rootName), walked.value.out));
  }

  /** The outer `for` loop over the payload entries, starting from an empty
      stack and counting positions from 2. */
  method WalkLoop(rest: seq<Entry>, rootLevel: int) returns (r: Result<Walker, BuildError>)
    ensures r == WalkAsWritten(Start, rest, rootLevel, 2)
  {
    var stack: seq<string> := [];
    var paths: seq<PathEntry> := [];
    var i := 0;
    while i < |rest|
      invariant 0 <= i <= |rest|
      invariant WalkAsWritten(Start, rest, rootLevel, 2) == WalkAsWritten(Walker(stack, paths), rest[i..], rootLevel, 2 + i)
    {
      var next := LoopBody(stack, paths, rest[i], rootLevel);
      if next.None? {
        WalkAsWrittenRaises(Walker(stack, paths), rest, rootLevel, i);
        return Failure(PopFromEmptyList(2 + i));
      }
      WalkAsWrittenEmits(Walker(stack, paths), rest, rootLevel, i);
      stack, paths := next.value.stack, next.value.out;
      i := i + 1;
    }
    assert rest[i..] == [];
    return Success(Walker(stack, paths));
  }

  /** The body of the `for` loop for one entry: pop, classify, emit, push;
      `None` where the pop loop raises. */
  method LoopBody(stack0: seq<string>, paths0: seq<PathEntry>, e: Entry, rootLevel: int)
    returns (r: Option<Walker>)
    ensures r.None? <==> e.depth < rootLevel
    ensures r.Some? ==> r.value == Step(Walker(stack0, paths0), e, rootLevel)
  {
    var name := e.name;
    var adjusted := e.depth - rootLevel;
    var popped := PopLoop(stack0, adjusted);
    if popped.None? {
      return None;
    }
    var stack := popped.value;
    var isDir := EndsWithSlash(name);
    var cleanName := RStripSlash(name);
    var paths := paths0 + [PathEntry(stack + [cleanName], isDir)];
    if isDir {
      stack := stack + [cleanName];
    }
    return Some(Walker(stack, paths));
  }
}
