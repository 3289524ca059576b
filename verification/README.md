# Folder-structure parser: a Dafny model

This project models the text-to-tree pipeline of `StructureParser` in
`parser.py`. The pipeline turns a tree drawn as text into a list of folder
and file paths. It has two stages.

- **`parse(text)`** splits the text into lines and drops the first line.
  On each remaining line it cuts everything from the first `#`, splits on
  whitespace, and keeps the last token together with the number of tokens
  before it (the entry's *depth*). Lines with no token are dropped, and so
  are lines whose last token is the connector `│` (U+2502).
- **`build_paths(parsed)`** turns the list into a root folder name (entry 0
  with trailing `/` removed) and an ordered list of `(path, is_dir)` pairs.
  It skips entry 1, then walks the remaining entries with a stack of
  directory names. For each entry it pops the stack down to the entry's
  depth relative to the root, emits `stack + [clean name]`, and pushes the
  clean name when the entry is a directory (its name ends in `/`).

Modules:

- `Wrappers`: `Option` and `Result`.
- `Text`: the string operations used by `parse`.
  - Whitespace is Python's `str.isspace` set, written out.
  - `CutComment` is the `#` cut.
  - `Tokens` is `str.split()` with no argument.
  - `SplitLines` is `str.split('\n')`.
  - `Tokens` and `SplitLines` come with an inverse or a reference definition: `Spaced`, `Unwords`, `Squeeze`, `JoinLines`.
  - `CutComment` is specified directly by its ensures: the text before the first `#`.
- `TreeText`: `parse` as `Parse`, with its per-line step `LineEntry`.
  - `Render` draws a list of entries as tree text.
  - The round trip `Parse(Render(h, es)) == es` is proved.
- `PosixPath`: `os.path.join` on POSIX hosts, as a left fold in which an
  absolute component restarts the path. It is compared with the plain
  slash-separated rendering.
- `PathBuilder`: `build_paths`. Paths are kept as component sequences.
  - `BuildPaths` is the total function with the pop loop guarded against an empty stack.
  - `BuildPathsAsWritten` is the loop exactly as written. It can fail; see Findings.
  - `BuildPathsLoop`, `WalkLoop`, `LoopBody` and `PopLoop` restate the source's loops statement by statement. Each is proved equal to its functional counterpart: `BuildPathsAsWritten`, `WalkAsWritten`, `Step` (failing iff the entry lies below the root level) and `PopAsWritten`.
- `Examples`: worked inputs.
  - A sample tree parsed and built end to end.
  - A line drawn under a connector column.
  - The input that makes the source's pop loop fail.

Points where the code's behaviour differs from what a reader might expect.
The model follows the code in each case.

- The loop runs over `parsed[2:]`, so the entry after the root is dropped.
  The comment at `parser.py:59` says processing starts "from the second"
  element. A reader might expect `README.md` under `project/` in the sample
  tree, but the code yields only `src` and `src/main.py`
  (`Examples.SampleBuilds`).
- Depth is the number of tokens before the name. Indentation spaces produce
  no token, so `"    └── main.py"` has depth 1, the same as `"└── src/"`.
  Because of this, `main.py` nests inside `src` in the sample
  (`PathBuilder.ChildOfPreviousDirectory` states exactly when that happens).
  A connector column does count: `"│   └── x"` has depth 2, however many
  spaces follow the `│` (`Examples.NestedLine`).
- The test `line[-1] != ''` at `parser.py:31` can never fail, because
  `str.split()` never yields an empty token. `TreeText.LineEntry` keeps the
  test, and `TreeText.EntryIsLastToken` characterises the result without it.
- Only `│` is filtered. `self.tree_symbols` (`parser.py:11`) is never read,
  so `|`, `├──` and the other glyphs can become names when they are last on
  a line.

## Model

| member | source | states |
|---|---|---|
| Text.CutComment | parser.py:27 | the result is the longest prefix of the line without `#`: a prefix, `#`-free, followed by `#` when shorter, the whole line when there is no `#` |
| Text.Tokens | parser.py:28 | every token is non-empty, holds no whitespace, and is made of characters of the line |
| Text.TokensKeepContent | parser.py:28 | the tokens concatenated are exactly the line's non-whitespace characters in order, so splitting loses only whitespace |
| Text.TokensOfUnwords | parser.py:28 | round trip: splitting a space-separated rendering of whitespace-free tokens returns those tokens |
| Text.TokensSkipBlank | parser.py:28 | leading whitespace produces no token, so indentation does not change the split |
| Text.TokensOfLine | parser.py:28-29 | a padded line of tokens splits back into exactly those tokens |
| Text.TokensOfSpaced | parser.py:28 | tokens are maximal runs: with any leading whitespace, any non-empty whitespace between tokens and any trailing whitespace, splitting returns exactly the tokens |
| Text.SplitLines | parser.py:23 | `split('\n')` yields one more piece than there are newlines, no piece holds a newline, and joining the pieces with newlines gives back the text |
| Text.SplitJoinLines | parser.py:23 | round trip: newline-free lines joined with '\n' split back into the same lines |
| Text.SplitLinesCons | parser.py:23 | a newline-free line followed by '\n' and more text splits into that line, then the pieces of the rest |
| TreeText.LineEntry | parser.py:27-33 | an emitted name is non-empty, whitespace-free, `#`-free and not the connector; its depth is non-negative; its characters come from the line |
| TreeText.EntryIsLastToken | parser.py:28-33 | a line yields an entry iff it has a token after the comment cut and its last token is not `│` (the empty-token test never matters); the entry is that last token, with depth token count minus 1 |
| TreeText.BlankHasNoTokens | parser.py:28-30 | a line has no tokens exactly when it is all whitespace, so exactly the blank lines are skipped |
| TreeText.LineEntryOfLine | parser.py:27-33 | a padded, comment-free line of tokens yields nothing when its last token is `│`, and otherwise its last token at depth token count minus 1 |
| TreeText.LineEntryOfSpaced | parser.py:27-33 | on a comment-free line with any whitespace layout, the entry is the last token at depth token count minus 1, or nothing when that token is `│`; several spaces between glyphs separate them once |
| TreeText.ParseLines | parser.py:26-33 | at most one entry per line, each well formed |
| TreeText.ParseLinesAppend | parser.py:26-33 | entries of consecutive blocks of lines come out consecutively |
| TreeText.ParseLinesSnoc | parser.py:26-33 | one more line appends that line's entry, if it yields one, and changes nothing before it |
| TreeText.Parse | parser.py:13-35 | the result has at most one entry per newline of the text, and every entry is well formed |
| TreeText.ParseIgnoresHeader | parser.py:23-26 | the first line is never read: the entries are those of the lines after the first newline |
| TreeText.HeaderIrrelevant | parser.py:23-26 | any two header lines in front of the same body give the same entries |
| TreeText.SingleLineIsEmpty | parser.py:23-26 | a text without '\n' yields no entries |
| TreeText.ParseLinesOrigins | parser.py:26-33 | order is preserved: entries match one to one, in increasing line order, the lines that yield an entry, and every other line yields nothing |
| TreeText.LineEntryOfRender | parser.py:27-33 | a well-formed entry drawn as a line of depth connectors and its name parses back to itself |
| TreeText.ParseLinesOfRender | parser.py:26-33 | round trip on the lines: parsing the drawn lines of well-formed entries returns those entries |
| TreeText.ParseRender | parser.py:13-35 | round trip: parsing a header plus the drawing of well-formed entries returns the entries |
| PosixPath.JoinPlain | parser.py:72 | for non-empty, non-absolute, slash-free-at-the-ends components, `os.path.join` is the slash-separated rendering |
| PosixPath.Join | parser.py:72 | `os.path.join` keeps the first component as a prefix while no later component is absolute, and the result always ends with the last component |
| PosixPath.AbsoluteDiscardsPrefix | parser.py:72 | an absolute component discards every component before it |
| PosixPath.EmptyLastComponent | parser.py:72 | an empty last component (the clean name of `"/"`) leaves a trailing separator |
| PathBuilder.RStripSlash | parser.py:67-68 | `rstrip('/')` gives a prefix that does not end in '/', only '/' is removed, and something is removed iff the name ends in '/' |
| PathBuilder.PopTo | parser.py:63-64 | the guarded pop loop leaves a prefix of the stack of length `min(len(stack), level)`, and an empty stack when the level is not positive |
| PathBuilder.PopAsWritten | parser.py:63-64 | the unguarded pop loop fails iff the level is negative, and otherwise leaves what the guarded loop leaves |
| PathBuilder.Emit | parser.py:66-80 | the output grows by one path, one component longer than the popped stack; it is a directory iff the name ends in '/', and exactly then the stack becomes that path |
| PathBuilder.EmitShape | parser.py:66-80 | emitting keeps every earlier path; the new path is the popped stack followed by the name with its trailing '/' run removed; a file leaves the stack as popped |
| PathBuilder.Step | parser.py:62-80 | one loop iteration grows the output by one path, with between 1 and `max(0, level - rootLevel) + 1` components |
| PathBuilder.StepShape | parser.py:62-80 | one iteration keeps every earlier path; the new path is a prefix of the current stack followed by the clean name, flagged by the trailing '/'; afterwards the stack is that path for a directory and its parent components for a file |
| PathBuilder.Walk | parser.py:60-80 | the walk emits exactly one path per entry, keeps what was emitted before, and every emitted path has a component |
| PathBuilder.WalkAsWritten | parser.py:60-80 | the as-written loop, when it completes, emits one path per entry; when it raises, the position it names lies among the entries walked |
| PathBuilder.WalkAsWrittenSpec | parser.py:60-80 | the loop as written fails at the position of the first entry below the root level, and otherwise equals the guarded walk |
| PathBuilder.BuildPaths | parser.py:37-82 | no root iff the input is empty, and then no paths; the root is entry 0's name with its trailing '/' run removed; there are exactly `max(0, len(parsed) - 2)` paths, each with a component |
| PathBuilder.BuildPathsAsWritten | parser.py:49-82 | the source fails iff some entry from index 2 on lies shallower than the root, and then at the first such index; otherwise it returns what `BuildPaths` returns |
| PathBuilder.WalkAppend | parser.py:60-80 | walking two blocks of entries is walking each in turn |
| PathBuilder.EntryShape | parser.py:60-80 | output k comes from input k + 2: its flag is the name's trailing '/', its parts are the popped stack plus the clean name, and everything before it is the walk up to it |
| PathBuilder.Classification | parser.py:67-76 | an output is a directory iff its source name ends in '/'; its last component is that name with every trailing '/' removed and never ends in '/' |
| PathBuilder.StepSound | parser.py:62-80 | one loop iteration keeps the invariant: every non-empty stack prefix is an emitted directory path, and the stack is no deeper than the number of directories emitted |
| PathBuilder.WalkSound | parser.py:60-80 | the whole loop keeps that invariant |
| PathBuilder.PathBounds | parser.py:62-80 | an output path has at most `max(0, level - rootLevel) + 1` components, and at most one more than the number of earlier directory entries |
| PathBuilder.ParentsFirst | parser.py:57-80 | every proper non-empty prefix of an output path is the full path of an earlier directory entry |
| PathBuilder.SecondEntryIgnored | parser.py:60 | replacing entry 1 changes neither the guarded nor the as-written result |
| PathBuilder.ShallowEntryIsTopLevel | parser.py:62-64 | with the guarded loop, an entry no deeper than the root lands at the top level |
| PathBuilder.ChildOfPreviousDirectory | parser.py:62-80 | the entry after a directory nests inside it iff its level above the root is at least the directory's component count |
| PathBuilder.StackAfterDirectory | parser.py:79-80 | after a directory entry the stack is exactly that directory's components |
| PathBuilder.StackAfterFile | parser.py:79-80 | after a file entry the stack is that file's parent components: nothing is pushed for a file |
| PathBuilder.RenderPath | parser.py:71-74 | the emitted string is `os.path.join` of the components (the bare name when there is no stack), and for plain components the slash-separated rendering |
| PathBuilder.Rendered | parser.py:71-76 | the source's `(full_path, is_dir)` list pairs each component list's join with its flag, one per path |
| PathBuilder.PopLoop | parser.py:63-64 | the `while`/`pop` loop computes the as-written pop, failing on an empty stack |
| PathBuilder.LoopBody | parser.py:62-80 | one iteration of the `for` body fails iff the entry lies shallower than the root, and otherwise pops, emits and pushes as the guarded step does |
| PathBuilder.WalkLoop | parser.py:60-80 | the `for` loop computes the as-written walk |
| PathBuilder.BuildPathsLoop | parser.py:49-82 | the method computes exactly what `BuildPathsAsWritten` computes |
| Examples.MainLine | parser.py:28-33 | an indented `└── main.py` line has depth 1, not 2 |
| Examples.NestedLine | parser.py:28-33 | a `│   └── name` line has depth 2: the connector column counts, the spaces after it do not |
| Examples.ConnectorLine | parser.py:31 | a line holding only `│` yields nothing |
| Examples.SampleParses | parser.py:13-35 | the sample tree parses to root, `README.md`, `src/` and `main.py`, all but the root at depth 1 |
| Examples.SampleBuilds | parser.py:37-82 | the sample builds to root `project` with paths `src` (a directory) and `src/main.py`; `README.md` is skipped |
| Examples.ShallowParses | parser.py:13-35 | the shallow sample parses to a root at depth 1 followed by two entries at depth 0 |
| Examples.ShallowEntryRaises | parser.py:60-64 | on the shallow sample the source's loop fails at entry 2, while the guarded loop files `foo` at the top level |

## Left out

- `StructureCreator` (`parser.py:84-145`) is left out. It does filesystem I/O (`mkdir`, `touch`), exception handling and logging callbacks.
- `ui.py` and `main.py` are left out. They hold the GUI and the app entry point, and only call the two modelled functions.
- `self.tree_symbols` (`parser.py:11`) is never read, so it has no behaviour to model.
- The regular-expression engine is left out. `re.sub(r'#.*$', '', line)` on a line without '\n' is modelled directly as "keep the prefix before the first `#`".
- Purity (the input is not mutated and no state survives between calls) is not stated. It holds by construction, because every member is a pure function over immutable values.
- PosixPath.Join models `os.path.join` on POSIX hosts only. The Windows `ntpath` rules (drive letters, backslashes) are not modelled.
- Text.IsSpace is Python's `str.isspace` set written out. Python derives that set from the Unicode database; later Unicode versions could change it.

## Findings

| source | as written | input that shows it | evidently intended | confidence | as-written member | corrected member |
|---|---|---|---|---|---|---|
| parser.py:63-64 | `while len(stack) > adjusted_level: stack.pop()` keeps popping an empty stack when `adjusted_level` is negative, because `0 > -1` still holds. `list.pop()` then raises `IndexError`. | `[("proj/", 1), ("x", 0), ("foo", 0)]`: entry 2 has adjusted level -1 and the stack is empty (Examples.ShallowEntryRaises) | an entry shallower than the root empties the stack and lands at the top level | not executed | PathBuilder.BuildPathsAsWritten | PathBuilder.ShallowEntryIsTopLevel |
