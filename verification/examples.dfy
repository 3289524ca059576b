/** Worked inputs: a sample tree, a line drawn under a connector column, and a
    root drawn one column in that makes the pop loop raise. */
module Examples {
  import opened Wrappers
  import opened Text
  import opened TreeText
  import opened PathBuilder

  const Tee: string := "\U{251C}\U{2500}\U{2500}"
  const Elbow: string := "\U{2514}\U{2500}\U{2500}"

  /** Characters of the plain file names used below. */
  predicate NameChar(c: char) {
    || 'a' <= c <= 'z' || 'A' <= c <= 'Z' || '0' <= c <= '9'
    || c == '.' || c == '/' || c == '_' || c == '-'
  }

  predicate FileName(name: string) {
    name != [] && forall i | 0 <= i < |name| :: NameChar(name[i])
  }

  /** Plain file names are names the parser can emit. */
  lemma FileNameIsWellFormed(name: string)
    requires FileName(name)
    ensures WellFormedName(name)
  {
    assert name != Connector by {
      assert !NameChar(Connector[0]);
    }
  }

  /** A tree line: indentation, a connector glyph, one space and a name. */
  function Drawn(pad: string, glyph: string, name: string): string {
    pad + glyph + " " + name
  }

  /** A drawn line yields its name at depth 1, however far it is indented. */
  lemma DrawnLine(pad: string, glyph: string, name: string)
    requires Blank(pad)
    requires glyph != [] && NoSpace(glyph) && '#' !in glyph
    requires FileName(name)
    ensures LineEntry(Drawn(pad, glyph, name)) == Some(Entry(name, 1))
  {
    FileNameIsWellFormed(name);
    LineEntryOfLine(pad, [glyph, name]);
    assert Drawn(pad, glyph, name) == pad + (glyph + Unwords([name]));
  }

  /** A line drawn under a connector column, `"│   └── name"`: the three
      spaces after the connector separate it from the elbow like one space
      would, so the name has depth 2. */
  lemma NestedLine(name: string)
    requires WellFormedName(name)
    ensures LineEntry(Connector + "   " + Elbow + " " + name) == Some(Entry(name, 2))
  {
    var ts, seps := [Connector, Elbow, name], ["", "   ", " "];
    assert Separators(seps, "");
    LineEntryOfSpaced(ts, seps, "");
    assert Spaced(ts, seps, "") == Connector + "   " + Elbow + " " + name by {
      assert Spaced(ts[2..], seps[2..], "") == " " + (name + "");
      assert Spaced(ts[1..], seps[1..], "") == "   " + (Elbow + (" " + (name + "")));
    }
  }

  /** A header, the root, a connector-only line and three payload lines. */
  const SampleLines: seq<string> :=
    ["header", "project/", Connector, Drawn("", Tee, "README.md"), Drawn("", Elbow, "src/"), Drawn("    ", Elbow, "main.py")]

  const SampleText: string := JoinLines(SampleLines)

  const SampleEntries: seq<Entry> :=
    [Entry("project/", 0), Entry("README.md", 1), Entry("src/", 1), Entry("main.py", 1)]

  lemma RootLine()
    ensures LineEntry(SampleLines[1]) == Some(Entry("project/", 0))
  {
    PlainLine("project/");
  }

  lemma ConnectorLine()
    ensures LineEntry(SampleLines[2]) == None
  {
    LineEntryOfLine("", [Connector]);
    assert Connector == "" + (Connector + Unwords([]));
  }

  lemma ReadmeLine()
    ensures LineEntry(SampleLines[3]) == Some(Entry("README.md", 1))
  {
    DrawnLine("", Tee, "README.md");
  }

  lemma SrcLine()
    ensures LineEntry(SampleLines[4]) == Some(Entry("src/", 1))
  {
    DrawnLine("", Elbow, "src/");
  }

  lemma MainLine()
    ensures LineEntry(SampleLines[5]) == Some(Entry("main.py", 1))
  {
    DrawnLine("    ", Elbow, "main.py");
  }

  /** The connector line yields nothing and every other payload line yields
      its last token at depth 1 (the last line's leading spaces produce no
      token). */
  lemma SampleParses()
    ensures Parse(SampleText) == SampleEntries
  {
    SampleSplits();
    SampleTailParses();
  }

  lemma SampleSplits()
    ensures SplitLines(SampleText) == SampleLines
  {
    var ls := SampleLines;
    assert forall k | 0 <= k < |ls| :: '\n' !in ls[k];
    SplitJoinLines(ls);
  }

  lemma SampleTailParses()
    ensures ParseLines(SampleLines[1..]) == SampleEntries
  {
    RootLine();
    ConnectorLine();
    ReadmeLine();
    SrcLine();
    MainLine();
    var ls := SampleLines;
    assert ls[1..] == [ls[1], ls[2], ls[3], ls[4], ls[5]];
    FiveLines(ls[1], ls[2], ls[3], ls[4], ls[5],
              Entry("project/", 0), Entry("README.md", 1), Entry("src/", 1), Entry("main.py", 1));
  }

  /** Five lines of which the second yields nothing. */
  lemma FiveLines(l1: string, l2: string, l3: string, l4: string, l5: string,
                  e1: Entry, e3: Entry, e4: Entry, e5: Entry)
    requires LineEntry(l1) == Some(e1) && LineEntry(l2) == None
    requires LineEntry(l3) == Some(e3) && LineEntry(l4) == Some(e4) && LineEntry(l5) == Some(e5)
    ensures ParseLines([l1, l2, l3, l4, l5]) == [e1, e3, e4, e5]
  {
    ThreeLines(l1, l2, l3, e1, e3);
    assert [l1, l2, l3, l4] == [l1, l2, l3] + [l4];
    ParseLinesSnoc([l1, l2, l3], l4);
    assert [l1, l2, l3, l4, l5] == [l1, l2, l3, l4] + [l5];
    ParseLinesSnoc([l1, l2, l3, l4], l5);
  }

  /** The entry after the root ("README.md") is the one `build_paths` skips,
      and "main.py" nests under "src" although both have depth 1. */
  lemma SampleBuilds()
    ensures BuildPaths(SampleEntries) == Layout(Some("project"), [PathEntry(["src"], true), PathEntry(["src", "main.py"], false)])
  {
    var rest := Payload(SampleEntries);
    assert rest == [Entry("src/", 1), Entry("main.py", 1)];
    assert RStripSlash("src/") == "src" by {
      assert EndsWithSlash("src/");
      assert "src/"[..3] == "src";
      assert !EndsWithSlash("src");
    }
    assert RStripSlash("main.py") == "main.py" by {
      assert !EndsWithSlash("main.py");
    }
    assert RStripSlash("project/") == "project" by {
      assert EndsWithSlash("project/");
      assert "project/"[..7] == "project";
      assert !EndsWithSlash("project");
    }
    var w1 := Step(Start, rest[0], 0);
    assert PopTo([], 1) == [];
    assert w1 == Emit(Start, [], "src/");
    assert [] + ["src"] == ["src"];
    assert Start.out + [PathEntry(["src"], true)] == [PathEntry(["src"], true)];
    assert w1 == Walker(["src"], [PathEntry(["src"], true)]);
    var w2 := Step(w1, rest[1], 0);
    assert PopTo(["src"], 1) == ["src"];
    assert w2 == Emit(w1, ["src"], "main.py");
    assert ["src"] + ["main.py"] == ["src", "main.py"];
    assert w2.out == w1.out + [PathEntry(["src", "main.py"], false)];
    assert w2.out == [PathEntry(["src"], true), PathEntry(["src", "main.py"], false)];
    assert rest[1..][1..] == [];
  }

  /** A root drawn one column in, followed by entries at the left margin. */
  const ShallowLines: seq<string> := ["header", Drawn("", Tee, "proj/"), "x", "foo"]

  const ShallowEntries: seq<Entry> := [Entry("proj/", 1), Entry("x", 0), Entry("foo", 0)]

  const ShallowText: string := JoinLines(ShallowLines)

  lemma ShallowParses()
    ensures Parse(ShallowText) == ShallowEntries
  {
    ShallowSplits();
    ShallowTailParses();
  }

  lemma ShallowSplits()
    ensures SplitLines(ShallowText) == ShallowLines
  {
    var ls := ShallowLines;
    assert forall k | 0 <= k < |ls| :: '\n' !in ls[k];
    SplitJoinLines(ls);
  }

  lemma ShallowTailParses()
    ensures ParseLines(ShallowLines[1..]) == ShallowEntries
  {
    var ls := ShallowLines;
    assert ls[1..] == [ls[1], "x", "foo"];
    ShallowRootLine();
    RootThenPlain(ls[1], Entry("proj/", 1), "x", "foo");
  }

  /** A root line followed by two names at the left margin. */
  lemma RootThenPlain(root: string, e: Entry, a: string, b: string)
    requires LineEntry(root) == Some(e)
    requires FileName(a) && FileName(b)
    ensures ParseLines([root, a, b]) == [e, Entry(a, 0), Entry(b, 0)]
  {
    PlainLine(a);
    PlainLine(b);
    ThreeLines(root, a, b, e, Entry(b, 0));
  }

  lemma ShallowRootLine()
    ensures LineEntry(ShallowLines[1]) == Some(Entry("proj/", 1))
  {
    DrawnLine("", Tee, "proj/");
  }

  /** A line holding one well-formed name at the left margin has depth 0. */
  lemma PlainLine(name: string)
    requires FileName(name)
    ensures LineEntry(name) == Some(Entry(name, 0))
  {
    FileNameIsWellFormed(name);
    LineEntryOfLine("", [name]);
    assert name == "" + (name + Unwords([]));
  }

  /** Three lines of which the first and last yield an entry; the middle
      one yields `e2` or, when it is `None`, nothing. */
  lemma ThreeLines(l1: string, l2: string, l3: string, e1: Entry, e3: Entry)
    requires LineEntry(l1) == Some(e1) && LineEntry(l3) == Some(e3)
    ensures ParseLines([l1, l2, l3])
            == [e1] + (if LineEntry(l2).Some? then [LineEntry(l2).value] else []) + [e3]
  {
    var mid := if LineEntry(l2).Some? then [LineEntry(l2).value] else [];
    assert ParseLines([l1]) == [e1] by {
      assert [l1] == [] + [l1];
      ParseLinesSnoc([], l1);
    }
    assert ParseLines([l1, l2]) == [e1] + mid by {
      assert [l1, l2] == [l1] + [l2];
      ParseLinesSnoc([l1], l2);
    }
    assert [l1, l2, l3] == [l1, l2] + [l3];
    ParseLinesSnoc([l1, l2], l3);
  }

  /** The source's pop loop meets an empty stack at entry 2, whose level lies
      below the root's, and raises; the guarded loop files "foo" at the top. */
  lemma ShallowEntryRaises()
    ensures BuildPathsAsWritten(ShallowEntries) == Failure(PopFromEmptyList(2))
    ensures BuildPaths(ShallowEntries) == Layout(Some("proj"), [PathEntry(["foo"], false)])
  {
    var parsed := ShallowEntries;
    assert parsed[2].depth < parsed[0].depth;
    assert RStripSlash("proj/") == "proj" by {
      assert EndsWithSlash("proj/");
      assert "proj/"[..4] == "proj";
      assert !EndsWithSlash("proj");
    }
    assert RStripSlash("foo") == "foo" by {
      assert !EndsWithSlash("foo");
    }
    ShallowEntryIsTopLevel(parsed, 0);
  }
}
