/** First stage of the pipeline: tree-drawn text to an ordered list of
    (name, depth) entries, as `StructureParser.parse` does it. */
module TreeText {
  import opened Wrappers
  import opened Text

  /** One parsed line: the last token and the number of tokens before it. */
  datatype Entry = Entry(name: string, depth: int)

  /** The vertical box-drawing connector U+2502, the only glyph the parser drops. */
  const Connector: string := "\U{2502}"

  /** What every emitted name looks like. */
  predicate WellFormedName(name: string) {
    && name != []
    && NoSpace(name)
    && '#' !in name
    && name != Connector
  }

  function Last<T>(s: seq<T>): T
    requires s != []
  {
    s[|s| - 1]
  }

  /** One line of the input (after the first): cut the comment, split on
      whitespace, and keep the last token with the token count minus one as
      its depth, unless the line is empty or its last token is the connector.
      The source's extra test against the empty token can never fire. */
  function LineEntry(line: string): (r: Option<Entry>)
    ensures r.Some? ==> WellFormedName(r.value.name) && r.value.depth >= 0
    ensures r.Some? ==> forall i | 0 <= i < |r.value.name| :: r.value.name[i] in line
  {
    var cut := CutComment(line);
    var tokens := Tokens(cut);
    assert forall i | 0 <= i < |cut| :: cut[i] == line[i];
    if |tokens| != 0 then
      if Last(tokens) != Connector && Last(tokens) != "" then
        Some(Entry(Last(tokens), |tokens| - 1))
      else
        None
    else
      None
  }

  /** A line has no tokens exactly when it is all whitespace. */
  lemma BlankHasNoTokens(s: string)
    ensures Tokens(s) == [] <==> Blank(s)
  {
    TokensKeepContent(s);
    SqueezeEmpty(s);
  }

  lemma {:induction false} SqueezeEmpty(s: string)
    ensures Squeeze(s) == [] <==> Blank(s)
  {
    if s != [] {
      SqueezeEmpty(s[1..]);
      assert forall i | 1 <= i < |s| :: s[i] == s[1..][i - 1];
    }
  }

  /** The loop over the lines, as a left fold appending one entry per line
      that yields one. */
  function ParseLines(lines: seq<string>): (es: seq<Entry>)
    ensures |es| <= |lines|
    ensures forall k | 0 <= k < |es| :: WellFormedName(es[k].name) && es[k].depth >= 0
  {
    if lines == [] then []
    else
      var prev := ParseLines(lines[..|lines| - 1]);
      match LineEntry(Last(lines))
      case Some(e) => prev + [e]
      case None => prev
  }

  /** `StructureParser.parse`: split on '\n', drop line 0, parse the rest. */
  function Parse(text: string): (es: seq<Entry>)
    ensures |es| <= Count(text, '\n')
    ensures forall k | 0 <= k < |es| :: WellFormedName(es[k].name) && es[k].depth >= 0
  {
    ParseLines(SplitLines(text)[1..])
  }

  /** Entries of consecutive blocks of lines come out consecutively. */
  lemma {:induction false} ParseLinesAppend(a: seq<string>, b: seq<string>)
    ensures ParseLines(a + b) == ParseLines(a) + ParseLines(b)
    decreases |b|
  {
    if b == [] {
      assert a + b == a;
    } else {
      var b' := b[..|b| - 1];
      assert (a + b)[..|a + b| - 1] == a + b';
      assert Last(a + b) == Last(b);
      ParseLinesAppend(a, b');
    }
  }

  /** The first line never matters: whatever header precedes the first '\n',
      the entries are those of the text after it. */
  lemma {:induction false} ParseIgnoresHeader(header: string, body: string)
    requires '\n' !in header
    ensures Parse(header + "\n" + body) == ParseLines(SplitLines(body))
  {
    DropHeader(header, body);
  }

  /** Swapping the header line for any other changes nothing. */
  lemma {:induction false} HeaderIrrelevant(header: string, other: string, body: string)
    requires '\n' !in header && '\n' !in other
    ensures Parse(header + "\n" + body) == Parse(other + "\n" + body)
  {
    ParseIgnoresHeader(header, body);
    ParseIgnoresHeader(other, body);
  }

  lemma {:induction false} DropHeader(header: string, body: string)
    requires '\n' !in header
    ensures SplitLines(header + "\n" + body)[1..] == SplitLines(body)
  {
    SplitLinesCons(header, body);
  }

  /** A text of one line has no entries. */
  lemma SingleLineIsEmpty(text: string)
    requires '\n' !in text
    ensures Parse(text) == []
  {
    CountAbsent(text, '\n');
  }

  /** The indices of the lines that yield an entry, in increasing order. */
  function Origins(lines: seq<string>): seq<nat> {
    if lines == [] then []
    else
      var prev := Origins(lines[..|lines| - 1]);
      if LineEntry(Last(lines)).Some? then prev + [|lines| - 1] else prev
  }

  /** Order is preserved: the entries correspond one to one, in order, to
      the lines that yield one, and every other line yields nothing. */
  lemma {:induction false} ParseLinesOrigins(lines: seq<string>)
    ensures var ix := Origins(lines);
            var es := ParseLines(lines);
            && |ix| == |es|
            && (forall k | 0 <= k < |ix| :: ix[k] < |lines| && LineEntry(lines[ix[k]]) == Some(es[k]))
            && (forall k, m | 0 <= k < m < |ix| :: ix[k] < ix[m])
            && (forall i | 0 <= i < |lines| && i !in ix :: LineEntry(lines[i]).None?)
  {
    OriginsTrace(lines);
  }

  /** `ix` lists, in increasing order, the lines of `lines` that yield an
      entry, and `es` holds those entries. */
  ghost predicate Traces(lines: seq<string>, ix: seq<nat>, es: seq<Entry>) {
    && |ix| == |es|
    && (forall k | 0 <= k < |ix| :: ix[k] < |lines| && LineEntry(lines[ix[k]]) == Some(es[k]))
    && (forall k, m | 0 <= k < m < |ix| :: ix[k] < ix[m])
    && (forall i | 0 <= i < |lines| && i !in ix :: LineEntry(lines[i]).None?)
  }

  lemma {:induction false} OriginsTrace(lines: seq<string>)
    ensures Traces(lines, Origins(lines), ParseLines(lines))
  {
    if lines != [] {
      var n := |lines| - 1;
      var init := lines[..n];
      OriginsTrace(init);
      assert lines == init + [lines[n]];
      ParseLinesSnoc(init, lines[n]);
      TracesSnoc(init, lines[n], Origins(init), ParseLines(init));
    }
  }

  lemma TracesSnoc(init: seq<string>, line: string, ix: seq<nat>, es: seq<Entry>)
    requires Traces(init, ix, es)
    ensures LineEntry(line).Some? ==> Traces(init + [line], ix + [|init|], es + [LineEntry(line).value])
    ensures LineEntry(line).None? ==> Traces(init + [line], ix, es)
  {
    var lines := init + [line];
    var n := |init|;
    assert forall i | 0 <= i < n :: lines[i] == init[i];
    if LineEntry(line).Some? {
      var ix', es' := ix + [n], es + [LineEntry(line).value];
      forall k | 0 <= k < |ix'|
        ensures ix'[k] < |lines| && LineEntry(lines[ix'[k]]) == Some(es'[k])
      {
        if k < |ix| {
          assert ix'[k] == ix[k] && es'[k] == es[k];
        }
      }
      forall i | 0 <= i < |lines| && i !in ix'
        ensures LineEntry(lines[i]).None?
      {
        assert i !in ix;
      }
    }
  }

  /** A line yields an entry exactly when it has a token after the comment
      cut and its last token is not the connector; the entry is that last
      token, and its depth counts the tokens before it. */
  lemma EntryIsLastToken(line: string)
    ensures var tokens := Tokens(CutComment(line));
            && (LineEntry(line).Some? <==> tokens != [] && Last(tokens) != Connector)
            && (LineEntry(line).Some? ==> && LineEntry(line).value.name == Last(tokens)
                                          && LineEntry(line).value.depth == |tokens| - 1)
  {
  }

  /** Rendering entries as tree text: a header line, then one line per entry
      with `depth` connector columns before the name. */
  function RenderLine(e: Entry): string
    requires e.depth >= 0
  {
    Unwords(seq(e.depth, _ => Connector) + [e.name])
  }

  predicate Renderable(es: seq<Entry>) {
    forall k | 0 <= k < |es| :: WellFormedName(es[k].name) && es[k].depth >= 0
  }

  function RenderLines(es: seq<Entry>): (ls: seq<string>)
    requires Renderable(es)
    ensures |ls| == |es|
    ensures forall k | 0 <= k < |es| :: ls[k] == RenderLine(es[k])
  {
    if es == [] then [] else RenderLines(es[..|es| - 1]) + [RenderLine(Last(es))]
  }

  function Render(header: string, es: seq<Entry>): string
    requires '\n' !in header
    requires Renderable(es)
  {
    JoinLines([header] + RenderLines(es))
  }

  lemma LineEntryOfRender(e: Entry)
    requires WellFormedName(e.name) && e.depth >= 0
    ensures LineEntry(RenderLine(e)) == Some(e)
  {
    var ts := seq(e.depth, _ => Connector) + [e.name];
    assert forall k | 0 <= k < |ts| :: ts[k] == Connector || ts[k] == e.name;
    UnwordsAvoids(ts, '#');
    UnwordsAvoids(ts, '\n');
    TokensOfUnwords(ts);
    assert Last(ts) == e.name;
  }

  lemma {:induction false} ParseLinesOfRender(es: seq<Entry>)
    requires Renderable(es)
    ensures ParseLines(RenderLines(es)) == es
  {
    if es != [] {
      var init, e := es[..|es| - 1], Last(es);
      assert ParseLines(RenderLines(init)) == init by {
        ParseLinesOfRender(init);
      }
      assert LineEntry(RenderLine(e)) == Some(e) by {
        LineEntryOfRender(e);
      }
      assert RenderLines(es) == RenderLines(init) + [RenderLine(e)];
      ParseLinesSnoc(RenderLines(init), RenderLine(e));
      assert es == init + [e];
    }
  }

  /** The loop step: one more line appends that line's entry, if any. */
  lemma ParseLinesSnoc(lines: seq<string>, line: string)
    ensures ParseLines(lines + [line])
            == ParseLines(lines) + (if LineEntry(line).Some? then [LineEntry(line).value] else [])
  {
    assert (lines + [line])[..|lines|] == lines;
  }

  /** Round trip: the parser recovers every list of well-formed entries from
      its tree rendering, whatever the header line. */
  lemma ParseRender(header: string, es: seq<Entry>)
    requires '\n' !in header
    requires Renderable(es)
    ensures Parse(Render(header, es)) == es
  {
    var ls := [header] + RenderLines(es);
    forall k | 0 <= k < |es|
      ensures '\n' !in RenderLines(es)[k]
    {
      var e := es[k];
      var ts := seq(e.depth, _ => Connector) + [e.name];
      assert forall j | 0 <= j < |ts| :: ts[j] == Connector || ts[j] == e.name;
      UnwordsAvoids(ts, '\n');
    }
    assert forall k | 1 <= k < |ls| :: ls[k] == RenderLines(es)[k - 1];
    SplitJoinLines(ls);
    assert ls[1..] == RenderLines(es);
    ParseLinesOfRender(es);
  }

  /** The entry of a padded line of tokens without comment: its last token at
      depth token count minus one, unless that token is the connector. */
  lemma LineEntryOfLine(pad: string, ts: seq<string>)
    requires Blank(pad)
    requires ts != []
    requires forall k | 0 <= k < |ts| :: ts[k] != [] && NoSpace(ts[k]) && '#' !in ts[k]
    ensures var line := pad + (ts[0] + Unwords(ts[1..]));
            LineEntry(line) == if Last(ts) == Connector then None else Some(Entry(Last(ts), |ts| - 1))
  {
    var line := pad + (ts[0] + Unwords(ts[1..]));
    UnwordsAvoids(ts[1..], '#');
    assert '#' !in pad by {
      assert !IsSpace('#');
    }
    assert '#' !in line;
    TokensOfLine(pad, ts);
  }

  /** The depth rule on a line laid out with any whitespace: the last token
      at depth token count minus one, unless it is the connector. Several
      spaces between two glyphs still separate exactly two tokens, so a
      drawn line's depth counts its glyph columns. */
  lemma LineEntryOfSpaced(ts: seq<string>, seps: seq<string>, tail: string)
    requires |seps| == |ts| && ts != []
    requires forall k | 0 <= k < |ts| :: ts[k] != [] && NoSpace(ts[k]) && '#' !in ts[k]
    requires Separators(seps, tail)
    ensures LineEntry(Spaced(ts, seps, tail))
            == if Last(ts) == Connector then None else Some(Entry(Last(ts), |ts| - 1))
  {
    assert !IsSpace('#');
    SpacedAvoids(ts, seps, tail, '#');
    TokensOfSpaced(ts, seps, tail);
  }
}
