/** Character-level helpers of the tree-text parser: Python's notion of
    whitespace, the comment cut, whitespace tokenising (`str.split()` with no
    separator) and line splitting (`str.split('\n')`). */
module Text {

  /** Whitespace as Python's `str.split()` without a separator sees it, that
      is, the characters for which `str.isspace` holds. */
  predicate IsSpace(c: char) {
    var n := c as int;
    || (0x09 <= n <= 0x0D)
    || (0x1C <= n <= 0x20)
    || n == 0x85 || n == 0xA0 || n == 0x1680
    || (0x2000 <= n <= 0x200A)
    || n == 0x2028 || n == 0x2029 || n == 0x202F || n == 0x205F || n == 0x3000
  }

  predicate NoSpace(s: string) {
    forall i | 0 <= i < |s| :: !IsSpace(s[i])
  }

  /** Every character is whitespace (true of the empty string). */
  predicate Blank(s: string) {
    forall i | 0 <= i < |s| :: IsSpace(s[i])
  }

  /** Number of occurrences of `c` in `s`. */
  function Count(s: string, c: char): nat {
    if s == [] then 0 else (if s[0] == c then 1 else 0) + Count(s[1..], c)
  }

  /** Length of the longest prefix of `s` in which no character satisfies `stop`. */
  function SpanLen(s: string, stop: char -> bool): (n: nat)
    ensures n <= |s|
    ensures forall i | 0 <= i < n :: !stop(s[i])
    ensures n < |s| ==> stop(s[n])
  {
    if s == [] || stop(s[0]) then 0 else 1 + SpanLen(s[1..], stop)
  }

  /** The comment cut: `re.sub(r'#.*$', '', line)` on a line without '\n'
      keeps exactly the text before the first '#'. */
  function CutComment(line: string): (r: string)
    ensures r <= line
    ensures '#' !in r
    ensures |r| < |line| ==> line[|r|] == '#'
    ensures '#' !in line ==> r == line
  {
    line[..SpanLen(line, c => c == '#')]
  }

  /** `s.split()`: the maximal runs of non-whitespace characters, in order. */
  function Tokens(s: string): (ts: seq<string>)
    ensures forall k | 0 <= k < |ts| :: ts[k] != [] && NoSpace(ts[k])
    ensures forall k, i | 0 <= k < |ts| && 0 <= i < |ts[k]| :: ts[k][i] in s
    decreases |s|
  {
    if s == [] then []
    else if IsSpace(s[0]) then Tokens(s[1..])
    else
      var n := SpanLen(s, IsSpace);
      [s[..n]] + Tokens(s[n..])
  }

  /** Concatenation of a sequence of strings. */
  function Concat(ts: seq<string>): string {
    if ts == [] then [] else ts[0] + Concat(ts[1..])
  }

  /** The non-whitespace characters of `s`, in order. */
  function Squeeze(s: string): string {
    if s == [] then [] else (if IsSpace(s[0]) then [] else [s[0]]) + Squeeze(s[1..])
  }

  /** Each token preceded by one space: an indented rendering of a token list. */
  function Unwords(ts: seq<string>): string {
    if ts == [] then [] else " " + ts[0] + Unwords(ts[1..])
  }

  /** Inverse of `SplitLines`: the lines joined with '\n'. */
  function JoinLines(ls: seq<string>): string
    requires |ls| >= 1
  {
    if |ls| == 1 then ls[0] else ls[0] + "\n" + JoinLines(ls[1..])
  }

  /** `text.split('\n')`: never empty, one more piece than there are '\n'. */
  function SplitLines(text: string): (ls: seq<string>)
    ensures |ls| == Count(text, '\n') + 1
    ensures forall k | 0 <= k < |ls| :: '\n' !in ls[k]
    ensures JoinLines(ls) == text
    decreases |text|
  {
    var n := SpanLen(text, c => c == '\n');
    if n == |text| then
      CountAbsent(text, '\n');
      [text]
    else
      CountSplit(text[..n], text[n+1..], '\n');
      assert text == text[..n] + "\n" + text[n+1..];
      [text[..n]] + SplitLines(text[n+1..])
  }

  lemma {:induction false} CountAbsent(s: string, c: char)
    requires c !in s
    ensures Count(s, c) == 0
  {
    if s != [] {
      CountAbsent(s[1..], c);
    }
  }

  lemma {:induction false} CountAppend(a: string, b: string, c: char)
    ensures Count(a + b, c) == Count(a, c) + Count(b, c)
  {
    if a == [] {
      assert a + b == b;
    } else {
      assert (a + b)[1..] == a[1..] + b;
      CountAppend(a[1..], b, c);
    }
  }

  lemma CountSplit(a: string, b: string, c: char)
    requires c !in a
    ensures Count(a + [c] + b, c) == Count(b, c) + 1
  {
    CountAppend(a + [c], b, c);
    CountAppend(a, [c], c);
    CountAbsent(a, c);
  }

  lemma {:induction false} SqueezeAppend(a: string, b: string)
    ensures Squeeze(a + b) == Squeeze(a) + Squeeze(b)
  {
    if a == [] {
      assert a + b == b;
    } else {
      assert (a + b)[1..] == a[1..] + b;
      SqueezeAppend(a[1..], b);
    }
  }

  lemma {:induction false} SqueezeNoSpace(s: string)
    requires NoSpace(s)
    ensures Squeeze(s) == s
  {
    if s != [] {
      SqueezeNoSpace(s[1..]);
    }
  }

  /** Splitting on whitespace loses exactly the whitespace: the tokens,
      concatenated, are the non-whitespace characters of the line in order. */
  lemma {:induction false} TokensKeepContent(s: string)
    ensures Concat(Tokens(s)) == Squeeze(s)
    decreases |s|
  {
    if s == [] {
    } else if IsSpace(s[0]) {
      TokensKeepContent(s[1..]);
    } else {
      var n := SpanLen(s, IsSpace);
      assert s == s[..n] + s[n..];
      SqueezeAppend(s[..n], s[n..]);
      SqueezeNoSpace(s[..n]);
      TokensKeepContent(s[n..]);
    }
  }

  lemma {:induction false} WordThenRest(t: string, u: string)
    requires t != [] && NoSpace(t)
    requires u == [] || IsSpace(u[0])
    ensures SpanLen(t + u, IsSpace) == |t|
  {
    assert forall i | 0 <= i < |t| :: (t + u)[i] == t[i];
    assert |t| < |t + u| ==> (t + u)[|t|] == u[0];
  }

  /** Round trip: splitting an indented rendering of well-formed tokens gives
      the tokens back; the single-space layout is one case of `Spaced`. */
  lemma {:induction false} TokensOfUnwords(ts: seq<string>)
    requires forall k | 0 <= k < |ts| :: ts[k] != [] && NoSpace(ts[k])
    ensures Tokens(Unwords(ts)) == ts
  {
    var seps := OneSpaces(|ts|);
    UnwordsIsSpaced(ts);
    assert Blank(" ");
    TokensOfSpaced(ts, seps, "");
  }

  /** `n` separators of one space each. */
  function OneSpaces(n: nat): (seps: seq<string>)
    ensures |seps| == n
    ensures forall k | 0 <= k < n :: seps[k] == " "
  {
    seq(n, _ => " ")
  }

  /** `Unwords` is the layout with one space before each token and no tail. */
  lemma {:induction false} UnwordsIsSpaced(ts: seq<string>)
    ensures Unwords(ts) == Spaced(ts, OneSpaces(|ts|), "")
  {
    if ts != [] {
      UnwordsIsSpaced(ts[1..]);
      assert OneSpaces(|ts|)[1..] == OneSpaces(|ts| - 1);
    }
  }

  lemma {:induction false} UnwordsAvoids(ts: seq<string>, c: char)
    requires c != ' '
    requires forall k | 0 <= k < |ts| :: c !in ts[k]
    ensures c !in Unwords(ts)
  {
    if ts != [] {
      UnwordsAvoids(ts[1..], c);
    }
  }

  /** Splitting a line followed by '\n' and more text yields that line first. */
  lemma {:induction false} SplitLinesCons(h: string, t: string)
    requires '\n' !in h
    ensures SplitLines(h + "\n" + t) == [h] + SplitLines(t)
  {
    var text := h + "\n" + t;
    assert forall i | 0 <= i < |h| :: text[i] == h[i];
    assert text[|h|] == '\n';
    var n := SpanLen(text, c => c == '\n');
    assert n == |h|;
    assert text[..n] == h;
    assert text[n+1..] == t;
  }

  /** Round trip: joining lines that contain no '\n' and splitting again gives
      the lines back. */
  lemma {:induction false} SplitJoinLines(ls: seq<string>)
    requires |ls| >= 1
    requires forall k | 0 <= k < |ls| :: '\n' !in ls[k]
    ensures SplitLines(JoinLines(ls)) == ls
  {
    if |ls| == 1 {
      assert SpanLen(ls[0], c => c == '\n') == |ls[0]|;
    } else {
      SplitJoinLines(ls[1..]);
      SplitLinesCons(ls[0], JoinLines(ls[1..]));
      assert [ls[0]] + ls[1..] == ls;
    }
  }

  /** Leading whitespace produces no token: indentation is invisible to the
      tokeniser. */
  lemma {:induction false} TokensSkipBlank(pad: string, s: string)
    requires Blank(pad)
    ensures Tokens(pad + s) == Tokens(s)
  {
    if pad != [] {
      assert (pad + s)[0] == pad[0];
      assert (pad + s)[1..] == pad[1..] + s;
      TokensSkipBlank(pad[1..], s);
    } else {
      assert pad + s == s;
    }
  }

  /** A line made of blank padding and then tokens separated by spaces splits
      into exactly those tokens. */
  lemma {:induction false} TokensOfLine(pad: string, ts: seq<string>)
    requires Blank(pad)
    requires ts != []
    requires forall k | 0 <= k < |ts| :: ts[k] != [] && NoSpace(ts[k])
    ensures Tokens(pad + (ts[0] + Unwords(ts[1..]))) == ts
  {
    var w := ts[0] + Unwords(ts[1..]);
    assert Tokens(w) == ts by {
      TokensOfUnwords(ts);
      UnwordsHead(ts);
      TokensSkipBlank(" ", w);
    }
    assert Tokens(pad + w) == ts by {
      TokensSkipBlank(pad, w);
    }
  }

  /** Tokens laid out with arbitrary whitespace: the blank run `seps[k]`
      precedes `ts[k]`, and the blank `tail` ends the line. */
  function Spaced(ts: seq<string>, seps: seq<string>, tail: string): string
    requires |seps| == |ts|
  {
    if ts == [] then tail else seps[0] + (ts[0] + Spaced(ts[1..], seps[1..], tail))
  }

  /** What a layout of tokens needs: every separator and the tail blank, and
      every separator after the first non-empty. */
  predicate Separators(seps: seq<string>, tail: string) {
    && Blank(tail)
    && (forall k | 0 <= k < |seps| :: Blank(seps[k]))
    && (forall k | 1 <= k < |seps| :: seps[k] != [])
  }

  /** Tokens are maximal runs: however many whitespace characters separate
      the tokens, and whatever whitespace precedes or follows them, splitting
      gives back exactly the tokens. */
  lemma {:induction false} TokensOfSpaced(ts: seq<string>, seps: seq<string>, tail: string)
    requires |seps| == |ts|
    requires forall k | 0 <= k < |ts| :: ts[k] != [] && NoSpace(ts[k])
    requires Separators(seps, tail)
    ensures Tokens(Spaced(ts, seps, tail)) == ts
  {
    if ts == [] {
      assert tail + [] == tail;
      TokensSkipBlank(tail, []);
    } else {
      var t, rest := ts[0], Spaced(ts[1..], seps[1..], tail);
      assert Separators(seps[1..], tail) by {
        assert forall k | 0 <= k < |seps[1..]| :: seps[1..][k] == seps[k + 1];
      }
      assert rest == [] || IsSpace(rest[0]) by {
        if |ts| > 1 {
          assert rest == seps[1] + (ts[1] + Spaced(ts[2..], seps[2..], tail));
          assert rest[0] == seps[1][0];
        }
      }
      assert Tokens(t + rest) == [t] + ts[1..] by {
        WordThenRest(t, rest);
        assert (t + rest)[..|t|] == t;
        assert (t + rest)[|t|..] == rest;
        TokensOfSpaced(ts[1..], seps[1..], tail);
      }
      TokensSkipBlank(seps[0], t + rest);
      assert [t] + ts[1..] == ts;
    }
  }

  lemma {:induction false} SpacedAvoids(ts: seq<string>, seps: seq<string>, tail: string, c: char)
    requires |seps| == |ts|
    requires !IsSpace(c)
    requires Separators(seps, tail)
    requires forall k | 0 <= k < |ts| :: c !in ts[k]
    ensures c !in Spaced(ts, seps, tail)
  {
    if ts != [] {
      assert Separators(seps[1..], tail) by {
        assert forall k | 0 <= k < |seps[1..]| :: seps[1..][k] == seps[k + 1];
      }
      SpacedAvoids(ts[1..], seps[1..], tail, c);
      assert c !in seps[0];
    }
  }

  lemma UnwordsHead(ts: seq<string>)
    requires ts != []
    ensures Unwords(ts) == " " + (ts[0] + Unwords(ts[1..]))
  {
  }
}
