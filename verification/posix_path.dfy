/** The path rendering `os.path.join` performs on POSIX hosts: a left fold that
    restarts at an absolute component and inserts '/' only where needed. */
module PosixPath {

  predicate IsAbsolute(p: string) {
    |p| > 0 && p[0] == '/'
  }

  /** A component that joins without surprises: non-empty, not absolute and
      without a trailing separator. */
  predicate Plain(p: string) {
    |p| > 0 && p[0] != '/' && p[|p| - 1] != '/'
  }

  /** `s` ends with `t`. */
  predicate EndsWith(s: string, t: string) {
    |t| <= |s| && s[|s| - |t|..] == t
  }

  /** Appends the components of `rest` to `path` one at a time. */
  function JoinOnto(path: string, rest: seq<string>): string
    decreases |rest|
  {
    if rest == [] then path
    else
      var b := rest[0];
      var next :=
        if IsAbsolute(b) then b
        else if path == [] || path[|path| - 1] == '/' then path + b
        else path + "/" + b;
      JoinOnto(next, rest[1..])
  }

  /** `os.path.join(*parts)`. */
  function Join(parts: seq<string>): (r: string)
    requires |parts| >= 1
    ensures (forall k | 1 <= k < |parts| :: !IsAbsolute(parts[k])) ==> parts[0] <= r
    ensures EndsWith(r, parts[|parts| - 1])
  {
    JoinOntoShape(parts[0], parts[1..]);
    JoinOnto(parts[0], parts[1..])
  }

  /** The fold keeps its starting path while no component is absolute, and
      always ends with the last component. */
  lemma {:induction false} JoinOntoShape(path: string, rest: seq<string>)
    ensures (forall k | 0 <= k < |rest| :: !IsAbsolute(rest[k])) ==> path <= JoinOnto(path, rest)
    ensures rest != [] ==> EndsWith(JoinOnto(path, rest), rest[|rest| - 1])
    decreases |rest|
  {
    if rest != [] {
      var b := rest[0];
      var next :=
        if IsAbsolute(b) then b
        else if path == [] || path[|path| - 1] == '/' then path + b
        else path + "/" + b;
      JoinOntoShape(next, rest[1..]);
      if forall k | 0 <= k < |rest| :: !IsAbsolute(rest[k]) {
        assert forall k | 0 <= k < |rest[1..]| :: rest[1..][k] == rest[k + 1];
        assert path <= next;
      }
      if |rest| == 1 {
        assert EndsWith(next, b);
      }
    }
  }

  /** The reference rendering: the components separated by single slashes. */
  function SlashJoin(parts: seq<string>): string
    requires |parts| >= 1
  {
    if |parts| == 1 then parts[0] else parts[0] + "/" + SlashJoin(parts[1..])
  }

  lemma {:induction false} JoinOntoPlain(path: string, rest: seq<string>)
    requires Plain(path)
    requires forall k | 0 <= k < |rest| - 1 :: Plain(rest[k])
    requires rest != [] ==> !IsAbsolute(rest[|rest| - 1])
    ensures rest == [] ==> JoinOnto(path, rest) == path
    ensures rest != [] ==> JoinOnto(path, rest) == path + "/" + SlashJoin(rest)
    decreases |rest|
  {
    if |rest| > 1 {
      var next := path + "/" + rest[0];
      assert Plain(next) by {
        assert next[0] == path[0];
        assert next[|next| - 1] == rest[0][|rest[0]| - 1];
      }
      JoinOntoPlain(next, rest[1..]);
      assert SlashJoin(rest) == rest[0] + "/" + SlashJoin(rest[1..]);
    }
  }

  /** For plain components the join is the slash-separated rendering, so the
      component view of a path is exact. */
  lemma JoinPlain(parts: seq<string>)
    requires |parts| >= 1
    ensures (forall k | 0 <= k < |parts| :: Plain(parts[k])) ==> Join(parts) == SlashJoin(parts)
  {
    if forall k | 0 <= k < |parts| :: Plain(parts[k]) {
      JoinOntoPlain(parts[0], parts[1..]);
    }
  }

  lemma {:induction false} JoinOntoRestarts(path: string, rest: seq<string>, k: nat)
    requires k < |rest| && IsAbsolute(rest[k])
    ensures JoinOnto(path, rest) == JoinOnto(rest[k], rest[k + 1..])
    decreases k
  {
    if k > 0 {
      var b := rest[0];
      var next :=
        if IsAbsolute(b) then b
        else if path == [] || path[|path| - 1] == '/' then path + b
        else path + "/" + b;
      JoinOntoRestarts(next, rest[1..], k - 1);
      assert rest[1..][k - 1..][1..] == rest[k + 1..];
    }
  }

  /** An absolute component discards every component before it. */
  lemma AbsoluteDiscardsPrefix(parts: seq<string>, k: nat)
    requires 0 < k < |parts| && IsAbsolute(parts[k])
    ensures Join(parts) == Join(parts[k..])
  {
    JoinOntoRestarts(parts[0], parts[1..], k - 1);
    assert parts[1..][k - 1 + 1..] == parts[k..][1..];
  }

  /** An empty last component leaves a trailing separator. */
  lemma EmptyLastComponent(parts: seq<string>)
    requires |parts| >= 2 && parts[|parts| - 1] == []
    requires forall k | 0 <= k < |parts| - 1 :: Plain(parts[k])
    ensures Join(parts) == SlashJoin(parts[..|parts| - 1]) + "/"
  {
    var init := parts[..|parts| - 1];
    JoinOntoPlain(parts[0], parts[1..]);
    SlashJoinSnoc(init, []);
    assert init + [[]] == parts;
  }

  lemma {:induction false} SlashJoinSnoc(init: seq<string>, last: string)
    requires |init| >= 1
    ensures SlashJoin(init + [last]) == SlashJoin(init) + "/" + last
  {
    var s := init + [last];
    assert s[0] == init[0];
    if |init| > 1 {
      assert s[1..] == init[1..] + [last];
      SlashJoinSnoc(init[1..], last);
    } else {
      assert s[1..] == [last];
    }
  }
}
