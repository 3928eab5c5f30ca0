/** Small optional-value wrapper used throughout the model. */
module Wrappers {
  datatype Option<+T> = None | Some(value: T)
}

/** The three Python string operations the service layer relies on:
    `str.replace`, `str.split` on a fixed separator and `str.join`. */
module Strings {
  import opened Wrappers

  /** The index of the first occurrence of `name`, or none: the shape of
      every `next(x for x in xs if x.name == name)` lookup. */
  function FirstIndexOf(names: seq<string>, name: string): (r: Option<nat>)
    ensures r.Some? ==> r.value < |names| && names[r.value] == name
    ensures r.Some? ==> forall j :: 0 <= j < r.value ==> names[j] != name
    ensures r.None? <==> forall j :: 0 <= j < |names| ==> names[j] != name
    decreases |names|
  {
    if |names| == 0 then None
    else if names[0] == name then Some(0)
    else
      match FirstIndexOf(names[1..], name)
      case None => None
      case Some(i) => Some(i + 1)
  }

  /** No element occurs twice. */
  predicate NoDup(xs: seq<string>)
  {
    forall i, j :: 0 <= i < j < |xs| ==> xs[i] != xs[j]
  }

  /** `t` occurs in `s` starting at position `i`. */
  predicate OccursAt(s: string, t: string, i: nat)
  {
    i + |t| <= |s| && s[i..i + |t|] == t
  }

  /** `t in s` for Python strings. */
  predicate Occurs(s: string, t: string)
  {
    exists i: nat | i <= |s| :: OccursAt(s, t, i)
  }

  /** `sep.join(parts)`. */
  function Join(parts: seq<string>, sep: string): string
    decreases |parts|
  {
    if |parts| == 0 then ""
    else if |parts| == 1 then parts[0]
    else parts[0] + sep + Join(parts[1..], sep)
  }

  /** `s.split(sep)` for a non-empty separator: the pieces between the
      leftmost non-overlapping occurrences of `sep`; never an empty list. */
  function Split(s: string, sep: string): (r: seq<string>)
    requires |sep| > 0
    ensures |r| >= 1
    decreases |s|
  {
    if |s| < |sep| then [s]
    else if s[..|sep|] == sep then [""] + Split(s[|sep|..], sep)
    else
      var rest := Split(s[1..], sep);
      [[s[0]] + rest[0]] + rest[1..]
  }

  /** `s.replace(token, value)`: every leftmost non-overlapping occurrence
      of `token` is replaced by `value`.  An empty token matches before
      every character and at the end, as in Python. */
  function ReplaceAll(s: string, token: string, value: string): string
    decreases |s|
  {
    if |token| == 0 then
      if |s| == 0 then value else value + [s[0]] + ReplaceAll(s[1..], token, value)
    else if |s| < |token| then s
    else if s[..|token|] == token then value + ReplaceAll(s[|token|..], token, value)
    else [s[0]] + ReplaceAll(s[1..], token, value)
  }

  lemma {:induction false} JoinConsHead(c: char, parts: seq<string>, sep: string)
    requires |parts| >= 1
    ensures Join([[c] + parts[0]] + parts[1..], sep) == [c] + Join(parts, sep)
  {
    var q := [[c] + parts[0]] + parts[1..];
    assert q[0] == [c] + parts[0];
    assert q[1..] == parts[1..];
  }

  /** Python's identity `s.replace(t, v) == v.join(s.split(t))`: replacement
      is exactly "cut at every occurrence, glue back with the value". */
  lemma {:induction false} ReplaceAllIsJoinOfSplit(s: string, token: string, value: string)
    requires |token| > 0
    ensures ReplaceAll(s, token, value) == Join(Split(s, token), value)
    decreases |s|
  {
    if |s| < |token| {
    } else if s[..|token|] == token {
      ReplaceAllIsJoinOfSplit(s[|token|..], token, value);
      var rest := Split(s[|token|..], token);
      assert Split(s, token) == [""] + rest;
      assert ([""] + rest)[1..] == rest;
    } else {
      ReplaceAllIsJoinOfSplit(s[1..], token, value);
      JoinConsHead(s[0], Split(s[1..], token), value);
    }
  }

  /** Replacing a token by itself changes nothing. */
  lemma {:induction false} ReplaceAllBySelf(s: string, token: string)
    requires |token| > 0
    ensures ReplaceAll(s, token, token) == s
    decreases |s|
  {
    if |s| < |token| {
    } else if s[..|token|] == token {
      ReplaceAllBySelf(s[|token|..], token);
      assert s[..|token|] + s[|token|..] == s;
    } else {
      ReplaceAllBySelf(s[1..], token);
      assert [s[0]] + s[1..] == s;
    }
  }

  /** Joining the pieces of a split with the separator gives the string back. */
  lemma JoinSplit(s: string, sep: string)
    requires |sep| > 0
    ensures Join(Split(s, sep), sep) == s
  {
    ReplaceAllIsJoinOfSplit(s, sep, sep);
    ReplaceAllBySelf(s, sep);
  }

  /** A value in which the token does not occur is left as it is. */
  lemma {:induction false} ReplaceAllAbsent(s: string, token: string, value: string)
    requires |token| > 0
    ensures !Occurs(s, token) ==> ReplaceAll(s, token, value) == s
    decreases |s|
  {
    if |s| < |token| {
    } else if s[..|token|] == token {
      assert OccursAt(s, token, 0);
    } else {
      forall i: nat | OccursAt(s[1..], token, i)
        ensures OccursAt(s, token, i + 1)
      {
        assert s[1..][i..i + |token|] == s[i + 1..i + 1 + |token|];
      }
      ReplaceAllAbsent(s[1..], token, value);
      assert [s[0]] + s[1..] == s;
    }
  }

  lemma {:induction false} SplitWithoutSep(p: string, c: char)
    requires c !in p
    ensures Split(p, [c]) == [p]
    decreases |p|
  {
    if |p| >= 1 {
      assert p[..1] != [c] by { assert p[..1][0] == p[0]; }
      SplitWithoutSep(p[1..], c);
      assert [p[0]] + p[1..] == p;
    }
  }

  lemma {:induction false} SplitPieceThenSep(p: string, c: char, rest: string)
    requires c !in p
    ensures Split(p + [c] + rest, [c]) == [p] + Split(rest, [c])
    decreases |p|
  {
    var s := p + [c] + rest;
    if |p| == 0 {
      assert s[..1] == [c];
      assert s[1..] == rest;
    } else {
      assert s[..1] != [c] by { assert s[..1][0] == p[0]; }
      assert s[1..] == p[1..] + [c] + rest;
      SplitPieceThenSep(p[1..], c, rest);
      assert [p[0]] + p[1..] == p;
    }
  }

  /** Splitting a comma-style join on its one-character separator gives the
      parts back, provided there is at least one part and no part contains
      the separator. */
  lemma {:induction false} SplitJoin(parts: seq<string>, c: char)
    requires |parts| >= 1
    requires forall i :: 0 <= i < |parts| ==> c !in parts[i]
    ensures Split(Join(parts, [c]), [c]) == parts
    decreases |parts|
  {
    if |parts| == 1 {
      SplitWithoutSep(parts[0], c);
    } else {
      SplitJoin(parts[1..], c);
      SplitPieceThenSep(parts[0], c, Join(parts[1..], [c]));
      assert [parts[0]] + parts[1..] == parts;
    }
  }
}
