/** The string operations the report script relies on: `str.replace`,
    `str.split`, `str.join` and `os.path.basename` (POSIX flavour). */
module Text {

  /** `pat` occurs in `s` starting at index `i`. */
  predicate OccursAt(s: string, pat: string, i: nat)
  {
    i + |pat| <= |s| && s[i..i + |pat|] == pat
  }

  ghost predicate Occurs(s: string, pat: string)
  {
    exists i: nat :: OccursAt(s, pat, i)
  }

  /** Python's `s.replace(pat, rep)`: scan left to right, replace every
      non-overlapping occurrence of `pat`. An empty `pat` inserts `rep`
      before every character and at the end, as CPython does. */
  function ReplaceAll(s: string, pat: string, rep: string): string
    decreases |s|
  {
    if |pat| == 0 then
      if s == [] then rep else rep + [s[0]] + ReplaceAll(s[1..], pat, rep)
    else if |s| < |pat| then s
    else if s[..|pat|] == pat then rep + ReplaceAll(s[|pat|..], pat, rep)
    else [s[0]] + ReplaceAll(s[1..], pat, rep)
  }

  /** Python's `s.split(sep)` for a non-empty separator (CPython raises
      `ValueError` for an empty one). */
  function Split(s: string, sep: string): (parts: seq<string>)
    requires |sep| > 0
    ensures |parts| >= 1
    decreases |s|
  {
    if |s| < |sep| then [s]
    else if s[..|sep|] == sep then [[]] + Split(s[|sep|..], sep)
    else
      var rest := Split(s[1..], sep);
      [[s[0]] + rest[0]] + rest[1..]
  }

  /** Python's `sep.join(parts)`. */
  function Join(parts: seq<string>, sep: string): string
  {
    if |parts| == 0 then []
    else if |parts| == 1 then parts[0]
    else parts[0] + sep + Join(parts[1..], sep)
  }

  /** Python's `parts[-n:]`. */
  function LastN<T>(parts: seq<T>, n: nat): seq<T>
  {
    if |parts| <= n then parts else parts[|parts| - n..]
  }

  /** `os.path.basename` on POSIX paths: everything after the last `/`. */
  function Basename(path: string): (base: string)
    ensures '/' !in base && |base| <= |path|
    ensures |base| == |path| || path[|path| - |base| - 1] == '/'
  {
    if path == [] then []
    else if path[|path| - 1] == '/' then []
    else Basename(path[..|path| - 1]) + [path[|path| - 1]]
  }

  // ---------------------------------------------------------------- lemmas

  /** The base name is the tail of the path after its last `/`. */
  lemma {:induction false} BasenameIsSuffix(path: string)
    ensures Basename(path) == path[|path| - |Basename(path)|..]
  {
    if path != [] && path[|path| - 1] != '/' {
      var init := path[..|path| - 1];
      BasenameIsSuffix(init);
      assert path == init + [path[|path| - 1]];
    }
  }

  lemma {:induction false} BasenameOfJoined(dir: string, name: string)
    requires '/' !in name
    ensures Basename(dir + "/" + name) == name
    ensures Basename(name) == name
    decreases |name|
  {
    if name == [] {
      assert (dir + "/" + name)[|dir + "/" + name| - 1] == '/';
    } else {
      var n := |name|;
      assert (dir + "/" + name)[..|dir + "/" + name| - 1] == dir + "/" + name[..n - 1];
      assert name[..n - 1] + [name[n - 1]] == name;
      BasenameOfJoined(dir, name[..n - 1]);
    }
  }

  /** Joining a single element with a longer list: the first piece absorbs a prefix. */
  lemma JoinConsHead(c: char, parts: seq<string>, sep: string)
    requires |parts| >= 1
    ensures Join([[c] + parts[0]] + parts[1..], sep) == [c] + Join(parts, sep)
  {
    var ps := [[c] + parts[0]] + parts[1..];
    if |parts| > 1 {
      assert ps[1..] == parts[1..];
    }
  }

  /** `str.replace` is `split` followed by `join` with the replacement:
      every occurrence found by the split scan is replaced, nothing else changes. */
  lemma {:induction false} ReplaceIsSplitThenJoin(s: string, pat: string, rep: string)
    requires |pat| > 0
    ensures ReplaceAll(s, pat, rep) == Join(Split(s, pat), rep)
    decreases |s|
  {
    if |s| < |pat| {
    } else if s[..|pat|] == pat {
      ReplaceIsSplitThenJoin(s[|pat|..], pat, rep);
      var rest := Split(s[|pat|..], pat);
      assert Split(s, pat) == [[]] + rest;
      assert ([[]] + rest)[1..] == rest;
    } else {
      ReplaceIsSplitThenJoin(s[1..], pat, rep);
      JoinConsHead(s[0], Split(s[1..], pat), rep);
    }
  }

  /** Joining the pieces of a split with the same separator gives the string back. */
  lemma {:induction false} JoinSplit(s: string, sep: string)
    requires |sep| > 0
    ensures Join(Split(s, sep), sep) == s
    decreases |s|
  {
    if |s| < |sep| {
      assert Split(s, sep) == [s];
    } else if s[..|sep|] == sep {
      var t := s[|sep|..];
      JoinSplit(t, sep);
      var ps := [[]] + Split(t, sep);
      assert Split(s, sep) == ps;
      assert ps[0] == [] && ps[1..] == Split(t, sep);
      assert Join(ps, sep) == [] + sep + Join(Split(t, sep), sep);
      assert s == sep + t;
    } else {
      var t := s[1..];
      JoinSplit(t, sep);
      var rest := Split(t, sep);
      assert Split(s, sep) == [[s[0]] + rest[0]] + rest[1..];
      JoinConsHead(s[0], rest, sep);
      assert s == [s[0]] + t;
    }
  }

  /** A string in which the pattern does not occur comes back unchanged. */
  lemma {:induction false} ReplaceAbsent(s: string, pat: string, rep: string)
    requires |pat| > 0 && !Occurs(s, pat)
    ensures ReplaceAll(s, pat, rep) == s
    decreases |s|
  {
    if |s| >= |pat| {
      assert !OccursAt(s, pat, 0);
      assert s[..|pat|] != pat;
      forall i: nat ensures !OccursAt(s[1..], pat, i) {
        assert !OccursAt(s, pat, i + 1);
        if i + |pat| <= |s[1..]| {
          assert s[1..][i..i + |pat|] == s[i + 1..i + 1 + |pat|];
        }
      }
      ReplaceAbsent(s[1..], pat, rep);
    }
  }

  /** Text before the first occurrence is copied unchanged. */
  lemma {:induction false} ReplaceSkipsPrefix(pre: string, rest: string, pat: string, rep: string)
    requires |pat| > 0
    requires forall i: nat :: i < |pre| ==> !OccursAt(pre + rest, pat, i)
    ensures ReplaceAll(pre + rest, pat, rep) == pre + ReplaceAll(rest, pat, rep)
    decreases |pre|
  {
    var s := pre + rest;
    if pre == [] {
      assert s == rest;
    } else {
      assert !OccursAt(s, pat, 0);
      if |s| >= |pat| {
        assert s[..|pat|] != pat;
        assert s[1..] == pre[1..] + rest;
        forall i: nat | i < |pre[1..]| ensures !OccursAt(pre[1..] + rest, pat, i) {
          assert !OccursAt(s, pat, i + 1);
          if i + |pat| <= |s[1..]| {
            assert s[1..][i..i + |pat|] == s[i + 1..i + 1 + |pat|];
          }
        }
        var tail := pre[1..];
        ReplaceSkipsPrefix(tail, rest, pat, rep);
        var r := ReplaceAll(rest, pat, rep);
        assert ReplaceAll(s, pat, rep) == [s[0]] + (tail + r);
        assert [s[0]] + (tail + r) == ([s[0]] + tail) + r;
        assert [s[0]] + tail == pre;
      } else {
        assert |rest| < |pat|;
      }
    }
  }

  /** No occurrence of `pat` in `a + b` starts inside `a` and ends inside `b`. */
  ghost predicate NoStraddle(a: string, b: string, pat: string)
  {
    forall i: nat :: i < |a| < i + |pat| ==> !OccursAt(a + b, pat, i)
  }

  /** Dropping a prefix of `a` keeps occurrences from straddling the boundary. */
  lemma NoStraddleShift(a: string, b: string, pat: string, d: nat)
    requires d <= |a| && NoStraddle(a, b, pat)
    ensures NoStraddle(a[d..], b, pat)
  {
    var a' := a[d..];
    assert (a + b)[d..] == a' + b;
    forall i: nat | i < |a'| < i + |pat| ensures !OccursAt(a' + b, pat, i) {
      assert !OccursAt(a + b, pat, i + d);
      if i + |pat| <= |a' + b| {
        assert (a' + b)[i..i + |pat|] == (a + b)[i + d..i + d + |pat|];
      }
    }
  }

  /** Replacing in a concatenation is replacing in each half, as long as no
      occurrence straddles the boundary. */
  lemma {:induction false} ReplaceAppend(a: string, b: string, pat: string, rep: string)
    requires |pat| > 0 && NoStraddle(a, b, pat)
    ensures ReplaceAll(a + b, pat, rep) == ReplaceAll(a, pat, rep) + ReplaceAll(b, pat, rep)
    decreases |a|
  {
    var s := a + b;
    if a == [] {
      assert s == b;
    } else if |s| < |pat| {
      assert ReplaceAll(a, pat, rep) == a && ReplaceAll(b, pat, rep) == b;
    } else if s[..|pat|] == pat {
      assert |a| >= |pat| by {
        if |a| < |pat| {
          assert OccursAt(s, pat, 0);
        }
      }
      assert a[..|pat|] == pat;
      var a' := a[|pat|..];
      assert s[|pat|..] == a' + b;
      NoStraddleShift(a, b, pat, |pat|);
      ReplaceAppend(a', b, pat, rep);
      var x, y := ReplaceAll(a', pat, rep), ReplaceAll(b, pat, rep);
      assert ReplaceAll(s, pat, rep) == rep + (x + y);
      assert ReplaceAll(a, pat, rep) == rep + x;
      assert rep + (x + y) == (rep + x) + y;
    } else {
      var a' := a[1..];
      assert s[1..] == a' + b;
      NoStraddleShift(a, b, pat, 1);
      ReplaceAppend(a', b, pat, rep);
      var x, y := ReplaceAll(a', pat, rep), ReplaceAll(b, pat, rep);
      assert ReplaceAll(s, pat, rep) == [s[0]] + (x + y);
      assert [s[0]] + (x + y) == ([s[0]] + x) + y;
      if |a| >= |pat| {
        assert a[..|pat|] == s[..|pat|];
        assert ReplaceAll(a, pat, rep) == [a[0]] + x;
      } else {
        assert x == a';
        assert ReplaceAll(a, pat, rep) == a == [a[0]] + a';
      }
    }
  }

  /** A boundary character that does not belong to the pattern rules out a straddling occurrence. */
  lemma NoStraddleAtForeignChar(a: string, b: string, pat: string)
    requires (|a| > 0 && a[|a| - 1] !in pat) || (|b| > 0 && b[0] !in pat)
    ensures NoStraddle(a, b, pat)
  {
    forall i: nat | i < |a| < i + |pat| ensures !OccursAt(a + b, pat, i) {
      if i + |pat| <= |a + b| {
        if |a| > 0 && a[|a| - 1] !in pat {
          assert (a + b)[i..i + |pat|][|a| - 1 - i] == a[|a| - 1];
        } else {
          assert (a + b)[i..i + |pat|][|a| - i] == b[0];
        }
      }
    }
  }

  /** Splitting on a one-character separator distributes over a separator between two strings. */
  lemma {:induction false} SplitAround(x: string, c: char, y: string)
    ensures Split(x + [c] + y, [c]) == Split(x, [c]) + Split(y, [c])
    decreases |x|
  {
    var s := x + [c] + y;
    if x == [] {
      assert s[..1] == [c];
      assert s[1..] == y;
    } else if x[0] == c {
      assert s[..1] == [c];
      assert s[1..] == x[1..] + [c] + y;
      assert x[..1] == [c];
      SplitAround(x[1..], c, y);
    } else {
      assert s[0] == x[0];
      assert s[..1] != [c];
      assert s[1..] == x[1..] + [c] + y;
      SplitAround(x[1..], c, y);
      if |x| >= 1 { assert x[..1] != [c]; }
    }
  }

  /** A string without the separator character splits into itself alone. */
  lemma {:induction false} SplitWithout(s: string, c: char)
    requires c !in s
    ensures Split(s, [c]) == [s]
    decreases |s|
  {
    if |s| >= 1 {
      assert s[0] in s;
      assert s[..1] != [c];
      SplitWithout(s[1..], c);
      assert [s[0]] + s[1..] == s;
    }
  }

  /** The pieces of a split on one character never contain that character. */
  lemma {:induction false} SplitPiecesLackSeparator(s: string, c: char)
    ensures forall p :: p in Split(s, [c]) ==> c !in p
    decreases |s|
  {
    if |s| >= 1 {
      SplitPiecesLackSeparator(s[1..], c);
      if s[..1] == [c] {
        assert s[1..] == s[|[c]|..];
      } else {
        assert s[0] != c;
        var rest := Split(s[1..], [c]);
        assert rest[0] in rest;
        forall p | p in rest[1..] ensures p in rest { }
      }
    }
  }
}
