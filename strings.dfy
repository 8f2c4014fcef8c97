/**
 * The parts of Go's `strings` package and of the `regexp` rewrites that the
 * plugin code uses, on strings as sequences of characters.
 *
 * Character classes are ASCII: RE2's `\s` is ASCII-only, and case mapping is
 * restricted to the letters A-Z and a-z.
 */
module Strings {

  // ---------------------------------------------------------------- classes

  /** RE2's `\s`: tab, newline, form feed, carriage return and space. */
  predicate IsSpace(c: char) {
    c == ' ' || c == '\t' || c == '\n' || c == '\U{000C}' || c == '\r'
  }

  predicate IsUpper(c: char) { 'A' <= c <= 'Z' }

  predicate IsLower(c: char) { 'a' <= c <= 'z' }

  predicate IsDigit(c: char) { '0' <= c <= '9' }

  /** The class `[a-zA-Z0-9]`. */
  predicate IsAlnum(c: char) { IsUpper(c) || IsLower(c) || IsDigit(c) }

  predicate IsDash(c: char) { c == '-' }

  predicate IsUnderscore(c: char) { c == '_' }

  // ---------------------------------------------------------- char mapping

  function ToLowerChar(c: char): char {
    if IsUpper(c) then (c as int + 32) as char else c
  }

  function ToUpperChar(c: char): char {
    if IsLower(c) then (c as int - 32) as char else c
  }

  /** `[^a-zA-Z0-9]` replaced by `-`, one character at a time. */
  function DashUnlessAlnum(c: char): char {
    if IsAlnum(c) then c else '-'
  }

  /** Applies `f` to every character. */
  function MapChars(s: string, f: char -> char): (r: string)
    ensures |r| == |s|
    ensures forall i :: 0 <= i < |s| ==> r[i] == f(s[i])
  {
    seq(|s|, i requires 0 <= i < |s| => f(s[i]))
  }

  /** strings.ToLower, for ASCII letters. */
  function ToLower(s: string): (r: string)
    ensures |r| == |s|
    ensures forall i :: 0 <= i < |s| ==> !IsUpper(r[i])
  {
    MapChars(s, ToLowerChar)
  }

  /** strings.ToUpper, for ASCII letters. */
  function ToUpper(s: string): (r: string)
    ensures |r| == |s|
    ensures forall i :: 0 <= i < |s| ==> !IsLower(r[i])
  {
    MapChars(s, ToUpperChar)
  }

  lemma MapCharsAppend(a: string, b: string, f: char -> char)
    ensures MapChars(a + b, f) == MapChars(a, f) + MapChars(b, f)
  {
  }

  // -------------------------------------------------------- prefix, suffix

  predicate HasPrefix(s: string, p: string) {
    |p| <= |s| && s[..|p|] == p
  }

  predicate HasSuffix(s: string, p: string) {
    |p| <= |s| && s[|s| - |p|..] == p
  }

  lemma PrefixOfConcat(x: string, y: string)
    ensures HasPrefix(x + y, x)
  {
    assert (x + y)[..|x|] == x;
  }

  /** A prefix of a prefix is a prefix. */
  lemma PrefixTransitive(s: string, p: string, q: string)
    requires HasPrefix(s, p) && HasPrefix(p, q)
    ensures HasPrefix(s, q)
  {
    assert s[..|q|] == s[..|p|][..|q|];
  }

  /** strings.TrimPrefix: `s` without `p` when it starts with `p`. */
  function TrimPrefix(s: string, p: string): (r: string)
    ensures HasPrefix(s, p) ==> s == p + r
    ensures !HasPrefix(s, p) ==> r == s
  {
    if HasPrefix(s, p) then s[|p|..] else s
  }

  // ------------------------------------------------------- counting, search

  /** strings.Count for a one-character separator. */
  function Count(s: string, c: char): nat
  {
    if s == [] then 0 else (if s[0] == c then 1 else 0) + Count(s[1..], c)
  }

  lemma {:induction false} CountZero(s: string, c: char)
    ensures Count(s, c) == 0 <==> c !in s
  {
    if s != [] {
      CountZero(s[1..], c);
      assert s == [s[0]] + s[1..];
    }
  }

  lemma {:induction false} CountAppend(a: string, b: string, c: char)
    ensures Count(a + b, c) == Count(a, c) + Count(b, c)
  {
    if a != [] {
      assert (a + b)[0] == a[0];
      assert (a + b)[1..] == a[1..] + b;
      CountAppend(a[1..], b, c);
    } else {
      assert a + b == b;
    }
  }

  /** The first index of `c` in `s`, or -1. */
  function IndexOf(s: string, c: char): (i: int)
    ensures -1 <= i < |s|
    ensures i == -1 <==> c !in s
    ensures 0 <= i ==> s[i] == c && c !in s[..i]
  {
    if s == [] then -1
    else if s[0] == c then 0
    else
      var j := IndexOf(s[1..], c);
      if j == -1 then -1
      else
        assert s[..j + 1] == [s[0]] + s[1..][..j];
        j + 1
  }

  /** The last index of `c` in `s`, or -1. */
  function LastIndexOf(s: string, c: char): (i: int)
    ensures -1 <= i < |s|
    ensures i == -1 <==> c !in s
    ensures 0 <= i ==> s[i] == c && c !in s[i + 1..]
  {
    if s == [] then -1
    else if s[|s| - 1] == c then |s| - 1
    else
      assert s == s[..|s| - 1] + [s[|s| - 1]];
      LastIndexOf(s[..|s| - 1], c)
  }

  /** The last `c` of a string whose tail after it holds no `c`. */
  lemma LastIndexOfAt(a: string, b: string, c: char)
    requires c !in b
    ensures LastIndexOf(a + [c] + b, c) == |a|
  {
    var s := a + [c] + b;
    assert s[|a| + 1..] == b;
    LastIndexOfIs(s, c, |a|);
  }

  lemma {:induction false} LastIndexOfIs(s: string, c: char, j: nat)
    requires j < |s| && s[j] == c && c !in s[j + 1..]
    ensures LastIndexOf(s, c) == j
    decreases |s|
  {
    if j < |s| - 1 {
      var t := s[..|s| - 1];
      assert s[j + 1..] == t[j + 1..] + [s[|s| - 1]];
      LastIndexOfIs(t, c, j);
    }
  }

  /**
   * strings.Cut: the text before the first `c`, the text after it, and
   * whether `c` occurs at all.
   */
  function Cut(s: string, c: char): (r: (string, string, bool))
    ensures r.2 == (c in s)
    ensures c !in r.0
    ensures r.2 ==> s == r.0 + [c] + r.1
    ensures !r.2 ==> r.0 == s && r.1 == ""
  {
    var i := IndexOf(s, c);
    if i < 0 then (s, "", false)
    else
      assert s == s[..i] + [c] + s[i + 1..];
      (s[..i], s[i + 1..], true)
  }

  /** A string split at a first occurrence of `c` is cut there. */
  lemma CutAt(a: string, b: string, c: char)
    requires c !in a
    ensures Cut(a + [c] + b, c) == (a, b, true)
  {
    var s := a + [c] + b;
    assert s[..|a|] == a;
    assert s[|a|] == c;
    assert s[|a| + 1..] == b;
  }

  /** A string without `c` is not cut. */
  lemma CutAbsent(s: string, c: char)
    requires c !in s
    ensures Cut(s, c) == (s, "", false)
  {
  }

  // ------------------------------------------------------- split and join

  /**
   * strings.Split for a one-character separator: the text between the
   * separators, so there is always one more part than separators.
   */
  function Split(s: string, sep: char): (parts: seq<string>)
    ensures |parts| >= 1
    ensures forall i :: 0 <= i < |parts| ==> sep !in parts[i]
    decreases |s|
  {
    if s == [] then [""]
    else
      var rest := Split(s[1..], sep);
      if s[0] == sep then [""] + rest
      else [[s[0]] + rest[0]] + rest[1..]
  }

  /** strings.Join with a one-character separator. */
  function Join(parts: seq<string>, sep: char): string
  {
    if |parts| == 0 then ""
    else if |parts| == 1 then parts[0]
    else parts[0] + [sep] + Join(parts[1..], sep)
  }

  /** Joining the parts of a split gives back the string. */
  lemma {:induction false} JoinSplit(s: string, sep: char)
    ensures Join(Split(s, sep), sep) == s
    decreases |s|
  {
    if s != [] {
      var rest := Split(s[1..], sep);
      JoinSplit(s[1..], sep);
      if s[0] == sep {
        assert Split(s, sep)[1..] == rest;
      } else if |rest| > 1 {
        var parts := Split(s, sep);
        assert parts[1..] == rest[1..];
        assert Join(rest, sep) == rest[0] + [sep] + Join(rest[1..], sep);
      }
      assert s == [s[0]] + s[1..];
    }
  }

  /** The number of parts is one more than the number of separators. */
  lemma {:induction false} SplitLength(s: string, sep: char)
    ensures |Split(s, sep)| == Count(s, sep) + 1
    decreases |s|
  {
    if s != [] {
      SplitLength(s[1..], sep);
    }
  }

  /** A string with no separator is a single part. */
  lemma SplitNoSeparator(s: string, sep: char)
    requires sep !in s
    ensures Split(s, sep) == [s]
  {
    SplitLength(s, sep);
    CountZero(s, sep);
    var parts := Split(s, sep);
    JoinSplit(s, sep);
  }

  /** Splitting at a separator distributes over the two sides. */
  lemma {:induction false} SplitAround(a: string, b: string, sep: char)
    ensures Split(a + [sep] + b, sep) == Split(a, sep) + Split(b, sep)
    decreases |a|
  {
    if a == [] {
      assert [] + [sep] + b == [sep] + b;
      assert ([sep] + b)[1..] == b;
    } else {
      assert (a + [sep] + b)[1..] == a[1..] + [sep] + b;
      SplitAround(a[1..], b, sep);
    }
  }

  /** The parts of a join are the joined parts, when none holds the separator. */
  lemma {:induction false} SplitJoin(parts: seq<string>, sep: char)
    requires |parts| >= 1
    requires forall i :: 0 <= i < |parts| ==> sep !in parts[i]
    ensures Split(Join(parts, sep), sep) == parts
    decreases |parts|
  {
    SplitNoSeparator(parts[0], sep);
    if |parts| > 1 {
      SplitJoin(parts[1..], sep);
      SplitAround(parts[0], Join(parts[1..], sep), sep);
      assert parts == [parts[0]] + parts[1..];
    }
  }

  /** Joining two non-empty lists of parts puts one separator between them. */
  lemma {:induction false} JoinAppend(a: seq<string>, b: seq<string>, sep: char)
    requires |a| >= 1 && |b| >= 1
    ensures Join(a + b, sep) == Join(a, sep) + [sep] + Join(b, sep)
    decreases |a|
  {
    if |a| > 1 {
      assert (a + b)[1..] == a[1..] + b;
      JoinAppend(a[1..], b, sep);
    } else {
      assert (a + b)[1..] == b;
    }
  }

  // --------------------------------------------------------- dropping runs

  /** `s` without its leading characters of class `p`. */
  function DropWhile(s: string, p: char -> bool): (r: string)
    ensures |r| <= |s|
    ensures r != [] ==> !p(r[0])
    decreases |s|
  {
    if s != [] && p(s[0]) then DropWhile(s[1..], p) else s
  }

  /** DropWhile removes a prefix, all of whose characters are of the class. */
  lemma {:induction false} DropWhileDropped(s: string, p: char -> bool)
    ensures DropWhile(s, p) == s[|s| - |DropWhile(s, p)|..]
    ensures forall i :: 0 <= i < |s| - |DropWhile(s, p)| ==> p(s[i])
    decreases |s|
  {
    if s != [] && p(s[0]) {
      DropWhileDropped(s[1..], p);
      forall i | 0 < i < |s| - |DropWhile(s, p)| ensures p(s[i]) {
        assert s[i] == s[1..][i - 1];
      }
    }
  }

  /** `s` without its trailing characters of class `p`. */
  function DropWhileEnd(s: string, p: char -> bool): (r: string)
    ensures |r| <= |s|
    ensures r != [] ==> !p(r[|r| - 1])
    decreases |s|
  {
    if s != [] && p(s[|s| - 1]) then DropWhileEnd(s[..|s| - 1], p) else s
  }

  /** DropWhileEnd removes a suffix, all of whose characters are of the class. */
  lemma {:induction false} DropWhileEndDropped(s: string, p: char -> bool)
    ensures DropWhileEnd(s, p) == s[..|DropWhileEnd(s, p)|]
    ensures forall i :: |DropWhileEnd(s, p)| <= i < |s| ==> p(s[i])
    decreases |s|
  {
    if s != [] && p(s[|s| - 1]) {
      var t := s[..|s| - 1];
      DropWhileEndDropped(t, p);
      forall i | |DropWhileEnd(s, p)| <= i < |s| - 1 ensures p(s[i]) {
        assert s[i] == t[i];
      }
    }
  }

  /** strings.Trim with a cut set: `s` without the characters of class `p` at either end. */
  function Trim(s: string, p: char -> bool): (r: string)
    ensures r != [] ==> !p(r[0]) && !p(r[|r| - 1])
  {
    var t := DropWhile(s, p);
    var r := DropWhileEnd(t, p);
    DropWhileEndDropped(t, p);
    assert r != [] ==> r[0] == t[0];
    r
  }

  /**
   * Trim keeps a contiguous part of `s` and removes only class characters
   * around it.
   */
  lemma TrimSlice(s: string, p: char -> bool)
    ensures var r := Trim(s, p); var k := |s| - |DropWhile(s, p)|;
      k + |r| <= |s| && r == s[k..k + |r|] &&
      (forall i :: 0 <= i < k ==> p(s[i])) &&
      (forall i :: k + |r| <= i < |s| ==> p(s[i]))
  {
    var t := DropWhile(s, p);
    var k := |s| - |t|;
    DropWhileDropped(s, p);
    DropWhileEndDropped(t, p);
    var r := DropWhileEnd(t, p);
    forall i | k + |r| <= i < |s| ensures p(s[i]) {
      assert s[i] == t[i - k];
    }
  }

  // ------------------------------------------------------ squeezing runs

  /**
   * A regular-expression rewrite `X+` -> `rep`, where X is the class `p`:
   * every maximal run of `p` characters becomes one `rep`.
   */
  function SquashRuns(s: string, p: char -> bool, rep: char): (r: string)
    ensures s == [] <==> r == []
    ensures s != [] ==> r[0] == (if p(s[0]) then rep else s[0])
    decreases |s|
  {
    if s == [] then []
    else if p(s[0]) then [rep] + SquashRuns(DropWhile(s[1..], p), p, rep)
    else [s[0]] + SquashRuns(s[1..], p, rep)
  }

  /** `c` is outside the class, or it is `rep`. */
  predicate ClassRep(c: char, p: char -> bool, rep: char) {
    c == rep || !p(c)
  }

  /** The characters of `s` at `i - 1` and `i` are not both of the class. */
  predicate Apart(s: string, p: char -> bool, i: int)
    requires 0 < i < |s|
  {
    !(p(s[i - 1]) && p(s[i]))
  }

  /** Every class character of `s` is `rep`, and no two of them are adjacent. */
  predicate Squashed(s: string, p: char -> bool, rep: char) {
    (forall i :: 0 <= i < |s| ==> ClassRep(s[i], p, rep)) &&
    (forall i :: 0 < i < |s| ==> Apart(s, p, i))
  }

  /**
   * After the run rewrite every class character is `rep` and no two class
   * characters are adjacent.
   */
  lemma {:induction false} SquashRunsClass(s: string, p: char -> bool, rep: char)
    ensures Squashed(SquashRuns(s, p, rep), p, rep)
    decreases |s|
  {
    if s != [] {
      var t := if p(s[0]) then DropWhile(s[1..], p) else s[1..];
      SquashRunsClass(t, p, rep);
      var r := SquashRuns(s, p, rep);
      var rt := SquashRuns(t, p, rep);
      assert r == [r[0]] + rt;
      forall i | 0 <= i < |r| ensures ClassRep(r[i], p, rep) {
        if i > 0 {
          assert r[i] == rt[i - 1];
        }
      }
      assert p(r[0]) && rt != [] ==> !p(rt[0]);
      forall i | 0 < i < |r| ensures Apart(r, p, i) {
        if i > 1 {
          assert Apart(rt, p, i - 1);
          assert r[i - 1] == rt[i - 2] && r[i] == rt[i - 1];
        } else {
          assert r[1] == rt[0];
        }
      }
    }
  }

  /** Every character the run rewrite leaves is `rep` or a character of `s`. */
  lemma {:induction false} SquashRunsChars(s: string, p: char -> bool, rep: char)
    ensures forall c :: c in SquashRuns(s, p, rep) ==> c == rep || c in s
    decreases |s|
  {
    if s != [] {
      if p(s[0]) {
        var d := DropWhile(s[1..], p);
        SquashRunsChars(d, p, rep);
        DropWhileDropped(s[1..], p);
        assert forall c :: c in d ==> c in s;
      } else {
        SquashRunsChars(s[1..], p, rep);
        assert forall c :: c in s[1..] ==> c in s;
      }
    }
  }

  /**
   * The run rewrite leaves a string alone exactly when it has no two
   * adjacent characters of the class and every one of them is already `rep`.
   */
  lemma {:induction false} SquashRunsFixpoint(s: string, p: char -> bool, rep: char)
    ensures SquashRuns(s, p, rep) == s <==> Squashed(s, p, rep)
    decreases |s|
  {
    if Squashed(s, p, rep) {
      if s != [] {
        var t := s[1..];
        assert Squashed(t, p, rep) by {
          forall i | 0 < i < |t| ensures Apart(t, p, i) {
            assert Apart(s, p, i + 1);
          }
        }
        SquashRunsFixpoint(t, p, rep);
        if p(s[0]) {
          assert t != [] ==> Apart(s, p, 1);
          assert DropWhile(t, p) == t;
        }
        assert s == [s[0]] + t;
      }
    } else {
      SquashRunsClass(s, p, rep);
    }
  }

  /** A prefix with no character of the class passes through the run rewrite. */
  lemma {:induction false} SquashRunsPrefix(a: string, b: string, p: char -> bool, rep: char)
    requires forall i :: 0 <= i < |a| ==> !p(a[i])
    ensures SquashRuns(a + b, p, rep) == a + SquashRuns(b, p, rep)
    decreases |a|
  {
    if a == [] {
      assert a + b == b;
    } else {
      var a' := a[1..];
      assert forall i :: 0 <= i < |a'| ==> a'[i] == a[i + 1];
      SquashRunsPrefix(a', b, p, rep);
      assert a + b == [a[0]] + (a' + b);
      SquashRunsCons(a[0], a' + b, p, rep);
      SeqAssoc([a[0]], a', SquashRuns(b, p, rep));
      assert a == [a[0]] + a';
    }
  }

  lemma SquashRunsCons(c: char, t: string, p: char -> bool, rep: char)
    ensures SquashRuns([c] + t, p, rep) ==
      if p(c) then [rep] + SquashRuns(DropWhile(t, p), p, rep) else [c] + SquashRuns(t, p, rep)
  {
    assert ([c] + t)[0] == c && ([c] + t)[1..] == t;
  }

  lemma SeqAssoc(x: string, y: string, z: string)
    ensures x + (y + z) == (x + y) + z
  {
  }

  lemma DropWhileStop(s: string, p: char -> bool)
    requires s != [] && !p(s[0])
    ensures DropWhile(s, p) == s
  {
  }

  /** A string ending outside the class splits the run rewrite in two. */
  lemma {:induction false} SquashRunsAppend(a: string, b: string, p: char -> bool, rep: char)
    requires a == [] || !p(a[|a| - 1])
    ensures SquashRuns(a + b, p, rep) == SquashRuns(a, p, rep) + SquashRuns(b, p, rep)
    decreases |a|
  {
    if a == [] {
      assert a + b == b;
    } else {
      var t := a[1..];
      assert a + b == [a[0]] + (t + b);
      SquashRunsCons(a[0], t + b, p, rep);
      SquashRunsCons(a[0], t, p, rep);
      assert a == [a[0]] + t;
      if p(a[0]) {
        var d := DropWhile(t, p);
        DropWhileAppend(t, b, p);
        SquashRunsAppend(d, b, p, rep);
        SeqAssoc([rep], SquashRuns(d, p, rep), SquashRuns(b, p, rep));
      } else {
        SquashRunsAppend(t, b, p, rep);
        SeqAssoc([a[0]], SquashRuns(t, p, rep), SquashRuns(b, p, rep));
      }
    }
  }

  /**
   * Dropping leading class characters from `t + b` stops inside `t` when
   * `t` ends outside the class.
   */
  lemma {:induction false} DropWhileAppend(t: string, b: string, p: char -> bool)
    requires t != [] && !p(t[|t| - 1])
    ensures DropWhile(t + b, p) == DropWhile(t, p) + b
    ensures DropWhile(t, p) != [] && !p(DropWhile(t, p)[|DropWhile(t, p)| - 1])
    decreases |t|
  {
    assert (t + b)[0] == t[0];
    if p(t[0]) {
      assert |t| > 1;
      assert (t + b)[1..] == t[1..] + b;
      DropWhileAppend(t[1..], b, p);
    }
  }

  /** A non-empty run of class characters before a non-class start becomes one `rep`. */
  lemma {:induction false} SquashRunsLead(w: string, b: string, p: char -> bool, rep: char)
    requires w != [] && forall i :: 0 <= i < |w| ==> p(w[i])
    requires b == [] || !p(b[0])
    ensures SquashRuns(w + b, p, rep) == [rep] + SquashRuns(b, p, rep)
  {
    assert w + b == [w[0]] + (w[1..] + b);
    SquashRunsCons(w[0], w[1..] + b, p, rep);
    DropRun(w[1..], b, p);
  }

  lemma {:induction false} DropRun(w: string, b: string, p: char -> bool)
    requires forall i :: 0 <= i < |w| ==> p(w[i])
    requires b == [] || !p(b[0])
    ensures DropWhile(w + b, p) == b
    decreases |w|
  {
    if w == [] {
      assert w + b == b;
    } else {
      assert (w + b)[0] == w[0];
      assert (w + b)[1..] == w[1..] + b;
      DropRun(w[1..], b, p);
    }
  }

  // ----------------------------------------------------------- filtering

  /** The characters of `s` of class `q`, in order. */
  function Keep(s: string, q: char -> bool): (r: string)
    ensures forall i :: 0 <= i < |r| ==> q(r[i])
    decreases |s|
  {
    if s == [] then [] else (if q(s[0]) then [s[0]] else []) + Keep(s[1..], q)
  }

  lemma {:induction false} KeepAppend(a: string, b: string, q: char -> bool)
    ensures Keep(a + b, q) == Keep(a, q) + Keep(b, q)
    decreases |a|
  {
    if a != [] {
      assert (a + b)[0] == a[0];
      assert (a + b)[1..] == a[1..] + b;
      KeepAppend(a[1..], b, q);
    } else {
      assert a + b == b;
    }
  }

  lemma {:induction false} KeepNone(s: string, q: char -> bool)
    requires forall i :: 0 <= i < |s| ==> !q(s[i])
    ensures Keep(s, q) == []
    decreases |s|
  {
    if s != [] {
      KeepNone(s[1..], q);
    }
  }

  /** A map that keeps the class `q` exactly, fixing its members, keeps the same `q` characters. */
  lemma {:induction false} KeepMapChars(s: string, f: char -> char, q: char -> bool)
    requires forall c :: q(c) ==> f(c) == c
    requires forall c :: !q(c) ==> !q(f(c))
    ensures Keep(MapChars(s, f), q) == Keep(s, q)
    decreases |s|
  {
    if s != [] {
      var m := MapChars(s, f);
      assert m[1..] == MapChars(s[1..], f);
      KeepMapChars(s[1..], f, q);
    }
  }

  /** Rewriting runs of a class disjoint from `q`, into a non-`q` character, keeps the `q` characters. */
  lemma {:induction false} KeepSquashRuns(s: string, p: char -> bool, rep: char, q: char -> bool)
    requires forall c :: p(c) ==> !q(c)
    requires !q(rep)
    ensures Keep(SquashRuns(s, p, rep), q) == Keep(s, q)
    decreases |s|
  {
    if s != [] {
      var r := SquashRuns(s, p, rep);
      if p(s[0]) {
        var d := DropWhile(s[1..], p);
        KeepSquashRuns(d, p, rep, q);
        KeepDropWhile(s[1..], p, q);
        assert r == [rep] + SquashRuns(d, p, rep);
        KeepAppend([rep], SquashRuns(d, p, rep), q);
      } else {
        KeepSquashRuns(s[1..], p, rep, q);
        assert r == [s[0]] + SquashRuns(s[1..], p, rep);
        KeepAppend([s[0]], SquashRuns(s[1..], p, rep), q);
      }
    }
  }

  /** Dropping leading characters of a class disjoint from `q` keeps the `q` characters. */
  lemma {:induction false} KeepDropWhile(s: string, p: char -> bool, q: char -> bool)
    requires forall c :: p(c) ==> !q(c)
    ensures Keep(DropWhile(s, p), q) == Keep(s, q)
    decreases |s|
  {
    if s != [] && p(s[0]) {
      KeepDropWhile(s[1..], p, q);
    }
  }

  /** Dropping trailing characters of a class disjoint from `q` keeps the `q` characters. */
  lemma {:induction false} KeepDropWhileEnd(s: string, p: char -> bool, q: char -> bool)
    requires forall c :: p(c) ==> !q(c)
    ensures Keep(DropWhileEnd(s, p), q) == Keep(s, q)
    decreases |s|
  {
    if s != [] && p(s[|s| - 1]) {
      var t := s[..|s| - 1];
      KeepDropWhileEnd(t, p, q);
      assert s == t + [s[|s| - 1]];
      KeepAppend(t, [s[|s| - 1]], q);
    }
  }

  /** Trimming characters of a class disjoint from `q` keeps the `q` characters. */
  lemma KeepTrim(s: string, p: char -> bool, q: char -> bool)
    requires forall c :: p(c) ==> !q(c)
    ensures Keep(Trim(s, p), q) == Keep(s, q)
  {
    KeepDropWhile(s, p, q);
    KeepDropWhileEnd(DropWhile(s, p), p, q);
  }

  /** A map that fixes every character of `s` leaves `s` alone. */
  lemma MapCharsFixed(s: string, f: char -> char)
    requires forall i :: 0 <= i < |s| ==> f(s[i]) == s[i]
    ensures MapChars(s, f) == s
  {
  }

  /** Trimming a string that neither starts nor ends in the class changes nothing. */
  lemma TrimUnchanged(s: string, p: char -> bool)
    requires s == [] || (!p(s[0]) && !p(s[|s| - 1]))
    ensures Trim(s, p) == s
  {
  }

  // ------------------------------------------------------------ replacing

  /** `pat` occurs in `s` at index `i`. */
  predicate OccursAt(s: string, pat: string, i: int) {
    0 <= i && i + |pat| <= |s| && s[i..i + |pat|] == pat
  }

  /**
   * strings.Replace(s, pat, rep, -1) for a non-empty `pat`: one pass from
   * left to right, replacing non-overlapping occurrences.
   */
  function ReplaceAll(s: string, pat: string, rep: string): (r: string)
    requires |pat| > 0
    ensures forall i :: 0 <= i < |r| ==> r[i] in s || r[i] in rep
    decreases |s|
  {
    if |s| < |pat| then s
    else if s[..|pat|] == pat then
      var t := ReplaceAll(s[|pat|..], pat, rep);
      assert forall c :: c in s[|pat|..] ==> c in s;
      rep + t
    else
      var t := ReplaceAll(s[1..], pat, rep);
      assert forall c :: c in s[1..] ==> c in s;
      [s[0]] + t
  }

  /** With no occurrence of `pat`, replacing changes nothing. */
  lemma {:induction false} ReplaceAllAbsent(s: string, pat: string, rep: string)
    requires |pat| > 0
    requires forall i :: !OccursAt(s, pat, i)
    ensures ReplaceAll(s, pat, rep) == s
    decreases |s|
  {
    if |s| >= |pat| {
      assert !OccursAt(s, pat, 0);
      forall i ensures !OccursAt(s[1..], pat, i) {
        if OccursAt(s[1..], pat, i) {
          assert s[1..][i..i + |pat|] == s[i + 1..i + 1 + |pat|];
          assert OccursAt(s, pat, i + 1);
        }
      }
      ReplaceAllAbsent(s[1..], pat, rep);
      assert s == [s[0]] + s[1..];
    }
  }
  /**
   * When no occurrence of `pat` starts inside `a`, replacing in `a + b`
   * copies `a` and goes on with `b`.
   */
  lemma {:induction false} ReplaceAllPrefix(a: string, b: string, pat: string, rep: string)
    requires |pat| > 0
    requires forall i :: 0 <= i < |a| ==> !OccursAt(a + b, pat, i)
    ensures ReplaceAll(a + b, pat, rep) == a + ReplaceAll(b, pat, rep)
    decreases |a|
  {
    if a == [] {
      assert a + b == b;
    } else {
      var s := a + b;
      assert !OccursAt(s, pat, 0);
      assert s[1..] == a[1..] + b;
      forall i | 0 <= i < |a| - 1 ensures !OccursAt(a[1..] + b, pat, i) {
        assert !OccursAt(s, pat, i + 1);
        if i + |pat| <= |a[1..] + b| {
          assert (a[1..] + b)[i..i + |pat|] == s[i + 1..i + 1 + |pat|];
        }
      }
      ReplaceAllPrefix(a[1..], b, pat, rep);
      if |s| >= |pat| {
        assert s[..|pat|] != pat;
      }
      assert a == [a[0]] + a[1..];
      SeqAssoc([a[0]], a[1..], ReplaceAll(b, pat, rep));
    }
  }

  /** An occurrence at the front is replaced. */
  lemma ReplaceAllFront(pat: string, b: string, rep: string)
    requires |pat| > 0
    ensures ReplaceAll(pat + b, pat, rep) == rep + ReplaceAll(b, pat, rep)
  {
    assert (pat + b)[..|pat|] == pat;
    assert (pat + b)[|pat|..] == b;
  }
}
