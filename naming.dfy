/**
 * The names derived from a plugin (agent/plugin.go): `Name`, the short name
 * used in environment variables; `Label`, the reference written back out; and
 * `Identifier`, a folder-safe form of the label.
 */
module Naming {
  import opened Results
  import opened Strings
  import opened PluginTypes
  import opened Reference

  /** The suffix plugin repositories conventionally carry, dropped from the name. */
  const PluginSuffix: string := "-buildkite-plugin"

  // ------------------------------------------------------------------ Name

  /** The class `[a-z0-9-]`, the characters a name is made of. */
  predicate IsNameChar(c: char) { IsLower(c) || IsDigit(c) || c == '-' }

  predicate NameChars(s: string) {
    forall i :: 0 <= i < |s| ==> IsNameChar(s[i])
  }

  lemma NameCharsAppend(a: string, b: string)
    requires NameChars(a) && NameChars(b)
    ensures NameChars(a + b)
  {
    forall i | 0 <= i < |a + b| ensures IsNameChar((a + b)[i]) {
      if i >= |a| {
        assert (a + b)[i] == b[i - |a|];
      }
    }
  }

  /** The text after the last `/` of a location (all of it when there is none). */
  function LastSegment(location: string): (seg: string)
    ensures '/' !in seg
  {
    var parts := Split(location, '/');
    parts[|parts| - 1]
  }

  /**
   * The first three rewrites of Name on one segment: lower-case it, turn each
   * whitespace run into one space, then turn every character outside
   * `[a-zA-Z0-9]` into `-`.
   */
  function Slug(seg: string): (r: string)
    ensures NameChars(r)
  {
    var lower := ToLower(seg);
    var spaced := SquashRuns(lower, IsSpace, ' ');
    SquashRunsChars(lower, IsSpace, ' ');
    assert forall i :: 0 <= i < |spaced| ==> !IsUpper(spaced[i]) by {
      forall i | 0 <= i < |spaced| ensures !IsUpper(spaced[i]) {
        assert spaced[i] == ' ' || spaced[i] in lower;
      }
    }
    MapChars(spaced, DashUnlessAlnum)
  }

  /** The name a single segment gives: its slug with every `-buildkite-plugin` removed in one pass. */
  function SegmentName(seg: string): (r: string)
    ensures NameChars(r)
  {
    var slug := Slug(seg);
    var r := ReplaceAll(slug, PluginSuffix, "");
    assert forall i :: 0 <= i < |r| ==> r[i] in slug;
    r
  }

  /** Plugin.Name: empty for an empty location, otherwise the name of its last segment. */
  function Name(p: Plugin): (r: string)
    ensures p.location == "" ==> r == ""
    ensures NameChars(r)
  {
    if p.location != "" then SegmentName(LastSegment(p.location)) else ""
  }

  lemma PluginSuffixChars()
    ensures NameChars(PluginSuffix)
  {
  }

  /** Only the last segment of the location decides the name. */
  lemma NameOfLastSegment(p: Plugin, dir: string, seg: string)
    requires p.location == dir + "/" + seg
    requires '/' !in seg
    ensures Name(p) == SegmentName(seg)
  {
    SplitAround(dir, seg, '/');
    SplitNoSeparator(seg, '/');
  }

  /** A location without a `/` is one segment. */
  lemma NameOfSingleSegment(p: Plugin)
    requires p.location != "" && '/' !in p.location
    ensures Name(p) == SegmentName(p.location)
  {
    SplitNoSeparator(p.location, '/');
  }

  /** A location ending in `/` has an empty last segment, so an empty name. */
  lemma NameOfTrailingSlash(p: Plugin, dir: string)
    requires p.location == dir + "/"
    ensures Name(p) == ""
  {
    assert p.location == dir + "/" + "";
    NameOfLastSegment(p, dir, "");
  }

  /** A segment already made of `[a-z0-9-]` is its own slug. */
  lemma SlugOfNameChars(seg: string)
    requires NameChars(seg)
    ensures Slug(seg) == seg
  {
    MapCharsFixed(seg, ToLowerChar);
    SquashRunsPrefix(seg, [], IsSpace, ' ');
    assert seg + [] == seg;
    MapCharsFixed(seg, DashUnlessAlnum);
  }

  /**
   * Without whitespace the slug works character by character: a letter is
   * lower-cased, a digit is kept, and every other character becomes `-`.
   */
  lemma SlugNoSpace(seg: string)
    requires forall i :: 0 <= i < |seg| ==> !IsSpace(seg[i])
    ensures |Slug(seg)| == |seg|
    ensures forall i :: 0 <= i < |seg| ==>
      Slug(seg)[i] == if IsAlnum(seg[i]) then ToLowerChar(seg[i]) else '-'
  {
    var lower := ToLower(seg);
    assert forall i :: 0 <= i < |lower| ==> !IsSpace(lower[i]);
    SquashRunsPrefix(lower, [], IsSpace, ' ');
    assert lower + [] == lower;
  }

  /**
   * A whitespace run between two parts of a segment becomes a single `-`,
   * whatever its length and its mix of whitespace characters.
   */
  lemma SlugWhitespaceRun(a: string, w: string, b: string)
    requires w != [] && forall i :: 0 <= i < |w| ==> IsSpace(w[i])
    requires a == [] || !IsSpace(a[|a| - 1])
    requires b == [] || !IsSpace(b[0])
    ensures Slug(a + w + b) == Slug(a) + "-" + Slug(b)
  {
    ToLowerAround(a, w, b);
    var la, lb := ToLower(a), ToLower(b);
    SquashRunsAppend(la, w + lb, IsSpace, ' ');
    SquashRunsLead(w, lb, IsSpace, ' ');
    var sa, sb := SquashRuns(la, IsSpace, ' '), SquashRuns(lb, IsSpace, ' ');
    SeqAssoc(sa, [' '], sb);
    MapCharsAppend(sa + [' '], sb, DashUnlessAlnum);
    MapCharsAppend(sa, [' '], DashUnlessAlnum);
  }

  /** Lower-casing leaves whitespace alone and keeps non-whitespace ends non-whitespace. */
  lemma ToLowerAround(a: string, w: string, b: string)
    requires forall i :: 0 <= i < |w| ==> IsSpace(w[i])
    requires a == [] || !IsSpace(a[|a| - 1])
    requires b == [] || !IsSpace(b[0])
    ensures ToLower(a + w + b) == ToLower(a) + (w + ToLower(b))
    ensures ToLower(a) == [] || !IsSpace(ToLower(a)[|a| - 1])
    ensures ToLower(b) == [] || !IsSpace(ToLower(b)[0])
  {
    MapCharsFixed(w, ToLowerChar);
    MapCharsAppend(a + w, b, ToLowerChar);
    MapCharsAppend(a, w, ToLowerChar);
  }

  /** A segment ending in the plugin suffix, with no other occurrence of it, is named by what comes before. */
  lemma SegmentNameDropsSuffix(base: string)
    requires NameChars(base)
    requires forall i :: 0 <= i < |base| ==> !OccursAt(base + PluginSuffix, PluginSuffix, i)
    ensures SegmentName(base + PluginSuffix) == base
  {
    PluginSuffixChars();
    NameCharsAppend(base, PluginSuffix);
    SlugOfNameChars(base + PluginSuffix);
    ReplaceAllPrefix(base, PluginSuffix, PluginSuffix, "");
    ReplaceAllFront(PluginSuffix, [], "");
    assert PluginSuffix + [] == PluginSuffix;
    assert base + "" == base;
  }

  /**
   * An occurrence of the suffix in the middle of a segment is removed too:
   * the two sides are joined directly.
   */
  lemma SegmentNameDropsInner(a: string, b: string)
    requires NameChars(a) && NameChars(b)
    requires forall i :: 0 <= i < |a| ==> !OccursAt(a + (PluginSuffix + b), PluginSuffix, i)
    ensures SegmentName(a + (PluginSuffix + b)) == a + ReplaceAll(b, PluginSuffix, "")
  {
    PluginSuffixChars();
    NameCharsAppend(PluginSuffix, b);
    NameCharsAppend(a, PluginSuffix + b);
    var t := PluginSuffix + b;
    SlugOfNameChars(a + t);
    ReplaceAllPrefix(a, t, PluginSuffix, "");
    ReplaceAllFront(PluginSuffix, b, "");
    assert ReplaceAll(t, PluginSuffix, "") == ReplaceAll(b, PluginSuffix, "");
  }

  /**
   * No occurrence of a pattern of at least two characters starts in `a`
   * when, at every index of `a`, the pattern's first or second character
   * differs from `a`'s.
   */
  lemma NoOccurrence(a: string, b: string, pat: string)
    requires |pat| >= 2
    requires forall i :: 0 <= i < |a| ==> a[i] != pat[0] || (i + 1 < |a| && a[i + 1] != pat[1])
    ensures forall i :: 0 <= i < |a| ==> !OccursAt(a + b, pat, i)
  {
    var s := a + b;
    forall i | 0 <= i < |a| ensures !OccursAt(s, pat, i) {
      if i + |pat| <= |s| {
        if a[i] != pat[0] {
          assert s[i..i + |pat|][0] == a[i];
        } else {
          assert i + 1 < |a| && a[i + 1] != pat[1];
          assert s[i..i + |pat|][1] == a[i + 1];
        }
      }
    }
  }

  /** `.../docker-compose-buildkite-plugin` is named `docker-compose`. */
  lemma ExampleDockerCompose(p: Plugin)
    requires p.location == "github.com/buildkite-plugins" + "/" + ("docker-compose" + PluginSuffix)
    ensures Name(p) == "docker-compose"
  {
    var base := "docker-compose";
    NameOfLastSegment(p, "github.com/buildkite-plugins", base + PluginSuffix);
    DockerComposeChars();
    DockerComposeNoSuffix();
    SegmentNameDropsSuffix(base);
  }

  lemma DockerComposeChars()
    ensures NameChars("docker-compose")
  {
  }

  lemma DockerComposeNoSuffix()
    ensures forall i :: 0 <= i < |"docker-compose"| ==> !OccursAt("docker-compose" + PluginSuffix, PluginSuffix, i)
  {
    NoOccurrence("docker-compose", PluginSuffix, PluginSuffix);
  }

  // ----------------------------------------------------------------- Label

  /** Plugin.Label: the location, then `#` and the version when there is one. */
  function Label(p: Plugin): (r: string)
    ensures HasPrefix(r, p.location)
    ensures p.version == "" ==> r == p.location
  {
    p.location + VersionSuffix(p.version)
  }

  /** The label splits back at its first `#` into location and version. */
  lemma LabelSplits(p: Plugin)
    requires '#' !in p.location
    ensures Cut(Label(p), '#').0 == p.location
    ensures Cut(Label(p), '#').1 == p.version
  {
    CutBeforeVersion(p.location, p.version);
  }

  /** Plugins whose locations hold no `#` have equal labels only when location and version agree. */
  lemma LabelInjective(p: Plugin, q: Plugin)
    requires '#' !in p.location && '#' !in q.location
    requires Label(p) == Label(q)
    ensures p.location == q.location && p.version == q.version
  {
    LabelSplits(p);
    LabelSplits(q);
  }

  /** The label of a plugin made from a schemeless reference is the reference. */
  lemma LabelOfSchemeless(location: string, version: string, config: Config)
    requires Plain(location)
    requires ':' !in Cut(location, '/').0
    requires !HasPrefix(location, "//") || HasPrefix(location, "///")
    requires '#' !in version
    ensures CreatePlugin(location + VersionSuffix(version), config).Ok?
    ensures Label(CreatePlugin(location + VersionSuffix(version), config).value) == location + VersionSuffix(version)
  {
    CreatePluginSchemeless(location, version, config);
  }

  // ------------------------------------------------------------ Identifier

  /**
   * The form of an identifier: only `[a-zA-Z0-9-]`, no `-` at either end
   * and no two `-` in a row.
   */
  predicate IsIdentifier(s: string) {
    IdChars(s) && (s != [] ==> s[0] != '-' && s[|s| - 1] != '-') && NoDoubleDash(s)
  }

  /** Only `[a-zA-Z0-9-]`. */
  predicate IdChars(s: string) {
    forall i :: 0 <= i < |s| ==> IsAlnum(s[i]) || s[i] == '-'
  }

  /** No two `-` in a row. */
  predicate NoDoubleDash(s: string) {
    forall i :: 0 < i < |s| ==> Apart(s, IsDash, i)
  }

  /**
   * The cleaning steps of Identifier: every character outside `[a-zA-Z0-9]`
   * becomes `-`, each run of `-` becomes one `-`, and `-` is trimmed from
   * both ends. The letters and digits are kept, in order.
   */
  function CleanId(s: string): (r: string)
    ensures IsIdentifier(r)
    ensures Keep(r, IsAlnum) == Keep(s, IsAlnum)
  {
    var dashed := MapChars(s, DashUnlessAlnum);
    var squashed := SquashRuns(dashed, IsDash, '-');
    var r := Trim(squashed, IsDash);
    CleanIdClass(dashed);
    TrimKeepsForm(squashed);
    KeepMapChars(s, DashUnlessAlnum, IsAlnum);
    KeepSquashRuns(dashed, IsDash, '-', IsAlnum);
    KeepTrim(squashed, IsDash, IsAlnum);
    r
  }

  /** The squashed dashed text is made of `[a-zA-Z0-9-]` with no two `-` in a row. */
  lemma CleanIdClass(dashed: string)
    requires IdChars(dashed)
    ensures IdChars(SquashRuns(dashed, IsDash, '-'))
    ensures NoDoubleDash(SquashRuns(dashed, IsDash, '-'))
  {
    var q := SquashRuns(dashed, IsDash, '-');
    SquashRunsChars(dashed, IsDash, '-');
    SquashRunsClass(dashed, IsDash, '-');
    forall i | 0 <= i < |q| ensures IsAlnum(q[i]) || q[i] == '-' {
      assert q[i] == '-' || q[i] in dashed;
    }
  }

  /** Trimming keeps a contiguous part, so the class and the missing `--` survive it. */
  lemma TrimKeepsForm(s: string)
    requires IdChars(s) && NoDoubleDash(s)
    ensures IdChars(Trim(s, IsDash)) && NoDoubleDash(Trim(s, IsDash))
  {
    TrimSlice(s, IsDash);
    var r := Trim(s, IsDash);
    var k := |s| - |DropWhile(s, IsDash)|;
    forall i | 0 <= i < |r| ensures IsAlnum(r[i]) || r[i] == '-' {
      assert r[i] == s[k + i];
    }
    forall i | 0 < i < |r| ensures Apart(r, IsDash, i) {
      assert r[i - 1] == s[k + i - 1] && r[i] == s[k + i];
      assert Apart(s, IsDash, k + i);
    }
  }

  /**
   * Running the cleaning steps leaves a string unchanged exactly when it
   * already has the identifier form; so cleaning twice is cleaning once.
   */
  lemma CleanIdFixpoint(s: string)
    ensures CleanId(s) == s <==> IsIdentifier(s)
  {
    if IsIdentifier(s) {
      MapCharsFixed(s, DashUnlessAlnum);
      SquashRunsFixpoint(s, IsDash, '-');
      TrimUnchanged(s, IsDash);
    }
  }

  lemma CleanIdIdempotent(s: string)
    ensures CleanId(CleanId(s)) == CleanId(s)
  {
    CleanIdFixpoint(CleanId(s));
  }

  // ------------------------------------------------ letter-and-digit words

  /** A non-empty run of letters and digits. */
  predicate IsWord(w: string) {
    w != [] && forall i :: 0 <= i < |w| ==> IsAlnum(w[i])
  }

  /**
   * The maximal runs of letters and digits of `s`, in order: the words left
   * between its other characters.
   */
  function Words(s: string): (ws: seq<string>)
    ensures s != [] && IsAlnum(s[0]) ==> ws != []
    ensures forall i :: 0 <= i < |ws| ==> IsWord(ws[i])
    decreases |s|
  {
    if s == [] then []
    else
      var rest := Words(s[1..]);
      if !IsAlnum(s[0]) then rest
      else if |s| > 1 && IsAlnum(s[1]) then [[s[0]] + rest[0]] + rest[1..]
      else [[s[0]]] + rest
  }

  /** A word followed by a separator, or by nothing, is split off whole as the first word. */
  lemma {:induction false} WordsOfWordThen(w: string, rest: string)
    requires IsWord(w)
    requires rest == [] || !IsAlnum(rest[0])
    ensures Words(w + rest) == [w] + Words(rest)
    decreases |w|
  {
    var s := w + rest;
    assert s[0] == w[0];
    if |w| == 1 {
      assert s[1..] == rest;
      assert w == [s[0]];
      assert |s| > 1 ==> s[1] == rest[0];
    } else {
      assert s[1..] == w[1..] + rest;
      assert IsWord(w[1..]);
      WordsOfWordThen(w[1..], rest);
      assert s[1] == w[1];
      assert [w[0]] + w[1..] == w;
    }
  }

  /** Words joined by any separator that is not a letter or digit are found again, in order. */
  lemma {:induction false} WordsOfJoin(ws: seq<string>, sep: char)
    requires forall i :: 0 <= i < |ws| ==> IsWord(ws[i])
    requires !IsAlnum(sep)
    ensures Words(Join(ws, sep)) == ws
    decreases |ws|
  {
    if |ws| == 1 {
      WordsOfWordThen(ws[0], []);
      assert ws[0] + [] == ws[0];
    } else if |ws| > 1 {
      var tail := Join(ws[1..], sep);
      WordsOfJoin(ws[1..], sep);
      WordsOfWordThen(ws[0], [sep] + tail);
      assert ([sep] + tail)[1..] == tail;
      SeqAssoc(ws[0], [sep], tail);
      assert [ws[0]] + ws[1..] == ws;
    }
  }

  /** The words depend only on where the letters and digits are, and on what they are. */
  lemma {:induction false} WordsSkeleton(s: string, t: string)
    requires |s| == |t|
    requires forall i :: 0 <= i < |s| ==> (IsAlnum(s[i]) <==> IsAlnum(t[i]))
    requires forall i :: 0 <= i < |s| ==> IsAlnum(s[i]) ==> s[i] == t[i]
    ensures Words(s) == Words(t)
    decreases |s|
  {
    if s != [] {
      WordsSkeleton(s[1..], t[1..]);
    }
  }

  /** A text without letters and digits has no words. */
  lemma {:induction false} WordsNone(b: string)
    requires forall i :: 0 <= i < |b| ==> !IsAlnum(b[i])
    ensures Words(b) == []
    decreases |b|
  {
    if b != [] {
      WordsNone(b[1..]);
    }
  }

  /** Dropping leading separators keeps the words. */
  lemma {:induction false} WordsDropWhile(t: string, p: char -> bool)
    requires forall c :: p(c) ==> !IsAlnum(c)
    ensures Words(DropWhile(t, p)) == Words(t)
    decreases |t|
  {
    if t != [] && p(t[0]) {
      WordsDropWhile(t[1..], p);
    }
  }

  /** Trailing separators add no word. */
  lemma {:induction false} WordsAppendNone(a: string, b: string)
    requires forall i :: 0 <= i < |b| ==> !IsAlnum(b[i])
    ensures Words(a + b) == Words(a)
    decreases |a|
  {
    if a == [] {
      assert a + b == b;
      WordsNone(b);
    } else {
      WordsAppendNone(a[1..], b);
      assert (a + b)[1..] == a[1..] + b;
      if |a| > 1 {
        assert (a + b)[1] == a[1];
      }
    }
  }

  /** Squeezing runs of separators into one separator keeps the words. */
  lemma {:induction false} WordsSquash(u: string, p: char -> bool, rep: char)
    requires forall c :: p(c) ==> !IsAlnum(c)
    requires !IsAlnum(rep)
    ensures Words(SquashRuns(u, p, rep)) == Words(u)
    decreases |u|
  {
    if u != [] {
      if p(u[0]) {
        var d := DropWhile(u[1..], p);
        WordsSquash(d, p, rep);
        var x := SquashRuns(d, p, rep);
        assert ([rep] + x)[1..] == x;
        WordsDropWhile(u[1..], p);
      } else {
        var x := SquashRuns(u[1..], p, rep);
        WordsSquash(u[1..], p, rep);
        assert ([u[0]] + x)[1..] == x;
      }
    }
  }

  /** Trimming separators from both ends keeps the words. */
  lemma WordsTrim(q: string, p: char -> bool)
    requires forall c :: p(c) ==> !IsAlnum(c)
    ensures Words(Trim(q, p)) == Words(q)
  {
    var t := DropWhile(q, p);
    WordsDropWhile(q, p);
    var r := DropWhileEnd(t, p);
    DropWhileEndDropped(t, p);
    var tail := t[|r|..];
    assert t == r + tail;
    forall i | 0 <= i < |tail| ensures !IsAlnum(tail[i]) {
      assert tail[i] == t[|r| + i];
    }
    WordsAppendNone(r, tail);
  }

  lemma JoinPrepend(c: char, ws: seq<string>, sep: char)
    requires ws != []
    ensures Join([[c] + ws[0]] + ws[1..], sep) == [c] + Join(ws, sep)
  {
    var vs := [[c] + ws[0]] + ws[1..];
    if |ws| > 1 {
      assert vs[1..] == ws[1..];
      SeqAssoc([c], ws[0], [sep] + Join(ws[1..], sep));
    }
  }

  /** The identifier form, split into its words, is joined back by `-`. */
  lemma {:induction false} JoinWords(id: string)
    requires IsIdentifier(id)
    ensures Join(Words(id), '-') == id
    decreases |id|
  {
    if id != [] {
      var c := id[0];
      var t := id[1..];
      assert id == [c] + t;
      if t == [] {
      } else if IsAlnum(t[0]) {
        forall i | 0 < i < |t| ensures Apart(t, IsDash, i) {
          assert Apart(id, IsDash, i + 1);
        }
        JoinWords(t);
        JoinPrepend(c, Words(t), '-');
      } else {
        var u := t[1..];
        assert Apart(id, IsDash, 1);
        assert u != [];
        assert Apart(id, IsDash, 2);
        forall i | 0 < i < |u| ensures Apart(u, IsDash, i) {
          assert Apart(id, IsDash, i + 2);
        }
        JoinWords(u);
        assert Words(t) == Words(u);
        assert id == [c] + ['-'] + u;
        assert ([[c]] + Words(u))[1..] == Words(u);
      }
    }
  }

  /**
   * The cleaning keeps exactly the letter-and-digit words of `s`, in order,
   * with one `-` between consecutive words and nothing else.
   */
  lemma CleanIdWords(s: string)
    ensures CleanId(s) == Join(Words(s), '-')
  {
    var dashed := MapChars(s, DashUnlessAlnum);
    WordsSkeleton(s, dashed);
    var squashed := SquashRuns(dashed, IsDash, '-');
    WordsSquash(dashed, IsDash, '-');
    WordsTrim(squashed, IsDash);
    JoinWords(CleanId(s));
  }

  /** The `-`-separated parts of a cleaned text with some letter or digit are its words. */
  lemma CleanIdParts(s: string)
    requires Words(s) != []
    ensures Split(CleanId(s), '-') == Words(s)
  {
    CleanIdWords(s);
    var ws := Words(s);
    forall i | 0 <= i < |ws| ensures '-' !in ws[i] {
      assert IsWord(ws[i]);
    }
    SplitJoin(ws, '-');
  }

  /**
   * Plugin.Identifier: the cleaned label. It never fails; its result has the
   * identifier form and keeps the letters and digits of the label in order.
   */
  function Identifier(p: Plugin): (r: Result<string, Error>)
    ensures r.Ok?
    ensures IsIdentifier(r.value)
    ensures Keep(r.value, IsAlnum) == Keep(Label(p), IsAlnum)
  {
    Ok(CleanId(Label(p)))
  }

  /** A plugin's identifier is the words of its label joined by `-`. */
  lemma IdentifierWords(p: Plugin)
    ensures Identifier(p).value == Join(Words(Label(p)), '-')
  {
    CleanIdWords(Label(p));
  }

  /** A plugin's identifier is left alone by a second cleaning. */
  lemma IdentifierStable(p: Plugin)
    ensures CleanId(Identifier(p).value) == Identifier(p).value
  {
    CleanIdIdempotent(Label(p));
  }
}
