/**
 * Plugin.ConfigurationToEnvironment (agent/plugin.go): each configuration
 * key becomes a `BUILDKITE_PLUGIN_<NAME>_<KEY>` variable, and the lines are
 * returned sorted.
 */
module Environment {
  import opened Results
  import opened Strings
  import opened Numbers
  import opened Sorting
  import opened PluginTypes
  import opened Naming

  /** The variable-name stem, before the `_` that ends the prefix. */
  const Stem: string := "BUILDKITE_PLUGIN"

  /** Every variable name starts with this. */
  const EnvPrefix: string := Stem + "_"

  // ------------------------------------------------------- variable names

  function DashToUnderscore(c: char): char {
    if c == '-' then '_' else c
  }

  /** The rewrite `-|\s+` -> `_`: each dash, and each whitespace run, becomes one `_`. */
  function Underscored(s: string): string {
    MapChars(SquashRuns(s, IsSpace, '_'), DashToUnderscore)
  }

  /**
   * The variable name for `key` of the plugin named `name`: whitespace runs
   * in the key become one space, then the whole `BUILDKITE_PLUGIN_<name>_<key>`
   * has dashes and whitespace runs turned into `_`, is upper-cased, and has
   * each run of `_` squeezed to one.
   */
  function EnvName(name: string, key: string): (r: string)
    ensures HasPrefix(r, EnvPrefix)
  {
    var k := SquashRuns(key, IsSpace, ' ');
    var x := name + "_" + k;
    assert EnvPrefix + name + "_" + k == EnvPrefix + x;
    UnderscoredPrefix(x);
    UpperPrefix(Underscored(x));
    SquashPrefix(ToUpper(Underscored(x)));
    SquashRuns(ToUpper(Underscored(EnvPrefix + name + "_" + k)), IsUnderscore, '_')
  }

  /** No dash, no whitespace, no lower-case letter. */
  predicate PlainEnvChar(c: char) {
    c != '-' && !IsSpace(c) && !IsLower(c)
  }

  /**
   * A variable name starts with `BUILDKITE_PLUGIN_`, holds no dash, no
   * whitespace and no lower-case ASCII letter, and never two `_` in a row.
   */
  lemma EnvNameShape(name: string, key: string)
    ensures HasPrefix(EnvName(name, key), EnvPrefix)
    ensures forall i :: 0 <= i < |EnvName(name, key)| ==> PlainEnvChar(EnvName(name, key)[i])
    ensures forall i :: 0 < i < |EnvName(name, key)| ==> Apart(EnvName(name, key), IsUnderscore, i)
  {
    var k := SquashRuns(key, IsSpace, ' ');
    var x := name + "_" + k;
    assert EnvPrefix + name + "_" + k == EnvPrefix + x;
    var u := Underscored(EnvPrefix + x);
    UnderscoredChars(EnvPrefix + x);
    UnderscoredPrefix(x);
    var upper := ToUpper(u);
    UpperKeepsPlain(u);
    var r := SquashRuns(upper, IsUnderscore, '_');
    assert r == EnvName(name, key);
    SquashRunsChars(upper, IsUnderscore, '_');
    SquashRunsClass(upper, IsUnderscore, '_');
    forall i | 0 <= i < |r| ensures PlainEnvChar(r[i]) {
      assert r[i] == '_' || r[i] in upper;
    }
  }

  /** After the rewrite to `_` no dash or whitespace is left. */
  lemma UnderscoredChars(s: string)
    ensures forall i :: 0 <= i < |Underscored(s)| ==> Underscored(s)[i] != '-' && !IsSpace(Underscored(s)[i])
  {
    SquashRunsClass(s, IsSpace, '_');
  }

  /** Upper-casing keeps the absence of dashes and whitespace, and removes lower-case letters. */
  lemma UpperKeepsPlain(s: string)
    requires forall i :: 0 <= i < |s| ==> s[i] != '-' && !IsSpace(s[i])
    ensures forall i :: 0 <= i < |ToUpper(s)| ==> PlainEnvChar(ToUpper(s)[i])
  {
  }

  /** The prefix passes through the rewrite to `_`. */
  lemma UnderscoredPrefix(x: string)
    ensures Underscored(EnvPrefix + x) == EnvPrefix + Underscored(x)
  {
    SquashRunsPrefix(EnvPrefix, x, IsSpace, '_');
    MapCharsAppend(EnvPrefix, SquashRuns(x, IsSpace, '_'), DashToUnderscore);
    MapCharsFixed(EnvPrefix, DashToUnderscore);
  }

  lemma UpperPrefix(x: string)
    ensures ToUpper(EnvPrefix + x) == EnvPrefix + ToUpper(x)
  {
    MapCharsAppend(EnvPrefix, x, ToUpperChar);
    MapCharsFixed(EnvPrefix, ToUpperChar);
  }

  /** Squeezing `_` runs keeps the prefix: the stem has single `_`s and does not end in one. */
  lemma SquashPrefix(x: string)
    ensures HasPrefix(SquashRuns(EnvPrefix + x, IsUnderscore, '_'), EnvPrefix)
  {
    StemSquashed();
    PrefixSplit(x);
    SquashRunsAppend(Stem, "_" + x, IsUnderscore, '_');
  }

  /** The prefix has no dash, no whitespace and no lower-case letter. */
  lemma PrefixChars()
    ensures forall i :: 0 <= i < |EnvPrefix| ==> PlainEnvChar(EnvPrefix[i])
  {
  }

  /** A name or key as it appears inside a variable name: dashes as `_`, upper-cased. */
  function EnvPart(s: string): string {
    ToUpper(MapChars(s, DashToUnderscore))
  }

  /**
   * For a plugin name and a key that are words joined by single dashes, the
   * variable name is exactly `BUILDKITE_PLUGIN_<NAME>_<KEY>`, each part
   * upper-cased with its dashes turned into `_`.
   */
  lemma EnvNameOfIdentifiers(name: string, key: string)
    requires name != [] && IsIdentifier(name) && IsIdentifier(key)
    ensures EnvName(name, key) == EnvPrefix + EnvPart(name) + "_" + EnvPart(key)
  {
    var x := name + "_" + key;
    var mn, mk := MapChars(name, DashToUnderscore), MapChars(key, DashToUnderscore);
    var pn, pk := EnvPart(name), EnvPart(key);
    EnvNameUnfold(name, key);
    UnderscoredPrefix(x);
    UnderscoredParts(name, key);
    UpperPrefix(mn + "_" + mk);
    UpperParts(mn, mk);
    assert ToUpper(Underscored(EnvPrefix + x)) == EnvPrefix + (pn + "_" + pk);
    EnvPartSquashed(name);
    EnvPartSquashed(key);
    SquashAround(pn, pk);
    SeqAssoc(EnvPrefix, pn + "_", pk);
    SeqAssoc(EnvPrefix, pn, "_");
  }

  /** Without whitespace in the key the first rewrite does nothing. */
  lemma EnvNameUnfold(name: string, key: string)
    requires IsIdentifier(key)
    ensures EnvName(name, key) == SquashRuns(ToUpper(Underscored(EnvPrefix + (name + "_" + key))), IsUnderscore, '_')
  {
    NoSpaceSquash(key, ' ');
    SeqAssoc(EnvPrefix, name + "_", key);
    SeqAssoc(EnvPrefix, name, "_");
  }

  /** Without whitespace the rewrite to `_` works on the name and the key separately. */
  lemma UnderscoredParts(name: string, key: string)
    requires IdChars(name) && IdChars(key)
    ensures Underscored(name + "_" + key) == MapChars(name, DashToUnderscore) + "_" + MapChars(key, DashToUnderscore)
  {
    var x := name + "_" + key;
    NoSpaceJoin(name, key);
    NoSpaceSquash(x, '_');
    MapCharsAppend(name + "_", key, DashToUnderscore);
    MapCharsAppend(name, "_", DashToUnderscore);
    assert MapChars("_", DashToUnderscore) == "_";
  }

  lemma NoSpaceJoin(name: string, key: string)
    requires IdChars(name) && IdChars(key)
    ensures forall i :: 0 <= i < |name + "_" + key| ==> !IsSpace((name + "_" + key)[i])
  {
    var x := name + "_" + key;
    forall i | 0 <= i < |x| ensures !IsSpace(x[i]) {
      if i < |name| {
        assert x[i] == name[i];
      } else if i > |name| {
        assert x[i] == key[i - |name| - 1];
      }
    }
  }

  lemma UpperParts(a: string, b: string)
    ensures ToUpper(a + "_" + b) == ToUpper(a) + "_" + ToUpper(b)
  {
    MapCharsAppend(a + "_", b, ToUpperChar);
    MapCharsAppend(a, "_", ToUpperChar);
  }

  /** Squeezing `_` runs keeps the prefix, a single `_` and parts that are already squeezed. */
  lemma SquashAround(pn: string, pk: string)
    requires pn != [] && !IsUnderscore(pn[0]) && !IsUnderscore(pn[|pn| - 1])
    requires pk == [] || !IsUnderscore(pk[0])
    requires SquashRuns(pn, IsUnderscore, '_') == pn && SquashRuns(pk, IsUnderscore, '_') == pk
    ensures SquashRuns(EnvPrefix + pn + "_" + pk, IsUnderscore, '_') == EnvPrefix + pn + "_" + pk
  {
    SquashJoin(pn, pk);
    var y := pn + "_" + pk;
    assert y[0] == pn[0];
    SquashAfterPrefix(y);
    SeqAssoc(EnvPrefix, pn + "_", pk);
    SeqAssoc(EnvPrefix, pn, "_");
  }

  /** Two squeezed parts joined by one `_`, neither touching it with a `_`, stay squeezed. */
  lemma SquashJoin(pn: string, pk: string)
    requires pn != [] && !IsUnderscore(pn[|pn| - 1])
    requires pk == [] || !IsUnderscore(pk[0])
    requires SquashRuns(pn, IsUnderscore, '_') == pn && SquashRuns(pk, IsUnderscore, '_') == pk
    ensures SquashRuns(pn + "_" + pk, IsUnderscore, '_') == pn + "_" + pk
  {
    UnderscoreLead(pk);
    SquashRunsAppend(pn, "_" + pk, IsUnderscore, '_');
    assert pn + "_" + pk == pn + ("_" + pk);
  }

  /** The prefix in front of a squeezed text that starts outside the class stays as it is. */
  lemma SquashAfterPrefix(y: string)
    requires y == [] || !IsUnderscore(y[0])
    requires SquashRuns(y, IsUnderscore, '_') == y
    ensures SquashRuns(EnvPrefix + y, IsUnderscore, '_') == EnvPrefix + y
  {
    UnderscoreLead(y);
    StemSquashed();
    SquashRunsAppend(Stem, "_" + y, IsUnderscore, '_');
    PrefixSplit(y);
  }

  lemma StemSquashed()
    ensures SquashRuns(Stem, IsUnderscore, '_') == Stem
    ensures !IsUnderscore(Stem[|Stem| - 1])
  {
    assert Squashed(Stem, IsUnderscore, '_');
    SquashRunsFixpoint(Stem, IsUnderscore, '_');
  }

  lemma PrefixSplit(y: string)
    ensures EnvPrefix + y == Stem + ("_" + y)
  {
    SeqAssoc(Stem, "_", y);
  }

  /** For plain words the variable name is the upper-cased name and key. */
  lemma EnvNameOfWords(name: string, key: string)
    requires IsWord(name) && (key == [] || IsWord(key))
    ensures EnvName(name, key) == EnvPrefix + ToUpper(name) + "_" + ToUpper(key)
  {
    EnvNameOfIdentifiers(name, key);
    MapCharsFixed(name, DashToUnderscore);
    MapCharsFixed(key, DashToUnderscore);
  }

  /** A text without whitespace is left alone by a whitespace-run rewrite. */
  lemma NoSpaceSquash(s: string, rep: char)
    requires forall i :: 0 <= i < |s| ==> !IsSpace(s[i])
    ensures SquashRuns(s, IsSpace, rep) == s
  {
    SquashRunsPrefix(s, [], IsSpace, rep);
    assert s + [] == s;
  }

  /** `_` followed by something other than `_` keeps its `_` and squeezes the rest. */
  lemma UnderscoreLead(y: string)
    requires y == [] || !IsUnderscore(y[0])
    ensures SquashRuns("_" + y, IsUnderscore, '_') == "_" + SquashRuns(y, IsUnderscore, '_')
  {
    assert ("_" + y)[1..] == y;
    if y != [] {
      DropWhileStop(y, IsUnderscore);
    }
  }

  /**
   * The variable part of an identifier has single `_`s, none at either end,
   * so squeezing `_` runs leaves it alone.
   */
  lemma EnvPartSquashed(s: string)
    requires IsIdentifier(s)
    ensures SquashRuns(EnvPart(s), IsUnderscore, '_') == EnvPart(s)
    ensures EnvPart(s) != [] ==> !IsUnderscore(EnvPart(s)[0]) && !IsUnderscore(EnvPart(s)[|s| - 1])
  {
    var e := EnvPart(s);
    assert forall i :: 0 <= i < |s| ==> (IsUnderscore(e[i]) <==> s[i] == '-');
    forall i | 0 < i < |e| ensures Apart(e, IsUnderscore, i) {
      assert Apart(s, IsDash, i);
    }
    SquashRunsFixpoint(e, IsUnderscore, '_');
  }

  /** The key `my-key` of the plugin `example` is `BUILDKITE_PLUGIN_EXAMPLE_MY_KEY`. */
  lemma ExampleDashedKey(name: string, key: string)
    requires name == "example" && key == "my-key"
    ensures EnvName(name, key) == "BUILDKITE_PLUGIN_EXAMPLE_MY_KEY"
  {
    assert IsIdentifier(name) && IsIdentifier(key);
    EnvNameOfIdentifiers(name, key);
    ExamplePart(name);
    DashedKeyPart(key);
  }

  lemma ExamplePart(name: string)
    requires name == "example"
    ensures EnvPart(name) == "EXAMPLE"
  {
  }

  lemma DashedKeyPart(key: string)
    requires key == "my-key"
    ensures EnvPart(key) == "MY_KEY"
  {
  }

  // ---------------------------------------------------------------- lines

  /** The `NAME=value` line. */
  function Line(name: string, value: string): string {
    name + "=" + value
  }

  /** `NAME_i`, the name for the list element at index `i`. */
  function IndexedName(name: string, i: nat): string {
    name + "_" + NatToString(i)
  }

  /** The line a list element gives: strings and numbers only. */
  function ElemLine(name: string, i: nat, e: Value): Option<string> {
    match e
    case Str(s) => Some(Line(IndexedName(name, i), s))
    case Num(m) => Some(Line(IndexedName(name, i), FormatNum(m)))
    case _ => None
  }

  function OptionLines(o: Option<string>): seq<string> {
    match o
    case Some(line) => [line]
    case None => []
  }

  /** The lines of a list: each element by its own index, skipping the ones of other types. */
  function ElemLines(name: string, elems: seq<Value>): seq<string>
    decreases |elems|
  {
    if elems == [] then []
    else
      var n := |elems| - 1;
      ElemLines(name, elems[..n]) + OptionLines(ElemLine(name, n, elems[n]))
  }

  /** The lines of a list of strings, one per index. */
  function StrListLines(name: string, items: seq<string>): seq<string> {
    seq(|items|, i requires 0 <= i < |items| => Line(IndexedName(name, i), items[i]))
  }

  /** The lines one configuration value gives under the variable name `name`. */
  function EntryLines(name: string, v: Value): seq<string> {
    match v
    case Str(s) => [Line(name, s)]
    case Num(m) => [Line(name, FormatNum(m))]
    case StrList(items) => StrListLines(name, items)
    case List(elems) => ElemLines(name, elems)
    case _ => []
  }

  /** The lines of one configuration entry, as a function of the entry. */
  function EntryOf(name: string): ((string, Value)) -> seq<string> {
    (kv: (string, Value)) => EntryLines(EnvName(name, kv.0), kv.1)
  }

  /** All the lines of a configuration, entry by entry in iteration order, before sorting. */
  function ConfigLines(name: string, config: Config): seq<string> {
    FlatMap(config, EntryOf(name))
  }

  /** The sequences `f` gives for the elements of `xs`, one after the other. */
  function FlatMap<T>(xs: seq<T>, f: T -> seq<string>): seq<string>
    decreases |xs|
  {
    if xs == [] then [] else FlatMap(xs[..|xs| - 1], f) + f(xs[|xs| - 1])
  }

  // --------------------------------------------------------------- method

  /**
   * Plugin.ConfigurationToEnvironment: appends the lines of every entry,
   * in the order the configuration is visited, then sorts them.
   */
  method ConfigurationToEnvironment(p: Plugin) returns (env: seq<string>)
    ensures Sorted(env)
    ensures multiset(env) == multiset(ConfigLines(Name(p), p.configuration))
  {
    var config := p.configuration;
    var lines: seq<string> := [];
    var i := 0;
    while i < |config|
      invariant 0 <= i <= |config|
      invariant lines == FlatMap(config[..i], EntryOf(Name(p)))
    {
      var key, v := config[i].0, config[i].1;
      var name := EnvName(Name(p), key);
      FlatMapStep(config, i, EntryOf(Name(p)));
      lines := AppendEntry(lines, name, v);
      i := i + 1;
    }
    assert config[..i] == config;
    var a := new string[|lines|](k requires 0 <= k < |lines| => lines[k]);
    assert a[..] == lines;
    SortStrings(a);
    env := a[..];
  }

  /** The type switch on one value: its lines, appended to `lines`; proved against `EntryLines`. */
  method AppendEntry(lines: seq<string>, name: string, v: Value) returns (out: seq<string>)
    ensures out == lines + EntryLines(name, v)
  {
    match v {
      case Str(s) =>
        out := lines + [Line(name, s)];
      case Num(m) =>
        out := lines + [Line(name, FormatNum(m))];
      case StrList(items) =>
        out := AppendStrList(lines, name, items);
      case List(elems) =>
        out := AppendList(lines, name, elems);
      case _ =>
        out := lines;
        assert out == lines + [];
    }
  }

  /** The `[]string` case: one `NAME_i=item` line per index, appended in order. */
  method AppendStrList(lines: seq<string>, name: string, items: seq<string>) returns (out: seq<string>)
    ensures out == lines + StrListLines(name, items)
  {
    out := lines;
    var j := 0;
    while j < |items|
      invariant 0 <= j <= |items|
      invariant out == lines + StrListLines(name, items[..j])
    {
      StrListLinesStep(name, items, j);
      out := out + [Line(IndexedName(name, j), items[j])];
      j := j + 1;
    }
    assert items[..j] == items;
  }

  /**
   * The `[]interface{}` case: a `NAME_i=value` line for each string or
   * number element, by its own index; other elements are skipped.
   */
  method AppendList(lines: seq<string>, name: string, elems: seq<Value>) returns (out: seq<string>)
    ensures out == lines + ElemLines(name, elems)
  {
    out := lines;
    var j := 0;
    while j < |elems|
      invariant 0 <= j <= |elems|
      invariant out == lines + ElemLines(name, elems[..j])
    {
      ElemLinesStep(name, elems, j);
      match elems[j] {
        case Num(m) =>
          out := out + [Line(IndexedName(name, j), FormatNum(m))];
        case Str(s) =>
          out := out + [Line(IndexedName(name, j), s)];
        case _ =>
      }
      j := j + 1;
    }
    assert elems[..j] == elems;
  }

  lemma FlatMapStep<T>(xs: seq<T>, i: nat, f: T -> seq<string>)
    requires i < |xs|
    ensures FlatMap(xs[..i + 1], f) == FlatMap(xs[..i], f) + f(xs[i])
  {
    assert xs[..i + 1][..i] == xs[..i];
  }

  lemma StrListLinesStep(name: string, items: seq<string>, j: nat)
    requires j < |items|
    ensures StrListLines(name, items[..j + 1]) == StrListLines(name, items[..j]) + [Line(IndexedName(name, j), items[j])]
  {
  }

  lemma ElemLinesStep(name: string, elems: seq<Value>, j: nat)
    requires j < |elems|
    ensures ElemLines(name, elems[..j + 1]) == ElemLines(name, elems[..j]) + OptionLines(ElemLine(name, j, elems[j]))
  {
    assert elems[..j + 1][..j] == elems[..j];
  }

  // --------------------------------------------------------------- lemmas

  /** The lines of two runs of entries are the lines of each, one after the other. */
  lemma {:induction false} FlatMapAppend<T>(a: seq<T>, b: seq<T>, f: T -> seq<string>)
    ensures FlatMap(a + b, f) == FlatMap(a, f) + FlatMap(b, f)
    decreases |b|
  {
    if b == [] {
      assert a + b == a;
    } else {
      var n := |b| - 1;
      assert (a + b)[..|a| + n] == a + b[..n];
      assert (a + b)[|a| + n] == b[n];
      FlatMapAppend(a, b[..n], f);
    }
  }

  /** Reordering the elements reorders the lines and nothing else. */
  lemma {:induction false} FlatMapPermutation<T>(c: seq<T>, d: seq<T>, f: T -> seq<string>)
    requires multiset(c) == multiset(d)
    ensures multiset(FlatMap(c, f)) == multiset(FlatMap(d, f))
    decreases |c|
  {
    if c != [] {
      var n := |c| - 1;
      var j := IndexIn(d, c[n], c);
      RemoveAt(c, n);
      RemoveAt(d, j);
      assert c[..n] + c[n + 1..] == c[..n];
      FlatMapPermutation(c[..n], d[..j] + d[j + 1..], f);
      FlatMapRemove(c, n, f);
      FlatMapRemove(d, j, f);
    }
  }

  /** The lines of a sequence are those without one element plus that element's own. */
  lemma FlatMapRemove<T>(d: seq<T>, j: nat, f: T -> seq<string>)
    requires j < |d|
    ensures multiset(FlatMap(d, f)) == multiset(FlatMap(d[..j] + d[j + 1..], f)) + multiset(f(d[j]))
  {
    var x, before, after := d[j], d[..j], d[j + 1..];
    assert d == (before + [x]) + after;
    FlatMapSingle(x, f);
    FlatMapAppend(before + [x], after, f);
    FlatMapAppend(before, [x], f);
    FlatMapAppend(before, after, f);
    var a, b := FlatMap(before, f), FlatMap(after, f);
    assert FlatMap(d, f) == (a + f(x)) + b;
    assert FlatMap(before + after, f) == a + b;
  }

  lemma FlatMapSingle<T>(x: T, f: T -> seq<string>)
    ensures FlatMap([x], f) == f(x)
  {
    assert [x][..0] == [];
  }

  /** Where an element of `c` sits in `d`, when the two hold the same elements. */
  lemma IndexIn<T>(d: seq<T>, x: T, c: seq<T>) returns (j: nat)
    requires x in c && multiset(c) == multiset(d)
    ensures j < |d| && d[j] == x
  {
    assert x in multiset(c);
    assert x in d;
    j :| 0 <= j < |d| && d[j] == x;
  }

  lemma RemoveAt<T>(d: seq<T>, j: nat)
    requires j < |d|
    ensures multiset(d[..j] + d[j + 1..]) == multiset(d) - multiset{d[j]}
  {
    assert d == d[..j] + [d[j]] + d[j + 1..];
  }

  /**
   * The lines, as a collection, do not depend on the order the entries are
   * visited in: Go's map iteration order does not change the environment.
   */
  lemma ConfigLinesPermutation(name: string, c: Config, d: Config)
    requires multiset(c) == multiset(d)
    ensures multiset(ConfigLines(name, c)) == multiset(ConfigLines(name, d))
  {
    FlatMapPermutation(c, d, EntryOf(name));
  }

  /**
   * Two configurations with the same entries give the same environment:
   * the sorted line sequence is determined by its lines.
   */
  lemma EnvironmentOrderIndependent(name: string, c: Config, d: Config, e: seq<string>, f: seq<string>)
    requires multiset(c) == multiset(d)
    requires Sorted(e) && multiset(e) == multiset(ConfigLines(name, c))
    requires Sorted(f) && multiset(f) == multiset(ConfigLines(name, d))
    ensures e == f
  {
    ConfigLinesPermutation(name, c, d);
    SortedUnique(e, f);
  }

  /** The element at index `i` of a list gives `line`. */
  predicate GivesLine(name: string, elems: seq<Value>, i: int, line: string) {
    0 <= i < |elems| && ElemLine(name, i, elems[i]) == Some(line)
  }

  /**
   * A line comes from a list exactly when some element, at its own index,
   * is a string or a number giving that line.
   */
  lemma ElemLinesMember(name: string, elems: seq<Value>, line: string)
    ensures line in ElemLines(name, elems) <==> exists i :: GivesLine(name, elems, i, line)
  {
    if line in ElemLines(name, elems) {
      ElemLinesSource(name, elems, line);
    }
    if exists i :: GivesLine(name, elems, i, line) {
      var i :| GivesLine(name, elems, i, line);
      ElemLinesHas(name, elems, i, line);
    }
  }

  lemma {:induction false} ElemLinesSource(name: string, elems: seq<Value>, line: string)
    requires line in ElemLines(name, elems)
    ensures exists i :: GivesLine(name, elems, i, line)
    decreases |elems|
  {
    var n := |elems| - 1;
    var front := elems[..n];
    var o := ElemLine(name, n, elems[n]);
    assert ElemLines(name, elems) == ElemLines(name, front) + OptionLines(o);
    if line in ElemLines(name, front) {
      ElemLinesSource(name, front, line);
      var i :| GivesLine(name, front, i, line);
      assert front[i] == elems[i];
      assert GivesLine(name, elems, i, line);
    } else {
      assert line in OptionLines(o);
      assert GivesLine(name, elems, n, line);
    }
  }

  lemma {:induction false} ElemLinesHas(name: string, elems: seq<Value>, i: int, line: string)
    requires GivesLine(name, elems, i, line)
    ensures line in ElemLines(name, elems)
    decreases |elems|
  {
    var n := |elems| - 1;
    var front := elems[..n];
    var o := ElemLine(name, n, elems[n]);
    assert ElemLines(name, elems) == ElemLines(name, front) + OptionLines(o);
    if i < n {
      assert front[i] == elems[i];
      ElemLinesHas(name, front, i, line);
    } else {
      assert OptionLines(o) == [line];
    }
  }

  /** Every line of a list is named by the index of the element it comes from, with that element's text. */
  lemma ElemLinesIndexed(name: string, elems: seq<Value>, line: string)
    requires line in ElemLines(name, elems)
    ensures exists i :: 0 <= i < |elems| && line == Line(IndexedName(name, i), ElemText(elems[i]))
  {
    ElemLinesMember(name, elems, line);
    var i :| GivesLine(name, elems, i, line);
    assert line == Line(IndexedName(name, i), ElemText(elems[i]));
  }

  /** An unsupported list element prints nothing, but its index is still used up. */
  lemma ElemLinesGap(name: string, a: string, flag: bool, c: string)
    ensures ElemLines(name, [Str(a), Bool(flag), Str(c)])
         == [Line(IndexedName(name, 0), a), Line(IndexedName(name, 2), c)]
  {
    var elems := [Str(a), Bool(flag), Str(c)];
    ElemLinesStep(name, elems, 0);
    ElemLinesStep(name, elems, 1);
    ElemLinesStep(name, elems, 2);
    assert elems[..0] == [];
    assert elems[..3] == elems;
  }

  // ------------------------------------------------------- line shapes

  /** Element `j` of `xs` is where `line` comes from. */
  predicate Yields<T>(xs: seq<T>, f: T -> seq<string>, j: int, line: string) {
    0 <= j < |xs| && line in f(xs[j])
  }

  /** Every line of a flat map comes from one of the elements. */
  lemma {:induction false} FlatMapMember<T>(xs: seq<T>, f: T -> seq<string>, line: string)
    requires line in FlatMap(xs, f)
    ensures exists j :: Yields(xs, f, j, line)
    decreases |xs|
  {
    var n := |xs| - 1;
    if line in f(xs[n]) {
      assert Yields(xs, f, n, line);
    } else {
      FlatMapMember(xs[..n], f, line);
      var j :| Yields(xs[..n], f, j, line);
      assert xs[..n][j] == xs[j];
      assert Yields(xs, f, j, line);
    }
  }

  /** Each line of a value starts with its variable name, followed by `=` or by `_` and an index. */
  lemma EntryLinesNamed(name: string, v: Value, line: string)
    requires line in EntryLines(name, v)
    ensures HasPrefix(line, name + "=") || HasPrefix(line, name + "_")
  {
    match v
    case Str(s) =>
      PrefixOfConcat(name + "=", s);
    case Num(m) =>
      PrefixOfConcat(name + "=", FormatNum(m));
    case StrList(items) =>
      StrListLinesNamed(name, items, line);
    case List(elems) =>
      ElemLinesNamed(name, elems, line);
  }

  lemma StrListLinesNamed(name: string, items: seq<string>, line: string)
    requires line in StrListLines(name, items)
    ensures HasPrefix(line, name + "_")
  {
    var i :| 0 <= i < |items| && StrListLines(name, items)[i] == line;
    IndexedLinePrefix(name, i, items[i]);
  }

  lemma ElemLinesNamed(name: string, elems: seq<Value>, line: string)
    requires line in ElemLines(name, elems)
    ensures HasPrefix(line, name + "_")
  {
    ElemLinesIndexed(name, elems, line);
    var i :| 0 <= i < |elems| && line == Line(IndexedName(name, i), ElemText(elems[i]));
    IndexedLinePrefix(name, i, ElemText(elems[i]));
  }

  lemma IndexedLinePrefix(name: string, i: nat, text: string)
    ensures HasPrefix(Line(IndexedName(name, i), text), name + "_")
  {
    assert Line(IndexedName(name, i), text) == (name + "_") + (NatToString(i) + "=" + text);
    PrefixOfConcat(name + "_", NatToString(i) + "=" + text);
  }

  /**
   * Every line of the environment starts with `BUILDKITE_PLUGIN_` and with
   * the variable name of the configuration entry it comes from.
   */
  lemma ConfigLinesNamed(name: string, config: Config, line: string)
    requires line in ConfigLines(name, config)
    ensures HasPrefix(line, EnvPrefix)
    ensures exists j :: 0 <= j < |config| && HasPrefix(line, EnvName(name, config[j].0))
  {
    FlatMapMember(config, EntryOf(name), line);
    var j :| Yields(config, EntryOf(name), j, line);
    var n := EnvName(name, config[j].0);
    EntryLinesNamed(n, config[j].1, line);
    if HasPrefix(line, n + "=") {
      PrefixOfConcat(n, "=");
      PrefixTransitive(line, n + "=", n);
    } else {
      PrefixOfConcat(n, "_");
      PrefixTransitive(line, n + "_", n);
    }
    PrefixTransitive(line, n, EnvPrefix);
  }

  /** A value that is neither a string, a number nor a list. */
  predicate Unsupported(v: Value) {
    v.Object? || v.Bool? || v.Null?
  }

  /** An entry of an unsupported type adds no line, wherever it sits. */
  lemma ConfigLinesSkipsUnsupported(name: string, a: Config, key: string, v: Value, b: Config)
    requires Unsupported(v)
    ensures ConfigLines(name, a + [(key, v)] + b) == ConfigLines(name, a + b)
  {
    var f := EntryOf(name);
    FlatMapAppend(a + [(key, v)], b, f);
    FlatMapAppend(a, [(key, v)], f);
    FlatMapSingle((key, v), f);
    FlatMapAppend(a, b, f);
  }

  /** The text a supported element prints as; empty for the others. */
  function ElemText(e: Value): string {
    match e
    case Str(s) => s
    case Num(m) => FormatNum(m)
    case _ => ""
  }

  // ------------------------------------------------------- worked example

  /**
   * The plugin `example` configured with `{"name": "value", "flags": ["a", "b"]}`
   * gets exactly these three variables, sorted: the list elements by index,
   * then the string.
   */
  lemma ExampleEncoding(name: string, config: Config, env: seq<string>)
    requires name == "example"
    requires config == [("name", Str("value")), ("flags", List([Str("a"), Str("b")]))]
    requires Sorted(env) && multiset(env) == multiset(ConfigLines(name, config))
    ensures env == ["BUILDKITE_PLUGIN_EXAMPLE_FLAGS_0=a", "BUILDKITE_PLUGIN_EXAMPLE_FLAGS_1=b", "BUILDKITE_PLUGIN_EXAMPLE_NAME=value"]
  {
    var pre := EnvPrefix + "EXAMPLE_";
    ExampleLines(name, config, config[0].0, config[1].0, pre);
    ExampleSpelling(pre);
    var x, y, z := "BUILDKITE_PLUGIN_EXAMPLE_FLAGS_0=a", "BUILDKITE_PLUGIN_EXAMPLE_FLAGS_1=b", "BUILDKITE_PLUGIN_EXAMPLE_NAME=value";
    ExampleOrder(x, y, z);
    RotatedMultiset(x, y, z, ConfigLines(name, config));
    SortedUnique(env, [x, y, z]);
  }

  lemma RotatedMultiset(x: string, y: string, z: string, s: seq<string>)
    requires s == [z, x, y]
    ensures multiset(s) == multiset([x, y, z])
  {
  }

  /** The lines before sorting, in the order the configuration lists its keys. */
  lemma ExampleLines(name: string, config: Config, k1: string, k2: string, pre: string)
    requires name == "example" && k1 == "name" && k2 == "flags"
    requires config == [(k1, Str("value")), (k2, List([Str("a"), Str("b")]))]
    requires pre == EnvPrefix + "EXAMPLE_"
    ensures ConfigLines(name, config) ==
      [Line(pre + "NAME", "value"), Line(pre + "FLAGS" + "_0", "a"), Line(pre + "FLAGS" + "_1", "b")]
  {
    var f := EntryOf(name);
    FlatMapPair(config[0], config[1], f);
    assert config == [config[0], config[1]];
    var n2 := EnvName(name, k2);
    ExampleNames(name, k1, k2, pre);
    ElemLinesPair(n2, "a", "b");
  }

  /** The example's lines written out. */
  lemma ExampleSpelling(pre: string)
    requires pre == EnvPrefix + "EXAMPLE_"
    ensures Line(pre + "NAME", "value") == "BUILDKITE_PLUGIN_EXAMPLE_NAME=value"
    ensures Line(pre + "FLAGS" + "_0", "a") == "BUILDKITE_PLUGIN_EXAMPLE_FLAGS_0=a"
    ensures Line(pre + "FLAGS" + "_1", "b") == "BUILDKITE_PLUGIN_EXAMPLE_FLAGS_1=b"
  {
  }

  /** The two variable names of the example. */
  lemma ExampleNames(name: string, k1: string, k2: string, pre: string)
    requires name == "example" && k1 == "name" && k2 == "flags"
    requires pre == EnvPrefix + "EXAMPLE_"
    ensures EnvName(name, k1) == pre + "NAME" && EnvName(name, k2) == pre + "FLAGS"
  {
    assert IsWord(name) && IsWord(k1) && IsWord(k2);
    EnvNameOfWords(name, k1);
    EnvNameOfWords(name, k2);
    ExampleWords(name, k1, k2);
    SeqAssoc(EnvPrefix, "EXAMPLE", "_");
  }

  lemma ExampleWords(name: string, k1: string, k2: string)
    requires name == "example" && k1 == "name" && k2 == "flags"
    ensures ToUpper(name) == "EXAMPLE" && ToUpper(k1) == "NAME" && ToUpper(k2) == "FLAGS"
  {
  }

  /** The three lines are in order: `FLAGS_0` before `FLAGS_1` before `NAME`. */
  lemma ExampleOrder(x: string, y: string, z: string)
    requires x == "BUILDKITE_PLUGIN_EXAMPLE_FLAGS_0=a"
    requires y == "BUILDKITE_PLUGIN_EXAMPLE_FLAGS_1=b"
    requires z == "BUILDKITE_PLUGIN_EXAMPLE_NAME=value"
    ensures Sorted([x, y, z])
  {
    ExampleIndexOrder(x, y);
    ExampleKeyOrder(y, z);
  }

  lemma ExampleIndexOrder(x: string, y: string)
    requires x == "BUILDKITE_PLUGIN_EXAMPLE_FLAGS_0=a" && y == "BUILDKITE_PLUGIN_EXAMPLE_FLAGS_1=b"
    ensures StrLe(x, y)
  {
    var flags := "BUILDKITE_PLUGIN_EXAMPLE_FLAGS_";
    assert x == flags + "0=a";
    assert y == flags + "1=b";
    StrLeCommonPrefix(flags, "0=a", "1=b");
  }

  lemma ExampleKeyOrder(y: string, z: string)
    requires y == "BUILDKITE_PLUGIN_EXAMPLE_FLAGS_1=b" && z == "BUILDKITE_PLUGIN_EXAMPLE_NAME=value"
    ensures StrLe(y, z)
  {
    var pre := "BUILDKITE_PLUGIN_EXAMPLE_";
    assert y == pre + "FLAGS_1=b";
    assert z == pre + "NAME=value";
    StrLeCommonPrefix(pre, "FLAGS_1=b", "NAME=value");
  }

  lemma FlatMapPair<T>(x: T, y: T, f: T -> seq<string>)
    ensures FlatMap([x, y], f) == f(x) + f(y)
  {
    assert [x, y][..1] == [x];
    FlatMapSingle(x, f);
  }

  /** A list of two strings gives the lines for indexes 0 and 1. */
  lemma ElemLinesPair(name: string, a: string, b: string)
    ensures ElemLines(name, [Str(a), Str(b)]) == [Line(name + "_0", a), Line(name + "_1", b)]
  {
    var elems := [Str(a), Str(b)];
    assert elems[..1] == [Str(a)];
    assert [Str(a)][..0] == [];
    assert ElemLines(name, [Str(a)]) == [Line(IndexedName(name, 0), a)];
    assert ElemLines(name, elems) == ElemLines(name, [Str(a)]) + [Line(IndexedName(name, 1), b)];
    IndexedDigit(name, 0, "0");
    IndexedDigit(name, 1, "1");
    SeqAssoc(name, "_", "0");
    SeqAssoc(name, "_", "1");
    assert IndexedName(name, 0) == name + "_0";
    assert IndexedName(name, 1) == name + "_1";
  }

  lemma IndexedDigit(name: string, i: nat, d: string)
    requires i < 10 && d == [DigitChar(i)]
    ensures IndexedName(name, i) == name + "_" + d
  {
  }
}
