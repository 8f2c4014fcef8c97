/**
 * CreatePluginsFromJSON (agent/plugin.go): a decoded JSON array of plugin
 * references becomes the list of plugins, in array order. An element is
 * either a reference string (a plugin with an empty configuration) or an
 * object mapping references to configuration objects. The first failure
 * ends the whole call, and nothing collected so far is returned.
 */
module Batch {
  import opened Results
  import opened PluginTypes
  import opened Reference

  // -------------------------------------------------------- specification

  /** `ps` followed by the plugins of `res`, or the error of `res`. */
  function Extend(ps: seq<Plugin>, res: Result<seq<Plugin>, Error>): Result<seq<Plugin>, Error> {
    match res
    case Ok(qs) => Ok(ps + qs)
    case Err(e) => Err(e)
  }

  /**
   * The plugins `f` gives for the elements of `xs`, one after the other,
   * or the error of the first element that fails.
   */
  function Collect<T>(xs: seq<T>, f: T -> Result<seq<Plugin>, Error>): Result<seq<Plugin>, Error>
    decreases |xs|
  {
    if xs == [] then Ok([])
    else
      match Collect(xs[..|xs| - 1], f)
      case Err(e) => Err(e)
      case Ok(ps) => Extend(ps, f(xs[|xs| - 1]))
  }

  /** One entry `location: config` of an object element: the config must itself be an object. */
  function EntryPlugin(location: string, config: Value): Result<Plugin, Error> {
    if config.Object? then CreatePlugin(location, config.entries)
    else Err(NotAHash(location))
  }

  /** The same, as a list of zero or one plugins. */
  function EntryPlugins(entry: (string, Value)): Result<seq<Plugin>, Error> {
    match EntryPlugin(entry.0, entry.1)
    case Ok(p) => Ok([p])
    case Err(e) => Err(e)
  }

  /** The plugins of one array element. */
  function ElementPlugins(v: Value): Result<seq<Plugin>, Error> {
    match v
    case Str(reference) =>
      (match CreatePlugin(reference, []) case Ok(p) => Ok([p]) case Err(e) => Err(e))
    case Object(entries) => Collect(entries, EntryPlugins)
    case _ => Err(UnknownType(v))
  }

  /** The plugins of a decoded JSON document, which must be an array. */
  function PluginsFromJson(doc: Value): Result<seq<Plugin>, Error> {
    match doc
    case List(elems) => Collect(elems, ElementPlugins)
    case _ => Err(NotAnArray)
  }

  // --------------------------------------------------------------- method

  /**
   * CreatePluginsFromJSON, on the already decoded document: loops over the
   * array, and over the entries of each object element, appending plugins
   * and returning at the first error.
   */
  method CreatePluginsFromJSON(doc: Value) returns (r: Result<seq<Plugin>, Error>)
    ensures r == PluginsFromJson(doc)
  {
    if !doc.List? {
      return Err(NotAnArray);
    }
    var m := doc.elems;
    var plugins: seq<Plugin> := [];
    var i := 0;
    while i < |m|
      invariant 0 <= i <= |m|
      invariant Collect(m[..i], ElementPlugins) == Ok(plugins)
    {
      CollectStep(m, i, ElementPlugins);
      var res := AppendElement(plugins, m[i]);
      if res.Err? {
        CollectErrSticks(m, i + 1, ElementPlugins);
        return res;
      }
      plugins := res.value;
      i := i + 1;
    }
    assert m[..i] == m;
    return Ok(plugins);
  }

  /** The type switch on one array element, proved against `ElementPlugins`. */
  method AppendElement(plugins: seq<Plugin>, v: Value) returns (r: Result<seq<Plugin>, Error>)
    ensures r == Extend(plugins, ElementPlugins(v))
  {
    match v
    case Str(reference) =>
      var res := CreatePlugin(reference, []);
      if res.Err? {
        return Err(res.error);
      }
      return Ok(plugins + [res.value]);
    case Object(entries) =>
      r := AppendObject(plugins, entries);
    case _ =>
      return Err(UnknownType(v));
  }

  /** The loop over the entries of one object element, proved against `Collect` with `EntryPlugins`. */
  method AppendObject(plugins: seq<Plugin>, entries: seq<(string, Value)>) returns (r: Result<seq<Plugin>, Error>)
    ensures r == Extend(plugins, Collect(entries, EntryPlugins))
  {
    var out := plugins;
    ghost var done: seq<Plugin> := [];
    var j := 0;
    while j < |entries|
      invariant 0 <= j <= |entries|
      invariant Collect(entries[..j], EntryPlugins) == Ok(done)
      invariant out == plugins + done
    {
      CollectStep(entries, j, EntryPlugins);
      var res := AppendEntry(out, entries[j].0, entries[j].1);
      if res.Err? {
        CollectErrSticks(entries, j + 1, EntryPlugins);
        return res;
      }
      ghost var added := EntryPlugins(entries[j]).value;
      assert res.value == (plugins + done) + added == plugins + (done + added);
      out := res.value;
      done := done + added;
      j := j + 1;
    }
    assert entries[..j] == entries;
    return Ok(out);
  }

  /**
   * One entry of an object element, whose configuration must be an object;
   * proved against `EntryPlugins`.
   */
  method AppendEntry(plugins: seq<Plugin>, location: string, config: Value) returns (r: Result<seq<Plugin>, Error>)
    ensures r == Extend(plugins, EntryPlugins((location, config)))
  {
    if !config.Object? {
      return Err(NotAHash(location));
    }
    var res := CreatePlugin(location, config.entries);
    if res.Err? {
      return Err(res.error);
    }
    return Ok(plugins + [res.value]);
  }

  lemma CollectStep<T>(xs: seq<T>, i: nat, f: T -> Result<seq<Plugin>, Error>)
    requires i < |xs| && Collect(xs[..i], f).Ok?
    ensures Collect(xs[..i + 1], f) == Extend(Collect(xs[..i], f).value, f(xs[i]))
  {
    assert xs[..i + 1][..i] == xs[..i];
  }

  /** Once a prefix fails, the whole sequence fails with the same error. */
  lemma {:induction false} CollectErrSticks<T>(xs: seq<T>, i: nat, f: T -> Result<seq<Plugin>, Error>)
    requires i <= |xs| && Collect(xs[..i], f).Err?
    ensures Collect(xs, f) == Collect(xs[..i], f)
    decreases |xs| - i
  {
    if i < |xs| {
      assert xs[..i + 1][..i] == xs[..i];
      CollectErrSticks(xs, i + 1, f);
    } else {
      assert xs[..i] == xs;
    }
  }

  // --------------------------------------------------------------- lemmas

  /** Splitting the array splits the result: the plugins keep the array's order. */
  lemma {:induction false} CollectAppend<T>(a: seq<T>, b: seq<T>, f: T -> Result<seq<Plugin>, Error>)
    ensures Collect(a + b, f) == (match Collect(a, f) case Err(e) => Err(e) case Ok(ps) => Extend(ps, Collect(b, f)))
    decreases |b|
  {
    if b == [] {
      assert a + b == a;
      if Collect(a, f).Ok? {
        assert Collect(a, f).value + [] == Collect(a, f).value;
      }
    } else {
      var n := |b| - 1;
      assert (a + b)[..|a| + n] == a + b[..n];
      assert (a + b)[|a| + n] == b[n];
      CollectAppend(a, b[..n], f);
      if Collect(a, f).Ok? && Collect(b[..n], f).Ok? && f(b[n]).Ok? {
        var ps, qs, rs := Collect(a, f).value, Collect(b[..n], f).value, f(b[n]).value;
        assert (ps + qs) + rs == ps + (qs + rs);
      }
    }
  }

  /** The call succeeds exactly when every element does. */
  lemma {:induction false} CollectOk<T>(xs: seq<T>, f: T -> Result<seq<Plugin>, Error>)
    ensures Collect(xs, f).Ok? <==> forall i :: 0 <= i < |xs| ==> f(xs[i]).Ok?
    decreases |xs|
  {
    if xs != [] {
      var n := |xs| - 1;
      CollectOk(xs[..n], f);
      forall i | 0 <= i < n
        ensures f(xs[..n][i]) == f(xs[i])
      {
        assert xs[..n][i] == xs[i];
      }
    }
  }

  /**
   * The error returned is the one of the first failing element: every
   * element before it succeeds, whatever comes after it.
   */
  lemma CollectFirstError<T>(xs: seq<T>, i: nat, f: T -> Result<seq<Plugin>, Error>)
    requires i < |xs| && forall k :: 0 <= k < i ==> f(xs[k]).Ok?
    requires f(xs[i]).Err?
    ensures Collect(xs, f) == Err(f(xs[i]).error)
  {
    CollectOk(xs[..i], f);
    assert forall k :: 0 <= k < i ==> xs[..i][k] == xs[k];
    CollectStep(xs, i, f);
    CollectErrSticks(xs, i + 1, f);
  }

  /** A failing sequence fails with the error of one of its elements. */
  lemma {:induction false} CollectErrorOf<T>(xs: seq<T>, f: T -> Result<seq<Plugin>, Error>)
    requires Collect(xs, f).Err?
    ensures exists i :: 0 <= i < |xs| && f(xs[i]) == Err(Collect(xs, f).error)
    decreases |xs|
  {
    var n := |xs| - 1;
    if Collect(xs[..n], f).Err? {
      CollectErrorOf(xs[..n], f);
      var i :| 0 <= i < n && f(xs[..n][i]) == Err(Collect(xs[..n], f).error);
      assert xs[..n][i] == xs[i];
    } else {
      assert f(xs[n]) == Err(Collect(xs, f).error);
    }
  }

  /** The errors an array element can cause. */
  predicate ElementError(e: Error) {
    e.InvalidReference? || e.TooManyHashes? || e.NotAHash? || e.UnknownType?
  }

  lemma CreatePluginError(reference: string, config: Config)
    requires CreatePlugin(reference, config).Err?
    ensures ElementError(CreatePlugin(reference, config).error)
  {
  }

  lemma ElementPluginsError(v: Value)
    requires ElementPlugins(v).Err?
    ensures ElementError(ElementPlugins(v).error)
  {
    match v
    case Str(reference) =>
      CreatePluginError(reference, []);
    case Object(entries) =>
      CollectErrorOf(entries, EntryPlugins);
      var i :| 0 <= i < |entries| && EntryPlugins(entries[i]) == Err(ElementPlugins(v).error);
      if entries[i].1.Object? {
        CreatePluginError(entries[i].0, entries[i].1.entries);
      }
    case _ =>
  }

  /** The call fails with NotAnArray exactly when the document is not an array. */
  lemma NotAnArrayExactly(doc: Value)
    ensures PluginsFromJson(doc) == Err(NotAnArray) <==> !doc.List?
  {
    if doc.List? && PluginsFromJson(doc).Err? {
      CollectErrorOf(doc.elems, ElementPlugins);
      var i :| 0 <= i < |doc.elems| && ElementPlugins(doc.elems[i]) == Err(PluginsFromJson(doc).error);
      ElementPluginsError(doc.elems[i]);
    }
  }

  /** When every element gives exactly one plugin, the result holds those plugins, in order. */
  lemma {:induction false} CollectSingles<T>(xs: seq<T>, f: T -> Result<seq<Plugin>, Error>)
    requires forall i :: 0 <= i < |xs| ==> f(xs[i]).Ok? && |f(xs[i]).value| == 1
    ensures Collect(xs, f).Ok? && |Collect(xs, f).value| == |xs|
    ensures forall i :: 0 <= i < |xs| ==> Collect(xs, f).value[i] == f(xs[i]).value[0]
    decreases |xs|
  {
    if xs != [] {
      var n := |xs| - 1;
      forall i | 0 <= i < n
        ensures f(xs[..n][i]) == f(xs[i])
      {
        assert xs[..n][i] == xs[i];
      }
      CollectSingles(xs[..n], f);
    }
  }

  /**
   * An array of references only gives one plugin per reference, in order,
   * each with an empty configuration.
   */
  lemma StringsOnly(elems: seq<Value>)
    requires forall i :: 0 <= i < |elems| ==> elems[i].Str? && CreatePlugin(elems[i].s, []).Ok?
    ensures PluginsFromJson(List(elems)).Ok?
    ensures |PluginsFromJson(List(elems)).value| == |elems|
    ensures forall i :: 0 <= i < |elems| ==>
      PluginsFromJson(List(elems)).value[i] == CreatePlugin(elems[i].s, []).value &&
      PluginsFromJson(List(elems)).value[i].configuration == []
  {
    forall i | 0 <= i < |elems|
      ensures ElementPlugins(elems[i]) == Ok([CreatePlugin(elems[i].s, []).value])
    {
    }
    CollectSingles(elems, ElementPlugins);
  }

  /** An object element whose entry `j` has a configuration that is not an object fails with NotAHash. */
  lemma NotAHashAt(elems: seq<Value>, i: nat, j: nat)
    requires i < |elems| && forall k :: 0 <= k < i ==> ElementPlugins(elems[k]).Ok?
    requires elems[i].Object? && j < |elems[i].entries|
    requires forall k :: 0 <= k < j ==> EntryPlugins(elems[i].entries[k]).Ok?
    requires !elems[i].entries[j].1.Object?
    ensures PluginsFromJson(List(elems)) == Err(NotAHash(elems[i].entries[j].0))
  {
    CollectFirstError(elems[i].entries, j, EntryPlugins);
    CollectFirstError(elems, i, ElementPlugins);
  }

  /** An element that is neither a string nor an object fails with UnknownType. */
  lemma UnknownTypeAt(elems: seq<Value>, i: nat)
    requires i < |elems| && forall k :: 0 <= k < i ==> ElementPlugins(elems[k]).Ok?
    requires !elems[i].Str? && !elems[i].Object?
    ensures PluginsFromJson(List(elems)) == Err(UnknownType(elems[i]))
  {
    CollectFirstError(elems, i, ElementPlugins);
  }

  /** The plugins of two arrays joined are the plugins of each, in order. */
  lemma PluginsFromJsonAppend(a: seq<Value>, b: seq<Value>)
    ensures PluginsFromJson(List(a + b)).Ok? <==> PluginsFromJson(List(a)).Ok? && PluginsFromJson(List(b)).Ok?
    ensures PluginsFromJson(List(a + b)).Ok? ==>
      PluginsFromJson(List(a + b)).value == PluginsFromJson(List(a)).value + PluginsFromJson(List(b)).value
  {
    CollectAppend(a, b, ElementPlugins);
  }
}
