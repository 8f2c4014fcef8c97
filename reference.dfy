/**
 * Splitting a plugin reference `[scheme://][userinfo@]host/path[#version]`
 * into a Plugin (agent/plugin.go's CreatePlugin), over the part of Go's
 * `net/url.Parse` that decides the fields the plugin code reads.
 */
module Reference {
  import opened Results
  import opened Strings
  import opened PluginTypes

  /** The fields of Go's `url.URL` that CreatePlugin reads. */
  datatype Url = Url(scheme: string, user: Option<string>, host: string, path: string, fragment: string)

  predicate IsLetter(c: char) { IsUpper(c) || IsLower(c) }

  /** A character allowed after the first one of a URL scheme. */
  predicate IsSchemeChar(c: char) { IsAlnum(c) || c == '+' || c == '-' || c == '.' }

  /** A byte Go's URL parser refuses: below U+0020, or U+007F. */
  predicate IsControl(c: char) { c < ' ' || c == '\U{007F}' }

  predicate HasControl(s: string) {
    exists i :: 0 <= i < |s| && IsControl(s[i])
  }

  /** The length of the longest prefix of `s` made of scheme characters. */
  function SchemeSpan(s: string): (n: nat)
    ensures n <= |s|
    ensures forall i :: 0 <= i < n ==> IsSchemeChar(s[i])
    ensures n < |s| ==> !IsSchemeChar(s[n])
    decreases |s|
  {
    if s != [] && IsSchemeChar(s[0]) then 1 + SchemeSpan(s[1..]) else 0
  }

  /**
   * Go's getScheme: a letter followed by scheme characters and a `:` is a
   * scheme; a `:` at the very start is an error; anything else has no scheme.
   */
  function GetScheme(s: string): (r: Result<(string, string), ParseFailure>)
    ensures r.Err? <==> s != [] && s[0] == ':'
    ensures r.Ok? && r.value.0 == "" ==> r.value.1 == s
    ensures r.Ok? && r.value.0 != "" ==>
      s == r.value.0 + ":" + r.value.1 && IsLetter(r.value.0[0]) &&
      forall i :: 0 <= i < |r.value.0| ==> IsSchemeChar(r.value.0[i])
  {
    if s != [] && s[0] == ':' then Err(MissingScheme)
    else if s != [] && IsLetter(s[0]) && SchemeSpan(s) < |s| && s[SchemeSpan(s)] == ':' then
      var n := SchemeSpan(s);
      assert s == s[..n] + ":" + s[n + 1..];
      Ok((s[..n], s[n + 1..]))
    else Ok(("", s))
  }

  /** Every character of `a` occurs in `b`. */
  predicate SubChars(a: string, b: string) {
    forall x :: x in a ==> x in b
  }

  /** The host, path and user information of `u` are taken from `s`. */
  predicate Within(u: Url, s: string) {
    SubChars(u.host + u.path, s) && (u.user.Some? ==> '@' in s)
  }

  lemma WithinWider(r: Result<Url, ParseFailure>, s: string, t: string)
    requires r.Ok? ==> Within(r.value, s)
    requires SubChars(s, t)
    ensures r.Ok? ==> Within(r.value, t)
  {
  }

  /**
   * url.Parse on a reference: the fragment is everything after the first
   * `#`; the rest must be free of control characters; the scheme is
   * lower-cased and the query dropped.
   */
  function ParseUrl(raw: string): (r: Result<Url, ParseFailure>)
    ensures r.Ok? ==> r.value.fragment == Cut(raw, '#').1
    ensures r.Ok? ==> Within(r.value, Cut(raw, '#').0)
  {
    var c := Cut(raw, '#');
    if HasControl(c.0) then Err(ControlCharacter)
    else match GetScheme(c.0)
      case Err(e) => Err(e)
      case Ok(sr) =>
        var rest := Cut(sr.1, '?').0;
        var u := ParseRest(ToLower(sr.0), rest, c.1);
        CutChars(sr.1, '?');
        SchemeRestChars(c.0);
        WithinWider(u, rest, sr.1);
        WithinWider(u, sr.1, c.0);
        u
  }

  /** The text before a cut is part of the whole. */
  lemma CutChars(s: string, c: char)
    ensures SubChars(Cut(s, c).0, s)
  {
  }

  /** The text after the scheme is part of the whole. */
  lemma SchemeRestChars(s: string)
    requires GetScheme(s).Ok?
    ensures SubChars(GetScheme(s).value.1, s)
  {
  }

  /**
   * The part of url.Parse after the scheme: a rootless text after a scheme
   * is opaque (no host, no path); without a scheme a `:` in the first
   * segment is an error; `//` starts an authority up to the next `/`, whose
   * user information ends at its last `@`.
   */
  function ParseRest(scheme: string, rest: string, fragment: string): (r: Result<Url, ParseFailure>)
    ensures r.Ok? ==> r.value.fragment == fragment
    ensures r.Ok? ==> Within(r.value, rest)
  {
    if !HasPrefix(rest, "/") && scheme != "" then Ok(Url(scheme, None, "", "", fragment))
    else if !HasPrefix(rest, "/") && ':' in Cut(rest, '/').0 then Err(ColonInFirstSegment)
    else if (scheme != "" || !HasPrefix(rest, "///")) && HasPrefix(rest, "//") then
      SliceChars(rest, 2);
      var u := ParseAuthority(scheme, rest[2..], fragment);
      WithinWider(Ok(u), rest[2..], rest);
      Ok(u)
    else
      assert "" + rest == rest;
      Ok(Url(scheme, None, "", rest, fragment))
  }

  /**
   * The text after `//`: the authority runs up to the next `/`, which starts
   * the path; the user information is the authority's text before its last `@`.
   */
  function ParseAuthority(scheme: string, s: string, fragment: string): (r: Url)
    ensures r.scheme == scheme && r.fragment == fragment
    ensures Within(r, s)
  {
    var a := Cut(s, '/');
    var authority := a.0;
    var path := if a.2 then "/" + a.1 else "";
    var at := LastIndexOf(authority, '@');
    if at < 0 then Url(scheme, None, authority, path, fragment)
    else
      SliceChars(authority, at + 1);
      Url(scheme, Some(authority[..at]), authority[at + 1..], path, fragment)
  }

  lemma SliceChars(s: string, i: nat)
    requires i <= |s|
    ensures SubChars(s[i..], s)
  {
  }

  /**
   * CreatePlugin: Location is the URL's host and path, Version its fragment,
   * Authentication its user information. A version holding another `#` is
   * refused.
   */
  function CreatePlugin(reference: string, config: Config): (r: Result<Plugin, Error>)
    ensures r.Ok? ==> r.value.version == Cut(reference, '#').1 && r.value.configuration == config
    ensures r.Ok? ==> '#' !in r.value.location && '#' !in r.value.version
    ensures r.Ok? && r.value.authentication != "" ==> '@' in reference
    ensures Count(reference, '#') >= 2 ==> r.Err?
    ensures r.Ok? ==> '?' !in r.value.location
  {
    HashCount(reference);
    match ParseUrl(reference)
    case Err(e) => Err(InvalidReference(reference, e))
    case Ok(u) =>
      if u.fragment != "" && Count(u.fragment, '#') > 0 then Err(TooManyHashes(reference))
      else
        ParseUrlDropsQuery(reference);
        var auth := match u.user case None => "" case Some(s) => s;
        Ok(Plugin(u.host + u.path, u.fragment, u.scheme, auth, config))
  }

  /**
   * A reference is accepted exactly when url.Parse accepts it and its
   * fragment holds no further `#`.
   */
  lemma CreatePluginOk(reference: string, config: Config)
    ensures CreatePlugin(reference, config).Ok? <==>
      ParseUrl(reference).Ok? && '#' !in ParseUrl(reference).value.fragment
  {
    if ParseUrl(reference).Ok? {
      CountZero(ParseUrl(reference).value.fragment, '#');
    }
  }

  /** The query is dropped: no `?` reaches the host or the path. */
  lemma ParseUrlDropsQuery(raw: string)
    requires ParseUrl(raw).Ok?
    ensures '?' !in ParseUrl(raw).value.host + ParseUrl(raw).value.path
  {
    var c := Cut(raw, '#');
    var sr := GetScheme(c.0).value;
    var rest := Cut(sr.1, '?').0;
    assert ParseUrl(raw) == ParseRest(ToLower(sr.0), rest, c.1);
    assert '?' !in rest;
  }

  /** A second `#` in a reference is a `#` in the text after the first one. */
  lemma HashCount(reference: string)
    ensures Count(reference, '#') >= 2 ==> '#' in Cut(reference, '#').1
    ensures Count(Cut(reference, '#').1, '#') > 0 <==> '#' in Cut(reference, '#').1
  {
    var cut := Cut(reference, '#');
    CountZero(cut.1, '#');
    if cut.2 {
      CountAppend(cut.0 + ['#'], cut.1, '#');
      CountAppend(cut.0, ['#'], '#');
      CountZero(cut.0, '#');
    } else {
      CountZero(reference, '#');
    }
  }

  // ------------------------------------------------------------ round trips

  /** A scheme that url.Parse keeps as written: lower-case, starting with a letter. */
  predicate CanonicalScheme(s: string) {
    s != [] && IsLower(s[0]) && forall i :: 0 <= i < |s| ==> IsSchemeChar(s[i]) && !IsUpper(s[i])
  }

  /** Text url.Parse passes through unchanged in a host, path or user part. */
  predicate Plain(s: string) {
    forall i :: 0 <= i < |s| ==> !IsControl(s[i]) && s[i] != '#' && s[i] != '?'
  }

  /** The reference `scheme://user@host/path#version`, leaving out an empty user and version. */
  function FormatReference(scheme: string, user: string, host: string, path: string, version: string): string {
    scheme + ":" + ("//" + (UserPrefix(user) + host + path)) + VersionSuffix(version)
  }

  function UserPrefix(user: string): string {
    if user != "" then user + "@" else ""
  }

  function VersionSuffix(version: string): string {
    if version != "" then "#" + version else ""
  }

  /** A reference with a scheme splits back into the parts it was written from. */
  lemma CreatePluginRoundTrip(scheme: string, user: string, host: string, path: string, version: string, config: Config)
    requires CanonicalScheme(scheme) && Plain(user) && Plain(host) && Plain(path)
    requires '/' !in user && '/' !in host && '@' !in host
    requires path == "" || path[0] == '/'
    requires '#' !in version
    ensures CreatePlugin(FormatReference(scheme, user, host, path, version), config)
      == Ok(Plugin(host + path, version, scheme, user, config))
  {
    var u := Url(scheme, if user != "" then Some(user) else None, host, path, version);
    ParseUrlRoundTrip(scheme, user, host, path, version);
    CreatePluginOfUrl(FormatReference(scheme, user, host, path, version), config, u);
  }

  /** The URL parser reads the parts of `scheme://user@host/path#version` back. */
  lemma ParseUrlRoundTrip(scheme: string, user: string, host: string, path: string, version: string)
    requires CanonicalScheme(scheme) && Plain(user) && Plain(host) && Plain(path)
    requires '/' !in user && '/' !in host && '@' !in host
    requires path == "" || path[0] == '/'
    requires '#' !in version
    ensures ParseUrl(FormatReference(scheme, user, host, path, version))
      == Ok(Url(scheme, if user != "" then Some(user) else None, host, path, version))
  {
    var t := UserPrefix(user) + host + path;
    var rest := "//" + t;
    var body := scheme + ":" + rest;
    if user != "" {
      PlainAppend(user, "@");
    }
    PlainAppend(UserPrefix(user), host);
    PlainAppend(UserPrefix(user) + host, path);
    PlainAppend("//", t);
    PlainAppend(":", rest);
    PlainAppend(scheme, ":" + rest);
    assert body == scheme + (":" + rest);
    PlainChars(body);
    PlainChars(rest);
    GetSchemeOf(scheme, rest);
    LowerCanonical(scheme);
    CutAbsent(rest, '?');
    ParseUrlShape(body, scheme, rest, version);
    AuthorityRoundTrip(scheme, user, host, path, version);
  }

  /** After a scheme, `//user@host/path` splits into its parts. */
  lemma AuthorityRoundTrip(scheme: string, user: string, host: string, path: string, fragment: string)
    requires scheme != ""
    requires '/' !in user && '/' !in host && '@' !in host
    requires path == "" || path[0] == '/'
    ensures ParseRest(scheme, "//" + (UserPrefix(user) + host + path), fragment)
      == Ok(Url(scheme, if user != "" then Some(user) else None, host, path, fragment))
  {
    ParseRestAuthority(scheme, UserPrefix(user) + host + path, fragment);
    ParseAuthorityOf(scheme, user, host, path, fragment);
  }

  /** A canonical scheme and its `:` are split off the front. */
  lemma GetSchemeOf(scheme: string, rest: string)
    requires CanonicalScheme(scheme)
    ensures GetScheme(scheme + ":" + rest) == Ok((scheme, rest))
  {
    var body := scheme + ":" + rest;
    SchemeSpanAt(scheme, rest);
    assert body[0] == scheme[0] && body[|scheme|] == ':';
    assert body[..|scheme|] == scheme && body[|scheme| + 1..] == rest;
  }

  /** A reference without a scheme keeps all of its text before `#` as the location. */
  lemma CreatePluginSchemeless(location: string, version: string, config: Config)
    requires Plain(location)
    requires ':' !in Cut(location, '/').0
    requires !HasPrefix(location, "//") || HasPrefix(location, "///")
    requires '#' !in version
    ensures CreatePlugin(location + VersionSuffix(version), config)
      == Ok(Plugin(location, version, "", "", config))
  {
    PlainChars(location);
    NoSchemeBeforeSlash(location);
    ParseUrlShape(location, "", location, version);
    CutAbsent(location, '?');
    LowerEmpty();
    var u := Url("", None, "", location, version);
    assert ParseRest("", location, version) == Ok(u);
    assert u.host + u.path == location;
    CreatePluginOfUrl(location + VersionSuffix(version), config, u);
  }

  /** A schemeless reference whose version holds another `#` is refused with "Too many #'s". */
  lemma CreatePluginSchemelessHashes(location: string, version: string, config: Config)
    requires Plain(location)
    requires ':' !in Cut(location, '/').0
    requires !HasPrefix(location, "//") || HasPrefix(location, "///")
    requires '#' in version
    ensures CreatePlugin(location + "#" + version, config)
      == Err(TooManyHashes(location + "#" + version))
  {
    PlainChars(location);
    CutAt(location, version, '#');
    NoSchemeBeforeSlash(location);
    CutAbsent(location, '?');
    LowerEmpty();
    assert ParseRest("", location, version) == Ok(Url("", None, "", location, version));
    CountZero(version, '#');
  }

  /**
   * A scheme followed by text that does not start with `/` is opaque to
   * url.Parse: no host and no path, so the location is empty (this is what
   * becomes of `github.com:org/repo`).
   */
  lemma CreatePluginOpaque(scheme: string, rest: string, config: Config)
    requires CanonicalScheme(scheme) && Plain(rest)
    requires !HasPrefix(rest, "/")
    ensures CreatePlugin(scheme + ":" + rest, config) == Ok(Plugin("", "", scheme, "", config))
  {
    var body := scheme + ":" + rest;
    PlainAppend(":", rest);
    PlainAppend(scheme, ":" + rest);
    assert body == scheme + (":" + rest);
    PlainChars(body);
    PlainChars(rest);
    GetSchemeOf(scheme, rest);
    LowerCanonical(scheme);
    CutAbsent(rest, '?');
    assert body + VersionSuffix("") == body;
    ParseUrlShape(body, scheme, rest, "");
    assert ParseRest(scheme, rest, "") == Ok(Url(scheme, None, "", "", ""));
    assert ParseUrl(body) == Ok(Url(scheme, None, "", "", ""));
    CreatePluginOfUrl(body, config, Url(scheme, None, "", "", ""));
    assert "" + "" == "";
  }

  /**
   * An SSH-style reference `user@host:path` is refused by url.Parse: it has
   * no scheme, yet its first segment holds a `:`.
   */
  lemma CreatePluginScpStyle(user: string, host: string, path: string, config: Config)
    requires Plain(user) && Plain(host) && Plain(path)
    requires '/' !in user && '/' !in host && ':' !in user
    ensures CreatePlugin(user + "@" + host + ":" + path, config)
      == Err(InvalidReference(user + "@" + host + ":" + path, ColonInFirstSegment))
  {
    var s := user + "@" + host + ":" + path;
    PlainAppend(user, "@");
    PlainAppend(user + "@", host);
    PlainAppend(user + "@" + host, ":");
    PlainAppend(user + "@" + host + ":", path);
    PlainChars(s);
    ScpNoScheme(user, host + ":" + path);
    assert s == user + "@" + (host + ":" + path);
    ScpFirstSegment(user, host, path);
    CutAbsent(s, '?');
    CutAbsent(s, '#');
    LowerEmpty();
    assert ParseRest("", s, "") == Err(ColonInFirstSegment);
  }

  /** A text whose first `@` comes before any `:` has no scheme. */
  lemma ScpNoScheme(user: string, tail: string)
    requires ':' !in user
    ensures GetScheme(user + "@" + tail) == Ok(("", user + "@" + tail))
  {
    var s := user + "@" + tail;
    var n := SchemeSpan(s);
    assert s[|user|] == '@';
    assert n <= |user|;
    if n < |user| {
      assert s[n] == user[n];
    }
  }

  /** In `user@host:path` the `:` lies in the first segment, when user and host hold no `/`. */
  lemma ScpFirstSegment(user: string, host: string, path: string)
    requires '/' !in user && '/' !in host
    ensures ':' in Cut(user + "@" + host + ":" + path, '/').0
    ensures (user + "@" + host + ":" + path)[0] != '/'
  {
    var s := user + "@" + host + ":" + path;
    var k := |user| + 1 + |host|;
    assert s[k] == ':';
    forall j | 0 <= j <= k ensures s[j] != '/' {
      if j < |user| {
        assert s[j] == user[j];
      } else if |user| < j < k {
        assert s[j] == host[j - |user| - 1];
      }
    }
    FirstSegmentHas(s, k);
  }

  /** What CreatePlugin makes of a parsed URL whose fragment holds no `#`. */
  lemma CreatePluginOfUrl(reference: string, config: Config, u: Url)
    requires ParseUrl(reference) == Ok(u) && '#' !in u.fragment
    ensures CreatePlugin(reference, config) ==
      Ok(Plugin(u.host + u.path, u.fragment, u.scheme, if u.user.Some? then u.user.value else "", config))
  {
    CountZero(u.fragment, '#');
  }

  /** url.Parse of a text free of `#` and control characters, plus a version. */
  lemma ParseUrlShape(body: string, scheme: string, rest: string, version: string)
    requires '#' !in body && !HasControl(body) && '#' !in version
    requires GetScheme(body) == Ok((scheme, rest))
    ensures ParseUrl(body + VersionSuffix(version)) == ParseRest(ToLower(scheme), Cut(rest, '?').0, version)
  {
    CutBeforeVersion(body, version);
  }

  /** With a scheme, `//` always starts an authority. */
  lemma ParseRestAuthority(scheme: string, t: string, fragment: string)
    requires scheme != ""
    ensures ParseRest(scheme, "//" + t, fragment) == Ok(ParseAuthority(scheme, t, fragment))
  {
    assert ("//" + t)[..1] == "/";
    assert ("//" + t)[..2] == "//";
    assert ("//" + t)[2..] == t;
  }

  /** An authority written as `user@host` followed by a path splits back into them. */
  lemma ParseAuthorityOf(scheme: string, user: string, host: string, path: string, fragment: string)
    requires '/' !in user && '/' !in host && '@' !in host
    requires path == "" || path[0] == '/'
    ensures ParseAuthority(scheme, UserPrefix(user) + host + path, fragment)
      == Url(scheme, if user != "" then Some(user) else None, host, path, fragment)
  {
    if user == "" {
      assert UserPrefix(user) + host + path == host + path;
      ParseAuthorityNoUser(scheme, host, path, fragment);
    } else {
      assert UserPrefix(user) + host + path == (user + "@" + host) + path;
      ParseAuthorityUser(scheme, user, host, path, fragment);
    }
  }

  lemma ParseAuthorityNoUser(scheme: string, host: string, path: string, fragment: string)
    requires '/' !in host && '@' !in host
    requires path == "" || path[0] == '/'
    ensures ParseAuthority(scheme, host + path, fragment) == Url(scheme, None, host, path, fragment)
  {
    AuthorityCut(host, path);
  }

  lemma ParseAuthorityUser(scheme: string, user: string, host: string, path: string, fragment: string)
    requires user != "" && '/' !in user && '/' !in host && '@' !in host
    requires path == "" || path[0] == '/'
    ensures ParseAuthority(scheme, (user + "@" + host) + path, fragment) == Url(scheme, Some(user), host, path, fragment)
  {
    var authority := user + "@" + host;
    assert '/' !in authority;
    AuthorityCut(authority, path);
    UserAt(user, host);
  }

  /** The authority ends at the `/` that starts the path. */
  lemma AuthorityCut(authority: string, path: string)
    requires '/' !in authority
    requires path == "" || path[0] == '/'
    ensures Cut(authority + path, '/').0 == authority
    ensures (if Cut(authority + path, '/').2 then "/" + Cut(authority + path, '/').1 else "") == path
  {
    if path == "" {
      assert authority + path == authority;
      CutAbsent(authority, '/');
    } else {
      assert authority + path == authority + ['/'] + path[1..];
      CutAt(authority, path[1..], '/');
      assert "/" + path[1..] == path;
    }
  }

  /** The user information ends at the last `@`, when the host holds none. */
  lemma UserAt(user: string, host: string)
    requires '@' !in host
    ensures var authority := UserPrefix(user) + host;
      var at := LastIndexOf(authority, '@');
      (user == "" ==> at < 0) &&
      (user != "" ==> at == |user| && authority[..at] == user && authority[at + 1..] == host)
  {
    var authority := UserPrefix(user) + host;
    if user == "" {
      assert authority == host;
    } else {
      assert authority == user + ['@'] + host;
      LastIndexOfAt(user, host, '@');
      assert authority[..|user|] == user && authority[|user| + 1..] == host;
    }
  }

  /** What a plain text is free of. */
  lemma PlainChars(s: string)
    requires Plain(s)
    ensures !HasControl(s) && '#' !in s && '?' !in s
  {
  }

  lemma LowerEmpty()
    ensures ToLower("") == ""
  {
  }

  /** Lower-casing leaves a canonical scheme as it is. */
  lemma LowerCanonical(s: string)
    requires CanonicalScheme(s)
    ensures ToLower(s) == s
  {
    assert forall i :: 0 <= i < |s| ==> ToLowerChar(s[i]) == s[i];
  }

  /** A text with no `#`, followed by the version suffix, is cut at that suffix. */
  lemma CutBeforeVersion(body: string, version: string)
    requires '#' !in body
    ensures Cut(body + VersionSuffix(version), '#').0 == body
    ensures Cut(body + VersionSuffix(version), '#').1 == version
  {
    if version == "" {
      assert body + "" == body;
      CutAbsent(body, '#');
    } else {
      assert body + ("#" + version) == body + ['#'] + version;
      CutAt(body, version, '#');
    }
  }

  /** A run of scheme characters spans exactly to the `:` after it. */
  lemma {:induction false} SchemeSpanAt(scheme: string, tail: string)
    requires forall i :: 0 <= i < |scheme| ==> IsSchemeChar(scheme[i])
    ensures SchemeSpan(scheme + ":" + tail) == |scheme|
    decreases |scheme|
  {
    var s := scheme + ":" + tail;
    if scheme == [] {
      assert s[0] == ':';
    } else {
      assert s[0] == scheme[0];
      assert s[1..] == scheme[1..] + ":" + tail;
      SchemeSpanAt(scheme[1..], tail);
    }
  }

  lemma PlainAppend(a: string, b: string)
    requires Plain(a) && Plain(b)
    ensures Plain(a + b)
  {
    forall i | 0 <= i < |a + b| ensures !IsControl((a + b)[i]) && (a + b)[i] != '#' && (a + b)[i] != '?' {
      if i < |a| {
        assert (a + b)[i] == a[i];
      } else {
        assert (a + b)[i] == b[i - |a|];
      }
    }
  }

  /**
   * Without a `:` in its first segment a text has no scheme, and url.Parse
   * keeps it whole as the path (or splits off an authority when it starts `//`).
   */
  lemma NoSchemeBeforeSlash(s: string)
    requires ':' !in Cut(s, '/').0
    ensures GetScheme(s) == Ok(("", s))
  {
    var n := SchemeSpan(s);
    if n < |s| && s[n] != '/' {
      FirstSegmentHas(s, n);
    }
  }

  /** A character with no `/` before it or at it lies in the first segment. */
  lemma FirstSegmentHas(s: string, k: nat)
    requires k < |s|
    requires forall j :: 0 <= j <= k ==> s[j] != '/'
    ensures s[k] in Cut(s, '/').0
  {
    var c := Cut(s, '/');
    if c.2 {
      assert s[|c.0|] == '/';
      assert s[k] == c.0[k];
    }
  }

  // ------------------------------------------------------------- examples

  /** `scheme://host/org/repo#v1` splits into its scheme, location and version. */
  lemma ExampleWithScheme()
    ensures CreatePlugin(FormatReference("scheme", "", "host", "/org/repo", "v1"), [])
      == Ok(Plugin("host" + "/org/repo", "v1", "scheme", "", []))
  {
    assert CanonicalScheme("scheme");
    assert Plain("host") && Plain("/org/repo");
    CreatePluginRoundTrip("scheme", "", "host", "/org/repo", "v1", []);
  }

  /** `host/path#a#b` has two version markers and is refused as such, not as a parse error. */
  lemma ExampleTwoHashes(location: string, version: string)
    requires location == "host/path" && version == "a#b"
    ensures CreatePlugin(location + "#" + version, []) == Err(TooManyHashes(location + "#" + version))
  {
    assert version[1] == '#';
    assert ':' !in Cut(location, '/').0 by {
      CutAt("host", "path", '/');
      assert location == "host" + ['/'] + "path";
    }
    assert location[0] != '/';
    CreatePluginSchemelessHashes(location, version, []);
  }
}
