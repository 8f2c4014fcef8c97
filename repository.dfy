/**
 * Where a plugin's code lives: the repository root inside its location
 * (constructRepositoryHost), the clone URL (Repository) and the directory
 * of the plugin inside the checkout (RepositorySubdirectory).
 */
module RepositoryResolver {
  import opened Results
  import opened Strings
  import opened PluginTypes
  import opened Reference

  /** Hosts whose repositories are always `host/owner/name`. */
  const KnownHosts: seq<string> := ["github.com", "bitbucket.org", "gitlab.com"]

  /**
   * The number of leading segments up to and including the first one that
   * ends in `.git`, or all of them when none does.
   */
  function ThroughGit(parts: seq<string>): (n: nat)
    ensures n <= |parts|
    ensures parts != [] ==> 1 <= n
    ensures forall i :: 0 <= i < n - 1 ==> !HasSuffix(parts[i], ".git")
    ensures 0 < n < |parts| ==> HasSuffix(parts[n - 1], ".git")
    decreases |parts|
  {
    if parts == [] then 0
    else if HasSuffix(parts[0], ".git") then 1
    else 1 + ThroughGit(parts[1..])
  }

  /** The number of segments of a location that make up its repository root. */
  function RootSegments(parts: seq<string>): (n: nat)
    requires |parts| >= 1
    ensures 1 <= n <= |parts|
  {
    if parts[0] in KnownHosts then (if |parts| < 3 then |parts| else 3) else ThroughGit(parts)
  }

  /**
   * The repository root of a location: an error for an empty location and
   * for one without `/`; three segments for a known host, which must have
   * them; otherwise the segments through the first `.git` one.
   */
  function RepositoryRoot(location: string): Result<string, Error>
  {
    if location == "" then Err(MissingLocation)
    else
      var parts := Split(location, '/');
      if |parts| < 2 then Err(IncompletePath(location))
      else if parts[0] in KnownHosts && |parts| < 3 then Err(IncompleteHostPath(parts[0], location))
      else Ok(Join(parts[..RootSegments(parts)], '/'))
  }

  /** constructRepositoryHost: collects segments up to the first `.git` one, stopping there. */
  method ConstructRepositoryHost(p: Plugin) returns (r: Result<string, Error>)
    ensures r == RepositoryRoot(p.location)
  {
    if p.location == "" {
      return Err(MissingLocation);
    }
    var parts := Split(p.location, '/');
    if |parts| < 2 {
      return Err(IncompletePath(p.location));
    }
    var s: string;
    if parts[0] == "github.com" || parts[0] == "bitbucket.org" || parts[0] == "gitlab.com" {
      assert parts[0] in KnownHosts;
      if |parts| < 3 {
        return Err(IncompleteHostPath(parts[0], p.location));
      }
      s := Join(parts[..3], '/');
    } else {
      assert parts[0] !in KnownHosts;
      var repo := SegmentsThroughGit(parts);
      s := Join(repo, '/');
    }
    return Ok(s);
  }

  /** The loop of constructRepositoryHost: appends segments, stopping after the first `.git` one. */
  method SegmentsThroughGit(parts: seq<string>) returns (repo: seq<string>)
    ensures repo == parts[..ThroughGit(parts)]
  {
    repo := [];
    var i := 0;
    while i < |parts|
      invariant 0 <= i <= |parts|
      invariant repo == parts[..i]
      invariant forall k :: 0 <= k < i ==> !HasSuffix(parts[k], ".git")
    {
      repo := repo + [parts[i]];
      if HasSuffix(parts[i], ".git") {
        ThroughGitAt(parts, i);
        assert repo == parts[..i + 1];
        return;
      }
      i := i + 1;
    }
    ThroughGitNone(parts);
    assert parts[..i] == parts;
  }

  /** The first `.git` segment ends the root. */
  lemma {:induction false} ThroughGitAt(parts: seq<string>, i: nat)
    requires i < |parts| && HasSuffix(parts[i], ".git")
    requires forall k :: 0 <= k < i ==> !HasSuffix(parts[k], ".git")
    ensures ThroughGit(parts) == i + 1
    decreases i
  {
    if i > 0 {
      assert !HasSuffix(parts[0], ".git");
      ThroughGitAt(parts[1..], i - 1);
    }
  }

  /** With no `.git` segment the root is the whole location. */
  lemma {:induction false} ThroughGitNone(parts: seq<string>)
    requires forall k :: 0 <= k < |parts| ==> !HasSuffix(parts[k], ".git")
    ensures ThroughGit(parts) == |parts|
    decreases |parts|
  {
    if parts != [] {
      assert !HasSuffix(parts[0], ".git");
      ThroughGitNone(parts[1..]);
    }
  }

  /** The text between the authentication and the root, as Repository writes it. */
  function WithAuthentication(authentication: string, root: string): string {
    if authentication != "" then authentication + "@" + root else root
  }

  /**
   * The clone URL of a root: the authentication in front and, unless the
   * result is a file-system path, the scheme (`https` when there is none).
   */
  function CloneUrl(scheme: string, authentication: string, root: string): (url: string)
    ensures HasSuffix(url, root)
    ensures authentication != "" ==> HasSuffix(url, authentication + "@" + root)
    ensures authentication == "" && HasPrefix(root, "/") ==> url == root
    ensures !HasPrefix(WithAuthentication(authentication, root), "/") ==>
      HasPrefix(url, (if scheme != "" then scheme else "https") + "://")
  {
    var s := WithAuthentication(authentication, root);
    if HasPrefix(s, "/") then s
    else if scheme != "" then scheme + "://" + s
    else "https://" + s
  }

  /** Repository: the clone URL of the plugin's repository root. */
  function Repository(p: Plugin): (r: Result<string, Error>)
    ensures r.Err? <==> RepositoryRoot(p.location).Err?
    ensures r.Err? ==> r.error == RepositoryRoot(p.location).error
    ensures r.Ok? ==> r.value == CloneUrl(p.scheme, p.authentication, RepositoryRoot(p.location).value)
  {
    match RepositoryRoot(p.location)
    case Err(e) => Err(e)
    case Ok(root) => Ok(CloneUrl(p.scheme, p.authentication, root))
  }

  /** RepositorySubdirectory: the location after the root and the `/` that follows it. */
  function RepositorySubdirectory(p: Plugin): (r: Result<string, Error>)
    ensures r.Err? <==> RepositoryRoot(p.location).Err?
    ensures r.Err? ==> r.error == RepositoryRoot(p.location).error
  {
    match RepositoryRoot(p.location)
    case Err(e) => Err(e)
    case Ok(root) => Ok(TrimPrefix(TrimPrefix(p.location, root), "/"))
  }

  // ------------------------------------------------------------- properties

  /**
   * Root resolution fails exactly when the location is empty, has no `/`,
   * or starts with a known host and has fewer than two `/`.
   */
  lemma RootErrors(location: string)
    ensures RepositoryRoot(location).Err? <==>
      location == "" || Count(location, '/') == 0 ||
      (Split(location, '/')[0] in KnownHosts && Count(location, '/') < 2)
  {
    SplitLength(location, '/');
  }

  /** For a known host the root is the first three segments. */
  lemma RootKnownHost(location: string)
    requires |Split(location, '/')| >= 3 && Split(location, '/')[0] in KnownHosts
    ensures RepositoryRoot(location) == Ok(Join(Split(location, '/')[..3], '/'))
  {
  }

  /**
   * For any other host the root is the shortest run of segments that ends
   * in one with the suffix `.git`, or the whole location when none has it.
   */
  lemma RootOtherHost(location: string)
    requires |Split(location, '/')| >= 2 && Split(location, '/')[0] !in KnownHosts
    ensures var parts := Split(location, '/');
      exists n :: 1 <= n <= |parts| && RepositoryRoot(location) == Ok(Join(parts[..n], '/')) &&
        (forall i :: 0 <= i < n - 1 ==> !HasSuffix(parts[i], ".git")) &&
        (n < |parts| ==> HasSuffix(parts[n - 1], ".git")) &&
        (n == |parts| ==> RepositoryRoot(location) == Ok(location))
  {
    var parts := Split(location, '/');
    var n := ThroughGit(parts);
    JoinSplit(location, '/');
    assert parts[..|parts|] == parts;
  }

  /**
   * The root is a prefix of the location: the whole of it, or followed by
   * a `/` and the remaining segments.
   */
  lemma RootIsPrefix(location: string)
    requires RepositoryRoot(location).Ok?
    ensures var parts := Split(location, '/');
      var n := RootSegments(parts);
      var root := RepositoryRoot(location).value;
      (n == |parts| ==> location == root) &&
      (n < |parts| ==> location == root + "/" + Join(parts[n..], '/'))
  {
    var parts := Split(location, '/');
    var n := RootSegments(parts);
    assert RepositoryRoot(location).value == Join(parts[..n], '/');
    JoinSplit(location, '/');
    JoinedPrefix(parts, n, '/');
  }

  /** Joining a prefix of the parts, then the rest, gives the whole. */
  lemma JoinedPrefix(parts: seq<string>, n: nat, sep: char)
    requires 1 <= n <= |parts|
    ensures n == |parts| ==> Join(parts[..n], sep) == Join(parts, sep)
    ensures n < |parts| ==> Join(parts, sep) == Join(parts[..n], sep) + [sep] + Join(parts[n..], sep)
  {
    if n == |parts| {
      assert parts[..n] == parts;
    } else {
      assert parts == parts[..n] + parts[n..];
      JoinAppend(parts[..n], parts[n..], sep);
    }
  }

  /**
   * The subdirectory is the segments after the root joined by `/`, and is
   * empty when the location is the root itself.
   */
  lemma SubdirectorySegments(p: Plugin)
    requires RepositoryRoot(p.location).Ok?
    ensures var parts := Split(p.location, '/');
      var n := RootSegments(parts);
      RepositorySubdirectory(p) == Ok(if n < |parts| then Join(parts[n..], '/') else "")
  {
    var parts := Split(p.location, '/');
    var n := RootSegments(parts);
    var root := RepositoryRoot(p.location).value;
    RootIsPrefix(p.location);
    if n < |parts| {
      TrimRootSlash(root, Join(parts[n..], '/'));
    } else {
      TrimRootSlash(root, "");
    }
  }

  /** Removing the root and then one `/` leaves what followed them. */
  lemma TrimRootSlash(root: string, rest: string)
    ensures TrimPrefix(TrimPrefix(root + "/" + rest, root), "/") == rest
    ensures TrimPrefix(TrimPrefix(root, root), "/") == ""
  {
    var s := root + "/" + rest;
    assert s[..|root|] == root;
    assert s[|root|..] == "/" + rest;
    assert ("/" + rest)[1..] == rest;
    assert root[|root|..] == "";
  }

  /**
   * The root and the subdirectory put back together give the location; the
   * subdirectory is empty when the location is the root.
   */
  lemma RootAndSubdirectory(p: Plugin)
    requires RepositoryRoot(p.location).Ok?
    ensures var root := RepositoryRoot(p.location).value;
      var sub := RepositorySubdirectory(p).value;
      (p.location == root && sub == "") || p.location == root + "/" + sub
  {
    RootIsPrefix(p.location);
    SubdirectorySegments(p);
  }

  /**
   * The URL Repository builds reads back, through CreatePlugin, as the
   * root with the plugin's authentication and the scheme it was given.
   */
  lemma RepositoryReparse(p: Plugin, config: Config)
    requires RepositoryRoot(p.location).Ok?
    requires p.scheme == "" || CanonicalScheme(p.scheme)
    requires Plain(p.authentication) && '/' !in p.authentication
    requires var root := RepositoryRoot(p.location).value;
      Plain(root) && root != [] && root[0] != '/' && '@' !in Cut(root, '/').0
    ensures var root := RepositoryRoot(p.location).value;
      CreatePlugin(Repository(p).value, config) ==
        Ok(Plugin(root, "", if p.scheme != "" then p.scheme else "https", p.authentication, config))
  {
    var root := RepositoryRoot(p.location).value;
    var scheme := if p.scheme != "" then p.scheme else "https";
    if p.scheme == "" {
      HttpsCanonical();
    }
    ReparseRoot(p.scheme, scheme, p.authentication, root, config);
  }

  lemma HttpsCanonical()
    ensures CanonicalScheme("https")
  {
    var h := "https";
    assert IsLower(h[0]);
    forall i | 0 <= i < |h| ensures IsSchemeChar(h[i]) && !IsUpper(h[i]) {
      assert IsLower(h[i]);
    }
  }

  /** `scheme://auth@root` reads back as the root with that scheme and authentication. */
  lemma ReparseRoot(given: string, scheme: string, authentication: string, root: string, config: Config)
    requires scheme == (if given != "" then given else "https") && CanonicalScheme(scheme)
    requires Plain(authentication) && '/' !in authentication
    requires Plain(root) && root != [] && root[0] != '/' && '@' !in Cut(root, '/').0
    ensures CreatePlugin(CloneUrl(given, authentication, root), config) ==
      Ok(Plugin(root, "", scheme, authentication, config))
  {
    var c := Cut(root, '/');
    var host := c.0;
    var path := if c.2 then "/" + c.1 else "";
    CutSegments(root);
    PlainParts(root, host, path);
    AuthorityText(authentication, root, host, path);
    CloneUrlScheme(given, scheme, authentication, root);
    CreatePluginRoundTrip(scheme, authentication, host, path, "", config);
  }

  /** Away from a file-system path, the clone URL is the scheme, `//` and the authority text. */
  lemma CloneUrlScheme(given: string, scheme: string, authentication: string, root: string)
    requires scheme == (if given != "" then given else "https")
    requires '/' !in authentication && root != [] && root[0] != '/'
    ensures CloneUrl(given, authentication, root) ==
      scheme + ":" + ("//" + WithAuthentication(authentication, root)) + VersionSuffix("")
  {
    var s := WithAuthentication(authentication, root);
    assert s[0] != '/';
    assert !HasPrefix(s, "/");
    assert CloneUrl(given, authentication, root) == scheme + "://" + s;
    assert VersionSuffix("") == "";
    assert scheme + "://" + s == scheme + ":" + ("//" + s) + "";
  }

  /** The text after `//`, split at the end of the host. */
  lemma AuthorityText(authentication: string, root: string, host: string, path: string)
    requires root == host + path
    ensures WithAuthentication(authentication, root) == UserPrefix(authentication) + host + path
  {
    if authentication != "" {
      SeqAssoc(authentication + "@", host, path);
    }
  }

  /** A text is its first segment followed by `/` and the rest, if any. */
  lemma CutSegments(root: string)
    ensures root == Cut(root, '/').0 + (if Cut(root, '/').2 then "/" + Cut(root, '/').1 else "")
  {
    var c := Cut(root, '/');
    if c.2 {
      SeqAssoc(c.0, "/", c.1);
    }
  }

  /** The two sides of a cut of a plain text are plain. */
  lemma PlainParts(root: string, host: string, path: string)
    requires Plain(root) && root == host + path
    ensures Plain(host) && Plain(path)
  {
    forall i | 0 <= i < |host| ensures !IsControl(host[i]) && host[i] != '#' && host[i] != '?' {
      assert host[i] == root[i];
    }
    forall i | 0 <= i < |path| ensures !IsControl(path[i]) && path[i] != '#' && path[i] != '?' {
      assert path[i] == root[|host| + i];
    }
  }
}
