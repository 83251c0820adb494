/** Where the front cache keeps each entry: the file names `get`, `getPart`, `start`,
    `testPart` and `flush` derive from a request URI, a fragment id or a routed URL. */
module CachePaths {
  import opened Strings
  import opened FileStore

  /** Cache key of a full page (`get`): the request URI with one trailing `/` removed
      and every `/` turned into `-`. */
  function PageKey(uri: string): (key: string)
    requires |uri| > 0
    ensures '/' !in key
    ensures |key| == if uri[|uri| - 1] == '/' then |uri| - 1 else |uri|
    ensures forall i :: 0 <= i < |key| ==> key[i] == Dash(uri[i])
  {
    ReplaceSlashes(StripTrailingSlash(uri))
  }

  /** The file `get` reads for a request URI. */
  function PagePath(dir: string, uri: string): (path: string)
    requires |uri| > 0
    ensures InDir(dir, path)
  {
    var path := dir + PageKey(uri) + ".html";
    assert path[|dir|..] == PageKey(uri) + ".html";
    path
  }

  /** The file `getPart` reads and `flushPart` removes for a fragment id. */
  function PartPath(dir: string, id: string): (path: string)
    ensures dir + "parts/" <= path && !InDir(dir, path)
    ensures InDir(dir + "parts/", path) <==> '/' !in id
  {
    var path := dir + "parts/" + id + ".html";
    assert path[|dir|..][5] == '/';
    assert path[|dir + "parts/"|..] == id + ".html";
    path
  }

  /** The file `start` and `testPart` select for a non-empty id (no `parts/` segment). */
  function IdPath(dir: string, id: string): (path: string)
    ensures InDir(dir, path) <==> '/' !in id
  {
    var path := dir + id + ".html";
    assert path[|dir|..] == id + ".html";
    path
  }

  /** `$f1` of `flush('/')`: the index page cached as `<subfolder>index.php`. */
  function IndexFile(dir: string, subfolder: string): (path: string)
    ensures InDir(dir, path)
  {
    var path := dir + ReplaceSlashes(subfolder) + "index.php.html";
    assert path[|dir|..] == ReplaceSlashes(subfolder) + "index.php.html";
    path
  }

  /** `$f2` of `flush('/')`: the index page cached as the bare subfolder. */
  function BareIndexFile(dir: string, subfolder: string): (path: string)
    ensures InDir(dir, path)
  {
    var path := dir + ReplaceSlashes(DropLast(subfolder)) + ".html";
    assert path[|dir|..] == ReplaceSlashes(DropLast(subfolder)) + ".html";
    path
  }

  /** `$oriUrl1`: the dash-encoded name of a route written without the front controller. */
  function RoutePrefix(subfolder: string, route: string): (prefix: string)
    ensures '/' !in prefix && |prefix| == |subfolder| + |route|
  {
    ReplaceSlashes(subfolder + route)
  }

  /** `$oriUrl2`: the dash-encoded name of a route written with `index.php/`. */
  function ControllerPrefix(subfolder: string, route: string): (prefix: string)
    ensures '/' !in prefix && |prefix| == |subfolder| + 10 + |route|
    ensures prefix[|subfolder|..|subfolder| + 10] == "index.php-"
  {
    ReplaceSlashes(subfolder + "index.php/" + route)
  }

  /** `$fname` of `flush`. */
  function RouteFile(dir: string, subfolder: string, route: string): (path: string)
    ensures InDir(dir, path)
  {
    var path := dir + RoutePrefix(subfolder, route) + ".html";
    assert path[|dir|..] == RoutePrefix(subfolder, route) + ".html";
    path
  }

  /** `$fname2` of `flush`. */
  function ControllerFile(dir: string, subfolder: string, route: string): (path: string)
    ensures InDir(dir, path)
  {
    var path := dir + ControllerPrefix(subfolder, route) + ".html";
    assert path[|dir|..] == ControllerPrefix(subfolder, route) + ".html";
    path
  }

  /** The two files `flush(url)` looks for before any directory scan. */
  function FlushCandidates(dir: string, subfolder: string, url: string): (candidates: set<string>)
    ensures forall f :: f in candidates ==> InDir(dir, f)
  {
    if url == "/" then {IndexFile(dir, subfolder), BareIndexFile(dir, subfolder)}
    else
      var route := StripLeadingSlash(url);
      {RouteFile(dir, subfolder, route), ControllerFile(dir, subfolder, route)}
  }

  /** The two candidates are always two distinct files. */
  lemma FlushCandidatesAreTwo(dir: string, subfolder: string, url: string)
    ensures |FlushCandidates(dir, subfolder, url)| == 2
  {
    if url == "/" {
      assert |IndexFile(dir, subfolder)| != |BareIndexFile(dir, subfolder)|;
    } else {
      var route := StripLeadingSlash(url);
      assert |RouteFile(dir, subfolder, route)| != |ControllerFile(dir, subfolder, route)|;
    }
  }

  /** Two different fragment ids never give the same part path string. */
  lemma PartPathInjective(dir: string, a: string, b: string)
    requires PartPath(dir, a) == PartPath(dir, b)
    ensures a == b
  {
    var n := |dir| + 6;
    assert a == PartPath(dir, a)[n..|PartPath(dir, a)| - 5];
    assert b == PartPath(dir, b)[n..|PartPath(dir, b)| - 5];
  }

  /** `testPart(id)` does not look where `getPart(id)` and `flushPart(id)` look. */
  lemma TestPartMissesPartFile(dir: string, id: string)
    ensures IdPath(dir, id) != PartPath(dir, id)
  {
    assert |IdPath(dir, id)| + 6 == |PartPath(dir, id)|;
  }

  /** A request URI with and without one trailing slash is cached in the same file. */
  lemma TrailingSlashSharesPage(dir: string, uri: string)
    requires |uri| > 0 && uri[|uri| - 1] != '/'
    ensures PagePath(dir, uri + "/") == PagePath(dir, uri)
  {
    assert StripTrailingSlash(uri + "/") == uri;
  }

  /** `/` and `-` both encode as `-`, so distinct request URIs can share a cache file. */
  lemma SlashAndDashCollide(dir: string)
    ensures PagePath(dir, "/a/b") == PagePath(dir, "/a-b")
  {
    assert PageKey("/a/b") == "-a-b" by {
      assert |PageKey("/a/b")| == 4;
    }
    assert PageKey("/a-b") == "-a-b" by {
      assert |PageKey("/a-b")| == 4;
    }
  }

  /** `flush(url)`'s two candidates are exactly the files `get` fills for the request URIs
      `<subfolder><route>` and `<subfolder>index.php/<route>`, with or without a trailing
      slash, where the route is `url` without its leading slash. */
  lemma FlushCandidatesAreCachedPages(dir: string, subfolder: string, url: string)
    requires var route := StripLeadingSlash(url); |route| > 0 && route[|route| - 1] != '/'
    ensures var route := StripLeadingSlash(url);
      && PagePath(dir, subfolder + route) == RouteFile(dir, subfolder, route)
      && PagePath(dir, subfolder + route + "/") == RouteFile(dir, subfolder, route)
      && PagePath(dir, subfolder + "index.php/" + route) == ControllerFile(dir, subfolder, route)
      && PagePath(dir, subfolder + "index.php/" + route + "/") == ControllerFile(dir, subfolder, route)
      && FlushCandidates(dir, subfolder, url)
         == {PagePath(dir, subfolder + route), PagePath(dir, subfolder + "index.php/" + route)}
  {
    var route := StripLeadingSlash(url);
    assert url != "/";
    var plain := subfolder + route;
    var front := subfolder + "index.php/" + route;
    assert plain[|plain| - 1] == route[|route| - 1];
    assert front[|front| - 1] == route[|route| - 1];
    assert StripTrailingSlash(plain) == plain;
    assert StripTrailingSlash(front) == front;
    assert StripTrailingSlash(plain + "/") == plain;
    assert StripTrailingSlash(front + "/") == front;
  }

  /** Appending the slash-free `index.php` commutes with the slash encoding. */
  lemma EncodeIndexSuffix(subfolder: string)
    ensures ReplaceSlashes(subfolder + "index.php") == ReplaceSlashes(subfolder) + "index.php"
  {
    ReplaceSlashesConcat(subfolder, "index.php");
    ReplaceSlashesKeepsSlashFree("index.php");
  }

  /** `flush('/')`'s two candidates are the files `get` fills for the site's index, requested
      as `<subfolder>`, `<subfolder>index.php` or `<subfolder>index.php/`, when the
      subfolder setting ends in `/` as the framework's configuration writes it. */
  lemma FlushRootCandidatesAreCachedIndex(dir: string, subfolder: string)
    requires |subfolder| > 0 && subfolder[|subfolder| - 1] == '/'
    ensures PagePath(dir, subfolder) == BareIndexFile(dir, subfolder)
    ensures PagePath(dir, subfolder + "index.php") == IndexFile(dir, subfolder)
    ensures PagePath(dir, subfolder + "index.php/") == IndexFile(dir, subfolder)
    ensures FlushCandidates(dir, subfolder, "/")
            == {PagePath(dir, subfolder), PagePath(dir, subfolder + "index.php")}
  {
    assert StripTrailingSlash(subfolder) == DropLast(subfolder);
    var index := subfolder + "index.php";
    assert index[|index| - 1] == 'p';
    assert StripTrailingSlash(index) == index;
    assert StripTrailingSlash(index + "/") == index;
    EncodeIndexSuffix(subfolder);
    var encoded := ReplaceSlashes(subfolder);
    assert PageKey(index) == encoded + "index.php";
    assert dir + (encoded + "index.php") + ".html" == dir + encoded + "index.php.html";
  }
}
