/** Which files each flush operation of the front cache removes, as sets of paths over the
    filesystem it finds, and what those sets guarantee. */
module FlushRules {
  import opened Strings
  import opened FileStore
  import opened CachePaths

  /** The directory scan of a recursive `flush` deletes `path` when it is a regular file
      directly in `dir` whose name starts with either prefix. */
  predicate ScanHit(dir: string, path: string, p1: string, p2: string)
    ensures ScanHit(dir, path, p1, p2) <==> InDir(dir, path) && (dir + p1 <= path || dir + p2 <= path)
  {
    InDir(dir, path) && (StartsWith(path[|dir|..], p1) || StartsWith(path[|dir|..], p2))
  }

  /** The paths among `paths` that the scan deletes. */
  function Hits(paths: set<string>, dir: string, p1: string, p2: string): set<string>
  {
    set k | k in paths && ScanHit(dir, k, p1, p2)
  }

  /** One more listed path adds itself to the hits exactly when the scan deletes it. */
  lemma HitsAddOne(done: set<string>, path: string, dir: string, p1: string, p2: string)
    ensures Hits(done + {path}, dir, p1, p2)
      == Hits(done, dir, p1, p2) + if ScanHit(dir, path, p1, p2) then {path} else {}
  {
  }

  /** Everything the scan of `dir` deletes from `files`. */
  function PrefixMatches(files: Files, dir: string, p1: string, p2: string): (hits: set<string>)
    ensures hits <= DirectFiles(files, dir)
  {
    Hits(files.Keys, dir, p1, p2)
  }

  /** The files `flush(url, recursive)` removes, in the order the code removes them: the
      candidates that exist, then (recursive, `url != "/"`) whatever the scan finds in
      what is left. */
  ghost function FlushTargets(files: Files, dir: string, subfolder: string, url: string, recursive: bool): (gone: set<string>)
    ensures gone <= files.Keys
    ensures FlushCandidates(dir, subfolder, url) * files.Keys <= gone
  {
    var removed := FlushCandidates(dir, subfolder, url) * files.Keys;
    if url == "/" || !recursive then removed
    else
      var route := StripLeadingSlash(url);
      removed + PrefixMatches(files - removed, dir, RoutePrefix(subfolder, route), ControllerPrefix(subfolder, route))
  }

  /** The two candidates' names begin with the two scan prefixes, so they are hits themselves. */
  lemma CandidatesAreHits(dir: string, subfolder: string, route: string)
    ensures ScanHit(dir, RouteFile(dir, subfolder, route), RoutePrefix(subfolder, route), ControllerPrefix(subfolder, route))
    ensures ScanHit(dir, ControllerFile(dir, subfolder, route), RoutePrefix(subfolder, route), ControllerPrefix(subfolder, route))
  {
    var p1, p2 := RoutePrefix(subfolder, route), ControllerPrefix(subfolder, route);
    NameStartsWith(dir, p1, RouteFile(dir, subfolder, route));
    NameStartsWith(dir, p2, ControllerFile(dir, subfolder, route));
  }

  /** The name of `dir + prefix + ".html"` in `dir` starts with `prefix`. */
  lemma NameStartsWith(dir: string, prefix: string, path: string)
    requires path == dir + prefix + ".html"
    ensures StartsWith(path[|dir|..], prefix)
  {
    assert path[|dir|..] == prefix + ".html";
  }

  /** Without recursion (and always for `/`), `flush` removes only its two candidates:
      those that exist, at most two files. */
  lemma NonRecursiveFlushRemovesCandidates(files: Files, dir: string, subfolder: string, url: string, recursive: bool)
    requires url == "/" || !recursive
    ensures FlushTargets(files, dir, subfolder, url, recursive) == FlushCandidates(dir, subfolder, url) * files.Keys
    ensures |FlushTargets(files, dir, subfolder, url, recursive)| <= 2
  {
    var c := FlushCandidates(dir, subfolder, url);
    FlushCandidatesAreTwo(dir, subfolder, url);
    assert |c * files.Keys| + |c - files.Keys| == |c|;
  }

  /** A recursive `flush` of a route removes exactly the regular files directly in the cache
      directory whose names start with either prefix: the candidates are among them, and
      nothing is removed twice. */
  lemma RecursiveFlushIsPrefixScan(files: Files, dir: string, subfolder: string, url: string)
    requires url != "/"
    ensures var route := StripLeadingSlash(url);
      FlushTargets(files, dir, subfolder, url, true)
      == PrefixMatches(files, dir, RoutePrefix(subfolder, route), ControllerPrefix(subfolder, route))
  {
    var route := StripLeadingSlash(url);
    var p1, p2 := RoutePrefix(subfolder, route), ControllerPrefix(subfolder, route);
    var removed := FlushCandidates(dir, subfolder, url) * files.Keys;
    CandidatesAreHits(dir, subfolder, route);
    assert removed <= PrefixMatches(files, dir, p1, p2);
    assert PrefixMatches(files - removed, dir, p1, p2) == PrefixMatches(files, dir, p1, p2) - removed;
  }

  /** What `flush` removes lies directly in the cache directory. */
  lemma FlushTargetsAreDirect(files: Files, dir: string, subfolder: string, url: string, recursive: bool)
    ensures FlushTargets(files, dir, subfolder, url, recursive) <= DirectFiles(files, dir)
  {
    var removed := FlushCandidates(dir, subfolder, url) * files.Keys;
    assert removed <= DirectFiles(files, dir);
  }

  /** `flush` never touches a fragment under `parts/` (nor any other sub-directory). */
  lemma FlushKeepsParts(files: Files, dir: string, subfolder: string, url: string, recursive: bool, path: string)
    requires path in files && dir + "parts/" <= path
    ensures path !in FlushTargets(files, dir, subfolder, url, recursive)
  {
    FlushTargetsAreDirect(files, dir, subfolder, url, recursive);
    SubdirectoryIsNotDirect(dir, "parts", path);
  }

  /** Flushing the same URL again right away removes nothing, so it returns 0. */
  lemma FlushTwiceRemovesNothing(files: Files, dir: string, subfolder: string, url: string, recursive: bool)
    ensures FlushTargets(files - FlushTargets(files, dir, subfolder, url, recursive), dir, subfolder, url, recursive) == {}
  {
    var gone := FlushTargets(files, dir, subfolder, url, recursive);
    if url != "/" && recursive {
      RecursiveFlushIsPrefixScan(files, dir, subfolder, url);
      RecursiveFlushIsPrefixScan(files - gone, dir, subfolder, url);
    }
  }

  /** After `flush(url)` the full-page lookups of the route, with and without the front
      controller, miss until the page is captured again. */
  lemma FlushedPageIsNotServed(files: Files, dir: string, subfolder: string, url: string, recursive: bool, now: int, ttl: int)
    requires var route := StripLeadingSlash(url); |route| > 0 && route[|route| - 1] != '/'
    ensures var route := StripLeadingSlash(url);
      var left := files - FlushTargets(files, dir, subfolder, url, recursive);
      && !Fresh(left, PagePath(dir, subfolder + route), now, ttl)
      && !Fresh(left, PagePath(dir, subfolder + "index.php/" + route), now, ttl)
  {
    FlushCandidatesAreCachedPages(dir, subfolder, url);
  }

  /** A route written with a trailing `/` misses its own page, recursive or not: `get`
      caches `<subfolder><s>/` under the encoding of `<subfolder><s>`, while the flush of
      `/<s>/` looks for, and scans for names starting with, the encoding of
      `<subfolder><s>/`, one `-` longer. With subfolder `/`, the page of `/blog/` is
      `-blog.html` and the flush of `/blog/` looks for `-blog-.html`. */
  lemma TrailingSlashFlushMissesPage(files: Files, dir: string, subfolder: string, s: string, recursive: bool)
    ensures PagePath(dir, subfolder + s + "/") !in FlushTargets(files, dir, subfolder, "/" + s + "/", recursive)
  {
    var url := "/" + s + "/";
    assert url[1..] == s + "/";
    assert StripLeadingSlash(url) == s + "/";
    assert url != "/" by {
      assert |url| >= 2;
    }
    TrailingSlashPageIsNoHit(dir, subfolder, s);
    if recursive {
      RecursiveFlushIsPrefixScan(files, dir, subfolder, url);
    }
  }

  /** The page of `<subfolder><s>/` is neither flush candidate of the route `<s>/` and
      matches neither scan prefix. */
  lemma TrailingSlashPageIsNoHit(dir: string, subfolder: string, s: string)
    ensures var path, route := PagePath(dir, subfolder + s + "/"), s + "/";
      && path != RouteFile(dir, subfolder, route)
      && path != ControllerFile(dir, subfolder, route)
      && !ScanHit(dir, path, RoutePrefix(subfolder, route), ControllerPrefix(subfolder, route))
  {
    var route := s + "/";
    var path := PagePath(dir, subfolder + s + "/");
    var p1, p2 := RoutePrefix(subfolder, route), ControllerPrefix(subfolder, route);
    var n := |subfolder| + |s|;
    var name := path[|dir|..];
    PageNameEndsWithDot(dir, subfolder + s + "/", path);
    assert |name| == n + 5 && name[n] == '.';
    assert (subfolder + route)[n] == '/';
    assert p1[n] == '-';
    assert !StartsWith(name, p1);
    assert !StartsWith(name, p2);
    assert RouteFile(dir, subfolder, route)[|dir|..] == p1 + ".html";
    assert |ControllerFile(dir, subfolder, route)| == |dir| + n + 16;
  }

  /** For a URI ending in `/`, the page file's name is the key of the URI without it, then
      `.html`: its `.` sits at the position of that trailing `/`. */
  lemma PageNameEndsWithDot(dir: string, uri: string, path: string)
    requires |uri| > 0 && uri[|uri| - 1] == '/' && path == PagePath(dir, uri)
    ensures |path[|dir|..]| == |uri| + 4 && path[|dir|..][|uri| - 1] == '.'
  {
    assert path[|dir|..] == PageKey(uri) + ".html";
  }

  /** A recursive `flush(url)` removes the cached page of every request URI that extends the
      route, such as `/blog/article/x` under `/blog`. Because the match is on string prefixes
      and not on path segments, it also removes `/blog2` (see `RecursiveFlushHitsSibling`). */
  lemma RecursiveFlushRemovesExtensions(files: Files, dir: string, subfolder: string, url: string, rest: string, uri: string)
    requires url != "/" && |rest| > 0
    requires var route := StripLeadingSlash(url);
      uri == subfolder + route + rest || uri == subfolder + "index.php/" + route + rest
    requires PagePath(dir, uri) in files
    ensures PagePath(dir, uri) in FlushTargets(files, dir, subfolder, url, true)
  {
    var route := StripLeadingSlash(url);
    var p1, p2 := RoutePrefix(subfolder, route), ControllerPrefix(subfolder, route);
    RecursiveFlushIsPrefixScan(files, dir, subfolder, url);
    var path := PagePath(dir, uri);
    var name := PageKey(uri) + ".html";
    assert path[|dir|..] == name;
    var base := if uri == subfolder + route + rest then subfolder + route else subfolder + "index.php/" + route;
    assert base + rest == uri;
    assert |PageKey(uri)| >= |base|;
    assert ReplaceSlashes(base) <= name by {
      forall i | 0 <= i < |base|
        ensures ReplaceSlashes(base)[i] == name[i]
      {
        assert uri[i] == base[i];
      }
    }
    assert ScanHit(dir, path, p1, p2);
  }

  /** The scan over three files, two of which match. */
  lemma ScanOfThree(files: Files, dir: string, p1: string, p2: string, a: string, b: string, c: string)
    requires files.Keys == {a, b, c}
    requires ScanHit(dir, a, p1, p2) && ScanHit(dir, b, p1, p2) && !ScanHit(dir, c, p1, p2)
    ensures PrefixMatches(files, dir, p1, p2) == {a, b}
  {
  }

  /** The names of the `/blog` instance against the prefixes of `flush('/blog')`. */
  lemma BlogExampleHits(dir: string)
    ensures var p1, p2 := RoutePrefix("", "blog"), ControllerPrefix("", "blog");
      && ScanHit(dir, dir + "blog.html", p1, p2)
      && ScanHit(dir, dir + "blog-article-x.html", p1, p2)
      && !ScanHit(dir, dir + "other.html", p1, p2)
  {
    var p1, p2 := RoutePrefix("", "blog"), ControllerPrefix("", "blog");
    assert p1 == "blog" by {
      assert "" + "blog" == "blog";
      ReplaceSlashesKeepsSlashFree("blog");
    }
    assert p2[0] == 'i' by {
      var front := "" + "index.php/" + "blog";
      assert front[0] == 'i';
    }
    var a, b, c := dir + "blog.html", dir + "blog-article-x.html", dir + "other.html";
    assert a[|dir|..] == "blog.html";
    assert b[|dir|..] == "blog-article-x.html";
    assert c[|dir|..] == "other.html";
    assert c[|dir|..][0] == 'o';
  }

  /** An instance of the documented `/blog` example: with no subfolder, a recursive
      `flush('/blog')` over the page of `/blog`, one page under it (`blog-article-x.html`)
      and an unrelated page (`other.html`) removes the first two. */
  lemma RecursiveFlushBlogExample(dir: string, e: Entry)
    ensures var files := map[dir + "blog.html" := e, dir + "blog-article-x.html" := e, dir + "other.html" := e];
      && FlushTargets(files, dir, "", "/blog", true) == {dir + "blog.html", dir + "blog-article-x.html"}
      && |FlushTargets(files, dir, "", "/blog", true)| == 2
  {
    var a, b, c := dir + "blog.html", dir + "blog-article-x.html", dir + "other.html";
    var files := map[a := e, b := e, c := e];
    assert StripLeadingSlash("/blog") == "blog";
    RecursiveFlushIsPrefixScan(files, dir, "", "/blog");
    BlogExampleHits(dir);
    ScanOfThree(files, dir, RoutePrefix("", "blog"), ControllerPrefix("", "blog"), a, b, c);
    assert a != b by {
      assert a[|dir| + 4] == '.' && b[|dir| + 4] == '-';
    }
  }

  /** Prefix matching is not segment matching: with the subfolder `/` of a site at the web
      root, `flush('/blog', true)` also removes the page cached for `/blog2`. */
  lemma RecursiveFlushHitsSibling(files: Files, dir: string)
    requires PagePath(dir, "/blog2") in files
    ensures PagePath(dir, "/blog2") in FlushTargets(files, dir, "/", "/blog", true)
  {
    assert StripLeadingSlash("/blog") == "blog";
    assert "/" + "blog" + "2" == "/blog2";
    RecursiveFlushRemovesExtensions(files, dir, "/", "/blog", "2", "/blog2");
  }

  /** The part files of the given fragment ids. */
  function PartPaths(dir: string, ids: seq<string>): set<string>
  {
    set id | id in ids :: PartPath(dir, id)
  }

  /** What `flushPart(ids)` removes: the part files of the given ids that exist. */
  function PartTargets(files: Files, dir: string, ids: seq<string>): (gone: set<string>)
    ensures gone <= files.Keys
    ensures forall id :: id in ids && PartPath(dir, id) in files ==> PartPath(dir, id) in gone
  {
    PartPaths(dir, ids) * files.Keys
  }

  /** One more id adds its own part file and nothing else. */
  lemma PartPathsSnoc(dir: string, ids: seq<string>, id: string)
    ensures PartPaths(dir, ids + [id]) == PartPaths(dir, ids) + {PartPath(dir, id)}
  {
    assert forall x :: x in ids + [id] <==> x in ids || x == id;
  }

  /** One more id adds one to the count exactly when its part file exists and was not
      already named. */
  lemma PartTargetsStep(files: Files, dir: string, ids: seq<string>, id: string)
    ensures var path := PartPath(dir, id);
      |PartTargets(files, dir, ids + [id])|
      == |PartTargets(files, dir, ids)| + if path in files && path !in PartPaths(dir, ids) then 1 else 0
  {
    var path := PartPath(dir, id);
    PartPathsSnoc(dir, ids, id);
    if path in files && path !in PartPaths(dir, ids) {
      assert PartTargets(files, dir, ids + [id]) == PartTargets(files, dir, ids) + {path};
    } else {
      assert PartTargets(files, dir, ids + [id]) == PartTargets(files, dir, ids);
    }
  }

  /** At most one part file per id. */
  lemma {:induction false} PartPathsAtMostIds(dir: string, ids: seq<string>)
    ensures |PartPaths(dir, ids)| <= |ids|
  {
    if ids != [] {
      var init := ids[..|ids| - 1];
      assert init + [ids[|ids| - 1]] == ids;
      PartPathsSnoc(dir, init, ids[|ids| - 1]);
      PartPathsAtMostIds(dir, init);
    }
  }

  /** `flushPart` returns at most the number of ids it was given. */
  lemma FlushPartCountAtMostIds(files: Files, dir: string, ids: seq<string>)
    ensures |PartTargets(files, dir, ids)| <= |ids|
  {
    var all := PartPaths(dir, ids);
    PartPathsAtMostIds(dir, ids);
    assert |all * files.Keys| + |all - files.Keys| == |all|;
  }

  /** Naming an id twice removes, and counts, its file once. */
  lemma FlushPartDuplicateCountsOnce(files: Files, dir: string, ids: seq<string>, j: nat)
    requires j < |ids|
    ensures PartTargets(files, dir, ids + [ids[j]]) == PartTargets(files, dir, ids)
  {
    PartPathsSnoc(dir, ids, ids[j]);
  }

  /** Repeating the same `flushPart` call removes nothing, so it returns 0. */
  lemma FlushPartTwiceRemovesNothing(files: Files, dir: string, ids: seq<string>)
    ensures PartTargets(files - PartTargets(files, dir, ids), dir, ids) == {}
  {
  }

  /** After `flushPart(ids)` the fragment lookup of every given id misses. */
  lemma FlushedPartIsNotServed(files: Files, dir: string, ids: seq<string>, id: string, now: int, ttl: int)
    requires id in ids
    ensures !Fresh(files - PartTargets(files, dir, ids), PartPath(dir, id), now, ttl)
  {
  }

  /** `flushPart` never touches a full-page file of the cache directory. */
  lemma FlushPartKeepsPages(files: Files, dir: string, ids: seq<string>, path: string)
    requires InDir(dir, path)
    ensures path !in PartTargets(files, dir, ids)
  {
  }

  /** With only fragment `a` on disk, `flushPart(['a', 'b'])` removes one file, and the
      same call again removes none. */
  lemma FlushPartExample(dir: string, e: Entry)
    ensures var files := map[PartPath(dir, "a") := e];
      && PartTargets(files, dir, ["a", "b"]) == {PartPath(dir, "a")}
      && |PartTargets(files, dir, ["a", "b"])| == 1
      && PartTargets(files - PartTargets(files, dir, ["a", "b"]), dir, ["a", "b"]) == {}
  {
    var files := map[PartPath(dir, "a") := e];
    assert PartPaths(dir, ["a", "b"]) == {PartPath(dir, "a"), PartPath(dir, "b")} by {
      PartPathsSnoc(dir, ["a"], "b");
      assert ["a"] + ["b"] == ["a", "b"];
    }
    if PartPath(dir, "b") == PartPath(dir, "a") {
      PartPathInjective(dir, "b", "a");
    }
  }

  /** What `flushAllFull` leaves: everything but the regular files directly in `dir`. */
  function FullFlushed(files: Files, dir: string): (left: Files)
    ensures left.Keys <= files.Keys
    ensures forall k :: k in left ==> left[k] == files[k]
  {
    files - DirectFiles(files, dir)
  }

  /** What `flushAllParts` leaves: everything but the regular files directly in `parts/`. */
  function PartsFlushed(files: Files, dir: string): (left: Files)
    ensures left.Keys <= files.Keys
    ensures forall k :: k in left ==> left[k] == files[k]
  {
    files - DirectFiles(files, dir + "parts/")
  }

  /** What `flushAll` leaves: `flushAllFull` followed by `flushAllParts`. */
  function AllFlushed(files: Files, dir: string): (left: Files)
    ensures left.Keys <= files.Keys
    ensures forall k :: k in left ==> left[k] == files[k]
  {
    PartsFlushed(FullFlushed(files, dir), dir)
  }

  /** `flushAllFull` removes every regular file directly in the cache directory, whatever its
      name, and keeps the fragments under `parts/` and every other file as they were. */
  lemma FlushAllFullEffect(files: Files, dir: string)
    ensures forall k :: k in FullFlushed(files, dir) <==> k in files && !InDir(dir, k)
    ensures forall k :: k in FullFlushed(files, dir) ==> FullFlushed(files, dir)[k] == files[k]
    ensures forall k :: k in files && dir + "parts/" <= k ==> k in FullFlushed(files, dir)
  {
    forall k | k in files && dir + "parts/" <= k
      ensures k in FullFlushed(files, dir)
    {
      assert dir + "parts" + "/" == dir + "parts/";
      SubdirectoryIsNotDirect(dir, "parts", k);
    }
  }

  /** `flushAllParts` removes every regular file directly in `parts/` and keeps the full
      pages of the cache directory and every other file as they were. */
  lemma FlushAllPartsEffect(files: Files, dir: string)
    ensures forall k :: k in PartsFlushed(files, dir) <==> k in files && !InDir(dir + "parts/", k)
    ensures forall k :: k in PartsFlushed(files, dir) ==> PartsFlushed(files, dir)[k] == files[k]
    ensures forall k :: k in files && InDir(dir, k) ==> k in PartsFlushed(files, dir)
  {
    forall k | k in files && InDir(dir, k)
      ensures k in PartsFlushed(files, dir)
    {
      if InDir(dir + "parts/", k) {
        assert dir + "parts" + "/" == dir + "parts/";
        SubdirectoryIsNotDirect(dir, "parts", k);
      }
    }
  }

  /** After `flushAll` no full page and no fragment is left, and files elsewhere (deeper
      sub-directories, other directories) are as they were. */
  lemma FlushAllEffect(files: Files, dir: string)
    ensures forall k :: k in AllFlushed(files, dir) <==> k in files && !InDir(dir, k) && !InDir(dir + "parts/", k)
    ensures forall k :: k in AllFlushed(files, dir) ==> AllFlushed(files, dir)[k] == files[k]
  {
  }

  /** Each flush-all operation, applied a second time, changes nothing. */
  lemma FlushAllIdempotent(files: Files, dir: string)
    ensures FullFlushed(FullFlushed(files, dir), dir) == FullFlushed(files, dir)
    ensures PartsFlushed(PartsFlushed(files, dir), dir) == PartsFlushed(files, dir)
    ensures AllFlushed(AllFlushed(files, dir), dir) == AllFlushed(files, dir)
  {
    var full := FullFlushed(files, dir);
    assert DirectFiles(full, dir) == {};
    var parts := PartsFlushed(files, dir);
    assert DirectFiles(parts, dir + "parts/") == {};
    var all := AllFlushed(files, dir);
    assert DirectFiles(all, dir) == {};
    assert FullFlushed(all, dir) == all;
    assert DirectFiles(all, dir + "parts/") == {};
  }
}
