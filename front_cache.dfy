/** The front cache object itself: the cache directory, the target file the last operation
    selected, and the output buffer of a capture, over the filesystem in `FileStore`. */
module FrontCache {
  import opened Strings
  import opened FileStore
  import opened CachePaths
  import opened FlushRules

  datatype Option<T> = None | Some(value: T)

  /** What a full-page lookup tells the request handler: serve this body and stop, or go on
      and render the page. */
  datatype PageResult = Serve(body: string) | Proceed

  /** The ids `flushPart` accepts: one id, or a list of them. */
  datatype PartIds = One(id: string) | Many(ids: seq<string>)
  {
    function Ids(): seq<string>
    {
      match this
      case One(id) => [id]
      case Many(ids) => ids
    }
  }

  /** The cache directory a new cache uses: the given path, or else the configured
      `CACHE_PATH` + `frontend/`, or else `SITE_PATH` + `protected/cache/frontend/`. */
  function DefaultDirectory(path: string, cachePath: Option<string>, sitePath: string): (dir: string)
    ensures path != "" ==> dir == path
    ensures path == "" ==> |dir| >= 9 && dir[|dir| - 9..] == "frontend/"
    ensures path == "" && cachePath.Some? ==> cachePath.value <= dir && |dir| == |cachePath.value| + 9
    ensures path == "" && cachePath.None? ==> sitePath <= dir
  {
    if path != "" then path
    else match cachePath
      case Some(p) => p + "frontend/"
      case None => sitePath + "protected/cache/frontend/"
  }

  /** The text a capture holds: the buffer when one was started, else nothing. */
  function Captured(capturing: bool, buffer: string): (text: string)
    ensures capturing ==> text == buffer
    ensures !capturing ==> text == ""
  {
    if capturing then buffer else ""
  }

  class DooFrontCache {
    /** The cache root; full pages live directly in it, fragments under `parts/`. */
    var directory: string
    /** The file the last `get`, `getPart`, `start` or `testPart` selected. */
    var cachefile: string
    /** Output captured since `start`, while `capturing` holds. */
    var buffer: string
    var capturing: bool

    constructor (cachePath: Option<string>, sitePath: string, path: string := "")
      ensures directory == DefaultDirectory(path, cachePath, sitePath)
      ensures cachefile == "" && buffer == "" && !capturing
    {
      directory := DefaultDirectory(path, cachePath, sitePath);
      cachefile := "";
      buffer := "";
      capturing := false;
    }

    method SetPath(path: string)
      modifies this
      ensures directory == path
      ensures cachefile == old(cachefile) && buffer == old(buffer) && capturing == old(capturing)
    {
      directory := path;
    }

    /** Full-page lookup for the request URI `uri` at time `now`: selects the page's file
        and, when it is fresh, answers with its content in place of the page. */
    method Get(disk: Disk, uri: string, now: int, ttl: int := 60) returns (r: PageResult)
      requires |uri| > 0
      modifies this
      ensures cachefile == PagePath(directory, uri)
      ensures r.Serve? <==> Fresh(disk.files, cachefile, now, ttl)
      ensures r.Serve? ==> r.body == disk.files[cachefile].content
      ensures directory == old(directory) && buffer == old(buffer) && capturing == old(capturing)
    {
      var key := ReplaceSlashes(StripTrailingSlash(uri));
      cachefile := directory + key + ".html";
      if cachefile in disk.files && now - ttl < disk.files[cachefile].mtime {
        r := Serve(disk.files[cachefile].content);
      } else {
        r := Proceed;
      }
    }

    /** Fragment lookup: selects `parts/<id>.html` and, when it is fresh, outputs it (into the
        capture if one is running) and answers true. `body` is the text it output. */
    method GetPart(disk: Disk, id: string, now: int, ttl: int := 60) returns (hit: bool, body: string)
      modifies this
      ensures cachefile == PartPath(directory, id)
      ensures hit <==> Fresh(disk.files, cachefile, now, ttl)
      ensures body == if hit then disk.files[cachefile].content else ""
      ensures buffer == if hit && capturing then old(buffer) + body else old(buffer)
      ensures directory == old(directory) && capturing == old(capturing)
    {
      cachefile := directory + "parts/" + id + ".html";
      hit := cachefile in disk.files && now - ttl < disk.files[cachefile].mtime;
      body := "";
      if hit {
        body := disk.files[cachefile].content;
        Emit(body);
      }
    }

    /** Starts capturing output; a non-empty id selects `<id>.html` as the target, the empty
        id keeps the target the last lookup selected. */
    method Start(id: string := "")
      modifies this
      ensures cachefile == if id != "" then IdPath(directory, id) else old(cachefile)
      ensures capturing && buffer == ""
      ensures directory == old(directory)
    {
      if id != "" {
        cachefile := directory + id + ".html";
      }
      buffer := "";
      capturing := true;
    }

    /** Output of the page being rendered: kept in the buffer while capturing; otherwise it
        goes straight to the client, which this model does not record. */
    method Emit(text: string)
      modifies this
      ensures buffer == if capturing then old(buffer) + text else old(buffer)
      ensures directory == old(directory) && cachefile == old(cachefile) && capturing == old(capturing)
    {
      if capturing {
        buffer := buffer + text;
      }
    }

    /** Ends the capture at time `now`: writes exactly the captured text to the target file,
        creating or overwriting it, and hands the same text on to the client (`flushed`).
        No other file changes. */
    method End(disk: Disk, now: int) returns (flushed: string)
      modifies this, disk
      ensures disk.files == old(disk.files)[cachefile := Entry(Captured(old(capturing), old(buffer)), now)]
      ensures flushed == Captured(old(capturing), old(buffer))
      ensures !capturing && buffer == ""
      ensures directory == old(directory) && cachefile == old(cachefile)
    {
      var content := if capturing then buffer else "";
      disk.files := disk.files[cachefile := Entry(content, now)];
      flushed := content;
      buffer := "";
      capturing := false;
    }

    /** Freshness check of `<id>.html` (the file `start(id)` writes) with no output; the empty
        id answers false and selects nothing. */
    method TestPart(disk: Disk, id: string, now: int, ttl: int := 60) returns (isFresh: bool)
      modifies this
      ensures id == "" ==> !isFresh && cachefile == old(cachefile)
      ensures id != "" ==> cachefile == IdPath(directory, id) && (isFresh <==> Fresh(disk.files, cachefile, now, ttl))
      ensures directory == old(directory) && buffer == old(buffer) && capturing == old(capturing)
    {
      if id != "" {
        cachefile := directory + id + ".html";
        return cachefile in disk.files && now - ttl < disk.files[cachefile].mtime;
      }
      return false;
    }

    /** Removes the cached copies of the routed URL `url` (`/` for the site's index) and,
        when `recursive`, every full page whose name starts like them; answers how many
        files it removed. `subfolder` is the configured `SUBFOLDER`. */
    method Flush(disk: Disk, subfolder: string, url: string, recursive: bool := false) returns (deleted: nat)
      modifies disk
      ensures disk.files == old(disk.files) - FlushTargets(old(disk.files), directory, subfolder, url, recursive)
      ensures deleted == |FlushTargets(old(disk.files), directory, subfolder, url, recursive)|
    {
      var route := StripLeadingSlash(url);
      var f1, f2 := RouteFile(directory, subfolder, route), ControllerFile(directory, subfolder, route);
      if url == "/" {
        f1, f2 := IndexFile(directory, subfolder), BareIndexFile(directory, subfolder);
      }
      ghost var before := disk.files;
      ghost var removed := FlushCandidates(directory, subfolder, url) * before.Keys;
      FlushCandidatesAreTwo(directory, subfolder, url);
      assert FlushCandidates(directory, subfolder, url) == {f1, f2};
      deleted := UnlinkBoth(disk, f1, f2);
      RemoveOnlyPresent(before, {f1, f2});
      if url == "/" || !recursive {
        return;
      }
      ghost var rest := disk.files;
      var found := UnlinkPrefixed(disk, directory, RoutePrefix(subfolder, route), ControllerPrefix(subfolder, route));
      ghost var scanned := PrefixMatches(rest, directory, RoutePrefix(subfolder, route), ControllerPrefix(subfolder, route));
      RemoveInSteps(before, removed, scanned);
      DisjointCount(removed, scanned);
      deleted := deleted + found;
    }

    /** Removes the fragment files of the given ids that exist; answers how many it removed. */
    method FlushPart(disk: Disk, which: PartIds) returns (deleted: nat)
      modifies disk
      ensures disk.files == old(disk.files) - PartTargets(old(disk.files), directory, which.Ids())
      ensures deleted == |PartTargets(old(disk.files), directory, which.Ids())|
    {
      RemoveOnlyPresent(disk.files, PartPaths(directory, which.Ids()));
      deleted := 0;
      match which {
        case One(id) =>
          var path := directory + "parts/" + id + ".html";
          PartPathsSnoc(directory, [], id);
          assert [] + [id] == [id];
          var gone := UnlinkIfExists(disk, path);
          if gone {
            assert PartTargets(old(disk.files), directory, [id]) == {path};
            deleted := 1;
          } else {
            assert PartTargets(old(disk.files), directory, [id]) == {};
          }
        case Many(ids) =>
          deleted := UnlinkParts(disk, directory, ids);
      }
    }

    /** Removes every full page and every fragment. */
    method FlushAll(disk: Disk)
      modifies disk
      ensures disk.files == AllFlushed(old(disk.files), directory)
    {
      FlushAllFull(disk);
      FlushAllParts(disk);
    }

    /** Removes every regular file directly in the cache directory. */
    method FlushAllFull(disk: Disk)
      modifies disk
      ensures disk.files == FullFlushed(old(disk.files), directory)
    {
      UnlinkDirectFiles(disk, directory);
    }

    /** Removes every regular file directly in `parts/`. */
    method FlushAllParts(disk: Disk)
      modifies disk
      ensures disk.files == PartsFlushed(old(disk.files), directory)
    {
      UnlinkDirectFiles(disk, directory + "parts/");
    }
  }

  /** The `foreach` loop of `flushPart`: removes the part file of each id in turn, counting
      the files that were there. */
  method UnlinkParts(disk: Disk, dir: string, ids: seq<string>) returns (count: nat)
    modifies disk
    ensures disk.files == old(disk.files) - PartPaths(dir, ids)
    ensures count == |PartTargets(old(disk.files), dir, ids)|
  {
    ghost var before := disk.files;
    count := 0;
    for i := 0 to |ids|
      invariant disk.files == before - PartPaths(dir, ids[..i])
      invariant count == |PartTargets(before, dir, ids[..i])|
    {
      var path := dir + "parts/" + ids[i] + ".html";
      assert ids[..i + 1] == ids[..i] + [ids[i]];
      PartPathsSnoc(dir, ids[..i], ids[i]);
      PartTargetsStep(before, dir, ids[..i], ids[i]);
      RemoveInSteps(before, PartPaths(dir, ids[..i]), {path});
      var gone := UnlinkIfExists(disk, path);
      if gone {
        count := count + 1;
      }
    }
    assert ids[..|ids|] == ids;
  }

  /** `if (file_exists($path)) { unlink($path); ... }`: removes the file when there is one
      and says whether it did. */
  method UnlinkIfExists(disk: Disk, path: string) returns (gone: bool)
    modifies disk
    ensures gone == (path in old(disk.files))
    ensures disk.files == old(disk.files) - {path}
  {
    gone := path in disk.files;
    if gone {
      disk.files := disk.files - {path};
    }
  }

  /** The two `file_exists`/`unlink` steps of `flush`: removes whichever of two distinct
      files exist and counts them. */
  method UnlinkBoth(disk: Disk, f1: string, f2: string) returns (count: nat)
    requires f1 != f2
    modifies disk
    ensures disk.files == old(disk.files) - {f1, f2}
    ensures count == |{f1, f2} * old(disk.files).Keys|
  {
    ghost var before := disk.files;
    var gone1 := UnlinkIfExists(disk, f1);
    var gone2 := UnlinkIfExists(disk, f2);
    count := (if gone1 then 1 else 0) + (if gone2 then 1 else 0);
    PairPresent(before.Keys, f1, f2);
    RemoveInSteps(before, {f1}, {f2});
    assert {f1} + {f2} == {f1, f2};
  }

  /** How many of two distinct paths a set of paths holds. */
  lemma PairPresent(keys: set<string>, f1: string, f2: string)
    requires f1 != f2
    ensures |{f1, f2} * keys| == (if f1 in keys then 1 else 0) + (if f2 in keys then 1 else 0)
  {
    if f1 in keys && f2 in keys {
      assert {f1, f2} * keys == {f1, f2};
    } else if f1 in keys {
      assert {f1, f2} * keys == {f1};
    } else if f2 in keys {
      assert {f1, f2} * keys == {f2};
    } else {
      assert {f1, f2} * keys == {};
    }
  }

  /** The `readdir` loop of a recursive flush: lists `dir` once and unlinks each regular file
      whose name starts with `p1` or `p2`, counting them. The listing is a set; the order in
      which the directory yields names is not modelled. */
  method UnlinkPrefixed(disk: Disk, dir: string, p1: string, p2: string) returns (count: nat)
    modifies disk
    ensures disk.files == old(disk.files) - PrefixMatches(old(disk.files), dir, p1, p2)
    ensures count == |PrefixMatches(old(disk.files), dir, p1, p2)|
  {
    ghost var before := disk.files;
    var listing := DirectFiles(disk.files, dir);
    ghost var listed := listing;
    count := 0;
    while listing != {}
      invariant listing <= listed
      invariant listed == DirectFiles(before, dir)
      invariant disk.files == before - Hits(listed - listing, dir, p1, p2)
      invariant count == |Hits(listed - listing, dir, p1, p2)|
      decreases listing
    {
      var path :| path in listing;
      ghost var done := listed - listing;
      listing := listing - {path};
      assert listed - listing == done + {path};
      HitsAddOne(done, path, dir, p1, p2);
      if path in disk.files && (StartsWith(path[|dir|..], p1) || StartsWith(path[|dir|..], p2)) {
        disk.files := disk.files - {path};
        count := count + 1;
      }
    }
    assert listed - listing == listed;
    assert Hits(listed, dir, p1, p2) == PrefixMatches(before, dir, p1, p2);
  }

  /** The `readdir` loop of `flushAllFull` and `flushAllParts`: lists `dir` once and unlinks
      every regular file in it. */
  method UnlinkDirectFiles(disk: Disk, dir: string)
    modifies disk
    ensures disk.files == old(disk.files) - DirectFiles(old(disk.files), dir)
  {
    ghost var before := disk.files;
    var listing := DirectFiles(disk.files, dir);
    ghost var listed := listing;
    while listing != {}
      invariant listing <= listed
      invariant disk.files == before - (listed - listing)
      decreases listing
    {
      var path :| path in listing;
      listing := listing - {path};
      if path in disk.files {
        disk.files := disk.files - {path};
      }
    }
  }

  /** A page is rendered once (the lookup at time `t` misses or not, the page is captured
      and stored at `t`), and a later request for the same URI at `now` is served exactly
      what was captured while the copy is younger than `ttl` seconds, and renders again
      otherwise. */
  method CaptureThenServe(cache: DooFrontCache, disk: Disk, uri: string, page: string, t: int, now: int, ttl: int)
    returns (r: PageResult)
    requires |uri| > 0
    modifies cache, disk
    ensures r == if now - t < ttl then Serve(page) else Proceed
  {
    var _ := cache.Get(disk, uri, t, ttl);
    cache.Start();
    cache.Emit(page);
    var _ := cache.End(disk, t);
    r := cache.Get(disk, uri, now, ttl);
  }

  /** A fragment captured with `start(id)` at time `t` is reported fresh by `testPart(id)`
      exactly while it is younger than `ttl` seconds, and its file holds the fragment. */
  method CaptureThenTestPart(cache: DooFrontCache, disk: Disk, id: string, fragment: string, t: int, now: int, ttl: int)
    returns (isFresh: bool)
    requires id != ""
    modifies cache, disk
    ensures isFresh <==> now - t < ttl
    ensures IdPath(cache.directory, id) in disk.files
    ensures disk.files[IdPath(cache.directory, id)].content == fragment
  {
    cache.Start(id);
    cache.Emit(fragment);
    var _ := cache.End(disk, t);
    isFresh := cache.TestPart(disk, id, now, ttl);
  }
}
