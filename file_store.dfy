/** The part of the filesystem the front cache works against: regular files keyed by full path. */
module FileStore {

  /** One regular file: the text written to it and its modification time in seconds,
      the value `filemtime` reports. */
  datatype Entry = Entry(content: string, mtime: int)

  type Files = map<string, Entry>

  /** The filesystem, which the cache changes in place (`fopen`/`fwrite`, `unlink`).
      Only regular files are recorded; a directory exists as the common prefix of the
      paths under it. */
  class Disk {
    var files: Files

    constructor (initial: Files)
      ensures files == initial
    {
      files := initial;
    }
  }

  /** `file_exists($path) && $now - $ttl < filemtime($path)`: the one freshness test
      every read path of the cache uses. */
  predicate Fresh(files: Files, path: string, now: int, ttl: int)
    ensures Fresh(files, path, now, ttl) <==> path in files && now - files[path].mtime < ttl
  {
    path in files && now - ttl < files[path].mtime
  }

  /** `path` is a regular file directly inside the directory `dir` (written with its
      trailing `/`): what `readdir($dir)` lists and `is_file($dir.$name)` accepts. */
  predicate InDir(dir: string, path: string)
  {
    |dir| < |path| && dir <= path && '/' !in path[|dir|..]
  }

  /** A path is directly in `dir` exactly when it is `dir` followed by a non-empty name
      without `/`: the names `readdir` yields for regular files. */
  lemma InDirMeansName(dir: string, path: string)
    ensures InDir(dir, path) <==> exists name :: path == dir + name && name != [] && '/' !in name
  {
    if InDir(dir, path) {
      assert path == dir + path[|dir|..];
    }
  }

  /** The regular files directly inside `dir`. */
  function DirectFiles(files: Files, dir: string): (listed: set<string>)
    ensures listed <= files.Keys
    ensures forall k :: k in listed <==> k in files && InDir(dir, k)
  {
    set k | k in files && InDir(dir, k)
  }

  /** A file just written at time `t` is fresh at `now` exactly when `now - t < ttl`, whatever
      was stored at that path before. */
  lemma FreshAfterWrite(files: Files, path: string, content: string, t: int, now: int, ttl: int)
    ensures Fresh(files[path := Entry(content, t)], path, now, ttl) <==> now - t < ttl
  {
  }

  /** A path under the sub-directory `dir + name + "/"` is never directly in `dir`. */
  lemma SubdirectoryIsNotDirect(dir: string, name: string, path: string)
    requires dir + name + "/" <= path
    ensures !InDir(dir, path)
  {
    assert path[|dir| + |name|] == (dir + name + "/")[|dir| + |name|] == '/';
    assert path[|dir|..][|name|] == '/';
  }

  /** Removing paths that are not there changes nothing. */
  lemma RemoveOnlyPresent(files: Files, gone: set<string>)
    ensures files - gone == files - (gone * files.Keys)
  {
  }

  /** Removing one set of paths and then another removes their union. */
  lemma RemoveInSteps(files: Files, first: set<string>, second: set<string>)
    ensures files - first - second == files - (first + second)
  {
  }

  /** The files removed by two steps, the second working on what the first left. */
  lemma DisjointCount(first: set<string>, second: set<string>)
    requires first !! second
    ensures |first + second| == |first| + |second|
  {
  }
}
