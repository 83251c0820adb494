# DooFrontCache in Dafny

A model of `DooFrontCache`, the front-end (page output) cache of the DooPHP framework, with
proofs about it. The cache maps a request URI or a fragment id to a file under a cache root
directory. It serves a stored copy while the copy's modification time is within a
caller-chosen number of seconds of the current time. It captures rendered output into a file.
It deletes cached files by routed URL (optionally every page under it, by name prefix), by
fragment id, or all of them.

Modules, one per layer of the class:

- `Strings` (`strings.dfy`): the PHP string built-ins the class uses to build file names:
  `str_replace('/', '-', …)`, the one-trailing-slash and one-leading-slash strips,
  `substr($s, 0, strlen($s)-1)` and `strpos(…) === 0`.
- `FileStore` (`file_store.dfy`): the filesystem. `Disk` is a class whose `files` field maps
  full paths to an `Entry` (content and integer modification time); the cache changes it in
  place, as PHP changes the real disk. It also gives the freshness test `Fresh` and "regular
  file directly in a directory" (`InDir`, `DirectFiles`).
- `CachePaths` (`cache_paths.dfy`): every file name the class derives: page, fragment and
  capture targets, and the two files `flush` tries, as pure functions, with lemmas relating
  them.
- `FlushRules` (`flush_rules.dfy`): the set of files each flush operation removes, as pure
  functions of the filesystem it finds, with proofs of the properties those sets have.
- `FrontCache` (`front_cache.dfy`): the class `DooFrontCache` with fields `directory`,
  `cachefile`, and an output buffer (`buffer`, `capturing`). It has one method per PHP method,
  plus `Emit`, which stands for output written while a capture may be running (the page
  being rendered, and what `getPart`'s `include` echoes).
  The `readdir` and `foreach` loops of the flush operations are `while`/`for` loops with
  invariants. Each method's postcondition ties the new disk to the pure sets of `FlushRules`.

Inputs the PHP code takes from the environment are parameters. `time()` is `now`.
`$_SERVER['REQUEST_URI']` is `uri`. `Doo::conf()->SUBFOLDER` is `subfolder`. The
constructor's `CACHE_PATH` / `SITE_PATH` are `cachePath` / `sitePath`. The PHP default
arguments are kept as Dafny default values: the constructor's `path := ""`, `ttl := 60`,
`id := ""`, `recursive := false`. Because a defaulted parameter comes last, the constructor
takes `cachePath` and `sitePath` first and `path` last.

Behaviour of the code worth knowing:

- The full-page key strips only one trailing `/`. A leading `/` is not stripped; like every
  other `/`, it becomes `-`, so `/blog` is cached as `-blog.html`.
- `testPart(id)` checks `<root>/<id>.html`, the file `start(id)` writes. It does not check
  `<root>/parts/<id>.html`, the file `getPart(id)` reads and `flushPart(id)` removes
  (`CachePaths.TestPartMissesPartFile`).
- Freshness is written `now - ttl < mtime`. This is the same as "`now - mtime < ttl`"
  (`FileStore.Fresh`).

More behaviour, proved here:

- `flush('/', true)` ignores `recursive`: it returns after the two index files and never scans
  (`FlushRules.NonRecursiveFlushRemovesCandidates`, which holds for `/` with either flag).
- Recursive flushing matches names by plain string prefix, not by path segment. So
  `flush('/blog', true)` also removes the page of `/blog2`
  (`FlushRules.RecursiveFlushHitsSibling`).
- `/a/b` and `/a-b` share one cache file (`CachePaths.SlashAndDashCollide`).
- Flushing a route written with a trailing `/` misses that route's own page, for every
  subfolder and route (`FlushRules.TrailingSlashFlushMissesPage`). For example, with
  subfolder `/`, `get` caches `/blog/` as `-blog.html`, but `flush('/blog/')` looks for
  `-blog-.html` and, when recursive, scans for names starting with `-blog-`.

## Model

| member | source | states |
|---|---|---|
| `Strings.ReplaceSlashes` | dooframework/cache/DooFrontCache.php:79 | The result has the input's length, each `/` becomes `-`, every other character stays, and no `/` is left. |
| `Strings.ReplaceSlashesConcat` | dooframework/cache/DooFrontCache.php:194-195 | Encoding a concatenation is the concatenation of the encodings, so the encoded name of a nested route starts with the encoded route. |
| `Strings.StripTrailingSlash` | dooframework/cache/DooFrontCache.php:75-77 | The result is a prefix of the URI. It is one character shorter exactly when the URI ends in `/`, and never shorter than that. |
| `Strings.StripLeadingSlash` | dooframework/cache/DooFrontCache.php:175-176 | The result is a suffix of the URL. Exactly one character is dropped when the URL starts with `/`, none otherwise. |
| `Strings.DropLast` | dooframework/cache/DooFrontCache.php:162 | The result is a prefix of the input, one character shorter, and the empty string stays empty. |
| `FileStore.Fresh` | dooframework/cache/DooFrontCache.php:82 | The freshness test `file_exists && now - ttl < mtime`, used at lines 82, 98 and 135, holds exactly when the file exists and is younger than `ttl` seconds. |
| `FileStore.InDirMeansName` | dooframework/cache/DooFrontCache.php:245-248 | A path passes the listing-and-`is_file` test of a directory exactly when it is the directory followed by a non-empty name without `/`. |
| `FileStore.DirectFiles` | dooframework/cache/DooFrontCache.php:199-201 | The regular files a directory scan visits: existing files only, and exactly those directly in the directory. |
| `FileStore.FreshAfterWrite` | dooframework/cache/DooFrontCache.php:98 | A file just written at time `t` is fresh at `now` exactly when `now - t < ttl`, whatever was stored there before. |
| `FileStore.SubdirectoryIsNotDirect` | dooframework/cache/DooFrontCache.php:246-248 | A path inside a sub-directory of `dir` is never a regular file directly in `dir`, so it is never listed and unlinked for `dir`. |
| `Strings.StartsWith` | dooframework/cache/DooFrontCache.php:201 | `strpos($s, $p) === 0` holds exactly when `p` is no longer than `s` and `s` begins with `p`; an empty `p` always matches. |
| `CachePaths.PageKey` | dooframework/cache/DooFrontCache.php:73-79 | The page key contains no `/`. It is the URI's length, minus one when the URI ends in `/`. Each of its characters is the URI's character with `/` turned into `-`. |
| `CachePaths.PagePath` | dooframework/cache/DooFrontCache.php:79 | The file `get` selects always lies directly in the cache directory. |
| `CachePaths.PartPath` | dooframework/cache/DooFrontCache.php:95 | The file `getPart` selects lies under `parts/` and never directly in the cache directory. It is directly in `parts/` exactly when the id has no `/`. |
| `CachePaths.IdPath` | dooframework/cache/DooFrontCache.php:111 | The file `start(id)` and `testPart(id)` select is directly in the cache directory exactly when the id has no `/`. |
| `CachePaths.IndexFile` | dooframework/cache/DooFrontCache.php:161 | `$f1` of `flush('/')` lies directly in the cache directory. |
| `CachePaths.BareIndexFile` | dooframework/cache/DooFrontCache.php:162 | `$f2` of `flush('/')` lies directly in the cache directory. |
| `CachePaths.RoutePrefix` | dooframework/cache/DooFrontCache.php:194 | `$oriUrl1` has no `/` and is as long as the subfolder and the route together. |
| `CachePaths.ControllerPrefix` | dooframework/cache/DooFrontCache.php:195 | `$oriUrl2` has no `/`, is ten characters longer than subfolder and route together, and has `index.php-` right after the encoded subfolder. |
| `CachePaths.RouteFile` | dooframework/cache/DooFrontCache.php:178 | `$fname` lies directly in the cache directory. |
| `CachePaths.ControllerFile` | dooframework/cache/DooFrontCache.php:179 | `$fname2` lies directly in the cache directory. |
| `CachePaths.TrailingSlashSharesPage` | dooframework/cache/DooFrontCache.php:75-79 | A URI with one trailing `/` and the same URI without it are cached in the same file. |
| `CachePaths.SlashAndDashCollide` | dooframework/cache/DooFrontCache.php:79 | The encoding is not injective: `/a/b` and `/a-b` map to the same cache file. |
| `CachePaths.TestPartMissesPartFile` | dooframework/cache/DooFrontCache.php:134 | For every id, the file `testPart` checks differs from the `parts/` file `getPart` reads. |
| `CachePaths.PartPathInjective` | dooframework/cache/DooFrontCache.php:224 | Two different fragment ids never give the same part path string. |
| `CachePaths.FlushCandidatesAreTwo` | dooframework/cache/DooFrontCache.php:160-191 | The two files `flush` tries are always two distinct files, both for `/` and for any other URL. |
| `CachePaths.FlushCandidates` | dooframework/cache/DooFrontCache.php:160-179 | The two files `flush` tries first: `$f1`/`$f2` for `/`, else `$fname`/`$fname2` of the route. Every candidate lies directly in the cache directory. |
| `CachePaths.FlushCandidatesAreCachedPages` | dooframework/cache/DooFrontCache.php:174-179 | For a non-empty route not ending in `/`, `$fname` is the file `get` fills for `<subfolder><route>` and `$fname2` the one for `<subfolder>index.php/<route>`, with or without a trailing `/`. |
| `CachePaths.FlushRootCandidatesAreCachedIndex` | dooframework/cache/DooFrontCache.php:160-162 | When the subfolder ends in `/`, `$f2` is the file `get` fills for `<subfolder>`, and `$f1` the one for `<subfolder>index.php` and `<subfolder>index.php/`. |
| `FlushRules.FlushTargets` | dooframework/cache/DooFrontCache.php:160-205 | What `flush` removes: only existing files, and always all existing candidates of lines 161-162 or 178-179. |
| `FlushRules.CandidatesAreHits` | dooframework/cache/DooFrontCache.php:194-201 | Both candidate files of a route lie directly in the directory and start with the scan prefixes, so the scan would match them too. |
| `FlushRules.NonRecursiveFlushRemovesCandidates` | dooframework/cache/DooFrontCache.php:160-191 | Without recursion, and always for `/`, `flush` removes exactly the candidates that exist: at most two files. |
| `FlushRules.ScanHit` | dooframework/cache/DooFrontCache.php:201 | The scan deletes a path exactly when it is a regular file directly in the directory and the full path starts with the directory followed by `$oriUrl1` or by `$oriUrl2`. |
| `FlushRules.PrefixMatches` | dooframework/cache/DooFrontCache.php:199-205 | What the `readdir` loop deletes: only regular files directly in the cache directory. |
| `FlushRules.RecursiveFlushIsPrefixScan` | dooframework/cache/DooFrontCache.php:193-207 | For a URL other than `/`, a recursive flush removes exactly the regular files directly in the directory whose name starts with `$oriUrl1` or `$oriUrl2`. The candidates are among them, so nothing is counted twice. |
| `FlushRules.FlushTargetsAreDirect` | dooframework/cache/DooFrontCache.php:178-201 | Everything `flush` removes lies directly in the cache directory. |
| `FlushRules.FlushKeepsParts` | dooframework/cache/DooFrontCache.php:199-205 | `flush` never removes a file under `parts/`. |
| `FlushRules.FlushTwiceRemovesNothing` | dooframework/cache/DooFrontCache.php:156-208 | Repeating a flush right away removes nothing, so it returns 0. |
| `FlushRules.FlushedPageIsNotServed` | dooframework/cache/DooFrontCache.php:178-191 | For a URL whose route (leading `/` removed) is non-empty and does not end in `/`: after `flush(url)`, the page lookups of the route, with and without `index.php/`, are not fresh. A route ending in `/` misses its page (`FlushRules.TrailingSlashFlushMissesPage`); for `/` see `CachePaths.FlushRootCandidatesAreCachedIndex`. |
| `FlushRules.TrailingSlashFlushMissesPage` | dooframework/cache/DooFrontCache.php:176-201 | For every subfolder and route `s`, `flush('/' + s + '/')`, recursive or not, never removes the file `get` caches for `<subfolder><s>/`. |
| `FlushRules.RecursiveFlushRemovesExtensions` | dooframework/cache/DooFrontCache.php:146-150 | For a URL other than `/`, a recursive flush of its route removes the cached page of every request URI that extends the route, with or without the front controller. |
| `FlushRules.RecursiveFlushBlogExample` | dooframework/cache/DooFrontCache.php:146-150 | With no subfolder, flushing `/blog` recursively over `blog.html`, `blog-article-x.html` and `other.html` removes the first two and returns 2. |
| `FlushRules.RecursiveFlushHitsSibling` | dooframework/cache/DooFrontCache.php:201 | With subfolder `/`, a recursive flush of `/blog` also removes the page cached for `/blog2`. |
| `FlushRules.PartTargets` | dooframework/cache/DooFrontCache.php:218-226 | What `flushPart` removes: only existing files, and the part file of every given id that exists. |
| `FlushRules.PartTargetsStep` | dooframework/cache/DooFrontCache.php:223-228 | One more id in `flushPart` adds one to the count exactly when its file exists and was not already named. |
| `FlushRules.FlushPartCountAtMostIds` | dooframework/cache/DooFrontCache.php:215-231 | `flushPart` returns at most the number of ids given. |
| `FlushRules.FlushPartDuplicateCountsOnce` | dooframework/cache/DooFrontCache.php:223-228 | Naming an id a second time removes and counts nothing more. |
| `FlushRules.FlushPartTwiceRemovesNothing` | dooframework/cache/DooFrontCache.php:215-231 | Repeating the same `flushPart` call removes nothing, so it returns 0. |
| `FlushRules.FlushedPartIsNotServed` | dooframework/cache/DooFrontCache.php:218-226 | After `flushPart(ids)`, the fragment lookup of every given id is not fresh. |
| `FlushRules.FlushPartKeepsPages` | dooframework/cache/DooFrontCache.php:218-225 | `flushPart` never removes a full page directly in the cache directory. |
| `FlushRules.FlushPartExample` | dooframework/cache/DooFrontCache.php:215-231 | With only fragment `a` on disk, `flushPart(['a','b'])` removes exactly `a`'s file and returns 1. The same call again returns 0. |
| `FlushRules.FullFlushed` | dooframework/cache/DooFrontCache.php:244-252 | What `flushAllFull` leaves: no new paths, and every kept file unchanged. |
| `FlushRules.PartsFlushed` | dooframework/cache/DooFrontCache.php:257-265 | What `flushAllParts` leaves: no new paths, and every kept file unchanged. |
| `FlushRules.AllFlushed` | dooframework/cache/DooFrontCache.php:236-239 | What `flushAll` leaves: no new paths, and every kept file unchanged. |
| `FlushRules.FlushAllFullEffect` | dooframework/cache/DooFrontCache.php:244-252 | `flushAllFull` leaves exactly the files that are not directly in the directory, unchanged, including every fragment under `parts/`. |
| `FlushRules.FlushAllPartsEffect` | dooframework/cache/DooFrontCache.php:257-265 | `flushAllParts` leaves exactly the files that are not directly in `parts/`, unchanged, including every full page. |
| `FlushRules.FlushAllEffect` | dooframework/cache/DooFrontCache.php:236-239 | After `flushAll`, no file is directly in the directory or in `parts/`, and every other file is unchanged. |
| `FlushRules.FlushAllIdempotent` | dooframework/cache/DooFrontCache.php:236-265 | Applying `flushAllFull`, `flushAllParts` or `flushAll` a second time changes nothing. |
| `FrontCache.DefaultDirectory` | dooframework/cache/DooFrontCache.php:54-60 | A given path is used as is. Without one, the directory ends in `frontend/`. It is `CACHE_PATH` followed by exactly those nine characters when `CACHE_PATH` is set, and lies under `SITE_PATH` otherwise. |
| `FrontCache.DooFrontCache.constructor` | dooframework/cache/DooFrontCache.php:53-62 | The directory is the given path. An empty path falls back to `CACHE_PATH` + `frontend/` when that is set, else `SITE_PATH` + `protected/cache/frontend/`. No target is selected and nothing is being captured. |
| `FrontCache.DooFrontCache.SetPath` | dooframework/cache/DooFrontCache.php:64-66 | Only the directory changes, to the given path. |
| `FrontCache.DooFrontCache.Get` | dooframework/cache/DooFrontCache.php:72-87 | The target becomes `directory + PageKey(uri) + ".html"`. The result is `Serve` with the file's content exactly when that file is fresh, and `Proceed` otherwise. |
| `FrontCache.DooFrontCache.GetPart` | dooframework/cache/DooFrontCache.php:94-103 | The target becomes `directory + "parts/" + id + ".html"`. It answers true exactly when that file is fresh, and then outputs the content, into the capture buffer when capturing. |
| `FrontCache.DooFrontCache.Start` | dooframework/cache/DooFrontCache.php:109-114 | A non-empty id retargets to `directory + id + ".html"`; the empty id keeps the previous target. An empty capture starts. |
| `FrontCache.DooFrontCache.Emit` | dooframework/cache/DooFrontCache.php:99 | Output written while capturing is appended to the capture buffer; otherwise the buffer is left alone. No other field changes. |
| `FrontCache.Captured` | dooframework/cache/DooFrontCache.php:121 | What `ob_get_contents()` yields: the buffer while capturing, and `""` when no capture is running (PHP's `false`, written as the empty string). |
| `FrontCache.DooFrontCache.End` | dooframework/cache/DooFrontCache.php:119-124 | The target file is created or overwritten with exactly the captured text, stamped `now`. No other file changes. The same text is handed on to the client, and capturing stops. |
| `FrontCache.DooFrontCache.TestPart` | dooframework/cache/DooFrontCache.php:132-138 | The empty id answers false and changes no field. Any other id targets `directory + id + ".html"` and answers whether that file is fresh. |
| `FrontCache.DooFrontCache.Flush` | dooframework/cache/DooFrontCache.php:156-208 | The disk loses exactly `FlushTargets`, and the count returned is its size. |
| `FrontCache.DooFrontCache.FlushPart` | dooframework/cache/DooFrontCache.php:215-231 | For one id or a list, the disk loses exactly the existing part files of the given ids, and the count is how many there were. |
| `FrontCache.DooFrontCache.FlushAll` | dooframework/cache/DooFrontCache.php:236-239 | The disk becomes `flushAllFull` followed by `flushAllParts` of the old disk. |
| `FrontCache.DooFrontCache.FlushAllFull` | dooframework/cache/DooFrontCache.php:244-252 | The disk loses exactly the regular files directly in the cache directory. |
| `FrontCache.DooFrontCache.FlushAllParts` | dooframework/cache/DooFrontCache.php:257-265 | The disk loses exactly the regular files directly in `parts/`. |
| `FrontCache.UnlinkIfExists` | dooframework/cache/DooFrontCache.php:182-185 | The file is gone afterwards, and it reports whether it existed. |
| `FrontCache.UnlinkBoth` | dooframework/cache/DooFrontCache.php:182-191 | Two distinct files are gone afterwards, and the count is how many of them existed. |
| `FrontCache.UnlinkPrefixed` | dooframework/cache/DooFrontCache.php:199-205 | The scan loop removes exactly the regular files directly in the directory that start with either prefix, and counts them. |
| `FrontCache.UnlinkParts` | dooframework/cache/DooFrontCache.php:223-228 | The `foreach` loop removes the part file of every id, and counts those that existed, each once. |
| `FrontCache.UnlinkDirectFiles` | dooframework/cache/DooFrontCache.php:245-251 | The listing loop removes exactly the regular files directly in the directory. |
| `FrontCache.CaptureThenServe` | dooframework/cache/DooFrontCache.php:72-124 | Round trip: a page captured and stored at `t` is served exactly as captured at `now` when `now - t < ttl`, and rendered again otherwise. |
| `FrontCache.CaptureThenTestPart` | dooframework/cache/DooFrontCache.php:109-138 | A fragment captured with `start(id)` at `t` is in its file exactly as captured. `testPart(id)` reports it fresh exactly when `now - t < ttl`. |

## Left out

- The full-page hit's `include` followed by `exit`: the model returns `Serve(body)`, which
  tells the request handler to answer with `body` and stop. The cached file is treated as
  inert text; PHP would execute any PHP code inside it. The same holds for `getPart`'s
  `include` (line 99): `GetPart` outputs the fragment's content verbatim.
- Output that reaches the client outside a capture (`Emit` while not capturing,
  `getPart`'s output at top level, `ob_end_flush`'s output). It is returned as a value
  (`body`, `flushed`) but not recorded as a response stream.
- PHP's nested output buffers: a second `start` before `end` starts a fresh capture here,
  where PHP would push a second buffer.
- Failure paths: `fopen` failing in `end` (also when no target was ever selected), and
  `opendir` on a missing directory. In the model, a missing directory lists as empty.
- FrontCache.DooFrontCache.Get: requires a non-empty URI. For an empty one PHP reads
  `$uri[-1]`; that failure path is left out.
- Path resolution. Paths are compared as written: `.`, `..` and repeated `/` in ids or in the
  cache directory are not resolved. On disk, the ids `a`, `/a` and `./a` name one part file,
  so PHP's `flushPart('/a')` removes `parts/a.html` and returns 1, where the model removes
  nothing and returns 0. Likewise a capture stored by `start('./x')` is the file `x.html`,
  which `flushAllFull` removes, while the model keeps it as the key `<dir>./x.html`. The same
  applies to `getPart` and `testPart`, and to a directory spelled differently from the
  disk's paths.
- Directory layout assumptions. The cache directory is assumed to end in `/`, as the
  framework's default paths do. With a directory lacking the slash, PHP lists `dir/` but
  tests `is_file` on `dir` + name. Directories are not entries: a directory named like a
  cache file would make `file_exists` succeed and the count rise although `unlink` fails.
  This is not modelled.
- Strings.StartsWith: follows PHP 8, where `strpos` with an empty needle finds it at 0.
  Older PHP returns false instead. The prefix `$oriUrl1` is empty only when both the URL
  and the subfolder are empty.
- The order in which `readdir` yields names, and concurrent requests writing or deleting the
  same files. Deletions are stated as sets and counts.
- `flushPart` with non-string ids (PHP would coerce array values); ids are strings here.
