/**
 * The image cache: a directory of downloaded wallpapers with age-based
 * eviction, run when the directory grows past a size limit. The directory is
 * a map from file names to the two attributes the code reads; the file
 * system's answers (can the directory be listed, which removals fail, does a
 * write fail) are inputs.
 */
module ImageCache {
  import opened Wrappers
  import opened AppErrors
  import opened Networking

  /** The attributes of one cached file: `fileSize` and `creationDate`, either of which may be unreadable. */
  datatype CachedFile = CachedFile(fileSize: Option<nat>, creationDate: Option<int>)

  type Directory = map<string, CachedFile>

  /** `maxCacheSize`: 500 MiB. */
  const MaxCacheSize: nat := 500 * 1024 * 1024

  /** `maxCacheAge`: seven days, in seconds. */
  const MaxCacheAge: nat := 7 * 24 * 60 * 60

  /** A file's contribution to the cache size: a missing size counts as zero. */
  function SizeOf(f: CachedFile): nat {
    f.fileSize.GetOr(0)
  }

  /** The total size of a directory, independent of any listing order. */
  ghost function CacheSize(d: Directory): nat
    decreases |d|
  {
    if d == map[] then 0
    else
      var name :| name in d;
      assert |d - {name}| < |d| by { assert (d - {name}).Keys == d.Keys - {name}; }
      SizeOf(d[name]) + CacheSize(d - {name})
  }

  lemma {:induction false} CacheSizeRemove(d: Directory, name: string)
    requires name in d
    ensures CacheSize(d) == SizeOf(d[name]) + CacheSize(d - {name})
    decreases |d|
  {
    var k :| k in d && CacheSize(d) == SizeOf(d[k]) + CacheSize(d - {k});
    if k != name {
      assert (d - {k}).Keys == d.Keys - {k};
      assert (d - {name}).Keys == d.Keys - {name};
      CacheSizeRemove(d - {k}, name);
      CacheSizeRemove(d - {name}, k);
      assert d - {k} - {name} == d - {name} - {k};
    }
  }

  /** Removing entries never makes the cache larger. */
  lemma {:induction false} CacheSizeOfSubdirectory(d: Directory, e: Directory)
    requires e.Keys <= d.Keys && forall n :: n in e ==> e[n] == d[n]
    ensures CacheSize(e) <= CacheSize(d)
    decreases |d|
  {
    if d != map[] {
      var name :| name in d;
      assert (d - {name}).Keys == d.Keys - {name};
      CacheSizeRemove(d, name);
      if name in e {
        CacheSizeRemove(e, name);
        CacheSizeOfSubdirectory(d - {name}, e - {name});
      } else {
        CacheSizeOfSubdirectory(d - {name}, e);
      }
    }
  }

  /** A directory listing: every entry exactly once, in some order. */
  ghost predicate IsListing(listing: seq<string>, d: Directory) {
    && Distinct(listing)
    && (forall n :: n in listing <==> n in d)
  }

  /** `calculateCacheSize`'s `reduce(0) { sum, url in sum + (fileSize ?? 0) }` over a listing. */
  function SumSizes(listing: seq<string>, d: Directory): (total: nat)
    requires forall n <- listing :: n in d
    ensures listing == [] ==> total == 0
    ensures forall i :: 0 <= i < |listing| ==> SizeOf(d[listing[i]]) <= total
  {
    if listing == [] then 0
    else SumSizes(listing[..|listing| - 1], d) + SizeOf(d[listing[|listing| - 1]])
  }

  lemma {:induction false} SumSizesAgree(listing: seq<string>, d: Directory, e: Directory)
    requires forall n <- listing :: n in d && n in e && d[n] == e[n]
    ensures SumSizes(listing, d) == SumSizes(listing, e)
  {
    if listing != [] {
      SumSizesAgree(listing[..|listing| - 1], d, e);
    }
  }

  /** Summing over any listing gives the directory's size: the order of the listing does not matter. */
  lemma {:induction false} SumOfListing(listing: seq<string>, d: Directory)
    requires IsListing(listing, d)
    ensures SumSizes(listing, d) == CacheSize(d)
  {
    if listing != [] {
      var last := listing[|listing| - 1];
      var init := listing[..|listing| - 1];
      var rest := d - {last};
      assert forall n :: n in init ==> n in listing && n != last;
      assert IsListing(init, rest) by {
        forall n ensures n in init <==> n in rest {
          if n in rest {
            assert n in listing;
            var i :| 0 <= i < |listing| && listing[i] == n;
            assert i != |listing| - 1;
            assert init[i] == n;
          }
        }
      }
      SumOfListing(init, rest);
      SumSizesAgree(init, d, rest);
      CacheSizeRemove(d, last);
    }
  }

  /** Older than `maxCacheAge`, strictly; a file without a readable creation date never is. */
  predicate IsExpired(f: CachedFile, now: int) {
    f.creationDate.Some? && now - f.creationDate.value > MaxCacheAge
  }

  function ExpiredNames(d: Directory, now: int): set<string> {
    set n | n in d && IsExpired(d[n], now)
  }

  /** `cleanOldCache`'s filter over a listing. */
  function ExpiredAmong(listing: seq<string>, d: Directory, now: int): (r: seq<string>)
    requires forall n <- listing :: n in d
    ensures forall n :: n in r <==> n in listing && IsExpired(d[n], now)
  {
    if listing == [] then []
    else (if IsExpired(d[listing[0]], now) then [listing[0]] else []) + ExpiredAmong(listing[1..], d, now)
  }

  /**
   * The directory after `cleanOldCache`: every expired entry is gone except
   * those whose removal failed (the failure is ignored).
   */
  function AfterCleaning(d: Directory, now: int, stuck: set<string>): Directory {
    d - (ExpiredNames(d, now) - stuck)
  }

  /** The directory after `maintainCache`: cleaned only when strictly over the size limit. */
  ghost function AfterMaintenance(d: Directory, now: int, stuck: set<string>): Directory {
    if CacheSize(d) > MaxCacheSize then AfterCleaning(d, now, stuck) else d
  }

  /** Cleaning removes by age alone: an entry survives iff it is not expired or could not be removed. */
  lemma CleaningIsAgeOnly(d: Directory, now: int, stuck: set<string>, n: string)
    requires n in d
    ensures n in AfterCleaning(d, now, stuck) <==> !IsExpired(d[n], now) || n in stuck
    ensures d[n].creationDate.None? ==> n in AfterCleaning(d, now, stuck)
    ensures n in AfterCleaning(d, now, stuck) ==> AfterCleaning(d, now, stuck)[n] == d[n]
  {
  }

  /** At or below 500 MiB, maintenance deletes nothing. */
  lemma MaintenanceBelowLimit(d: Directory, now: int, stuck: set<string>)
    requires CacheSize(d) <= MaxCacheSize
    ensures AfterMaintenance(d, now, stuck) == d
  {
  }

  /** Maintenance never grows the cache. */
  lemma MaintenanceShrinks(d: Directory, now: int, stuck: set<string>)
    ensures CacheSize(AfterMaintenance(d, now, stuck)) <= CacheSize(d)
  {
    CacheSizeOfSubdirectory(d, AfterCleaning(d, now, stuck));
  }

  /**
   * Eviction is by age only: when no file is older than seven days,
   * maintenance keeps every file, so a cache over the limit stays over it.
   */
  lemma YoungCacheIsKept(d: Directory, now: int, stuck: set<string>)
    requires forall n :: n in d ==> !IsExpired(d[n], now)
    ensures AfterMaintenance(d, now, stuck) == d
    ensures CacheSize(d) > MaxCacheSize ==> CacheSize(AfterMaintenance(d, now, stuck)) > MaxCacheSize
  {
    assert ExpiredNames(d, now) == {};
    assert d - {} == d;
  }

  /** Such a cache exists: one fresh file larger than the limit. */
  lemma StaysOverLimitWhenYoung(now: int)
    ensures var d := map["big.jpg" := CachedFile(Some(MaxCacheSize + 1), Some(now))];
            CacheSize(AfterMaintenance(d, now, {})) > MaxCacheSize
  {
    var d := map["big.jpg" := CachedFile(Some(MaxCacheSize + 1), Some(now))];
    CacheSizeRemove(d, "big.jpg");
    assert d - {"big.jpg"} == map[];
    YoungCacheIsKept(d, now, {});
  }

  /** `"\(photo.id)_\(timestamp).jpg"`. */
  function CacheFileName(id: string, stamp: string): (name: string)
    ensures |name| == |id| + |stamp| + 5
    ensures name[..|id|] == id && name[|id|] == '_'
    ensures name[|id| + 1..|name| - 4] == stamp
    ensures name[|name| - 4..] == ".jpg"
  {
    id + "_" + stamp + ".jpg"
  }

  /** Strictly newer than: both creation dates readable and the first later (the `sorted` comparator). */
  predicate Newer(a: CachedFile, b: CachedFile) {
    a.creationDate.Some? && b.creationDate.Some? && a.creationDate.value > b.creationDate.value
  }

  predicate Distinct(s: seq<string>) {
    forall i, j :: 0 <= i < j < |s| ==> s[i] != s[j]
  }

  /** No entry is newer than an entry listed before it. */
  predicate NewestFirst(s: seq<string>, d: Directory)
    requires forall n <- s :: n in d
  {
    forall i, j :: 0 <= i < j < |s| ==> !Newer(d[s[j]], d[s[i]])
  }

  predicate AllDated(s: seq<string>, d: Directory)
    requires forall n <- s :: n in d
  {
    forall n <- s :: d[n].creationDate.Some?
  }

  /** Inserts `x` before the first entry that is not strictly newer than it. */
  function InsertByDate(x: string, s: seq<string>, d: Directory): (r: seq<string>)
    requires x in d && forall n <- s :: n in d
    ensures multiset(r) == multiset(s) + multiset{x}
    ensures forall n :: n in r <==> n == x || n in s
    ensures x !in s && Distinct(s) ==> Distinct(r)
  {
    if s == [] || !Newer(d[s[0]], d[x]) then [x] + s
    else
      var tail := InsertByDate(x, s[1..], d);
      assert s == [s[0]] + s[1..];
      assert x !in s && Distinct(s) ==> Distinct([s[0]] + tail) by {
        if x !in s && Distinct(s) {
          assert s[0] !in s[1..];
          assert s[0] !in tail;
        }
      }
      [s[0]] + tail
  }

  /** Inserting a dated entry into a newest-first sequence of dated entries keeps it newest first. */
  lemma {:induction false} InsertKeepsNewestFirst(x: string, s: seq<string>, d: Directory)
    requires x in d && forall n <- s :: n in d
    requires d[x].creationDate.Some? && AllDated(s, d) && NewestFirst(s, d)
    ensures NewestFirst(InsertByDate(x, s, d), d)
  {
    if s == [] || !Newer(d[s[0]], d[x]) {
      forall j | 0 <= j < |s| ensures !Newer(d[s[j]], d[x]) {
        if j > 0 { assert !Newer(d[s[j]], d[s[0]]); }
      }
    } else {
      var tail := InsertByDate(x, s[1..], d);
      InsertKeepsNewestFirst(x, s[1..], d);
      forall j | 0 <= j < |tail| ensures !Newer(d[tail[j]], d[s[0]]) {
        assert tail[j] in tail;
        if tail[j] != x {
          var k :| 0 <= k < |s[1..]| && s[1..][k] == tail[j];
          assert s[k + 1] == tail[j];
        }
      }
      assert InsertByDate(x, s, d) == [s[0]] + tail;
    }
  }

  /** `getCachedImages`'s sort: newest first by creation date. */
  function SortByCreationDate(listing: seq<string>, d: Directory): (r: seq<string>)
    requires forall n <- listing :: n in d
    ensures multiset(r) == multiset(listing)
    ensures forall n :: n in r <==> n in listing
    ensures Distinct(listing) ==> Distinct(r)
  {
    if listing == [] then []
    else
      assert listing == [listing[0]] + listing[1..];
      InsertByDate(listing[0], SortByCreationDate(listing[1..], d), d)
  }

  /** When every entry has a creation date, the sort lists them newest first. */
  lemma {:induction false} SortIsNewestFirst(listing: seq<string>, d: Directory)
    requires forall n <- listing :: n in d
    requires AllDated(listing, d)
    ensures NewestFirst(SortByCreationDate(listing, d), d)
  {
    if listing != [] {
      var rest := SortByCreationDate(listing[1..], d);
      SortIsNewestFirst(listing[1..], d);
      assert AllDated(rest, d) by {
        forall n <- rest ensures d[n].creationDate.Some? {
          assert n in listing[1..];
        }
      }
      InsertKeepsNewestFirst(listing[0], rest, d);
    }
  }

  /** What the outside world does during one `downloadAndCacheImage` call. */
  datatype DownloadConditions = DownloadConditions(
    photoTransport: seq<Response>,   // the session's answers to `GET /wallpaper`
    imageTransport: seq<Response>,   // the session's answers to the image request
    stamp: string,                   // `Date().timeIntervalSince1970`, as printed
    now: int,                        // the current time, in seconds
    stuck: set<string>,              // cached files whose removal fails
    writeFails: bool)                // whether `imageData.write(to:)` throws

  /** The session answers every request either retry loop may make. */
  predicate Scripted(c: DownloadConditions) {
    |c.photoTransport| >= TotalAttempts && |c.imageTransport| >= TotalAttempts
  }

  /** The two network steps of a download: metadata, then the image it names. */
  function Fetched(c: DownloadConditions, decode: Bytes -> Option<WallpaperResponse>): (r: Result<(WallpaperResponse, Bytes)>)
    ensures r.Err? ==> r.failure == App(MaxRetryAttemptsReached)
  {
    var photo := RetryPolicy(PhotoAttempts(c.photoTransport, decode)).result;
    if photo.Err? then Err(photo.failure)
    else
      var data := RetryPolicy(ImageAttempts(c.imageTransport)).result;
      if data.Err? then Err(data.failure) else Ok((photo.value, data.value))
  }

  /** What `downloadAndCacheImage()` returns, for a cache directory that can or cannot be listed. */
  function DownloadResult(c: DownloadConditions, decode: Bytes -> Option<WallpaperResponse>, listable: bool): (r: Result<string>)
    ensures r.Ok? <==> listable && Fetched(c, decode).Ok? && !c.writeFails
    ensures r.Ok? ==> r.value == CacheFileName(Fetched(c, decode).value.0.id, c.stamp)
    ensures r.Err? ==> r.failure in {System(DirectoryUnreadable), App(MaxRetryAttemptsReached), App(CacheSaveFailed)}
  {
    if !listable then Err(System(DirectoryUnreadable))
    else match Fetched(c, decode)
      case Err(f) => Err(f)
      case Ok(fetched) =>
        if c.writeFails then Err(App(CacheSaveFailed))
        else Ok(CacheFileName(fetched.0.id, c.stamp))
  }

  /**
   * Which cause gives which error: an unreadable directory is the listing
   * error, a fetch error is passed on unchanged, and a failed write, and
   * only that, is `cacheSaveFailed`.
   */
  lemma DownloadErrorCauses(c: DownloadConditions, decode: Bytes -> Option<WallpaperResponse>, listable: bool)
    ensures !listable ==> DownloadResult(c, decode, listable) == Err(System(DirectoryUnreadable))
    ensures listable && Fetched(c, decode).Err? ==> DownloadResult(c, decode, listable) == Err(Fetched(c, decode).failure)
    ensures listable && Fetched(c, decode).Ok? && c.writeFails ==>
              DownloadResult(c, decode, listable) == Err(App(CacheSaveFailed))
  {
  }

  /** The cache directory after one `downloadAndCacheImage()`. */
  ghost function AfterDownload(d: Directory, c: DownloadConditions, decode: Bytes -> Option<WallpaperResponse>,
                               listable: bool): Directory
  {
    if !listable then d
    else
      var kept := AfterMaintenance(d, c.now, c.stuck);
      var r := DownloadResult(c, decode, listable);
      if r.Err? then kept
      else kept[r.value := CachedFile(Some(|Fetched(c, decode).value.1|), Some(c.now))]
  }

  /** What each of a run of `downloadAndCacheImage()` calls returns, one per element of `cs`. */
  function DownloadResults(cs: seq<DownloadConditions>, decode: Bytes -> Option<WallpaperResponse>,
                           listable: bool): (rs: seq<Result<string>>)
    ensures |rs| == |cs|
  {
    if cs == [] then []
    else DownloadResults(cs[..|cs| - 1], decode, listable) + [DownloadResult(cs[|cs| - 1], decode, listable)]
  }

  /** The `i`-th of a run of results is what the `i`-th download returns. */
  lemma {:induction false} DownloadResultsAt(cs: seq<DownloadConditions>, i: nat,
                                             decode: Bytes -> Option<WallpaperResponse>, listable: bool)
    requires i < |cs|
    ensures DownloadResults(cs, decode, listable)[i] == DownloadResult(cs[i], decode, listable)
  {
    if i < |cs| - 1 {
      DownloadResultsAt(cs[..|cs| - 1], i, decode, listable);
    }
  }

  /** The cache directory after the downloads for `cs[0]` to `cs[n - 1]`, in that order. */
  ghost function AfterDownloads(d: Directory, cs: seq<DownloadConditions>, n: nat,
                                decode: Bytes -> Option<WallpaperResponse>, listable: bool): Directory
    requires n <= |cs|
  {
    if n == 0 then d
    else AfterDownload(AfterDownloads(d, cs, n - 1, decode, listable), cs[n - 1], decode, listable)
  }

  class ImageService {
    /** The cache directory's entries. */
    var files: Directory
    /** Whether `contentsOfDirectory(at:)` on the cache directory succeeds. */
    const listable: bool

    /** `init()`: cleans stale entries left by an earlier run, ignoring any error. */
    constructor (initial: Directory, listable: bool, now: int, stuck: set<string>)
      ensures this.listable == listable
      ensures files == if listable then AfterCleaning(initial, now, stuck) else initial
    {
      files := initial;
      this.listable := listable;
      new;
      var _ := CleanOldCache(now, stuck);
    }

    /** `contentsOfDirectory(at:)`: every entry once, in an order the file system chooses. */
    method ContentsOfDirectory() returns (r: Result<seq<string>>)
      ensures listable <==> r.Ok?
      ensures r.Err? ==> r.failure == System(DirectoryUnreadable)
      ensures r.Ok? ==> IsListing(r.value, files)
    {
      if !listable {
        return Err(System(DirectoryUnreadable));
      }
      var listing: seq<string> := [];
      var rest := files.Keys;
      while rest != {}
        invariant rest <= files.Keys
        invariant forall n :: n in listing <==> n in files && n !in rest
        invariant Distinct(listing)
        decreases rest
      {
        var n :| n in rest;
        listing := listing + [n];
        rest := rest - {n};
      }
      return Ok(listing);
    }

    /** `calculateCacheSize()`: the sum of the file sizes. */
    method CalculateCacheSize() returns (r: Result<nat>)
      ensures listable <==> r.Ok?
      ensures r.Err? ==> r.failure == System(DirectoryUnreadable)
      ensures r.Ok? ==> r.value == CacheSize(files)
    {
      var contents := ContentsOfDirectory();
      if contents.Err? {
        return Err(contents.failure);
      }
      SumOfListing(contents.value, files);
      return Ok(SumSizes(contents.value, files));
    }

    /** `cleanOldCache()`: removes the expired files; a failed removal is ignored. */
    method CleanOldCache(now: int, stuck: set<string>) returns (o: Outcome)
      modifies this
      ensures listable ==> o == Pass && files == AfterCleaning(old(files), now, stuck)
      ensures !listable ==> o == Fail(System(DirectoryUnreadable)) && files == old(files)
    {
      var contents := ContentsOfDirectory();
      if contents.Err? {
        return Fail(contents.failure);
      }
      var oldFiles := ExpiredAmong(contents.value, files, now);
      ghost var before := files;
      ghost var removed: set<string> := {};
      for i := 0 to |oldFiles|
        invariant files == before - removed
        invariant forall n :: n in removed <==> n in oldFiles[..i] && n !in stuck
      {
        if oldFiles[i] !in stuck {
          files := files - {oldFiles[i]};
          removed := removed + {oldFiles[i]};
        }
        assert oldFiles[..i + 1] == oldFiles[..i] + [oldFiles[i]];
      }
      assert oldFiles[..|oldFiles|] == oldFiles;
      assert removed == ExpiredNames(before, now) - stuck;
      return Pass;
    }

    /** `maintainCache()`: cleans only when the cache is strictly over 500 MiB. */
    method MaintainCache(now: int, stuck: set<string>) returns (o: Outcome)
      modifies this
      ensures listable ==> o == Pass && files == AfterMaintenance(old(files), now, stuck)
      ensures !listable ==> o == Fail(System(DirectoryUnreadable)) && files == old(files)
    {
      var size := CalculateCacheSize();
      if size.Err? {
        return Fail(size.failure);
      }
      o := Pass;
      if size.value > MaxCacheSize {
        o := CleanOldCache(now, stuck);
      }
    }

    /**
     * `downloadAndCacheImage()`: maintenance first, then the metadata, then the
     * image, written as `<id>_<stamp>.jpg`. Fetch and maintenance errors pass
     * through unchanged; a failed write is `cacheSaveFailed` and adds no entry.
     */
    method DownloadAndCacheImage(c: DownloadConditions, decode: Bytes -> Option<WallpaperResponse>)
      returns (r: Result<string>, requested: seq<string>)
      requires Scripted(c)
      modifies this
      ensures r == DownloadResult(c, decode, listable)
      ensures files == AfterDownload(old(files), c, decode, listable)
      ensures !listable ==> requested == []
      ensures listable ==>
                var photo := RetryPolicy(PhotoAttempts(c.photoTransport, decode));
                && |requested| >= photo.requests
                && (forall i :: 0 <= i < photo.requests ==> requested[i] == WallpaperURL)
                && (photo.result.Err? ==> |requested| == photo.requests)
                && (photo.result.Ok? ==>
                      |requested| == photo.requests + RetryPolicy(ImageAttempts(c.imageTransport)).requests
                      && forall i :: photo.requests <= i < |requested| ==>
                           requested[i] == ImageURL(photo.result.value.imageURL))
    {
      requested := [];
      var maintained := MaintainCache(c.now, c.stuck);
      if maintained.Fail? {
        return Err(maintained.failure), requested;
      }
      var photo, photoRequests := FetchRandomPhoto(c.photoTransport, decode);
      requested := photoRequests;
      assert forall i :: 0 <= i < |requested| ==> requested[i] == WallpaperURL by {
        forall i | 0 <= i < |requested| ensures requested[i] == WallpaperURL {
          assert requested[i] in photoRequests;
        }
      }
      if photo.Err? {
        return Err(photo.failure), requested;
      }
      var imageData, imageRequests := DownloadImage(photo.value.imageURL, c.imageTransport);
      requested := requested + imageRequests;
      assert forall i :: |photoRequests| <= i < |requested| ==> requested[i] == ImageURL(photo.value.imageURL) by {
        forall i | |photoRequests| <= i < |requested| ensures requested[i] == ImageURL(photo.value.imageURL) {
          assert requested[i] == imageRequests[i - |photoRequests|];
          assert requested[i] in imageRequests;
        }
      }
      if imageData.Err? {
        return Err(imageData.failure), requested;
      }
      var fileName := CacheFileName(photo.value.id, c.stamp);
      if c.writeFails {
        return Err(App(CacheSaveFailed)), requested;
      }
      files := files[fileName := CachedFile(Some(|imageData.value|), Some(c.now))];
      return Ok(fileName), requested;
    }

    /** `getCachedImages()`: every entry, newest first; nothing if the directory cannot be listed. */
    method GetCachedImages() returns (r: seq<string>)
      ensures !listable ==> r == []
      ensures listable ==> IsListing(r, files)
      ensures listable && (forall n :: n in files ==> files[n].creationDate.Some?) ==> NewestFirst(r, files)
    {
      var contents := ContentsOfDirectory();
      if contents.Err? {
        return [];
      }
      r := SortByCreationDate(contents.value, files);
      if forall n :: n in files ==> files[n].creationDate.Some? {
        SortIsNewestFirst(contents.value, files);
      }
    }

    /** `clearCache()`: removes every entry; the first removal that fails aborts with its error. */
    method ClearCache(stuck: set<string>) returns (o: Outcome)
      modifies this
      ensures !listable ==> o == Fail(System(DirectoryUnreadable)) && files == old(files)
      ensures listable ==> (o == Pass <==> old(files).Keys !! stuck)
      ensures o == Pass ==> files == map[]
      ensures listable && o.Fail? ==>
                o.failure.System? && o.failure.cause.RemoveFailed?
                && o.failure.cause.name in stuck && o.failure.cause.name in files
      ensures files.Keys <= old(files).Keys && forall n :: n in files ==> files[n] == old(files)[n]
      ensures forall n :: n in old(files) && n in stuck ==> n in files
    {
      var contents := ContentsOfDirectory();
      if contents.Err? {
        return Fail(contents.failure);
      }
      var listing := contents.value;
      ghost var before := files;
      for i := 0 to |listing|
        invariant files == before - (set j | 0 <= j < i :: listing[j])
        invariant forall j :: 0 <= j < i ==> listing[j] !in stuck
      {
        if listing[i] in stuck {
          assert listing[i] !in (set j | 0 <= j < i :: listing[j]);
          return Fail(System(RemoveFailed(listing[i])));
        }
        files := files - {listing[i]};
        assert (set j | 0 <= j < i + 1 :: listing[j]) == (set j | 0 <= j < i :: listing[j]) + {listing[i]};
      }
      assert forall n :: n in before ==> n in (set j | 0 <= j < |listing| :: listing[j]) by {
        forall n | n in before ensures n in (set j | 0 <= j < |listing| :: listing[j]) {
          assert n in listing;
          var j :| 0 <= j < |listing| && listing[j] == n;
        }
      }
      return Pass;
    }
  }
}
