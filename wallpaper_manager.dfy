/**
 * Applies a cached image to the screens, under the persisted mode. Screens
 * are the `NSScreen.screens` list, given as an input; the workspace's
 * `setDesktopImageURL` calls that succeed are appended to a log, and the
 * screens for which it throws are an input.
 */
module Wallpapers {
  import opened Wrappers
  import opened AppErrors
  import opened WallpaperModes
  import opened UserDefaults
  import opened Networking
  import opened ImageCache

  const WallpaperModeKey := "WallpaperMode"

  /** `wallpaperMode` getter: the stored raw value if it names a mode, `.same` otherwise. */
  function StoredMode(store: Store): (m: WallpaperMode)
    ensures m == Different <==> WallpaperModeKey in store && store[WallpaperModeKey] == StringValue("different")
  {
    if WallpaperModeKey in store && store[WallpaperModeKey].StringValue? then
      FromRawValue(store[WallpaperModeKey].text).GetOr(Same)
    else Same
  }

  /** Storing a mode's raw value and reading it back gives the mode. */
  lemma ModeRoundTrip(store: Store, m: WallpaperMode)
    ensures StoredMode(store[WallpaperModeKey := StringValue(m.RawValue())]) == m
  {
  }

  /** Nothing stored, or a string that is not a raw value, reads as `.same`. */
  lemma ModeDefaultsToSame(store: Store)
    requires WallpaperModeKey !in store
             || (store[WallpaperModeKey].StringValue? && FromRawValue(store[WallpaperModeKey].text).None?)
    ensures StoredMode(store) == Same
  {
  }

  /** One successful `setDesktopImageURL(_:for:options:)` call. */
  datatype SetCall = SetCall(screen: nat, url: string)

  /** The position of the first screen the workspace rejects, or `|screens|`. */
  function FirstRejected(screens: seq<nat>, rejecting: set<nat>): (k: nat)
    ensures k <= |screens|
    ensures forall j :: 0 <= j < k ==> screens[j] !in rejecting
    ensures k < |screens| ==> screens[k] in rejecting
  {
    if screens == [] then 0
    else if screens[0] in rejecting then 0
    else 1 + FirstRejected(screens[1..], rejecting)
  }

  /** One call per screen, in screen order, all with the same file. */
  function SameCalls(screens: seq<nat>, url: string): (calls: seq<SetCall>)
    ensures |calls| == |screens|
    ensures forall j :: 0 <= j < |screens| ==> calls[j] == SetCall(screens[j], url)
  {
    seq(|screens|, j requires 0 <= j < |screens| => SetCall(screens[j], url))
  }

  /** How the loop of `setSameWallpaper(from:)` ends once the file exists: at the first rejected screen. */
  function SameOutcome(screens: seq<nat>, rejecting: set<nat>): (o: Outcome)
    ensures o == Pass <==> forall j :: 0 <= j < |screens| ==> screens[j] !in rejecting
    ensures o.Fail? ==> exists j :: 0 <= j < |screens| && screens[j] in rejecting
                                   && o.failure == System(DesktopImageRejected(screens[j]))
    ensures o.Fail? ==> FirstRejected(screens, rejecting) < |screens|
                        && o.failure == System(DesktopImageRejected(screens[FirstRejected(screens, rejecting)]))
  {
    var k := FirstRejected(screens, rejecting);
    if k < |screens| then Fail(System(DesktopImageRejected(screens[k]))) else Pass
  }

  /** Whether the step for one screen of `setDifferentWallpapers()` goes through: its download, then its call. */
  predicate DifferentStepSucceeds(screen: nat, result: Result<string>, rejecting: set<nat>) {
    result.Ok? && screen !in rejecting
  }

  /**
   * The position of the first screen whose step fails in
   * `setDifferentWallpapers()`, or `|screens|`; `results[j]` is what the
   * download for `screens[j]` returns.
   */
  function DifferentStop(screens: seq<nat>, results: seq<Result<string>>, rejecting: set<nat>): (k: nat)
    requires |results| >= |screens|
    ensures k <= |screens|
    ensures forall j :: 0 <= j < k ==> DifferentStepSucceeds(screens[j], results[j], rejecting)
    ensures k < |screens| ==> !DifferentStepSucceeds(screens[k], results[k], rejecting)
  {
    if screens == [] then 0
    else if !DifferentStepSucceeds(screens[0], results[0], rejecting) then 0
    else 1 + DifferentStop(screens[1..], results[1..], rejecting)
  }

  /**
   * How `setDifferentWallpapers()` ends: at the first failing screen, with the
   * download's own error, or else with the workspace's rejection of it.
   */
  function DifferentOutcome(screens: seq<nat>, results: seq<Result<string>>, rejecting: set<nat>): (o: Outcome)
    requires |results| >= |screens|
    ensures o == Pass <==> forall j :: 0 <= j < |screens| ==> results[j].Ok? && screens[j] !in rejecting
    ensures o.Fail? ==>
              exists j :: 0 <= j < |screens|
                          && ((results[j].Err? && o.failure == results[j].failure)
                              || (results[j].Ok? && screens[j] in rejecting
                                  && o.failure == System(DesktopImageRejected(screens[j]))))
  {
    var k := DifferentStop(screens, results, rejecting);
    if k == |screens| then Pass
    else if results[k].Err? then Fail(results[k].failure)
    else Fail(System(DesktopImageRejected(screens[k])))
  }

  /**
   * The calls of `setDifferentWallpapers()` for the first `n` screens, whose
   * downloads all succeed: each screen with its own file.
   */
  function DifferentCalls(screens: seq<nat>, results: seq<Result<string>>, n: nat): (calls: seq<SetCall>)
    requires n <= |screens| && n <= |results| && forall j :: 0 <= j < n ==> results[j].Ok?
    ensures |calls| == n
    ensures forall j :: 0 <= j < n ==> calls[j] == SetCall(screens[j], results[j].value)
  {
    seq(n, j requires 0 <= j < n => SetCall(screens[j], results[j].value))
  }

  /** One more successful screen extends the calls by that screen's call. */
  lemma DifferentCallsStep(screens: seq<nat>, results: seq<Result<string>>, i: nat)
    requires i < |screens| <= |results| && forall j :: 0 <= j <= i ==> results[j].Ok?
    ensures DifferentCalls(screens, results, i + 1)
              == DifferentCalls(screens, results, i) + [SetCall(screens[i], results[i].value)]
  {
    var longer := DifferentCalls(screens, results, i + 1);
    var shorter := DifferentCalls(screens, results, i);
    assert forall j :: 0 <= j < i ==> longer[j] == shorter[j];
  }

  /**
   * The step for screen `i` of `setDifferentWallpapers()`, every earlier one
   * having gone through: when it goes through too, the run goes on with this
   * screen's call appended; otherwise the run stops here, with this screen's
   * download error or rejection.
   */
  lemma DifferentStep(screens: seq<nat>, results: seq<Result<string>>, rejecting: set<nat>, i: nat)
    requires i < |screens| <= |results|
    requires i <= DifferentStop(screens, results, rejecting)
    ensures DifferentStepSucceeds(screens[i], results[i], rejecting) ==>
              && i < DifferentStop(screens, results, rejecting)
              && DifferentCalls(screens, results, i + 1)
                   == DifferentCalls(screens, results, i) + [SetCall(screens[i], results[i].value)]
    ensures !DifferentStepSucceeds(screens[i], results[i], rejecting) ==>
              && DifferentStop(screens, results, rejecting) == i
              && DifferentOutcome(screens, results, rejecting)
                   == (if results[i].Err? then Fail(results[i].failure)
                       else Fail(System(DesktopImageRejected(screens[i]))))
  {
    if DifferentStepSucceeds(screens[i], results[i], rejecting) {
      DifferentCallsStep(screens, results, i);
    }
  }

  class WallpaperManager {
    /** The standard user defaults, as far as this service uses them. */
    var store: Store
    /** The desktop images set so far, oldest first. */
    var setCalls: seq<SetCall>

    constructor (store: Store)
      ensures this.store == store && setCalls == []
    {
      this.store := store;
      setCalls := [];
    }

    /** `getCurrentMode()`. */
    function GetCurrentMode(): (m: WallpaperMode)
      reads this
      ensures m == Different <==> WallpaperModeKey in store && store[WallpaperModeKey] == StringValue("different")
    {
      StoredMode(store)
    }

    /** `setMode(_:)`: persists the raw value; `getCurrentMode()` then returns the mode. */
    method SetMode(mode: WallpaperMode)
      modifies this
      ensures store == old(store)[WallpaperModeKey := StringValue(mode.RawValue())]
      ensures GetCurrentMode() == mode
      ensures setCalls == old(setCalls)
    {
      store := store[WallpaperModeKey := StringValue(mode.RawValue())];
    }

    /**
     * `setWallpaper(from:for:)`: one call to the workspace for one screen,
     * which records it, or throws when the workspace rejects the screen.
     */
    method SetScreenWallpaper(url: string, screen: nat, rejecting: set<nat>) returns (o: Outcome)
      modifies this
      ensures store == old(store)
      ensures o == Pass <==> screen !in rejecting
      ensures o.Fail? ==> o.failure == System(DesktopImageRejected(screen))
      ensures setCalls == old(setCalls) + (if o == Pass then [SetCall(screen, url)] else [])
    {
      if screen in rejecting {
        return Fail(System(DesktopImageRejected(screen)));
      }
      setCalls := setCalls + [SetCall(screen, url)];
      return Pass;
    }

    /**
     * `setSameWallpaper(from:)`: a missing file is `fileNotFound` before any
     * call; otherwise one call per screen with the same file, stopping at
     * the first screen the workspace rejects and passing its error on.
     */
    method SetSameWallpaper(url: string, screens: seq<nat>, cache: ImageService, rejecting: set<nat>)
      returns (o: Outcome)
      modifies this
      ensures store == old(store)
      ensures url !in cache.files ==> o == Fail(App(FileNotFound)) && setCalls == old(setCalls)
      ensures url in cache.files ==>
                var k := FirstRejected(screens, rejecting);
                && setCalls == old(setCalls) + SameCalls(screens[..k], url)
                && o == SameOutcome(screens, rejecting)
    {
      if url !in cache.files {
        return Fail(App(FileNotFound));
      }
      for i := 0 to |screens|
        invariant setCalls == old(setCalls) + SameCalls(screens[..i], url)
        invariant forall j :: 0 <= j < i ==> screens[j] !in rejecting
        invariant store == old(store)
      {
        o := SetScreenWallpaper(url, screens[i], rejecting);
        if o.Fail? {
          return;
        }
      }
      assert screens[..|screens|] == screens;
      return Pass;
    }

    /**
     * One pass of the loop of `setDifferentWallpapers()`: a fresh download,
     * then the call for `screen` with that file.
     */
    method SetDownloadedWallpaper(screen: nat, cache: ImageService, c: DownloadConditions,
                                  decode: Bytes -> Option<WallpaperResponse>, rejecting: set<nat>)
      returns (o: Outcome)
      requires Scripted(c)
      modifies this, cache
      ensures store == old(store)
      ensures cache.files == AfterDownload(old(cache.files), c, decode, cache.listable)
      ensures var r := DownloadResult(c, decode, cache.listable);
              && (o == Pass <==> DifferentStepSucceeds(screen, r, rejecting))
              && (r.Err? ==> o == Fail(r.failure))
              && (r.Ok? && screen in rejecting ==> o == Fail(System(DesktopImageRejected(screen))))
              && setCalls == old(setCalls) + (if o == Pass then [SetCall(screen, r.value)] else [])
    {
      var imageUrl, _ := cache.DownloadAndCacheImage(c, decode);
      if imageUrl.Err? {
        return Fail(imageUrl.failure);
      }
      o := SetScreenWallpaper(imageUrl.value, screen, rejecting);
    }

    /**
     * `setDifferentWallpapers()`: for each screen in turn, a fresh download
     * and one call with that file; the first failure of either aborts.
     * There is no existence check.
     */
    method SetDifferentWallpapers(screens: seq<nat>, cache: ImageService, conditions: seq<DownloadConditions>,
                                  decode: Bytes -> Option<WallpaperResponse>, rejecting: set<nat>)
      returns (o: Outcome, downloads: nat)
      requires |conditions| >= |screens| && forall c <- conditions :: Scripted(c)
      modifies this, cache
      ensures store == old(store)
      ensures var results := DownloadResults(conditions, decode, cache.listable);
              var stop := DifferentStop(screens, results, rejecting);
              && o == DifferentOutcome(screens, results, rejecting)
              && downloads == (if o == Pass then |screens| else stop + 1)
              && setCalls == old(setCalls) + DifferentCalls(screens, results, stop)
      ensures cache.files == AfterDownloads(old(cache.files), conditions, downloads, decode, cache.listable)
    {
      ghost var results := DownloadResults(conditions, decode, cache.listable);
      ghost var stop := DifferentStop(screens, results, rejecting);
      downloads := 0;
      for i := 0 to |screens|
        invariant downloads == i <= stop
        invariant setCalls == old(setCalls) + DifferentCalls(screens, results, i)
        invariant cache.files == AfterDownloads(old(cache.files), conditions, i, decode, cache.listable)
        invariant store == old(store)
      {
        o := SetDownloadedWallpaper(screens[i], cache, conditions[i], decode, rejecting);
        DownloadResultsAt(conditions, i, decode, cache.listable);
        downloads := downloads + 1;
        DifferentStep(screens, results, rejecting, i);
        if o.Fail? {
          return;
        }
      }
      return Pass, downloads;
    }

    /** `setWallpaper(from:)`: dispatch on the persisted mode; `.different` ignores `url`. */
    method SetWallpaper(url: string, screens: seq<nat>, cache: ImageService, conditions: seq<DownloadConditions>,
                        decode: Bytes -> Option<WallpaperResponse>, rejecting: set<nat>)
      returns (o: Outcome, downloads: nat)
      requires |conditions| >= |screens| && forall c <- conditions :: Scripted(c)
      modifies this, cache
      ensures store == old(store)
      ensures GetCurrentMode() == Same ==>
                && downloads == 0 && cache.files == old(cache.files)
                && (url !in cache.files ==> o == Fail(App(FileNotFound)) && setCalls == old(setCalls))
                && (url in cache.files ==>
                      && setCalls == old(setCalls) + SameCalls(screens[..FirstRejected(screens, rejecting)], url)
                      && o == SameOutcome(screens, rejecting))
      ensures GetCurrentMode() == Different ==>
                var results := DownloadResults(conditions, decode, cache.listable);
                var stop := DifferentStop(screens, results, rejecting);
                && o == DifferentOutcome(screens, results, rejecting)
                && downloads == (if o == Pass then |screens| else stop + 1)
                && cache.files == AfterDownloads(old(cache.files), conditions, downloads, decode, cache.listable)
                && setCalls == old(setCalls) + DifferentCalls(screens, results, stop)
    {
      match GetCurrentMode()
      case Same =>
        o := SetSameWallpaper(url, screens, cache, rejecting);
        downloads := 0;
      case Different =>
        o, downloads := SetDifferentWallpapers(screens, cache, conditions, decode, rejecting);
    }
  }
}
