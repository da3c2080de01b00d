/**
 * The application state: the single-flight guard around updates and the
 * published fields the menu shows. Each asynchronous operation is split into
 * the synchronous step that starts it and the step that completes it with
 * the outcome of its work, so that a call arriving in between can be seen
 * to be dropped.
 */
module Application {
  import opened Wrappers
  import opened Localizable
  import opened AppErrors
  import opened WallpaperModes
  import opened UpdateIntervals
  import opened UserDefaults
  import opened Networking
  import opened ImageCache
  import opened Background
  import opened Wallpapers

  /** What `updateWallpaper()` shows for a failure: an `AppError`'s description, or the unknown-error text. */
  function UpdateErrorMessage(f: Failure): (m: Message)
    ensures f.App? ==> m == LocalizedDescription(f)
    ensures f.System? ==> m == Shown(UnknownErrorText)
    ensures m != Shown(UnknownErrorText) <==> f.App?
  {
    if f.App? then LocalizedDescription(f) else Shown(UnknownErrorText)
  }

  /**
   * The outcome of the work of an update: `first` is what the first download
   * returns, then the wallpaper is applied under `mode`, `results[j]` being
   * what the download for `screens[j]` returns under `.different`.
   */
  function UpdateOutcome(mode: WallpaperMode, first: Result<string>, screens: seq<nat>,
                         results: seq<Result<string>>, rejecting: set<nat>): (o: Outcome)
    requires |results| >= |screens|
    ensures first.Err? ==> o == Fail(first.failure)
    ensures o == Pass <==>
              && first.Ok?
              && forall j :: 0 <= j < |screens| ==>
                   && screens[j] !in rejecting
                   && (mode == Different ==> results[j].Ok?)
  {
    if first.Err? then Fail(first.failure)
    else match mode
      case Same => SameOutcome(screens, rejecting)
      case Different => DifferentOutcome(screens, results, rejecting)
  }

  /**
   * The desktop-image calls of an update: none when the first download
   * fails; under `.same`, the downloaded file on every screen before the
   * first rejected one; under `.different`, each screen before the first
   * failing one with its own file.
   */
  function UpdateCalls(mode: WallpaperMode, first: Result<string>, screens: seq<nat>,
                       results: seq<Result<string>>, rejecting: set<nat>): seq<SetCall>
    requires |results| >= |screens|
  {
    if first.Err? then []
    else if mode == Same then SameCalls(screens[..FirstRejected(screens, rejecting)], first.value)
    else DifferentCalls(screens, results, DifferentStop(screens, results, rejecting))
  }

  /** An update that passes has set a desktop image on every screen, in screen order. */
  lemma PassSetsEveryScreen(mode: WallpaperMode, first: Result<string>, screens: seq<nat>,
                            results: seq<Result<string>>, rejecting: set<nat>)
    requires |results| >= |screens|
    requires UpdateOutcome(mode, first, screens, results, rejecting) == Pass
    ensures var calls := UpdateCalls(mode, first, screens, results, rejecting);
            |calls| == |screens| && forall j :: 0 <= j < |screens| ==> calls[j].screen == screens[j]
  {
    if mode == Same {
      assert FirstRejected(screens, rejecting) == |screens|;
      assert screens[..|screens|] == screens;
    } else {
      assert DifferentStop(screens, results, rejecting) == |screens|;
    }
  }

  /**
   * The downloads an update makes for the screens: none when the first
   * download fails or under `.same`; under `.different`, one per screen up
   * to and including the first failing one.
   */
  function ScreenDownloads(mode: WallpaperMode, first: Result<string>, screens: seq<nat>,
                           results: seq<Result<string>>, rejecting: set<nat>): (n: nat)
    requires |results| >= |screens|
    ensures n <= |screens|
    ensures n > 0 ==> first.Ok? && mode.Different?
  {
    if first.Err? || mode == Same then 0
    else if DifferentOutcome(screens, results, rejecting) == Pass then |screens|
    else DifferentStop(screens, results, rejecting) + 1
  }

  /**
   * The cache directory after an update: the first download, then under
   * `.different` one more download per screen up to and including the
   * first failing one.
   */
  ghost function UpdatedFiles(d: Directory, mode: WallpaperMode, conditions: seq<DownloadConditions>,
                              screens: seq<nat>, decode: Bytes -> Option<WallpaperResponse>,
                              listable: bool, rejecting: set<nat>): Directory
    requires |conditions| >= 1 + |screens|
  {
    var downloads := ScreenDownloads(mode, DownloadResult(conditions[0], decode, listable), screens,
                                     DownloadResults(conditions[1..], decode, listable), rejecting);
    AfterDownloads(AfterDownload(d, conditions[0], decode, listable), conditions[1..], downloads, decode, listable)
  }

  class AppState {
    var isUpdating: bool
    var lastUpdate: Option<int>
    var error: Option<Message>
    var isBackgroundEnabled: bool
    var wallpaperMode: WallpaperMode
    var updateInterval: UpdateInterval

    const background: BackgroundService
    const manager: WallpaperManager
    const images: ImageService

    /** `init()`: the published defaults; the saved mode arrives later, by `LoadSavedMode`. */
    constructor (background: BackgroundService, manager: WallpaperManager, images: ImageService)
      ensures this.background == background && this.manager == manager && this.images == images
      ensures !isUpdating && lastUpdate == None && error == None && isBackgroundEnabled
      ensures wallpaperMode == Same && updateInterval == Default
    {
      this.background := background;
      this.manager := manager;
      this.images := images;
      isUpdating := false;
      lastUpdate := None;
      error := None;
      isBackgroundEnabled := true;
      wallpaperMode := Same;
      updateInterval := Default;
    }

    /** The task `init()` starts: publishes the mode the wallpaper manager has persisted. */
    method LoadSavedMode()
      modifies this
      ensures wallpaperMode == manager.GetCurrentMode()
      ensures wallpaperMode == StoredMode(manager.store)
      ensures isUpdating == old(isUpdating) && lastUpdate == old(lastUpdate) && error == old(error)
      ensures isBackgroundEnabled == old(isBackgroundEnabled) && updateInterval == old(updateInterval)
    {
      wallpaperMode := manager.GetCurrentMode();
    }

    /**
     * The synchronous part of `updateWallpaper()`: dropped while an update is
     * in flight; otherwise marks one in flight and clears the error.
     */
    method BeginUpdateWallpaper() returns (started: bool)
      modifies this
      ensures started == !old(isUpdating)
      ensures !started ==> unchanged(this)
      ensures started ==> isUpdating && error == None
      ensures lastUpdate == old(lastUpdate) && isBackgroundEnabled == old(isBackgroundEnabled)
      ensures wallpaperMode == old(wallpaperMode) && updateInterval == old(updateInterval)
    {
      if isUpdating {
        return false;
      }
      isUpdating := true;
      error := None;
      return true;
    }

    /**
     * The work of an update: download and cache one image, then apply it
     * under the persisted mode. `conditions[0]` is the first download's
     * environment, the rest serve the per-screen downloads of `.different`.
     */
    method PerformUpdate(screens: seq<nat>, conditions: seq<DownloadConditions>,
                         decode: Bytes -> Option<WallpaperResponse>, rejecting: set<nat>)
      returns (o: Outcome, screenDownloads: nat)
      requires |conditions| >= 1 + |screens| && forall c <- conditions :: Scripted(c)
      modifies images, manager
      ensures manager.store == old(manager.store)
      ensures var first := DownloadResult(conditions[0], decode, images.listable);
              var results := DownloadResults(conditions[1..], decode, images.listable);
              && o == UpdateOutcome(manager.GetCurrentMode(), first, screens, results, rejecting)
              && screenDownloads == ScreenDownloads(manager.GetCurrentMode(), first, screens, results, rejecting)
              && manager.setCalls == old(manager.setCalls)
                                     + UpdateCalls(manager.GetCurrentMode(), first, screens, results, rejecting)
      ensures images.files == UpdatedFiles(old(images.files), manager.GetCurrentMode(), conditions, screens, decode,
                                           images.listable, rejecting)
    {
      var imageUrl, _ := images.DownloadAndCacheImage(conditions[0], decode);
      if imageUrl.Err? {
        return Fail(imageUrl.failure), 0;
      }
      ghost var mode := manager.GetCurrentMode();
      assert imageUrl.value in images.files;
      o, screenDownloads := manager.SetWallpaper(imageUrl.value, screens, images, conditions[1..], decode, rejecting);
    }

    /**
     * The completion of `updateWallpaper()`: the guard is released on every
     * path; success records the time here and in the background service,
     * failure shows the error and keeps the last update time.
     */
    method CompleteUpdateWallpaper(o: Outcome, now: int)
      requires isUpdating
      modifies this, background
      ensures !isUpdating
      ensures o == Pass ==> lastUpdate == Some(now) && error == old(error)
      ensures o == Pass ==> background.store == old(background.store)[LastUpdateKey := DateValue(now)]
      ensures o.Fail? ==> lastUpdate == old(lastUpdate) && error == Some(UpdateErrorMessage(o.failure))
      ensures o.Fail? ==> background.store == old(background.store)
      ensures background.timer == old(background.timer) && background.requests == old(background.requests)
      ensures isBackgroundEnabled == old(isBackgroundEnabled)
      ensures wallpaperMode == old(wallpaperMode) && updateInterval == old(updateInterval)
    {
      match o
      case Pass =>
        isUpdating := false;
        lastUpdate := Some(now);
        background.UpdateLastUpdateTime(now);
      case Fail(f) =>
        isUpdating := false;
        error := Some(UpdateErrorMessage(f));
    }

    /**
     * `updateWallpaper()` run to completion with no other call in between:
     * `None` when the call was dropped, otherwise the outcome of the work.
     */
    method UpdateWallpaper(now: int, screens: seq<nat>, conditions: seq<DownloadConditions>,
                           decode: Bytes -> Option<WallpaperResponse>, rejecting: set<nat>)
      returns (o: Option<Outcome>)
      requires |conditions| >= 1 + |screens| && forall c <- conditions :: Scripted(c)
      modifies this, background, images, manager
      ensures o.None? <==> old(isUpdating)
      ensures o.None? ==> unchanged(this) && unchanged(background) && unchanged(images) && unchanged(manager)
      ensures o.Some? ==> !isUpdating
      ensures o == Some(Pass) ==> lastUpdate == Some(now) && error == None
      ensures o == Some(Pass) ==> background.store == old(background.store)[LastUpdateKey := DateValue(now)]
      ensures o.Some? && o.value.Fail? ==>
                lastUpdate == old(lastUpdate) && error == Some(UpdateErrorMessage(o.value.failure))
      ensures o.Some? && o.value.Fail? ==> background.store == old(background.store)
      ensures o.Some? ==>
                o.value == UpdateOutcome(manager.GetCurrentMode(), DownloadResult(conditions[0], decode, images.listable),
                                         screens, DownloadResults(conditions[1..], decode, images.listable), rejecting)
      ensures o.Some? ==>
                && images.files == UpdatedFiles(old(images.files), manager.GetCurrentMode(), conditions, screens, decode,
                                                images.listable, rejecting)
                && manager.setCalls == old(manager.setCalls)
                                       + UpdateCalls(manager.GetCurrentMode(), DownloadResult(conditions[0], decode, images.listable),
                                                     screens, DownloadResults(conditions[1..], decode, images.listable), rejecting)
      ensures manager.store == old(manager.store)
      ensures background.timer == old(background.timer) && background.requests == old(background.requests)
      ensures wallpaperMode == old(wallpaperMode) && isBackgroundEnabled == old(isBackgroundEnabled)
      ensures updateInterval == old(updateInterval)
    {
      var started := BeginUpdateWallpaper();
      if !started {
        return None;
      }
      var outcome, _ := PerformUpdate(screens, conditions, decode, rejecting);
      CompleteUpdateWallpaper(outcome, now);
      return Some(outcome);
    }

    /**
     * The part of `setWallpaperMode(_:)` before its first suspension: dropped
     * while updating (the mode is then not persisted); otherwise the mode is
     * persisted and published before any fetching.
     */
    method BeginSetWallpaperMode(mode: WallpaperMode) returns (started: bool)
      modifies this, manager
      ensures started == !old(isUpdating)
      ensures !started ==> unchanged(this) && unchanged(manager)
      ensures started ==> isUpdating && error == None && wallpaperMode == mode
      ensures started ==> manager.store == old(manager.store)[WallpaperModeKey := StringValue(mode.RawValue())]
      ensures started ==> manager.GetCurrentMode() == mode
      ensures manager.setCalls == old(manager.setCalls)
      ensures lastUpdate == old(lastUpdate) && isBackgroundEnabled == old(isBackgroundEnabled)
      ensures updateInterval == old(updateInterval)
    {
      if isUpdating {
        return false;
      }
      isUpdating := true;
      error := None;
      manager.SetMode(mode);
      wallpaperMode := mode;
      return true;
    }

    /**
     * The completion of `setWallpaperMode(_:)`: the mode stays changed either
     * way; success sets `lastUpdate` but records nothing in the background
     * service; failure shows the error's own description.
     */
    method CompleteSetWallpaperMode(o: Outcome, now: int)
      requires isUpdating
      modifies this
      ensures !isUpdating
      ensures o == Pass ==> lastUpdate == Some(now) && error == old(error)
      ensures o.Fail? ==> lastUpdate == old(lastUpdate) && error == Some(LocalizedDescription(o.failure))
      ensures wallpaperMode == old(wallpaperMode) && isBackgroundEnabled == old(isBackgroundEnabled)
      ensures updateInterval == old(updateInterval)
    {
      isUpdating := false;
      match o
      case Pass => lastUpdate := Some(now);
      case Fail(f) => error := Some(LocalizedDescription(f));
    }

    /** `setWallpaperMode(_:)` run to completion with no other call in between. */
    method SetWallpaperMode(mode: WallpaperMode, now: int, screens: seq<nat>, conditions: seq<DownloadConditions>,
                            decode: Bytes -> Option<WallpaperResponse>, rejecting: set<nat>)
      returns (o: Option<Outcome>)
      requires |conditions| >= 1 + |screens| && forall c <- conditions :: Scripted(c)
      modifies this, images, manager
      ensures o.None? <==> old(isUpdating)
      ensures o.None? ==> unchanged(this) && unchanged(images) && unchanged(manager)
      ensures o.Some? ==>
                && !isUpdating && wallpaperMode == mode && manager.GetCurrentMode() == mode
                && manager.store == old(manager.store)[WallpaperModeKey := StringValue(mode.RawValue())]
                && o.value == UpdateOutcome(mode, DownloadResult(conditions[0], decode, images.listable),
                                            screens, DownloadResults(conditions[1..], decode, images.listable), rejecting)
                && images.files == UpdatedFiles(old(images.files), mode, conditions, screens, decode,
                                                images.listable, rejecting)
                && manager.setCalls == old(manager.setCalls)
                                       + UpdateCalls(mode, DownloadResult(conditions[0], decode, images.listable),
                                                     screens, DownloadResults(conditions[1..], decode, images.listable), rejecting)
      ensures o == Some(Pass) ==> lastUpdate == Some(now) && error == None
      ensures o.Some? && o.value.Fail? ==>
                lastUpdate == old(lastUpdate) && error == Some(LocalizedDescription(o.value.failure))
      ensures isBackgroundEnabled == old(isBackgroundEnabled) && updateInterval == old(updateInterval)
    {
      var started := BeginSetWallpaperMode(mode);
      if !started {
        return None;
      }
      var outcome, _ := PerformUpdate(screens, conditions, decode, rejecting);
      CompleteSetWallpaperMode(outcome, now);
      return Some(outcome);
    }

    /**
     * `openWallpapersFolder()`: the file the Finder is asked to reveal, the
     * first of the cached images, newest first; nothing when there is none.
     */
    method OpenWallpapersFolder() returns (selected: Option<string>)
      ensures selected.None? <==> !images.listable || images.files == map[]
      ensures selected.Some? ==> selected.value in images.files
      ensures selected.Some? && (forall n :: n in images.files ==> images.files[n].creationDate.Some?) ==>
                forall n :: n in images.files ==> !Newer(images.files[n], images.files[selected.value])
    {
      var urls := images.GetCachedImages();
      if |urls| == 0 {
        return None;
      }
      return Some(urls[0]);
    }

    /** `toggleBackgroundUpdates()`: flips the flag, then starts or stops the scheduler to match. */
    method ToggleBackgroundUpdates(now: int)
      modifies this, background
      ensures isBackgroundEnabled == !old(isBackgroundEnabled)
      ensures isBackgroundEnabled ==>
                background.timer == Some(StoredInterval(background.store).TimeInterval())
                && background.requests == old(background.requests)
                                          + (if IsDue(background.store, now) then [AtStart] else [])
      ensures !isBackgroundEnabled ==> background.timer == None && background.requests == old(background.requests)
      ensures background.store == old(background.store)
      ensures isUpdating == old(isUpdating) && lastUpdate == old(lastUpdate) && error == old(error)
      ensures wallpaperMode == old(wallpaperMode) && updateInterval == old(updateInterval)
    {
      isBackgroundEnabled := !isBackgroundEnabled;
      if isBackgroundEnabled {
        background.StartBackgroundUpdates(now);
      } else {
        background.StopBackgroundUpdates();
      }
    }

    /** `setUpdateInterval(_:)`: hands the interval to the scheduler, then publishes it. */
    method SetUpdateInterval(interval: UpdateInterval, now: int)
      modifies this, background
      ensures updateInterval == interval
      ensures background.store == old(background.store)[UpdateIntervalKey := EncodedInterval(interval)]
      ensures background.UpdateInterval() == interval
      ensures old(background.timer).None? ==> background.timer == None && background.requests == old(background.requests)
      ensures old(background.timer).Some? ==>
                && background.timer == Some(interval.TimeInterval())
                && background.requests == old(background.requests)
                                          + (if IsDue(background.store, now) then [AtStart] else [])
      ensures isUpdating == old(isUpdating) && isBackgroundEnabled == old(isBackgroundEnabled)
      ensures lastUpdate == old(lastUpdate) && error == old(error) && wallpaperMode == old(wallpaperMode)
    {
      background.SetUpdateInterval(interval, now);
      updateInterval := interval;
    }
  }

  /** Two update requests in a row: the first starts, the second is dropped and changes nothing. */
  method SecondRequestIsDropped(app: AppState) returns (first: bool, second: bool)
    requires !app.isUpdating
    modifies app
    ensures first && !second
    ensures app.isUpdating && app.error == None
  {
    first := app.BeginUpdateWallpaper();
    second := app.BeginUpdateWallpaper();
  }
}
