# SlavicWallpapers update pipeline, in Dafny

This project models the core of SlavicWallpapers, a macOS menu-bar app that fetches a
generated wallpaper from its server, caches it on disk and sets it as the desktop picture
on every screen, by hand or on a timer. The model covers:

- **the HTTP client** (`APIClient`): a bounded retry loop of at most four requests
  for the wallpaper metadata and for the image bytes, and the single-attempt
  `performRequest`;
- **the image cache** (`ImageService`): size-triggered, age-based eviction, the
  download-and-write step, the newest-first listing and clearing;
- **the scheduler** (`BackgroundService`): a repeating timer, armed or not, plus the
  persisted interval and last-update time that decide whether an update is due;
- **the display fan-out** (`WallpaperManager`): the persisted `same`/`different` mode, and
  one desktop-image call per screen, which stops at the first failure;
- **the application state** (`AppState`): the single-flight guard around updates and the
  published `isUpdating`, `error`, `lastUpdate`, `wallpaperMode`, `isBackgroundEnabled`
  and `updateInterval`;
- **the pure helpers**: update intervals, Russian plural selection, the mode's raw values
  and the error descriptions.

The outside world is an input:
- The URL session's answer to each successive request is a sequence of `Response`s.
- The JSON decoder is a function `Bytes -> Option<_>`.
- The current time is an integer number of seconds.
- The screens are a sequence of screen numbers.
- The file system's refusals are sets and flags. A directory can be unreadable, given
  files cannot be removed, and a write can fail.
- The cache directory is a map from file names to `(fileSize?, creationDate?)`.
- `UserDefaults` is a map from keys to typed stored values.
- A successful `setDesktopImageURL` call is appended to a log. An update the scheduler asks
  for is appended to a log of requests.
- Localized strings are opaque string-table keys.

Asynchronous operations are modelled as sequential steps:
- The services are classes whose methods change their fields.
- `AppState.updateWallpaper()` and `setWallpaperMode(_:)` are each split into a begin step
  and a completion step driven by an outcome. This shows that a call arriving while an
  update is in flight is dropped.

Behaviour of the code worth noting:
- A JSON decoding failure in `fetchRandomPhoto` is inside the retried `do` block, so it is
  retried like a transport failure.
- The background timer's period is the update interval itself, not a shorter polling
  period. Each tick requests an update without checking whether one is due.
- `.same` mode checks once, before any screen is set, that the file exists.
- Errors from the workspace propagate as they are, not wrapped as `wallpaperSetFailed`.
- `performRequest` accepts any 2xx status; the retry loops accept only 200.

## Model

| member | source | states |
|---|---|---|
| `AppErrors.ErrorDescription` | SlavicWallpapers/Models/AppError.swift:12-29 | every case has a description (never nil), a string-table entry, never the unknown-error text |
| `AppErrors.AllAppErrorsComplete` | SlavicWallpapers/Models/AppError.swift:3-10 | the error type has exactly seven cases, listed without repetition, and no catch-all |
| `AppErrors.ErrorDescriptionInjective` | SlavicWallpapers/Models/AppError.swift:14-27 | two cases share a description iff they are the same case |
| `AppErrors.LocalizedDescription` | SlavicWallpapers/Models/AppState.swift:105-107 | `localizedDescription` of an `AppError` is its `errorDescription`; a system error shows its own description |
| `WallpaperModes.WallpaperMode.RawValue` | SlavicWallpapers/Models/WallpaperMode.swift:16-18 | the raw values are exactly "same" and "different", "same" iff `.same` |
| `WallpaperModes.WallpaperMode.LocalizedName` | SlavicWallpapers/Models/WallpaperMode.swift:20-27 | the display name is total and a string-table entry |
| `WallpaperModes.FromRawValue` | SlavicWallpapers/Models/WallpaperMode.swift:16 | the failable initializer succeeds exactly on the two raw values |
| `WallpaperModes.RawValueRoundTrip` | SlavicWallpapers/Models/WallpaperMode.swift:16-18 | decoding a mode's raw value gives the mode back, and only its raw value decodes to it |
| `WallpaperModes.LocalizedNamesDistinct` | SlavicWallpapers/Models/WallpaperMode.swift:20-27 | the two modes use distinct string-table keys |
| `WallpaperModes.AllCasesComplete` | SlavicWallpapers/Models/WallpaperMode.swift:16-18 | `allCases` is `[same, different]` and contains every mode |
| `UpdateIntervals.UpdateInterval.LocalizedDescription` | SlavicWallpapers/Models/UpdateInterval.swift:24-32 | minutes-only format iff hours are 0, hours-only iff hours ≠ 0 and minutes are 0, combined otherwise, each with its arguments |
| `UpdateIntervals.DefaultIsOneDay` | SlavicWallpapers/Models/UpdateInterval.swift:34-35 | the default is 86400 s and the minimum 1800 s |
| `UpdateIntervals.UpdateInterval.TimeInterval` | SlavicWallpapers/Models/UpdateInterval.swift:16-22 | a whole number of minutes, hours·60 + minutes of them |
| `UpdateIntervals.SecondsDoNotDetermineInterval` | SlavicWallpapers/Models/UpdateInterval.swift:16-22 | seconds are hours·3600 + minutes·60, yet equality is field-wise: (h+1, m−60) has the same seconds as (h, m) but differs |
| `UpdateIntervals.PickerAcceptsAtLeastMinimum` | SlavicWallpapers/Views/UpdateIntervalView.swift:50 | the picker's OK guard admits exactly the non-negative intervals of at least 30 minutes or with hours |
| `UpdateIntervals.NotClamped` | SlavicWallpapers/Models/UpdateInterval.swift:7-18 | intervals below the minimum, above a day and negative are all representable |
| `StringFormatting.SwiftRemainder` | SlavicWallpapers/Utilities/StringFormatting.swift:5-6 | Swift's `%`: the ordinary remainder for non-negative dividends, in (−b, 0] for negative ones |
| `StringFormatting.SwiftRemainderIsOdd` | SlavicWallpapers/Utilities/StringFormatting.swift:5-6 | the truncating remainder of −a is minus that of a |
| `StringFormatting.PluralForm` | SlavicWallpapers/Utilities/StringFormatting.swift:4-17 | the result is always one of the three given forms |
| `StringFormatting.PluralFormSelects` | SlavicWallpapers/Utilities/StringFormatting.swift:4-17 | the choice depends on the number alone: it picks the form its plural case names |
| `StringFormatting.RuleForNaturals` | SlavicWallpapers/Utilities/StringFormatting.swift:5-16 | for n ≥ 0: `one` iff n%10 = 1 and n%100 ≠ 11; `few` iff n%10 ∈ 2..4 and n%100 ∉ 12..14; `many` otherwise |
| `StringFormatting.NegativeIsMany` | SlavicWallpapers/Utilities/StringFormatting.swift:5-16 | with the truncating remainder every negative number takes `many` |
| `StringFormatting.DependsOnLastTwoDigits` | SlavicWallpapers/Utilities/StringFormatting.swift:4-17 | for n, m ≥ 0 with equal last two digits the form is the same |
| `StringFormatting.Examples` | SlavicWallpapers/Utilities/StringFormatting.swift:4-17 | 1, 21, 101 take `one`; 2–4, 22 take `few`; 0 and 5–20 (so 11–14) take `many` |
| `StringFormatting.HoursString` | SlavicWallpapers/Utilities/StringFormatting.swift:19-26 | the result is "hour", the literal "часа" or "hours" |
| `StringFormatting.MinutesString` | SlavicWallpapers/Utilities/StringFormatting.swift:28-35 | the result is "minute", the literal "минуты" or "minutes" |
| `StringFormatting.UnitWordsFollowCategory` | SlavicWallpapers/Utilities/StringFormatting.swift:19-35 | the unit word is the singular iff the count's case is `one` and the "few" literal iff it is `few` |
| `StringFormatting.IntervalDescription` | SlavicWallpapers/Utilities/StringFormatting.swift:37-46 | starts with "every"; hours = 0 is exactly the minutes (even 0 minutes), minutes = 0 exactly the hours, otherwise hours then minutes; each count is followed by its own plural word |
| `StringFormatting.DescriptionsAgree` | SlavicWallpapers/Utilities/StringFormatting.swift:37-46 | the menu text and `localizedDescription` make the same choice of units to show |
| `Networking.ImageURL` | SlavicWallpapers/Networking/APIClient.swift:75 | the image URL is the base URL followed by the path, with no separator inserted |
| `Networking.PhotoAttempt` | SlavicWallpapers/Networking/APIClient.swift:38-60 | an attempt succeeds iff the response is HTTP 200 and its body decodes, with the decoded value |
| `Networking.ImageAttempt` | SlavicWallpapers/Networking/APIClient.swift:80-88 | an attempt succeeds iff the response is HTTP 200, with the body unchanged |
| `Networking.RetryPolicy` | SlavicWallpapers/Networking/APIClient.swift:36-71 | 1 to 4 requests; an error is always `maxRetryAttemptsReached`, after exactly 4 requests |
| `Networking.RetryFrom` | SlavicWallpapers/Networking/APIClient.swift:36-69 | the loop from attempt i on: a success comes after more than i requests; failure is `maxRetryAttemptsReached` after exactly 4 |
| `Networking.RetryFromMeaning` | SlavicWallpapers/Networking/APIClient.swift:36-69 | from attempt i: success iff one of attempts i..3 succeeds; the last request made is that success, and every one before it from i failed |
| `Networking.RetryPolicyMeaning` | SlavicWallpapers/Networking/APIClient.swift:36-71 | success iff one of the first four attempts succeeds; the value is the first success, and every earlier attempt failed |
| `Networking.FetchRandomPhoto` | SlavicWallpapers/Networking/APIClient.swift:32-72 | the loop returns the retry policy's result after its number of requests, all to `<base>/wallpaper` |
| `Networking.DownloadImage` | SlavicWallpapers/Networking/APIClient.swift:74-99 | the loop returns the retry policy's result after its number of requests, all to `<base><path>` |
| `Networking.AllFailed` | SlavicWallpapers/Networking/APIClient.swift:61-66 | four failed attempts give `maxRetryAttemptsReached` after exactly four requests |
| `Networking.SucceedsAfterFailures` | SlavicWallpapers/Networking/APIClient.swift:36-69 | k ≤ 3 failures then a success give that success's value after k+1 requests |
| `Networking.BadStatusIsRetried` | SlavicWallpapers/Networking/APIClient.swift:42-52 | a non-HTTP response or a status other than 200 is a failed, retried attempt in both loops |
| `Networking.DecodeFailureIsRetried` | SlavicWallpapers/Networking/APIClient.swift:58-61 | a body that does not decode is a failed, retried attempt in `fetchRandomPhoto` |
| `Networking.PerformRequest` | SlavicWallpapers/Networking/APIClient.swift:101-123 | one attempt; success iff URL, HTTP, 2xx and decodes; a decode error is `invalidImageData`, every other failure `networkUnavailable`, never `imageDownloadFailed` |
| `Networking.StatusErrorIsMasked` | SlavicWallpapers/Networking/APIClient.swift:113-121 | a 404 reaches the caller as `networkUnavailable` |
| `Networking.PerformRequestIntended` | SlavicWallpapers/Networking/APIClient.swift:113-114 | with the bad-status error passed on: `imageDownloadFailed` iff HTTP with a status outside 2xx |
| `Networking.MaskingIsTheOnlyDifference` | SlavicWallpapers/Networking/APIClient.swift:101-123 | the code and the corrected version differ exactly on a bad HTTP status |
| `ImageCache.CacheSizeRemove` | SlavicWallpapers/Services/ImageService.swift:77-80 | the cache size is any one file's size plus the size of the rest |
| `ImageCache.SumSizes` | SlavicWallpapers/Services/ImageService.swift:77-80 | the sum over a listing is 0 for none and at least the size of each listed file |
| `ImageCache.CacheSizeOfSubdirectory` | SlavicWallpapers/Services/ImageService.swift:94-96 | removing files never increases the cache size |
| `ImageCache.SumOfListing` | SlavicWallpapers/Services/ImageService.swift:73-81 | the `reduce` over any listing, with a missing size counted as 0, equals the cache size: the order does not matter |
| `ImageCache.ExpiredAmong` | SlavicWallpapers/Services/ImageService.swift:87-92 | the filter keeps exactly the listed files older than seven days, strictly |
| `ImageCache.CleaningIsAgeOnly` | SlavicWallpapers/Services/ImageService.swift:83-97 | a file survives cleaning iff it is not expired or its removal failed; undated files always survive, unchanged |
| `ImageCache.MaintenanceBelowLimit` | SlavicWallpapers/Services/ImageService.swift:66-71 | at or below 500 MiB maintenance deletes nothing |
| `ImageCache.MaintenanceShrinks` | SlavicWallpapers/Services/ImageService.swift:66-71 | maintenance never grows the cache |
| `ImageCache.YoungCacheIsKept` | SlavicWallpapers/Services/ImageService.swift:66-97 | when no file is older than seven days maintenance keeps every file, so a cache over 500 MiB stays over it |
| `ImageCache.StaysOverLimitWhenYoung` | SlavicWallpapers/Services/ImageService.swift:66-71 | a concrete cache over 500 MiB with one fresh file is still over the limit after maintenance |
| `ImageCache.CacheFileName` | SlavicWallpapers/Services/ImageService.swift:50-51 | the name is exactly the photo id, "_", the stamp and ".jpg", in that order |
| `ImageCache.InsertByDate` | SlavicWallpapers/Services/ImageService.swift:104-110 | insertion adds exactly the one entry, keeping entries distinct |
| `ImageCache.InsertKeepsNewestFirst` | SlavicWallpapers/Services/ImageService.swift:104-110 | inserting a dated entry into a newest-first dated list keeps it newest first |
| `ImageCache.SortByCreationDate` | SlavicWallpapers/Services/ImageService.swift:104-110 | the sort is a permutation of the listing |
| `ImageCache.SortIsNewestFirst` | SlavicWallpapers/Services/ImageService.swift:104-110 | when every entry is dated, no entry is newer than one listed before it |
| `ImageCache.Fetched` | SlavicWallpapers/Services/ImageService.swift:46-49 | the only error the two fetches can give is `maxRetryAttemptsReached` |
| `ImageCache.DownloadResult` | SlavicWallpapers/Services/ImageService.swift:42-64 | success iff the directory is readable, both fetches succeed and the write succeeds, with the name `<id>_<stamp>.jpg`; errors are only the listing error, `maxRetryAttemptsReached` or `cacheSaveFailed` |
| `ImageCache.DownloadErrorCauses` | SlavicWallpapers/Services/ImageService.swift:42-63 | an unreadable directory gives the listing error, a fetch error is passed on unchanged, and a failed write after both fetches succeed gives `cacheSaveFailed` |
| `ImageCache.DownloadResults` | SlavicWallpapers/Services/ImageService.swift:42-64 | one result per run of the download, in order |
| `ImageCache.DownloadResultsAt` | SlavicWallpapers/Services/ImageService.swift:42-64 | the i-th result of a run is what the i-th download returns |
| `ImageCache.ImageService.constructor` | SlavicWallpapers/Services/ImageService.swift:25-40 | start-up cleans expired files and ignores a cleaning error |
| `ImageCache.ImageService.ContentsOfDirectory` | SlavicWallpapers/Services/ImageService.swift:74-76 | an unreadable directory is an error; otherwise every file exactly once |
| `ImageCache.ImageService.CalculateCacheSize` | SlavicWallpapers/Services/ImageService.swift:73-81 | the sum of the file sizes, or the listing error |
| `ImageCache.ImageService.CleanOldCache` | SlavicWallpapers/Services/ImageService.swift:83-97 | removes exactly the expired files whose removal succeeds, and reports success |
| `ImageCache.ImageService.MaintainCache` | SlavicWallpapers/Services/ImageService.swift:66-71 | cleans iff the size is strictly over 500 MiB |
| `ImageCache.ImageService.DownloadAndCacheImage` | SlavicWallpapers/Services/ImageService.swift:42-64 | returns `DownloadResult` and leaves the directory as maintenance plus the new file; requests `<base>/wallpaper` as often as the metadata loop needs, then, only if it succeeded, `<base>` + the image path as often as the image loop needs |
| `ImageCache.ImageService.GetCachedImages` | SlavicWallpapers/Services/ImageService.swift:99-111 | every file once, newest first when all are dated; empty if the directory is unreadable |
| `ImageCache.ImageService.ClearCache` | SlavicWallpapers/Services/ImageService.swift:113-118 | succeeds iff no removal fails and then leaves the cache empty; otherwise the first failing removal is the error, and no file that cannot be removed is lost |
| `Background.StoredInterval` | SlavicWallpapers/Services/BackgroundService.swift:14-21 | the stored interval, or the default when none is stored or it does not decode |
| `Background.LastUpdate` | SlavicWallpapers/Services/BackgroundService.swift:47-48 | the stored last-update date, present iff a date is stored under its key |
| `Background.IntervalRoundTrip` | SlavicWallpapers/Services/BackgroundService.swift:22-26 | storing an interval and reading it back gives it, leaving the last-update time alone |
| `Background.NeverUpdatedIsDue` | SlavicWallpapers/Services/BackgroundService.swift:47-50 | with no last-update date an update is due |
| `Background.DueIffElapsed` | SlavicWallpapers/Services/BackgroundService.swift:52-53 | with a date, due iff now − last ≥ the interval's seconds (the boundary is due) |
| `Background.DueExamples` | SlavicWallpapers/Services/BackgroundService.swift:47-54 | 5 minutes after an update with a one-day interval is not due; 25 hours or a full day after is |
| `Background.IsDue` | SlavicWallpapers/Services/BackgroundService.swift:47-54 | due when never updated; not due only when less than the stored interval has elapsed |
| `Background.BackgroundService.constructor` | SlavicWallpapers/Services/BackgroundService.swift:10-12 | no timer and no requests at first |
| `Background.BackgroundService.UpdateInterval` | SlavicWallpapers/Services/BackgroundService.swift:14-21 | the stored interval when one decodes, the default otherwise |
| `Background.BackgroundService.ShouldUpdateWallpaper` | SlavicWallpapers/Services/BackgroundService.swift:47-54 | due when never updated, otherwise iff at least the interval has elapsed |
| `Background.BackgroundService.SetStoredInterval` | SlavicWallpapers/Services/BackgroundService.swift:22-26 | the interval is stored and reads back; the timer is untouched |
| `Background.BackgroundService.StartBackgroundUpdates` | SlavicWallpapers/Services/BackgroundService.swift:29-45 | a single timer with the interval's period; one immediate request iff due |
| `Background.BackgroundService.StopBackgroundUpdates` | SlavicWallpapers/Services/BackgroundService.swift:60-63 | afterwards there is no timer, whatever the state before |
| `Background.BackgroundService.Tick` | SlavicWallpapers/Services/BackgroundService.swift:40-44 | an armed timer requests an update on every tick, without a due check |
| `Background.BackgroundService.UpdateLastUpdateTime` | SlavicWallpapers/Services/BackgroundService.swift:56-58 | stores now under `LastWallpaperUpdate`; nothing else changes |
| `Background.BackgroundService.SetUpdateInterval` | SlavicWallpapers/Services/BackgroundService.swift:65-72 | always persists; restarts with the new period only if armed; an idle service stays idle |
| `Wallpapers.ModeRoundTrip` | SlavicWallpapers/Services/WallpaperManager.swift:21-31 | storing a mode's raw value and reading the mode back gives it |
| `Wallpapers.ModeDefaultsToSame` | SlavicWallpapers/Services/WallpaperManager.swift:21-28 | nothing stored, or an unknown string, reads as `.same` |
| `Wallpapers.StoredMode` | SlavicWallpapers/Services/WallpaperManager.swift:21-28 | the mode is `.different` iff the stored value is the string "different" |
| `Wallpapers.FirstRejected` | SlavicWallpapers/Services/WallpaperManager.swift:48-50 | every screen before the returned position is accepted, the one at it rejected |
| `Wallpapers.SameOutcome` | SlavicWallpapers/Services/WallpaperManager.swift:48-50 | passes iff no screen is rejected; otherwise the error is the rejection of the first rejected screen, where the loop stops |
| `Wallpapers.DifferentStop` | SlavicWallpapers/Services/WallpaperManager.swift:56-59 | every screen before the stop has its download and call succeed; the one at the stop fails one of them |
| `Wallpapers.DifferentOutcome` | SlavicWallpapers/Services/WallpaperManager.swift:53-60 | passes iff every screen's download succeeds and no screen is rejected; otherwise a screen's download error or its rejection |
| `Wallpapers.DifferentCallsStep` | SlavicWallpapers/Services/WallpaperManager.swift:56-59 | one more successful screen appends exactly its call |
| `Wallpapers.DifferentStep` | SlavicWallpapers/Services/WallpaperManager.swift:56-59 | at screen i after i successes: a success goes on with its call appended; a failure stops the run there with that screen's download error or rejection |
| `Wallpapers.WallpaperManager.constructor` | SlavicWallpapers/Services/WallpaperManager.swift:16-19 | the given defaults, no desktop image set yet |
| `Wallpapers.WallpaperManager.SetMode` | SlavicWallpapers/Services/WallpaperManager.swift:71-77 | persists the raw value under "WallpaperMode"; `getCurrentMode()` then returns the mode |
| `Wallpapers.WallpaperManager.GetCurrentMode` | SlavicWallpapers/Services/WallpaperManager.swift:75-77 | `.different` iff the string "different" is stored under "WallpaperMode" |
| `Wallpapers.WallpaperManager.SetScreenWallpaper` | SlavicWallpapers/Services/WallpaperManager.swift:62-69 | passes and records exactly one call iff the workspace accepts the screen; otherwise the rejection and no call |
| `Wallpapers.WallpaperManager.SetDownloadedWallpaper` | SlavicWallpapers/Services/WallpaperManager.swift:56-58 | one download then one call: passes iff the download succeeds and the screen is accepted; fails with the download error or the rejection; the cache is as after one download |
| `Wallpapers.WallpaperManager.SetSameWallpaper` | SlavicWallpapers/Services/WallpaperManager.swift:43-51 | missing file: `fileNotFound` and no call; otherwise one call with the file for each screen before the first rejected one, and the outcome passes iff no screen is rejected |
| `Wallpapers.WallpaperManager.SetDifferentWallpapers` | SlavicWallpapers/Services/WallpaperManager.swift:53-60 | passes iff every download succeeds and no screen is rejected; otherwise stops at the first failing screen with its download error or rejection, after that screen's download; the calls are one per screen before the stop with its own file; the cache is the downloads folded in order |
| `Wallpapers.WallpaperManager.SetWallpaper` | SlavicWallpapers/Services/WallpaperManager.swift:34-41 | `.same`: no download, cache unchanged, the same-file calls and outcome; `.different`: the per-screen downloads, calls, cache and outcome; the passed file is ignored |
| `Application.UpdateErrorMessage` | SlavicWallpapers/Models/AppState.swift:55-61 | an `AppError` shows its description, any other error the unknown-error text, and only other errors do |
| `Application.UpdateOutcome` | SlavicWallpapers/Models/AppState.swift:46-48 | a failed first download is the error; otherwise passes iff no screen is rejected and, in `.different` mode, every screen's download succeeds |
| `Application.PassSetsEveryScreen` | SlavicWallpapers/Models/AppState.swift:46-48 | an update that passes has set a desktop image on every screen, in screen order |
| `Application.ScreenDownloads` | SlavicWallpapers/Services/WallpaperManager.swift:53-60 | at most one download per screen, and none unless the first download succeeded and the mode is `.different` |
| `Application.AppState.constructor` | SlavicWallpapers/Models/AppState.swift:23-31 | not updating, no error, no last update, background enabled, mode `.same`, default interval |
| `Application.AppState.LoadSavedMode` | SlavicWallpapers/Models/AppState.swift:33-35 | the published mode becomes the persisted one |
| `Application.AppState.BeginUpdateWallpaper` | SlavicWallpapers/Models/AppState.swift:38-42 | dropped without any change while updating; otherwise marks an update in flight and clears the error |
| `Application.AppState.PerformUpdate` | SlavicWallpapers/Models/AppState.swift:46-48 | the outcome, the number of per-screen downloads, the cache directory and the desktop-image calls are those of the update under the persisted mode: a failed first download sets nothing; `.same` sets the downloaded file on the screens before the first rejected one; `.different` adds the per-screen downloads and calls |
| `Application.AppState.CompleteUpdateWallpaper` | SlavicWallpapers/Models/AppState.swift:50-61 | always clears `isUpdating`; success sets `lastUpdate` and records it in the scheduler; failure sets the error and keeps `lastUpdate` |
| `Application.AppState.UpdateWallpaper` | SlavicWallpapers/Models/AppState.swift:38-63 | dropped and changing nothing iff updating; otherwise the outcome, the cache directory and the desktop-image calls are those of the update; success gives the new time, no error and the time recorded in the scheduler; failure keeps the time, shows the error and records nothing; mode, interval and scheduler stay |
| `Application.AppState.BeginSetWallpaperMode` | SlavicWallpapers/Models/AppState.swift:90-97 | dropped without persisting while updating; otherwise the mode is persisted and published before any fetch |
| `Application.AppState.CompleteSetWallpaperMode` | SlavicWallpapers/Models/AppState.swift:103-107 | clears `isUpdating`; success sets `lastUpdate` without recording it in the scheduler; failure shows the error's own description; the mode stays changed |
| `Application.AppState.SetWallpaperMode` | SlavicWallpapers/Models/AppState.swift:90-109 | dropped and changing nothing iff updating; otherwise the mode is published and persisted whatever the fetch does, and the outcome, the cache directory and the desktop-image calls are those of the update under the new mode; success sets the time, failure shows the error's own description |
| `Application.AppState.OpenWallpapersFolder` | SlavicWallpapers/Models/AppState.swift:65-77 | reveals a cached file, the newest when all are dated; nothing when the cache is empty or unreadable |
| `Application.AppState.ToggleBackgroundUpdates` | SlavicWallpapers/Models/AppState.swift:79-88 | flips the flag; on: a timer with the stored interval's period and one immediate request iff due; off: no timer and no request; the store and the other published values stay |
| `Application.AppState.SetUpdateInterval` | SlavicWallpapers/Models/AppState.swift:111-114 | the interval is stored and published; an armed scheduler restarts with its period (one request iff due), an idle one stays idle; the other published values stay |
| `Application.SecondRequestIsDropped` | SlavicWallpapers/Models/AppState.swift:39 | of two update requests in a row, the second is dropped |

## Left out

- Delays and cancellation: the two-second `Task.sleep` between retries (`retryDelay`,
  SlavicWallpapers/Networking/NetworkConfig.swift:6) and a cancellation thrown from it are left
  out. Only the number of attempts is modelled.
- Timer period: `Timer.scheduledTimer(withTimeInterval:repeats:)` (SlavicWallpapers/Services/BackgroundService.swift:40)
  replaces a period of 0 or less with 0.1 ms. The model records the interval's `timeInterval` as given, which can
  be 0 or negative, and nothing in the model reads the period.
- Timing: floating-point `Date` and `TimeInterval` values are whole seconds. The fractional
  timestamp in a cache file name is an opaque string `stamp`.
- Concurrency: actor isolation, `@MainActor` and the unstructured `Task`s are sequential steps.
  An interleaving other than "a second request while one is in flight" is not modelled. The
  `Task` that records the last-update time in the scheduler is taken to run at once.
- Crashes: the `URL(string:).require()` fatal unwrap, and the `fatalError` when there is no
  caches directory, are left out. The URL strings involved are assumed well formed; the image path comes from
  the server, so a malformed one would crash the app instead.
- `calculateCacheSize` throwing when a file's attributes cannot be read is not modelled; an
  unreadable size counts as 0.
- `createDirectory` at start-up is not modelled. Its error is ignored in the code.
- JSON coding: the decoder is an input function. Encoding an `UpdateInterval` always succeeds.
  Any stored value other than an encoded interval does not decode.
- Partial writes: `imageData.write(to:)` is atomic in the model. A write either adds the whole
  file or, when it fails, no entry.
- The Finder: `openWallpapersFolder` only computes the file to reveal. `NSWorkspace.selectFile`
  is not part of this model.
- User interface: SwiftUI views, the status item, `showingIntervalPicker` and `print` logging
  are not modelled. The interval picker contributes only its OK-button guard.
- `menuIntervalDescription` formats `intervalDescription` into a string-table entry. It is
  not modelled, because the string tables are opaque.
- The Unsplash endpoint that feeds `performRequest` is not part of this model. Its URL is an
  `Option<string>` input.
- `ImageCache.ImageService.GetCachedImages`: the order is stated only when every file has a
  creation date. With undated files the comparator is not a strict weak ordering, and Swift's
  `sorted` promises no particular order.
- Integer overflow: Swift's `Int` arithmetic traps on overflow (`hours * 3600` in
  SlavicWallpapers/Models/UpdateInterval.swift:21, the size sum in
  SlavicWallpapers/Services/ImageService.swift:79). Integers here are unbounded, so that trap is
  not modelled.
- Missing responses: the retry and download functions treat a request the session has no
  answer for as a failed attempt. The methods require an answer for every request they may
  make (`Scripted`), so this case never arises in them.

## Findings

| source | as written | input that shows it | evidently intended | confidence | as-written member | corrected member |
|---|---|---|---|---|---|---|
| SlavicWallpapers/Networking/APIClient.swift:113-121 | the `imageDownloadFailed` thrown for a status outside 2xx is caught by the generic `catch` of the same `do` and rethrown as `networkUnavailable` | an HTTP 404 response | a bad status reaches the caller as `imageDownloadFailed` | medium, not executed | `Networking.StatusErrorIsMasked` | `Networking.PerformRequestIntended` |
