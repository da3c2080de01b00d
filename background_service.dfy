/**
 * The scheduler: a repeating timer that asks for a wallpaper update, and
 * the persisted interval and last-update time that decide when one is due.
 */
module Background {
  import opened Wrappers
  import opened UpdateIntervals
  import opened UserDefaults

  const UpdateIntervalKey := "UpdateInterval"
  const LastUpdateKey := "LastWallpaperUpdate"

  /** `updateInterval` getter: the stored interval, or `.default` if absent or undecodable. */
  function StoredInterval(store: Store): (i: UpdateInterval)
    ensures !HoldsInterval(store, UpdateIntervalKey) ==> i == Default
    ensures HoldsInterval(store, UpdateIntervalKey) ==> i == store[UpdateIntervalKey].interval
  {
    if UpdateIntervalKey in store && store[UpdateIntervalKey].EncodedInterval? then
      store[UpdateIntervalKey].interval
    else Default
  }

  /** `object(forKey: "LastWallpaperUpdate") as? Date`. */
  function LastUpdate(store: Store): (last: Option<int>)
    ensures last.Some? <==> LastUpdateKey in store && store[LastUpdateKey].DateValue?
    ensures last.Some? ==> store[LastUpdateKey] == DateValue(last.value)
  {
    if LastUpdateKey in store && store[LastUpdateKey].DateValue? then
      Some(store[LastUpdateKey].seconds)
    else None
  }

  /**
   * `shouldUpdateWallpaper()`: due when no last-update date is stored, or
   * when at least the interval has elapsed since it (the boundary is due).
   */
  predicate IsDue(store: Store, now: int): (due: bool)
    ensures LastUpdate(store).None? ==> due
    ensures !due ==> LastUpdate(store).Some? && now < LastUpdate(store).value + StoredInterval(store).TimeInterval()
  {
    match LastUpdate(store)
    case None => true
    case Some(last) => now - last >= StoredInterval(store).TimeInterval()
  }

  /** Writing an interval and reading it back gives that interval. */
  lemma IntervalRoundTrip(store: Store, i: UpdateInterval)
    ensures StoredInterval(store[UpdateIntervalKey := EncodedInterval(i)]) == i
    ensures LastUpdate(store[UpdateIntervalKey := EncodedInterval(i)]) == LastUpdate(store)
  {
  }

  /** A fresh install, with nothing stored, is always due. */
  lemma NeverUpdatedIsDue(store: Store, now: int)
    requires LastUpdateKey !in store
    ensures IsDue(store, now)
  {
  }

  /** With a stored date: due exactly when the elapsed time reaches the interval. */
  lemma DueIffElapsed(store: Store, now: int, last: int)
    requires LastUpdateKey in store && store[LastUpdateKey] == DateValue(last)
    ensures IsDue(store, now) <==> now - last >= StoredInterval(store).TimeInterval()
  {
  }

  /** Five minutes after an update with a one-day interval: not due; twenty-five hours after: due. */
  lemma DueExamples(now: int)
    ensures !IsDue(map[UpdateIntervalKey := EncodedInterval(Default), LastUpdateKey := DateValue(now - 300)], now)
    ensures IsDue(map[UpdateIntervalKey := EncodedInterval(Default), LastUpdateKey := DateValue(now - 90000)], now)
    ensures IsDue(map[LastUpdateKey := DateValue(now - 86400)], now)
  {
    DefaultIsOneDay();
  }

  /** Why the scheduler asked for an update. */
  datatype UpdateRequest = AtStart | OnTick

  class BackgroundService {
    /** The standard user defaults, as far as this service uses them. */
    var store: Store
    /** The repeating timer: its period in seconds while armed, `None` when there is none. */
    var timer: Option<int>
    /** The `AppState.updateWallpaper()` calls this service has issued, in order. */
    var requests: seq<UpdateRequest>

    constructor (store: Store)
      ensures this.store == store && timer == None && requests == []
    {
      this.store := store;
      timer := None;
      requests := [];
    }

    /** `updateInterval`. */
    function UpdateInterval(): (i: UpdateInterval)
      reads this
      ensures !HoldsInterval(store, UpdateIntervalKey) ==> i == Default
      ensures HoldsInterval(store, UpdateIntervalKey) ==> i == store[UpdateIntervalKey].interval
    {
      StoredInterval(store)
    }

    /** `updateInterval` setter: the JSON encoding of a two-integer record cannot fail. */
    method SetStoredInterval(i: UpdateInterval)
      modifies this
      ensures store == old(store)[UpdateIntervalKey := EncodedInterval(i)]
      ensures UpdateInterval() == i
      ensures timer == old(timer) && requests == old(requests)
    {
      store := store[UpdateIntervalKey := EncodedInterval(i)];
    }

    /** `shouldUpdateWallpaper()` at time `now`. */
    function ShouldUpdateWallpaper(now: int): (due: bool)
      reads this
      ensures LastUpdate(store).None? ==> due
      ensures LastUpdate(store).Some? ==>
                (due <==> now - LastUpdate(store).value >= UpdateInterval().TimeInterval())
    {
      IsDue(store, now)
    }

    /**
     * `startBackgroundUpdates()`: any timer is stopped first, one update is
     * requested if one is due, and a single timer is armed whose period is
     * the interval itself.
     */
    method StartBackgroundUpdates(now: int)
      modifies this
      ensures timer == Some(StoredInterval(store).TimeInterval())
      ensures requests == old(requests) + (if IsDue(store, now) then [AtStart] else [])
      ensures store == old(store)
    {
      StopBackgroundUpdates();
      if ShouldUpdateWallpaper(now) {
        requests := requests + [AtStart];
      }
      timer := Some(UpdateInterval().TimeInterval());
    }

    /** `stopBackgroundUpdates()`: idempotent; afterwards there is no timer. */
    method StopBackgroundUpdates()
      modifies this
      ensures timer == None
      ensures store == old(store) && requests == old(requests)
    {
      timer := None;
    }

    /** The timer fires: it asks for an update without checking whether one is due. */
    method Tick()
      modifies this
      ensures requests == old(requests) + (if old(timer).Some? then [OnTick] else [])
      ensures store == old(store) && timer == old(timer)
    {
      if timer.Some? {
        requests := requests + [OnTick];
      }
    }

    /** `updateLastUpdateTime()`: records `now` under `LastWallpaperUpdate`, nothing else. */
    method UpdateLastUpdateTime(now: int)
      modifies this
      ensures store == old(store)[LastUpdateKey := DateValue(now)]
      ensures LastUpdate(store) == Some(now)
      ensures StoredInterval(store) == StoredInterval(old(store))
      ensures timer == old(timer) && requests == old(requests)
    {
      store := store[LastUpdateKey := DateValue(now)];
    }

    /**
     * `setUpdateInterval(_:)`: always persists the interval; restarts the
     * timer only if one is armed, so an idle service stays idle.
     */
    method SetUpdateInterval(i: UpdateInterval, now: int)
      modifies this
      ensures store == old(store)[UpdateIntervalKey := EncodedInterval(i)]
      ensures old(timer).None? ==> timer == None && requests == old(requests)
      ensures old(timer).Some? ==>
                timer == Some(i.TimeInterval())
                && requests == old(requests) + (if IsDue(store, now) then [AtStart] else [])
    {
      SetStoredInterval(i);
      if timer.Some? {
        StopBackgroundUpdates();
        StartBackgroundUpdates(now);
      }
    }
  }
}
