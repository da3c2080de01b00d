/**
 * Localized strings of the application. `NSLocalizedString` looks a key up in
 * the string tables at run time; the model keeps only the key, so two texts
 * are equal exactly when they come from the same key (or the same literal).
 */
module Localizable {

  datatype Text = Localized(key: string) | Literal(value: string)

  // Localizable.Error
  const NetworkUnavailableText := Localized("error.network_unavailable")
  const ImageDownloadFailedText := Localized("error.download_failed")
  const InvalidImageDataText := Localized("error.invalid_image")
  const CacheSaveFailedText := Localized("error.cache_save_failed")
  const WallpaperSetFailedText := Localized("error.wallpaper_set_failed")
  const MaxRetryAttemptsReachedText := Localized("error.max_retry_reached")
  const UnknownErrorText := Localized("error.unknown")
  const FileNotFoundText := Localized("error.file_not_found")

  // Localizable.Time
  const HoursOnlyFormat := Localized("time.hours_only")
  const MinutesOnlyFormat := Localized("time.minutes_only")
  const HoursAndMinutesFormat := Localized("time.hours_and_minutes")
  const HoursWord := Localized("hours")
  const MinutesWord := Localized("minutes")
  const HourWord := Localized("hour")
  const MinuteWord := Localized("minute")
  const EveryWord := Localized("every")

  // WallpaperMode.localizedName
  const SameModeName := Localized("wallpaper.mode.same")
  const DifferentModeName := Localized("wallpaper.mode.different")
}
