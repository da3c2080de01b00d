/** The application's error taxonomy and its user-facing descriptions. */
module AppErrors {
  import opened Wrappers
  import opened Localizable

  /** The seven cases of `AppError`; none carries a payload. */
  datatype AppError =
    | NetworkUnavailable
    | ImageDownloadFailed
    | InvalidImageData
    | CacheSaveFailed
    | WallpaperSetFailed
    | MaxRetryAttemptsReached
    | FileNotFound

  /** Every case of `AppError`, in declaration order. */
  const AllAppErrors: seq<AppError> := [
    NetworkUnavailable, ImageDownloadFailed, InvalidImageData, CacheSaveFailed,
    WallpaperSetFailed, MaxRetryAttemptsReached, FileNotFound
  ]

  /**
   * Errors thrown by the operating system rather than by the application:
   * a directory that cannot be listed, a file that cannot be removed, a
   * desktop image the workspace refuses for a screen.
   */
  datatype SystemError =
    | DirectoryUnreadable
    | RemoveFailed(name: string)
    | DesktopImageRejected(screen: nat)

  /** Anything a `throws` function of the core can throw. */
  datatype Failure = App(error: AppError) | System(cause: SystemError)

  datatype Result<+T> = Ok(value: T) | Err(failure: Failure)

  datatype Outcome = Pass | Fail(failure: Failure)

  /** `errorDescription`: a total mapping, one string-table entry per case. */
  function ErrorDescription(e: AppError): (r: Option<Text>)
    ensures r.Some? && r.value.Localized?
    ensures r.value != UnknownErrorText
  {
    match e
    case NetworkUnavailable => Some(NetworkUnavailableText)
    case ImageDownloadFailed => Some(ImageDownloadFailedText)
    case InvalidImageData => Some(InvalidImageDataText)
    case CacheSaveFailed => Some(CacheSaveFailedText)
    case WallpaperSetFailed => Some(WallpaperSetFailedText)
    case MaxRetryAttemptsReached => Some(MaxRetryAttemptsReachedText)
    case FileNotFound => Some(FileNotFoundText)
  }

  /** What an `error` field shows: a string-table text, or a system error's own description. */
  datatype Message = Shown(text: Text) | SystemDescription(cause: SystemError)

  /**
   * `error.localizedDescription`: for an `AppError` (a `LocalizedError`) it is
   * the `errorDescription`; a system error describes itself.
   */
  function LocalizedDescription(f: Failure): (m: Message)
    ensures f.App? ==> m == Shown(ErrorDescription(f.error).value)
    ensures f.System? ==> m == SystemDescription(f.cause)
  {
    match f
    case App(e) => Shown(ErrorDescription(e).value)
    case System(c) => SystemDescription(c)
  }

  /** The enumeration is complete and without repetition: exactly seven cases. */
  lemma AllAppErrorsComplete(e: AppError)
    ensures e in AllAppErrors
    ensures |AllAppErrors| == 7
    ensures forall i, j :: 0 <= i < j < |AllAppErrors| ==> AllAppErrors[i] != AllAppErrors[j]
  {
  }

  /** Distinct cases have distinct descriptions, so a description identifies its case. */
  lemma ErrorDescriptionInjective(a: AppError, b: AppError)
    ensures ErrorDescription(a) == ErrorDescription(b) <==> a == b
  {
  }
}
