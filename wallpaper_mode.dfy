/** How wallpapers are spread over several displays. */
module WallpaperModes {
  import opened Wrappers
  import opened Localizable

  /** `same`: one image on every screen; `different`: its own image per screen. */
  datatype WallpaperMode = Same | Different {

    /** The raw `String` value the enum is persisted as. */
    function RawValue(): (s: string)
      ensures s == "same" || s == "different"
      ensures s == "same" <==> this == Same
    {
      match this
      case Same => "same"
      case Different => "different"
    }

    /** `localizedName`: a string-table entry of its own for each mode. */
    function LocalizedName(): (t: Text)
      ensures t.Localized?
    {
      match this
      case Same => SameModeName
      case Different => DifferentModeName
    }
  }

  /** `WallpaperMode(rawValue:)`: the failable initializer. */
  function FromRawValue(s: string): (r: Option<WallpaperMode>)
    ensures r.Some? <==> s == "same" || s == "different"
    ensures s == "same" ==> r == Some(Same)
  {
    if s == "same" then Some(Same)
    else if s == "different" then Some(Different)
    else None
  }

  /** `allCases`, in declaration order. */
  const AllCases: seq<WallpaperMode> := [Same, Different]

  /** The raw values are a lossless encoding: decoding the encoding gives the mode back. */
  lemma RawValueRoundTrip(m: WallpaperMode)
    ensures FromRawValue(m.RawValue()) == Some(m)
    ensures forall s :: FromRawValue(s) == Some(m) ==> s == m.RawValue()
  {
  }

  /** Each mode has its own string-table entry. */
  lemma LocalizedNamesDistinct(m: WallpaperMode, n: WallpaperMode)
    ensures m.LocalizedName() == n.LocalizedName() <==> m == n
  {
  }

  /** `allCases` lists every mode exactly once, `same` first. */
  lemma AllCasesComplete(m: WallpaperMode)
    ensures m in AllCases
    ensures |AllCases| == 2 && AllCases[0] == Same && AllCases[1] == Different
  {
  }
}
