/** The fixed lookup from an Open Library provider format to a MIME type
    (`map_ol_format_to_mime`). */
module Formats {
  import opened Wrappers

  /** The four formats a provider entry may declare (`Literal['web', 'pdf', 'epub', 'audio']`). */
  datatype Format = Web | Pdf | Epub | Audio

  /** The literal string under which a format appears in a search document. */
  function FormatName(f: Format): string {
    match f
    case Web => "web"
    case Pdf => "pdf"
    case Epub => "epub"
    case Audio => "audio"
  }

  const MimeTable: map<string, string> :=
    map["web" := "text/html",
        "pdf" := "application/pdf",
        "epub" := "application/epub+zip",
        "audio" := "audio/mpeg"]

  /** `mapping.get(ol_format)`: the MIME type for a format name, absent for any
      other string. */
  function FormatToMime(name: string): (r: Option<string>)
    ensures r.Some? <==> exists f: Format :: FormatName(f) == name
    ensures r.Some? ==> name in MimeTable && r.value == MimeTable[name]
  {
    if name in MimeTable then
      assert name == FormatName(Web) || name == FormatName(Pdf)
          || name == FormatName(Epub) || name == FormatName(Audio);
      Some(MimeTable[name])
    else None
  }

  /** The MIME type of each declared format. */
  lemma FormatMimePairs()
    ensures FormatToMime(FormatName(Web)) == Some("text/html")
    ensures FormatToMime(FormatName(Pdf)) == Some("application/pdf")
    ensures FormatToMime(FormatName(Epub)) == Some("application/epub+zip")
    ensures FormatToMime(FormatName(Audio)) == Some("audio/mpeg")
  {
  }

  /** Every declared format has a MIME type, and different formats have different ones. */
  lemma MimeOfFormat(f: Format, g: Format)
    ensures FormatToMime(FormatName(f)).Some?
    ensures FormatToMime(FormatName(f)) == FormatToMime(FormatName(g)) ==> f == g
  {
  }
}
