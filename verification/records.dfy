/** The record-mapping layer: one Open Library search document (a work with an
    optional nested editions block) turned into the parts of an OPDS 2.0
    publication — its type, links, cover images and metadata. */
module Records {
  import opened Wrappers
  import opened Decimal
  import opened Formats
  import opened Languages

  // ---------------------------------------------------------------------------
  // Input: already-decoded search documents
  // ---------------------------------------------------------------------------

  /** The fields a work and an edition share (`BookSharedDoc`). */
  datatype BookDoc = BookDoc(
    key: Option<string>,
    title: Option<string>,
    subtitle: Option<string>,
    description: Option<string>,
    coverId: Option<int>,
    ebookAccess: Option<string>,
    language: Option<seq<string>>)

  /** Acquisition information of an edition (`EditionProvider`); the float price is not modelled. */
  datatype Provider = Provider(
    access: Option<string>,
    format: Option<Format>,
    url: Option<string>,
    providerName: Option<string>)

  /** An edition document (`EditionDoc`). */
  datatype Edition = Edition(doc: BookDoc, providers: Option<seq<Provider>>)

  /** The nested editions block (`EditionsResultSet`). */
  datatype EditionsResultSet = EditionsResultSet(
    numFound: Option<int>,
    start: Option<int>,
    numFoundExact: Option<bool>,
    docs: Option<seq<Edition>>)

  /** A work document (`OpenLibraryDataRecord`). */
  datatype Work = Work(
    doc: BookDoc,
    authorKey: Option<seq<string>>,
    authorName: Option<seq<string>>,
    editions: Option<EditionsResultSet>,
    numberOfPagesMedian: Option<int>)

  // ---------------------------------------------------------------------------
  // Output: OPDS parts
  // ---------------------------------------------------------------------------

  /** An OPDS link. Only an acquisition link can lack its href (a provider without a url). */
  datatype Link = Link(href: Option<string>, rel: string, mimeType: Option<string>)

  datatype Contributor = Contributor(name: string, links: seq<Link>)

  datatype Metadata = Metadata(
    typ: string,
    title: Option<string>,
    subtitle: Option<string>,
    author: Option<seq<Contributor>>,
    description: Option<string>,
    language: seq<string>,
    numberOfPages: Option<int>)

  /** The error the mapping can raise: `zip(author_name, None)` is a `TypeError`. */
  datatype MappingError = AuthorKeysMissing

  const BaseUrl: string := "https://openlibrary.org"
  const BookType: string := "http://schema.org/Book"
  const AcquisitionRel: string := "http://opds-spec.org/acquisition/"
  const CoverUrlPrefix: string := "https://covers.openlibrary.org/b/id/"
  const CoverUrlSuffix: string := "-L.jpg"

  /** How an optional string renders inside a Python f-string: `None` becomes "None". */
  function PyText(s: Option<string>): string {
    match s
    case Some(t) => t
    case None => "None"
  }

  // ---------------------------------------------------------------------------
  // Effective book
  // ---------------------------------------------------------------------------

  /** `self.editions.docs[0] if self.editions and self.editions.docs else None`. */
  function FirstEdition(w: Work): Option<Edition> {
    match w.editions
    case None => None
    case Some(block) =>
      match block.docs
      case None => None
      case Some(docs) => if |docs| > 0 then Some(docs[0]) else None
  }

  /** `edition or self`: the first edition when there is one, otherwise the work. */
  function EffectiveBook(w: Work): BookDoc {
    match FirstEdition(w)
    case Some(e) => e.doc
    case None => w.doc
  }

  /** The selection rule stated on the raw fields: the first edition wins when the
      editions block and its docs list are present and non-empty; otherwise the work. */
  lemma EffectiveBookSelection(w: Work)
    ensures w.editions.Some? && w.editions.value.docs.Some? && |w.editions.value.docs.value| > 0
      ==> EffectiveBook(w) == w.editions.value.docs.value[0].doc
    ensures (w.editions.None? || w.editions.value.docs.None? || w.editions.value.docs.value == [])
      ==> EffectiveBook(w) == w.doc
  {
  }

  // ---------------------------------------------------------------------------
  // links()
  // ---------------------------------------------------------------------------

  function SelfLink(book: BookDoc): Link {
    Link(Some(BaseUrl + PyText(book.key)), "self", Some("text/html"))
  }

  function AlternateLink(book: BookDoc): Link {
    Link(Some(BaseUrl + PyText(book.key) + ".json"), "alternate", Some("application/json"))
  }

  /** One acquisition link: the provider's url, a rel naming its access mode, and
      the MIME type of its format when it declares one. */
  function AcquisitionLink(p: Provider): Link {
    Link(p.url,
         AcquisitionRel + PyText(p.access),
         match p.format
         case Some(f) => FormatToMime(FormatName(f))
         case None => None)
  }

  /** The providers of the effective edition; none when the work has no edition. */
  function Providers(w: Work): seq<Provider> {
    match FirstEdition(w)
    case None => []
    case Some(e) => e.providers.GetOr([])
  }

  /** The comprehension over `edition.providers`. */
  function AcquisitionLinks(ps: seq<Provider>): (r: seq<Link>)
    ensures |r| == |ps|
    ensures forall i :: 0 <= i < |ps| ==> r[i] == AcquisitionLink(ps[i])
    decreases |ps|
  {
    if |ps| == 0 then [] else [AcquisitionLink(ps[0])] + AcquisitionLinks(ps[1..])
  }

  /** `links()`: the two structural links of the effective book, then one
      acquisition link per provider of the effective edition, in provider order. */
  function Links(w: Work): (r: seq<Link>)
    ensures |r| == 2 + |Providers(w)|
    ensures r[0] == SelfLink(EffectiveBook(w))
    ensures r[1] == AlternateLink(EffectiveBook(w))
    ensures forall i :: 0 <= i < |Providers(w)| ==> r[2 + i] == AcquisitionLink(Providers(w)[i])
  {
    var book := EffectiveBook(w);
    [SelfLink(book), AlternateLink(book)] + AcquisitionLinks(Providers(w))
  }

  // ---------------------------------------------------------------------------
  // images()
  // ---------------------------------------------------------------------------

  function CoverHref(coverId: int): string {
    CoverUrlPrefix + IntToDecimal(coverId) + CoverUrlSuffix
  }

  function CoverLink(coverId: int): Link {
    Link(Some(CoverHref(coverId)), "cover", Some("image/jpeg"))
  }

  /** `images()`: one cover link when the effective book's cover id is present and
      non-zero (Python truthiness), otherwise no list at all. */
  function Images(w: Work): (r: Option<seq<Link>>)
    ensures r.Some? <==> EffectiveBook(w).coverId.Some? && EffectiveBook(w).coverId.value != 0
    ensures r.Some? ==> r.value == [CoverLink(EffectiveBook(w).coverId.value)]
  {
    var book := EffectiveBook(w);
    match book.coverId
    case Some(c) => if c != 0 then Some([CoverLink(c)]) else None
    case None => None
  }

  // ---------------------------------------------------------------------------
  // metadata()
  // ---------------------------------------------------------------------------

  function AuthorLink(key: string): Link {
    Link(Some(BaseUrl + "/authors/" + key), "author", Some("text/html"))
  }

  /** `zip(author_name, author_key)`: pairs up to the shorter list. */
  function ZipAuthors(names: seq<string>, keys: seq<string>): (r: seq<Contributor>)
    ensures |r| == if |names| <= |keys| then |names| else |keys|
    ensures forall i :: 0 <= i < |r| ==> r[i] == Contributor(names[i], [AuthorLink(keys[i])])
    decreases |names|
  {
    if |names| == 0 || |keys| == 0 then []
    else [Contributor(names[0], [AuthorLink(keys[0])])] + ZipAuthors(names[1..], keys[1..])
  }

  /** `get_authors()`: no list for absent or empty names; a `TypeError` when names
      are present but keys are absent; otherwise the zipped contributors. */
  function Authors(w: Work): (r: Result<Option<seq<Contributor>>, MappingError>)
    ensures r.Failure? <==> w.authorName.Some? && |w.authorName.value| > 0 && w.authorKey.None?
    ensures r.Success? && r.value.None? <==> w.authorName.None? || w.authorName.value == []
  {
    match w.authorName
    case None => Success(None)
    case Some(names) =>
      if |names| == 0 then Success(None)
      else
        match w.authorKey
        case None => Failure(AuthorKeysMissing)
        case Some(keys) => Success(Some(ZipAuthors(names, keys)))
  }

  /** `metadata()`: type is constant; title, subtitle, description and languages
      come from the effective book; authors and page count from the work. */
  function MetadataOf(w: Work, table: map<string, string>): (r: Result<Metadata, MappingError>)
    ensures r.Failure? <==> Authors(w).Failure?
    ensures r.Success? ==> r.value.typ == BookType
    ensures r.Success? ==> r.value.numberOfPages == w.numberOfPagesMedian
    ensures r.Success? ==> r.value.author == Authors(w).value
  {
    var book := EffectiveBook(w);
    match Authors(w)
    case Failure(e) => Failure(e)
    case Success(authors) =>
      Success(Metadata(
        typ := BookType,
        title := book.title,
        subtitle := book.subtitle,
        author := authors,
        description := book.description,
        language := TranslateLanguages(book.language, table),
        numberOfPages := w.numberOfPagesMedian))
  }
}
