# Open Library to OPDS 2.0 record mapping, in Dafny

This project models the record-mapping layer of `pyopds2_openlibrary`. The layer takes one
Open Library search document and turns it into the parts of an OPDS 2.0 publication. A search
document is a *work*, which may carry a nested block of *editions*. The model covers:

- the choice of the **effective book**: the first edition when the editions block has a
  non-empty docs list, otherwise the work itself;
- `links()`: a `self` link and an `alternate` JSON link for the effective book, then one
  acquisition link per provider of the effective edition, in provider order. The MIME type of
  an acquisition link comes from the fixed format table (`web`, `pdf`, `epub`, `audio`);
- `images()`: one large-cover link when the effective book's cover id is non-zero, otherwise
  no list at all;
- `metadata()`: the constant type `http://schema.org/Book`. Title, subtitle, description and
  languages come from the effective book. Authors and page count come from the work. Authors
  are zipped from `author_name` and `author_key`;
- language translation: the table-building loop over the entries of the language query
  (short code is the last `/` segment of `key`, value is the first `iso_639_1` code, last
  entry wins), the lookup of one code, and the filtering translation of a language list;
- the page number sent with a search: `(offset // limit) + 1`, or 1 when `limit` is 0.

Modules:

- `Wrappers` (`wrappers.dfy`): `Option` and `Result`.
- `Decimal` (`decimal.dfy`): Python's `str(int)` and a parser that undoes it.
- `Formats` (`formats.dfy`): the format→MIME table.
- `Languages` (`languages.dfy`): the language table and translation.
- `Records` (`records.dfy`): the input and output datatypes, plus `links`, `images` and `metadata`.
- `RecordProperties` (`record_properties.dfy`): lemmas relating the parts.
- `Search` (`search.dfy`): the page arithmetic.

Python behaviour the model writes out explicitly:

- A missing `key` or `access` renders as the text `None` inside an f-string. This is `PyText`.
- A `cover_i` of 0 counts as no cover.
- An empty `author_name` list gives no author list (`None`), not an empty one.
- When `author_name` is non-empty but `author_key` is absent, `zip` raises `TypeError`. The
  model returns `Failure(AuthorKeysMissing)` for this case.
- A language whose mapping is the empty string is dropped by the walrus filter.
- `//` is floor division. Dafny's `/` is Euclidean, so `Search.FloorDiv` writes floor
  division out for negative divisors.

Three behaviours of the code worth noting:

- Languages come from the **effective book's** `language` field (`__init__.py:122`), not
  from the work. So a work with an edition that has no languages yields `[]`.
- In the language table, a later entry with the same short code **overwrites** an earlier
  one (`__init__.py:169`).
- The format of a provider is one of four literals, and each has a MIME type. So an
  acquisition link lacks a MIME type exactly when its provider declares no format.

## Model

| member | source | states |
|---|---|---|
| Records.EffectiveBookSelection | pyopds2_openlibrary/__init__.py:59-60 | the effective book is `editions.docs[0]` when the block and a non-empty docs list are present; otherwise it is the work (block absent, docs absent, or docs empty) |
| Records.Links | pyopds2_openlibrary/__init__.py:58-84 | `links()` has length 2 + (providers of the effective edition). Link 0 is the self link and link 1 the alternate link of the effective book. Link 2+i is the acquisition link of provider i |
| Records.AcquisitionLinks | pyopds2_openlibrary/__init__.py:77-84 | one acquisition link per provider, same length, provider order kept |
| RecordProperties.LinksWithoutProviders | pyopds2_openlibrary/__init__.py:60-75 | with no effective edition, or with absent or empty providers: exactly two links, `self`/`text/html` at URL+key and `alternate`/`application/json` at URL+key+".json" |
| RecordProperties.BareWorkLinks | pyopds2_openlibrary/__init__.py:59-75 | a work without an editions block gets exactly its own two structural links, built from its own key |
| RecordProperties.AlternateIsSelfJson | pyopds2_openlibrary/__init__.py:62-71 | the alternate href is the self href followed by ".json" |
| RecordProperties.AcquisitionLinkFields | pyopds2_openlibrary/__init__.py:77-84 | link 2+i has href = provider i's url and rel = "http://opds-spec.org/acquisition/" + access ("None" when absent). Its MIME type is the table's value for the provider's format, and absent exactly when the provider declares no format |
| RecordProperties.MissingKeyRendersNone | pyopds2_openlibrary/__init__.py:61-72 | an absent key renders as "None": the hrefs are `https://openlibrary.orgNone` and `https://openlibrary.orgNone.json` |
| RecordProperties.MissingAccessRendersNone | pyopds2_openlibrary/__init__.py:80 | an absent access mode gives the rel `http://opds-spec.org/acquisition/None` |
| Formats.FormatToMime | pyopds2_openlibrary/__init__.py:133-141 | a MIME type is returned exactly for the four format names, and it is one of the table's values. Any other string gives none |
| Formats.FormatMimePairs | pyopds2_openlibrary/__init__.py:135-140 | the four pairs of the table: web→text/html, pdf→application/pdf, epub→application/epub+zip, audio→audio/mpeg |
| Formats.MimeOfFormat | pyopds2_openlibrary/__init__.py:133-141 | every declared format has a MIME type, and different formats get different MIME types |
| Records.Images | pyopds2_openlibrary/__init__.py:86-93 | a list exists exactly when the effective book's cover id is present and non-zero. It is then the single cover link for that id, never an empty list |
| RecordProperties.CoverLinkFields | pyopds2_openlibrary/__init__.py:89-92 | the single image link has rel `cover`, type `image/jpeg` and href `https://covers.openlibrary.org/b/id/` + str(cover id) + `-L.jpg` |
| RecordProperties.BareWorkImages | pyopds2_openlibrary/__init__.py:86-93 | without an editions block, the images reflect only the work's own cover id |
| RecordProperties.ZeroCoverIsNoCover | pyopds2_openlibrary/__init__.py:89-93 | cover id 0 is falsy, so there are no images (None, not []) |
| RecordProperties.EditionShadowsWork | pyopds2_openlibrary/__init__.py:58-125 | once a first edition exists, changing the work's own shared fields (key, title, cover, languages, ...) changes none of links, images and metadata |
| RecordProperties.CoverHrefInjective | pyopds2_openlibrary/__init__.py:91 | different cover ids give different cover URLs |
| RecordProperties.CoverHrefExample | pyopds2_openlibrary/__init__.py:91 | cover id 8739161 gives `https://covers.openlibrary.org/b/id/8739161-L.jpg` |
| Decimal.NatToDecimal | pyopds2_openlibrary/__init__.py:91 | the rendering of a natural number is non-empty, all digits, and starts with '0' only for 0 |
| Decimal.IntToDecimal | pyopds2_openlibrary/__init__.py:91 | the rendering of an integer is non-empty and starts with '-' exactly for negative numbers |
| Decimal.IntRoundTrip | pyopds2_openlibrary/__init__.py:91 | parsing the rendering of any integer gives the integer back |
| Decimal.NatRoundTrip | pyopds2_openlibrary/__init__.py:91 | the digit value of the rendering of n is n |
| Decimal.IntToDecimalInjective | pyopds2_openlibrary/__init__.py:91 | equal renderings imply equal integers |
| Records.ZipAuthors | pyopds2_openlibrary/__init__.py:110 | the zip has length min(names, keys). Entry i pairs name i with one author link to key i |
| Records.Authors | pyopds2_openlibrary/__init__.py:97-111 | an error exactly when names are non-empty and keys are absent. No author list exactly when names are absent or empty |
| RecordProperties.AuthorsZipped | pyopds2_openlibrary/__init__.py:97-111 | with non-empty names and present keys: min(names, keys) contributors. Contributor i has name `author_name[i]` and one `author` link to URL + "/authors/" + `author_key[i]` |
| RecordProperties.AuthorsFromWorkOnly | pyopds2_openlibrary/__init__.py:97-111 | the authors change with neither the work's shared fields nor its editions |
| Records.MetadataOf | pyopds2_openlibrary/__init__.py:95-125 | metadata fails exactly when the authors fail. Otherwise the type is `http://schema.org/Book`, the page count is the work's median, and the authors are the work's |
| RecordProperties.MetadataFromEffectiveBook | pyopds2_openlibrary/__init__.py:113-124 | title, subtitle, description and languages are those of the effective book. Languages are its codes translated through the table |
| Languages.Translate | pyopds2_openlibrary/__init__.py:144-149 | the lookup of one code is absent exactly when the code is not in the table, and otherwise gives the table's value for it. It depends on nothing but the code and the table |
| Languages.TranslateCodes | pyopds2_openlibrary/__init__.py:122 | the output is no longer than the input. Every output value is non-empty and is the table value of some input code |
| Languages.TranslateLanguages | pyopds2_openlibrary/__init__.py:122 | an absent language list gives `[]`. A present one gives its filtered translation (the `TranslateCodes` of the list), never longer than the list |
| Languages.TranslateConcat | pyopds2_openlibrary/__init__.py:122 | translating a concatenation gives the concatenation of the translations, so order is preserved |
| Languages.TranslateAllKnown | pyopds2_openlibrary/__init__.py:122 | when every code has a non-empty mapping, nothing is dropped: output i is the mapping of code i |
| Languages.TranslateMembership | pyopds2_openlibrary/__init__.py:122 | a value is in the output exactly when some input code maps to it and it is non-empty |
| Languages.UnknownCodeDropped | pyopds2_openlibrary/__init__.py:122 | with table `{"eng": "en"}`, the codes `["eng", "xyz"]` translate to `["en"]` |
| Languages.LastSlash | pyopds2_openlibrary/__init__.py:163 | the index of the last '/' in the key (-1 when there is none): it points at a '/', and no '/' follows it |
| Languages.LastSegmentSpec | pyopds2_openlibrary/__init__.py:163 | the short code is a suffix of the key that contains no '/'. It is preceded by '/' unless it is the whole key |
| Languages.BuildLanguageTable | pyopds2_openlibrary/__init__.py:160-170 | the loop builds the table that applies the entries in order, each contributing entry setting its short code |
| Languages.TableKeys | pyopds2_openlibrary/__init__.py:162-169 | a short code is in the table exactly when some entry with that short code has non-empty identifiers with a non-empty `iso_639_1` list |
| Languages.TableLastWins | pyopds2_openlibrary/__init__.py:162-169 | a short code maps to the first ISO code of the last contributing entry with that short code |
| Search.FloorDiv | pyopds2_openlibrary/__init__.py:196 | the quotient rounds toward negative infinity, for both signs of the divisor |
| Search.Page | pyopds2_openlibrary/__init__.py:196 | limit 0 gives page 1. Otherwise `offset` lies in the limit-sized block numbered page−1 |
| Search.PageAtLeastOne | pyopds2_openlibrary/__init__.py:196 | a non-negative offset with a positive limit gives a page of at least 1 |
| Search.PageExample | pyopds2_openlibrary/__init__.py:196 | offset 20 with limit 10 gives page 3; limit 0 gives page 1 |
| RecordProperties.FantasticMrFoxLinks | tests/test_openlibrary_catalog.py:24-48 | the catalogue test's work, whose only edition has one open web provider, gets the edition's self and alternate links and one `acquisition/open` link typed `text/html` |

## Left out

- HTTP requests and status checks (`__init__.py:158-159`, `:201-202`) and JSON decoding are
  I/O. The language entries and search documents are inputs that are already decoded.
- The `functools.cache` memoisation of `fetch_languages_map` is process-global state. The
  table is a parameter here, so translation is a pure function of the table.
- pydantic validation and the external `opds2` types (`Link`, `Metadata`, `Contributor`,
  `SearchResponse`) are replaced by local datatypes. Nothing here checks, for example, that
  a title is present, or that an acquisition link has an href when the provider has no url.
- The assembly of `SearchResponse` in `search` (the per-document loop and `numFound`) is glue
  around I/O. Only the page arithmetic is modelled.
- The float `price` of a provider is not used by the mapping, and floats are out of scope.
- The provider constants and the `fields` list are constants with nothing to prove. The
  optional sort parameter only passes through to the HTTP query.
- Every language entry is taken to carry a `key`, as its typed-dict declaration requires. An
  entry without one would raise `KeyError`, and that case is not modelled.
- The test at `tests/test_openlibrary_catalog.py:175,180` expects at least three links and
  "opds" in the self href. The code gives two links with an `https://openlibrary.org` href.
  The model follows the code.
