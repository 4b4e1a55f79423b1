/** Properties of the record mapping that relate several of its parts or pin
    down its edge cases on the raw input fields. */
module RecordProperties {
  import opened Wrappers
  import opened Decimal
  import opened Formats
  import opened Languages
  import opened Records

  /** Without an effective edition, or with an edition whose provider list is
      absent or empty, there are exactly the two structural links, built from the
      effective book's key. */
  lemma LinksWithoutProviders(w: Work)
    requires FirstEdition(w).None? || FirstEdition(w).value.providers.GetOr([]) == []
    ensures |Links(w)| == 2
    ensures Links(w)[0] == Link(Some(BaseUrl + PyText(EffectiveBook(w).key)), "self", Some("text/html"))
    ensures Links(w)[1] == Link(Some(BaseUrl + PyText(EffectiveBook(w).key) + ".json"), "alternate", Some("application/json"))
  {
  }

  /** A bare work (no editions block) links to its own key. */
  lemma BareWorkLinks(w: Work)
    requires w.editions.None?
    ensures Links(w) == [Link(Some(BaseUrl + PyText(w.doc.key)), "self", Some("text/html")),
                         Link(Some(BaseUrl + PyText(w.doc.key) + ".json"), "alternate", Some("application/json"))]
  {
  }

  /** The alternate link is the self link with ".json" appended. */
  lemma AlternateIsSelfJson(w: Work)
    ensures Links(w)[0].href.Some? && Links(w)[1].href.Some?
    ensures Links(w)[1].href.value == Links(w)[0].href.value + ".json"
  {
  }

  /** Acquisition link `2 + i` carries provider i's url, a rel naming its access
      mode ("None" when absent), and a MIME type exactly when the provider
      declares a format. */
  lemma AcquisitionLinkFields(w: Work, i: int)
    requires FirstEdition(w).Some? && FirstEdition(w).value.providers.Some?
    requires 0 <= i < |FirstEdition(w).value.providers.value|
    ensures 2 + i < |Links(w)|
    ensures Links(w)[2 + i].href == FirstEdition(w).value.providers.value[i].url
    ensures Links(w)[2 + i].rel == AcquisitionRel + PyText(FirstEdition(w).value.providers.value[i].access)
    ensures Links(w)[2 + i].mimeType.Some? <==> FirstEdition(w).value.providers.value[i].format.Some?
    ensures Links(w)[2 + i].mimeType ==
      (var f := FirstEdition(w).value.providers.value[i].format;
       if f.Some? then Some(MimeTable[FormatName(f.value)]) else None)
  {
    var p := FirstEdition(w).value.providers.value[i];
    assert Links(w)[2 + i] == AcquisitionLink(p);
    if p.format.Some? {
      MimeOfFormat(p.format.value, p.format.value);
    }
  }

  /** An absent key renders as the text "None" in both structural hrefs. */
  lemma MissingKeyRendersNone(w: Work)
    requires EffectiveBook(w).key.None?
    ensures Links(w)[0].href == Some("https://openlibrary.orgNone")
    ensures Links(w)[1].href == Some("https://openlibrary.orgNone.json")
  {
    assert PyText(None) == "None";
    assert BaseUrl + "None" == "https://openlibrary.orgNone";
    assert BaseUrl + "None" + ".json" == "https://openlibrary.orgNone.json";
  }

  /** An absent access mode renders as the text "None" in the acquisition rel. */
  lemma MissingAccessRendersNone(p: Provider)
    requires p.access.None?
    ensures AcquisitionLink(p).rel == "http://opds-spec.org/acquisition/None"
  {
    assert PyText(None) == "None";
    assert AcquisitionRel + "None" == "http://opds-spec.org/acquisition/None";
  }

  /** The cover link is a large JPEG cover: rel "cover", type "image/jpeg", and
      the href built from the cover id. */
  lemma CoverLinkFields(w: Work)
    requires Images(w).Some?
    ensures EffectiveBook(w).coverId.Some?
    ensures |Images(w).value| == 1
    ensures Images(w).value[0].rel == "cover"
    ensures Images(w).value[0].mimeType == Some("image/jpeg")
    ensures Images(w).value[0].href ==
      Some("https://covers.openlibrary.org/b/id/" + IntToDecimal(EffectiveBook(w).coverId.value) + "-L.jpg")
  {
  }

  /** With no editions block, the images reflect only the work's own cover id. */
  lemma BareWorkImages(w: Work)
    requires w.editions.None?
    ensures Images(w).Some? <==> w.doc.coverId.Some? && w.doc.coverId.value != 0
    ensures Images(w).Some? ==> Images(w).value == [CoverLink(w.doc.coverId.value)]
  {
  }

  /** A cover id of 0 counts as no cover: the images are absent, not empty. */
  lemma ZeroCoverIsNoCover(w: Work)
    requires EffectiveBook(w).coverId == Some(0)
    ensures Images(w) == None
  {
  }

  /** Once a first edition exists, the work's own shared fields (key, title,
      cover, languages, ...) no longer affect links, images or metadata. */
  lemma EditionShadowsWork(w: Work, d: BookDoc, table: map<string, string>)
    requires FirstEdition(w).Some?
    ensures Links(w.(doc := d)) == Links(w)
    ensures Images(w.(doc := d)) == Images(w)
    ensures MetadataOf(w.(doc := d), table) == MetadataOf(w, table)
  {
  }

  /** Authors come only from the work's author fields: changing the work's shared
      fields or its editions does not change them. */
  lemma AuthorsFromWorkOnly(w: Work, d: BookDoc, es: Option<EditionsResultSet>)
    ensures Authors(w.(doc := d, editions := es)) == Authors(w)
  {
  }

  /** With names and keys present and names non-empty, contributor i pairs the
      i-th name with a link to the i-th key, up to the shorter of the two lists. */
  lemma AuthorsZipped(w: Work)
    requires w.authorName.Some? && |w.authorName.value| > 0 && w.authorKey.Some?
    ensures Authors(w).Success? && Authors(w).value.Some?
    ensures |Authors(w).value.value| ==
      if |w.authorName.value| <= |w.authorKey.value| then |w.authorName.value| else |w.authorKey.value|
    ensures forall i :: 0 <= i < |Authors(w).value.value| ==>
      Authors(w).value.value[i].name == w.authorName.value[i] &&
      Authors(w).value.value[i].links ==
        [Link(Some(BaseUrl + "/authors/" + w.authorKey.value[i]), "author", Some("text/html"))]
  {
  }

  /** The metadata's title, subtitle, description and languages are those of the
      effective book; languages are its codes translated through the table. */
  lemma MetadataFromEffectiveBook(w: Work, table: map<string, string>)
    requires MetadataOf(w, table).Success?
    ensures MetadataOf(w, table).value.title == EffectiveBook(w).title
    ensures MetadataOf(w, table).value.subtitle == EffectiveBook(w).subtitle
    ensures MetadataOf(w, table).value.description == EffectiveBook(w).description
    ensures MetadataOf(w, table).value.language == TranslateLanguages(EffectiveBook(w).language, table)
  {
  }

  /** Distinct cover ids give distinct cover URLs, so the cover id can be read
      back from the href. */
  lemma CoverHrefInjective(a: int, b: int)
    requires CoverHref(a) == CoverHref(b)
    ensures a == b
  {
    var da, db := IntToDecimal(a), IntToDecimal(b);
    var p, s := CoverUrlPrefix, CoverUrlSuffix;
    assert |da| == |db|;
    assert CoverHref(a)[|p|..|p| + |da|] == da;
    assert CoverHref(b)[|p|..|p| + |db|] == db;
    IntToDecimalInjective(a, b);
  }

  /** The cover id from the catalogue test renders into the large-cover URL. */
  lemma CoverHrefExample()
    ensures CoverHref(8739161) == "https://covers.openlibrary.org/b/id/8739161-L.jpg"
  {
    CoverIdDigits();
    assert IntToDecimal(8739161) == "8739161";
  }

  lemma CoverIdDigits()
    ensures NatToDecimal(8739161) == "8739161"
  {
    assert DigitChar(8) == '8';
    assert NatToDecimal(8) == "8";
    assert 87 / 10 == 8 && 87 % 10 == 7 && DigitChar(7) == '7';
    assert NatToDecimal(87) == NatToDecimal(8) + "7" == "87";
    assert 873 / 10 == 87 && 873 % 10 == 3 && DigitChar(3) == '3';
    assert NatToDecimal(873) == NatToDecimal(87) + "3" == "873";
    assert 8739 / 10 == 873 && 8739 % 10 == 9 && DigitChar(9) == '9';
    assert NatToDecimal(8739) == NatToDecimal(873) + "9" == "8739";
    assert 87391 / 10 == 8739 && 87391 % 10 == 1 && DigitChar(1) == '1';
    assert NatToDecimal(87391) == NatToDecimal(8739) + "1" == "87391";
    assert 873916 / 10 == 87391 && 873916 % 10 == 6 && DigitChar(6) == '6';
    assert NatToDecimal(873916) == NatToDecimal(87391) + "6" == "873916";
    assert 8739161 / 10 == 873916 && 8739161 % 10 == 1 && DigitChar(1) == '1';
    assert NatToDecimal(8739161) == NatToDecimal(873916) + "1" == "8739161";
  }

  /** The record from the catalogue test: a work whose only edition has one open
      web provider gets three links, the third an open acquisition as HTML. */
  lemma FantasticMrFoxLinks(w: Work)
    requires w.editions == Some(EditionsResultSet(Some(1), None, None, Some([Edition(
      BookDoc(Some("/books/OL7353617M"), Some("Fantastic Mr Fox"), None, None, Some(8739161), None, None),
      Some([Provider(Some("open"), Some(Web), Some("https://openlibrary.org/books/OL7353617M"), Some("openlibrary"))]))])))
    ensures Links(w) == [
      Link(Some("https://openlibrary.org/books/OL7353617M"), "self", Some("text/html")),
      Link(Some("https://openlibrary.org/books/OL7353617M.json"), "alternate", Some("application/json")),
      Link(Some("https://openlibrary.org/books/OL7353617M"), "http://opds-spec.org/acquisition/open", Some("text/html"))]
  {
    var e := FirstEdition(w).value;
    assert e.doc.key == Some("/books/OL7353617M");
    assert EffectiveBook(w) == e.doc;
    var ps := Providers(w);
    assert |ps| == 1;
    assert AcquisitionLink(ps[0]).mimeType == Some("text/html");
    assert AcquisitionLinks(ps) == [AcquisitionLink(ps[0])];
    FoxHrefs();
  }

  lemma FoxHrefs()
    ensures BaseUrl + "/books/OL7353617M" == "https://openlibrary.org/books/OL7353617M"
    ensures BaseUrl + "/books/OL7353617M" + ".json" == "https://openlibrary.org/books/OL7353617M.json"
    ensures AcquisitionRel + "open" == "http://opds-spec.org/acquisition/open"
  {
  }
}
