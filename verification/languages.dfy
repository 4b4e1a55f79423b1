/** Translation of Open Library (MARC) language codes to ISO 639-1 codes: the
    table built from the language query's entries (`fetch_languages_map`), the
    lookup of one code (`marc_language_to_iso_639_1`) and the filtering
    translation of a book's language list. The table is a parameter: fetching
    and caching it are left to the caller. */
module Languages {
  import opened Wrappers

  /** One entry of the language query: `{key, identifiers}`. */
  datatype LanguageStub = LanguageStub(key: string, identifiers: Option<map<string, seq<string>>>)

  const IsoKey: string := "iso_639_1"

  /** The index of the last '/' in `s`, or -1 when there is none. */
  function LastSlash(s: string): (p: int)
    ensures -1 <= p < |s|
    ensures p >= 0 ==> s[p] == '/'
    ensures forall j :: p < j < |s| ==> s[j] != '/'
    decreases |s|
  {
    if |s| == 0 then -1
    else if s[|s| - 1] == '/' then |s| - 1
    else LastSlash(s[..|s| - 1])
  }

  /** `s.split("/")[-1]`: the text after the last '/', or all of `s` when it has none. */
  function LastSegment(s: string): string {
    s[LastSlash(s) + 1..]
  }

  /** The last segment is a suffix of the key without '/', preceded by '/' unless
      it is the whole key. */
  lemma LastSegmentSpec(s: string)
    ensures var r := LastSegment(s);
      && (forall i :: 0 <= i < |r| ==> r[i] != '/')
      && |r| <= |s| && r == s[|s| - |r|..]
      && (|r| < |s| ==> s[|s| - |r| - 1] == '/')
  {
  }

  /** An entry adds a mapping only when its identifiers are present and non-empty
      and hold a non-empty ISO 639-1 list. */
  predicate Contributes(e: LanguageStub) {
    && e.identifiers.Some?
    && |e.identifiers.value| > 0
    && IsoKey in e.identifiers.value
    && |e.identifiers.value[IsoKey]| > 0
  }

  /** The first ISO 639-1 code of a contributing entry. */
  function IsoOf(e: LanguageStub): string
    requires Contributes(e)
  {
    e.identifiers.value[IsoKey][0]
  }

  /** The table after the first `n` entries have been applied in order, each
      contributing entry overwriting its short code. */
  function TableUpTo(data: seq<LanguageStub>, n: nat): map<string, string>
    requires n <= |data|
    decreases n
  {
    if n == 0 then map[]
    else
      var t := TableUpTo(data, n - 1);
      var e := data[n - 1];
      if Contributes(e) then t[LastSegment(e.key) := IsoOf(e)] else t
  }

  /** Reference definition of the whole table. */
  function TableOf(data: seq<LanguageStub>): map<string, string> {
    TableUpTo(data, |data|)
  }

  /** The table-building loop of `fetch_languages_map`, over already-decoded entries. */
  method BuildLanguageTable(data: seq<LanguageStub>) returns (languages: map<string, string>)
    ensures languages == TableOf(data)
  {
    languages := map[];
    var i := 0;
    while i < |data|
      invariant 0 <= i <= |data|
      invariant languages == TableUpTo(data, i)
    {
      var lang := data[i];
      var marcCode := LastSegment(lang.key);
      if lang.identifiers.Some? && |lang.identifiers.value| > 0 {
        var identifiers := lang.identifiers.value;
        var isoCodes := if IsoKey in identifiers then identifiers[IsoKey] else [];
        if |isoCodes| > 0 {
          languages := languages[marcCode := isoCodes[0]];
        }
      }
      i := i + 1;
    }
  }

  lemma {:induction false} PrefixKeysSound(data: seq<LanguageStub>, n: nat, k: string)
    requires n <= |data| && k in TableUpTo(data, n)
    ensures exists i :: 0 <= i < n && Contributes(data[i]) && LastSegment(data[i].key) == k
    decreases n
  {
    var e := data[n - 1];
    var t := TableUpTo(data, n - 1);
    if Contributes(e) {
      var code := LastSegment(e.key);
      assert TableUpTo(data, n) == t[code := IsoOf(e)];
      if code == k {
        assert Contributes(data[n - 1]) && LastSegment(data[n - 1].key) == k;
      } else {
        assert k in t;
        PrefixKeysSound(data, n - 1, k);
      }
    } else {
      assert TableUpTo(data, n) == t;
      PrefixKeysSound(data, n - 1, k);
    }
  }

  lemma {:induction false} PrefixKeysComplete(data: seq<LanguageStub>, n: nat, i: int)
    requires 0 <= i < n <= |data| && Contributes(data[i])
    ensures LastSegment(data[i].key) in TableUpTo(data, n)
    decreases n
  {
    if i < n - 1 {
      PrefixKeysComplete(data, n - 1, i);
    }
  }

  lemma {:induction false} PrefixLastWins(data: seq<LanguageStub>, n: nat, i: int)
    requires 0 <= i < n <= |data| && Contributes(data[i])
    requires forall j :: i < j < n && Contributes(data[j]) ==>
      LastSegment(data[j].key) != LastSegment(data[i].key)
    ensures LastSegment(data[i].key) in TableUpTo(data, n)
    ensures TableUpTo(data, n)[LastSegment(data[i].key)] == IsoOf(data[i])
    decreases n
  {
    if i < n - 1 {
      PrefixLastWins(data, n - 1, i);
    }
  }

  /** A short code is in the table exactly when some contributing entry has it. */
  lemma TableKeys(data: seq<LanguageStub>, k: string)
    ensures k in TableOf(data) <==>
      exists i :: 0 <= i < |data| && Contributes(data[i]) && LastSegment(data[i].key) == k
  {
    if k in TableOf(data) {
      PrefixKeysSound(data, |data|, k);
    }
    forall i | 0 <= i < |data| && Contributes(data[i]) && LastSegment(data[i].key) == k
      ensures k in TableOf(data)
    {
      PrefixKeysComplete(data, |data|, i);
    }
  }

  /** Last wins: the value for a short code is the ISO code of the last
      contributing entry with that short code. */
  lemma TableLastWins(data: seq<LanguageStub>, i: int)
    requires 0 <= i < |data| && Contributes(data[i])
    requires forall j :: i < j < |data| && Contributes(data[j]) ==>
      LastSegment(data[j].key) != LastSegment(data[i].key)
    ensures LastSegment(data[i].key) in TableOf(data)
    ensures TableOf(data)[LastSegment(data[i].key)] == IsoOf(data[i])
  {
    PrefixLastWins(data, |data|, i);
  }

  /** `marc_language_to_iso_639_1` against a given table. */
  function Translate(code: string, table: map<string, string>): (r: Option<string>)
    ensures r.Some? <==> code in table
    ensures r.Some? ==> r.value == table[code]
  {
    if code in table then Some(table[code]) else None
  }

  /** A code survives the translation when it maps to a non-empty string. */
  predicate Kept(code: string, table: map<string, string>) {
    code in table && table[code] != ""
  }

  /** `x` is the non-empty translation of some code in `codes`. */
  predicate TranslationOfSome(x: string, codes: seq<string>, table: map<string, string>) {
    exists i :: 0 <= i < |codes| && Kept(codes[i], table) && table[codes[i]] == x
  }

  /** The language comprehension: each code translated, codes whose
      translation is absent or empty dropped, order kept. */
  function TranslateCodes(codes: seq<string>, table: map<string, string>): (r: seq<string>)
    ensures |r| <= |codes|
    ensures forall j :: 0 <= j < |r| ==> r[j] != "" && TranslationOfSome(r[j], codes, table)
    decreases |codes|
  {
    if |codes| == 0 then []
    else
      var tail := codes[1..];
      var rest := TranslateCodes(tail, table);
      var lang := Translate(codes[0], table);
      var r := if lang.Some? && lang.value != "" then [lang.value] + rest else rest;
      assert forall j :: 0 <= j < |r| ==> TranslationOfSome(r[j], codes, table) by {
        forall j | 0 <= j < |r|
          ensures TranslationOfSome(r[j], codes, table)
        {
          if r != rest && j == 0 {
            assert Kept(codes[0], table) && table[codes[0]] == r[0];
          } else {
            var k := if r != rest then j - 1 else j;
            assert r[j] == rest[k] && TranslationOfSome(rest[k], tail, table);
            var i :| 0 <= i < |tail| && Kept(tail[i], table) && table[tail[i]] == rest[k];
            assert codes[i + 1] == tail[i];
          }
        }
      }
      r
  }

  /** `book.language or []`, translated. */
  function TranslateLanguages(codes: Option<seq<string>>, table: map<string, string>): (r: seq<string>)
    ensures codes.None? ==> r == []
    ensures codes.Some? ==> |r| <= |codes.value|
    ensures codes.Some? ==> r == TranslateCodes(codes.value, table)
  {
    TranslateCodes(codes.GetOr([]), table)
  }

  /** Translation distributes over concatenation of code lists. */
  lemma {:induction false} TranslateConcat(a: seq<string>, b: seq<string>, table: map<string, string>)
    ensures TranslateCodes(a + b, table) == TranslateCodes(a, table) + TranslateCodes(b, table)
    decreases |a|
  {
    if |a| > 0 {
      assert (a + b)[0] == a[0];
      assert (a + b)[1..] == a[1..] + b;
      TranslateConcat(a[1..], b, table);
    } else {
      assert a + b == b;
    }
  }

  /** When every code has a non-empty mapping nothing is dropped: the output is
      the input mapped pointwise. */
  lemma {:induction false} TranslateAllKnown(codes: seq<string>, table: map<string, string>)
    requires forall i :: 0 <= i < |codes| ==> Kept(codes[i], table)
    ensures |TranslateCodes(codes, table)| == |codes|
    ensures forall i :: 0 <= i < |codes| ==>
      codes[i] in table && TranslateCodes(codes, table)[i] == table[codes[i]]
    decreases |codes|
  {
    if |codes| > 0 {
      var tail := codes[1..];
      TranslateAllKnown(tail, table);
      var rt := TranslateCodes(tail, table);
      var r := TranslateCodes(codes, table);
      assert Kept(codes[0], table);
      assert r == [table[codes[0]]] + rt;
      forall i | 0 <= i < |codes|
        ensures codes[i] in table && r[i] == table[codes[i]]
      {
        if i > 0 {
          assert r[i] == rt[i - 1] && tail[i - 1] == codes[i];
        }
      }
    }
  }

  /** A value appears in the output exactly when some input code maps to it and
      it is non-empty. */
  lemma {:induction false} TranslateMembership(codes: seq<string>, table: map<string, string>, x: string)
    ensures x in TranslateCodes(codes, table) <==>
      exists i :: 0 <= i < |codes| && Kept(codes[i], table) && table[codes[i]] == x
    decreases |codes|
  {
    if |codes| > 0 {
      TranslateMembership(codes[1..], table, x);
      if x !in TranslateCodes(codes, table) {
        forall i | 0 <= i < |codes| && Kept(codes[i], table)
          ensures table[codes[i]] != x
        {
          if i > 0 {
            assert codes[1..][i - 1] == codes[i];
          }
        }
      } else {
        var r := TranslateCodes(codes, table);
        var j :| 0 <= j < |r| && r[j] == x;
      }
    }
  }

  /** A known code is translated and an unknown one dropped: `{"eng": "en"}`
      turns `["eng", "xyz"]` into `["en"]`. */
  lemma UnknownCodeDropped()
    ensures TranslateCodes(["eng", "xyz"], map["eng" := "en"]) == ["en"]
  {
    assert ["eng", "xyz"][1..] == ["xyz"];
    assert ["xyz"][1..] == [];
  }
}
