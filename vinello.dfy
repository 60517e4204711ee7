/** The Vinello scraper (vinello/main.py): the field normaliser, the
    assembly of one detail page into a `VinelloPage`, the listing-page link
    selection, the counter-driven crawl and the CSV projection. HTML parsing
    and HTTP are abstracted: a detail page is the data its selectors read,
    a fetch is a function parameter. */
module Vinello {
  import opened Values
  import opened Text
  import opened RawFields
  import opened PageStructure

  const TotalPages: nat := 643

  const ReviewPage: string := "https://www.vinello.eu/wine?p=2&o="
  const PageSuffix: string := "&n=16"

  /** The CSV header and the record's attribute names. */
  const Fields: seq<string> := [
    "wine_name",
    "description",
    "verification",
    "type",
    "country",
    "region",
    "acidity",
    "sugar",
    "sweetness",
    "sub_region",
    "perfect_for",
    "ageing",
    "vintage",
    "soil",
    "aromas",
    "texture",
    "food_pairing",
    "alcohol",
    "allergens",
    "colour",
    "variety",
    "harvest",
    "maturation_duration",
    "style"
  ]

  /** The raw-map keys, position by position the source of `Fields`. */
  const FieldsToParse: seq<string> := [
    "wine_name",
    "description",
    "verification",
    "type of wine",
    "country",
    "region",
    "wine acidity in g/l",
    "residual sugar in g/l",
    "sweetness",
    "sub region",
    "occasion & theme",
    "ageing in",
    "vintage",
    "soil",
    "aromas & palate notes",
    "mouthfeel/ texture",
    "food pairing",
    "alcohol % abv",
    "allergens & misc. ingredients",
    "wine colour",
    "grape variety",
    "harvest",
    "duration of maturation (in months)",
    "style"
  ]

  /** The characters `drop_extra` deletes anywhere in the text. */
  const Removed: set<char> := {'\n', '\t', NoBreakSpace, ':'}

  /** `drop_extra`: four `replace(c, '')` passes, then `strip(' ')`. */
  function DropExtra(s: string): (r: string)
    ensures forall c :: c in r ==> c !in Removed && c in s
    ensures r == [] || (r[0] != ' ' && r[|r| - 1] != ' ')
  {
    Strip(Delete(Delete(Delete(Delete(s, {'\n'}), {'\t'}), {NoBreakSpace}), {':'}))
  }

  /** The four passes together delete exactly the set `Removed`. */
  lemma DropExtraDeletesRemoved(s: string)
    ensures DropExtra(s) == Strip(Delete(s, Removed))
  {
    var nl, tab, nbsp, colon: set<char> := {'\n'}, {'\t'}, {NoBreakSpace}, {':'};
    assert nl + tab + nbsp + colon == Removed;
    DeleteTwice(s, nl, tab);
    DeleteTwice(s, nl + tab, nbsp);
    DeleteTwice(s, nl + tab + nbsp, colon);
  }

  /** Normalising normalised text changes nothing. */
  lemma {:induction false} DropExtraIdempotent(s: string)
    ensures DropExtra(DropExtra(s)) == DropExtra(s)
  {
    var t := DropExtra(s);
    DropExtraDeletesRemoved(t);
    DeleteNothing(t, Removed);
    StripNothing(t);
  }

  /** The raw keys are pairwise distinct, so the key-to-attribute mapping is
      one-to-one. */
  lemma FieldsToParseDistinct()
    ensures forall i, j :: 0 <= i < j < |FieldsToParse| ==> FieldsToParse[i] != FieldsToParse[j]
  {
  }

  /** What the selectors of `parse_wine_page` read from a detail page. */
  datatype DetailPage = DetailPage(
    headings: seq<string>,      // texts of the `h1` elements
    rows: seq<Row>,             // cell texts of the rows of the first `table`
    descriptions: seq<string>,  // texts of the `div.product--description` elements
    paragraphs: seq<string>)    // texts of the `h2 ~ p` elements

  /** Outside the `try`, a missing `h1` or a short row aborts the whole run. */
  predicate WellFormed(doc: DetailPage)
  {
    |doc.headings| > 0 && WellFormedTable(doc.rows)
  }

  /** Every key of `fields_to_parse` is in the map. */
  predicate HasAllKeys(m: FieldMap)
  {
    forall j :: 0 <= j < |FieldsToParse| ==> FieldsToParse[j] in m
  }

  lemma AllKeysPresent(m: FieldMap)
    requires HasAllKeys(m)
    ensures
      "wine_name" in m &&
      "description" in m &&
      "verification" in m &&
      "type of wine" in m &&
      "country" in m &&
      "region" in m &&
      "wine acidity in g/l" in m &&
      "residual sugar in g/l" in m &&
      "sweetness" in m &&
      "sub region" in m &&
      "occasion & theme" in m &&
      "ageing in" in m &&
      "vintage" in m &&
      "soil" in m &&
      "aromas & palate notes" in m &&
      "mouthfeel/ texture" in m &&
      "food pairing" in m &&
      "alcohol % abv" in m &&
      "allergens & misc. ingredients" in m &&
      "wine colour" in m &&
      "grape variety" in m &&
      "harvest" in m &&
      "duration of maturation (in months)" in m &&
      "style" in m
  {
    assert FieldsToParse[0] in m;
    assert FieldsToParse[1] in m;
    assert FieldsToParse[2] in m;
    assert FieldsToParse[3] in m;
    assert FieldsToParse[4] in m;
    assert FieldsToParse[5] in m;
    assert FieldsToParse[6] in m;
    assert FieldsToParse[7] in m;
    assert FieldsToParse[8] in m;
    assert FieldsToParse[9] in m;
    assert FieldsToParse[10] in m;
    assert FieldsToParse[11] in m;
    assert FieldsToParse[12] in m;
    assert FieldsToParse[13] in m;
    assert FieldsToParse[14] in m;
    assert FieldsToParse[15] in m;
    assert FieldsToParse[16] in m;
    assert FieldsToParse[17] in m;
    assert FieldsToParse[18] in m;
    assert FieldsToParse[19] in m;
    assert FieldsToParse[20] in m;
    assert FieldsToParse[21] in m;
    assert FieldsToParse[22] in m;
    assert FieldsToParse[23] in m;
  }

  /** `_json_to_wine_page`: every key lookup must succeed (else `KeyError`). */
  function JsonToWinePage(m: FieldMap): (r: Option<VinelloPage>)
    ensures r.Some? <==> HasAllKeys(m)
  {
    if HasAllKeys(m) then
      AllKeysPresent(m);
      Some(VinelloPage(
        wineName := m["wine_name"],
        description := m["description"],
        verification := m["verification"],
        wineType := m["type of wine"],
        country := m["country"],
        region := m["region"],
        acidity := m["wine acidity in g/l"],
        sugar := m["residual sugar in g/l"],
        perfectFor := m["occasion & theme"],
        sweetness := m["sweetness"],
        subRegion := m["sub region"],
        ageing := m["ageing in"],
        vintage := m["vintage"],
        soil := m["soil"],
        aromas := m["aromas & palate notes"],
        texture := m["mouthfeel/ texture"],
        foodPairing := m["food pairing"],
        alcohol := m["alcohol % abv"],
        allergens := m["allergens & misc. ingredients"],
        colour := m["wine colour"],
        variety := m["grape variety"],
        harvest := m["harvest"],
        maturationDuration := m["duration of maturation (in months)"],
        style := m["style"]
      ))
    else None
  }

  lemma TupleFromMap(m: FieldMap, j: nat)
    requires HasAllKeys(m)
    requires j < |FieldsToParse|
    ensures AsTuple(JsonToWinePage(m).value)[j] == m[FieldsToParse[j]]
  {
    var vs := AsTuple(JsonToWinePage(m).value);
    if j == 0 { assert vs[0] == m[FieldsToParse[0]]; }
    else if j == 1 { assert vs[1] == m[FieldsToParse[1]]; }
    else if j == 2 { assert vs[2] == m[FieldsToParse[2]]; }
    else if j == 3 { assert vs[3] == m[FieldsToParse[3]]; }
    else if j == 4 { assert vs[4] == m[FieldsToParse[4]]; }
    else if j == 5 { assert vs[5] == m[FieldsToParse[5]]; }
    else if j == 6 { assert vs[6] == m[FieldsToParse[6]]; }
    else if j == 7 { assert vs[7] == m[FieldsToParse[7]]; }
    else if j == 8 { assert vs[8] == m[FieldsToParse[8]]; }
    else if j == 9 { assert vs[9] == m[FieldsToParse[9]]; }
    else if j == 10 { assert vs[10] == m[FieldsToParse[10]]; }
    else if j == 11 { assert vs[11] == m[FieldsToParse[11]]; }
    else if j == 12 { assert vs[12] == m[FieldsToParse[12]]; }
    else if j == 13 { assert vs[13] == m[FieldsToParse[13]]; }
    else if j == 14 { assert vs[14] == m[FieldsToParse[14]]; }
    else if j == 15 { assert vs[15] == m[FieldsToParse[15]]; }
    else if j == 16 { assert vs[16] == m[FieldsToParse[16]]; }
    else if j == 17 { assert vs[17] == m[FieldsToParse[17]]; }
    else if j == 18 { assert vs[18] == m[FieldsToParse[18]]; }
    else if j == 19 { assert vs[19] == m[FieldsToParse[19]]; }
    else if j == 20 { assert vs[20] == m[FieldsToParse[20]]; }
    else if j == 21 { assert vs[21] == m[FieldsToParse[21]]; }
    else if j == 22 { assert vs[22] == m[FieldsToParse[22]]; }
    else { assert vs[23] == m[FieldsToParse[23]]; }
  }

  /** The i-th key of `fields_to_parse` fills the attribute named by the i-th
      entry of `fields`. */
  lemma JsonToWinePagePositional(m: FieldMap, j: nat)
    requires HasAllKeys(m)
    requires j < |Fields|
    ensures JsonToWinePage(m).Some?
    ensures Attr(JsonToWinePage(m).value, Fields[j]) == Some(m[FieldsToParse[j]])
  {
    HeaderInDeclaredOrder([]);
    AttrByPosition(JsonToWinePage(m).value, j);
    TupleFromMap(m, j);
  }

  /** The three attributes stored directly take their values from the keys
      of the same name. */
  lemma JsonToWinePageFreeText(m: FieldMap)
    requires HasAllKeys(m)
    ensures "wine_name" in m && "description" in m && "verification" in m
    ensures JsonToWinePage(m).Some?
    ensures JsonToWinePage(m).value.wineName == m["wine_name"]
    ensures JsonToWinePage(m).value.description == m["description"]
    ensures JsonToWinePage(m).value.verification == m["verification"]
  {
    AllKeysPresent(m);
  }

  /** `res` after the seeding loop, the `h1` title and the table rows. */
  function RawFieldMap(doc: DetailPage): FieldMap
    requires WellFormed(doc)
  {
    ApplyRows(Seed(FieldsToParse)["wine_name" := Text(doc.headings[0])], doc.rows, DropExtra)
  }

  /** The record the page yields, or `None` when the `try` fails. */
  function Extract(doc: DetailPage): Option<VinelloPage>
    requires WellFormed(doc)
  {
    if |doc.descriptions| == 0 then None
    else
      JsonToWinePage(TryMap(doc))
  }

  /** `res` once the `try` has stored the two free-text sections. */
  function TryMap(doc: DetailPage): FieldMap
    requires WellFormed(doc) && |doc.descriptions| > 0
  {
    RawFieldMap(doc)
      ["description" := Text(DropExtra(doc.descriptions[0]))]
      ["verification" := Text(Join(" ", AllButLast(doc.paragraphs)))]
  }

  lemma SeededKeysPresent(doc: DetailPage)
    requires WellFormed(doc)
    ensures HasAllKeys(RawFieldMap(doc))
  {
    var seeded := Seed(FieldsToParse)["wine_name" := Text(doc.headings[0])];
    forall j | 0 <= j < |FieldsToParse| ensures FieldsToParse[j] in RawFieldMap(doc) {
      ApplyRowsKeys(seeded, doc.rows, DropExtra, FieldsToParse[j]);
    }
  }

  /** Every key is pre-seeded, so the only way to lose a page is a missing
      `product--description` element. */
  lemma ExtractSomeIff(doc: DetailPage)
    requires WellFormed(doc)
    ensures Extract(doc).Some? <==> |doc.descriptions| > 0
  {
    SeededKeysPresent(doc);
  }

  /** The keys the `try` overwrites are not table-backed keys. */
  lemma FreeTextKeysDistinct(j: nat)
    requires 3 <= j < |FieldsToParse|
    ensures FieldsToParse[j] != "wine_name"
    ensures FieldsToParse[j] != "description"
    ensures FieldsToParse[j] != "verification"
  {
  }

  lemma TryMapHasAllKeys(doc: DetailPage)
    requires WellFormed(doc) && |doc.descriptions| > 0
    ensures HasAllKeys(TryMap(doc))
  {
    var raw := RawFieldMap(doc);
    SeededKeysPresent(doc);
    forall k | 0 <= k < |FieldsToParse| ensures FieldsToParse[k] in TryMap(doc) {
      assert FieldsToParse[k] in raw;
    }
  }

  /** After the `try`, the title and every table-backed key still have their
      values from before it. */
  lemma TryMapTableKey(doc: DetailPage, j: nat)
    requires WellFormed(doc) && |doc.descriptions| > 0
    requires j == 0 || 3 <= j < |FieldsToParse|
    ensures FieldsToParse[j] in RawFieldMap(doc) && FieldsToParse[j] in TryMap(doc)
    ensures TryMap(doc)[FieldsToParse[j]] == RawFieldMap(doc)[FieldsToParse[j]]
  {
    SeededKeysPresent(doc);
    if j != 0 {
      FreeTextKeysDistinct(j);
    }
  }

  /** A table-backed field holds the normalised value cell of the LAST row
      whose normalised, lower-cased key cell names it; so does the title
      when some row is keyed `wine_name`, the rows being stored after it. */
  lemma ExtractTableField(doc: DetailPage, j: nat, i: nat)
    requires WellFormed(doc) && |doc.descriptions| > 0
    requires j == 0 || 3 <= j < |Fields|
    requires i < |doc.rows| && RowKey(doc.rows[i], DropExtra) == FieldsToParse[j]
    requires forall k :: i < k < |doc.rows| ==> RowKey(doc.rows[k], DropExtra) != FieldsToParse[j]
    ensures Extract(doc).Some?
    ensures Attr(Extract(doc).value, Fields[j]) == Some(RowValue(doc.rows[i], DropExtra))
  {
    LastWriteWins(Seed(FieldsToParse)["wine_name" := Text(doc.headings[0])], doc.rows, DropExtra, i);
    TryMapTableKey(doc, j);
    TryMapHasAllKeys(doc);
    JsonToWinePagePositional(TryMap(doc), j);
  }

  /** A table-backed field no row names stays `None`: the page is kept. */
  lemma ExtractMissingField(doc: DetailPage, j: nat)
    requires WellFormed(doc) && |doc.descriptions| > 0
    requires 3 <= j < |Fields|
    requires !HasRow(doc.rows, DropExtra, FieldsToParse[j])
    ensures Extract(doc).Some?
    ensures Attr(Extract(doc).value, Fields[j]) == Some(Null)
  {
    var seeded := Seed(FieldsToParse)["wine_name" := Text(doc.headings[0])];
    FreeTextKeysDistinct(j);
    assert FieldsToParse[j] in seeded && seeded[FieldsToParse[j]] == Null;
    NoRowKeepsSeed(seeded, doc.rows, DropExtra, FieldsToParse[j]);
    TryMapTableKey(doc, j);
    TryMapHasAllKeys(doc);
    JsonToWinePagePositional(TryMap(doc), j);
  }

  /** The title is the first `h1` text unless a table row is keyed
      `wine_name`. */
  lemma ExtractWineName(doc: DetailPage)
    requires WellFormed(doc) && |doc.descriptions| > 0
    requires !HasRow(doc.rows, DropExtra, "wine_name")
    ensures Extract(doc).Some?
    ensures Extract(doc).value.wineName == Text(doc.headings[0])
  {
    SeededKeysPresent(doc);
    var seeded := Seed(FieldsToParse)["wine_name" := Text(doc.headings[0])];
    NoRowKeepsSeed(seeded, doc.rows, DropExtra, "wine_name");
    assert TryMap(doc)["wine_name"] == RawFieldMap(doc)["wine_name"];
  }

  /** `description` is the normalised first description text and
      `verification` the space-join of every `h2 ~ p` text but the last,
      whatever the table holds. */
  lemma ExtractFreeText(doc: DetailPage)
    requires WellFormed(doc) && |doc.descriptions| > 0
    ensures Extract(doc).Some?
    ensures Extract(doc).value.description == Text(DropExtra(doc.descriptions[0]))
    ensures Extract(doc).value.verification == Text(Join(" ", AllButLast(doc.paragraphs)))
  {
    var m := TryMap(doc);
    TryMapHasAllKeys(doc);
    JsonToWinePageFreeText(m);
    assert m["description"] == Text(DropExtra(doc.descriptions[0]));
    assert m["verification"] == Text(Join(" ", AllButLast(doc.paragraphs)));
  }

  /** `get_page_number`. */
  function GetPageNumber(n: nat): string
  {
    ReviewPage + NatToString(n) + PageSuffix
  }

  /** The listing URL encodes `n` in decimal between the fixed prefix and
      the `&n=16` suffix, so it can be read back and distinct page numbers
      give distinct URLs. */
  lemma GetPageNumberDecodes(n: nat)
    ensures var url := GetPageNumber(n);
      && |url| > |ReviewPage| + |PageSuffix|
      && url[..|ReviewPage|] == ReviewPage
      && url[|url| - |PageSuffix|..] == PageSuffix
      && var digits := url[|ReviewPage|..|url| - |PageSuffix|];
         (forall i :: 0 <= i < |digits| ==> IsDigit(digits[i])) && DecimalValue(digits) == n
  {
    var url := GetPageNumber(n);
    assert url[|ReviewPage|..|url| - |PageSuffix|] == NatToString(n);
    DecimalRoundTrip(n);
  }

  lemma GetPageNumberInjective(a: nat, b: nat)
    requires GetPageNumber(a) == GetPageNumber(b)
    ensures a == b
  {
    GetPageNumberDecodes(a);
    GetPageNumberDecodes(b);
  }

  /** Listing URLs requested while the counter goes from `lo` to `hi`. */
  function ListingUrls(lo: nat, hi: nat): seq<string>
    decreases hi
  {
    if hi <= lo then [] else ListingUrls(lo, hi - 1) + [GetPageNumber(hi)]
  }

  /** One more pass requests one more listing page, after the others. */
  lemma ListingUrlsStep(lo: nat, hi: nat)
    requires lo < hi
    ensures ListingUrls(lo, hi) == ListingUrls(lo, hi - 1) + [GetPageNumber(hi)]
  {
  }

  /** Pages `lo + 1` to `hi` are requested once each, in increasing order. */
  lemma {:induction false} ListingUrlsAt(lo: nat, hi: nat)
    requires lo <= hi
    ensures |ListingUrls(lo, hi)| == hi - lo
    ensures forall i :: 0 <= i < hi - lo ==> ListingUrls(lo, hi)[i] == GetPageNumber(lo + i + 1)
    decreases hi
  {
    if lo < hi {
      ListingUrlsAt(lo, hi - 1);
      ListingUrlsStep(lo, hi);
      var prev := ListingUrls(lo, hi - 1);
      forall i | 0 <= i < hi - lo ensures ListingUrls(lo, hi)[i] == GetPageNumber(lo + i + 1) {
        if i < hi - lo - 1 {
          assert ListingUrls(lo, hi)[i] == prev[i];
        }
      }
    }
  }

  /** What `get_links_per_page` reads: for each `div.product--info`
      container, the hrefs of its anchors that have one, in order. */
  datatype ListingPage = ListingPage(containers: seq<seq<string>>)

  /** `[...][0]` on a container without an href anchor aborts the run. */
  predicate ListingWellFormed(page: ListingPage)
  {
    forall i :: 0 <= i < |page.containers| ==> |page.containers[i]| > 0
  }

  function LinksOf(page: ListingPage): seq<string>
    requires ListingWellFormed(page)
  {
    seq(|page.containers|, i requires 0 <= i < |page.containers| => page.containers[i][0])
  }

  /** `get_links_per_page`: one link per container, the first href, in
      container order; duplicates are kept and no container means no link. */
  method GetLinksPerPage(page: ListingPage) returns (links: seq<string>)
    requires ListingWellFormed(page)
    ensures |links| == |page.containers|
    ensures forall i :: 0 <= i < |links| ==> links[i] == page.containers[i][0]
  {
    links := [];
    for i := 0 to |page.containers|
      invariant |links| == i
      invariant forall k :: 0 <= k < i ==> links[k] == page.containers[k][0]
    {
      links := links + [page.containers[i][0]];
    }
  }

  /** One CSV row: `getattr(data, name)` for each header name. */
  function ToRow(p: VinelloPage): (row: seq<Value>)
    ensures row == AsTuple(p)
  {
    var row := seq(|Fields|, j requires 0 <= j < |Fields| =>
      AttrByPosition(p, j); Attr(p, Fields[j]).value);
    assert forall j :: 0 <= j < |Fields| ==> row[j] == AsTuple(p)[j] by {
      forall j | 0 <= j < |Fields| ensures row[j] == AsTuple(p)[j] {
        AttrByPosition(p, j);
      }
    }
    row
  }

  /** `save_to_file` without the file: the header, then one row per record
      in order, each the record's values in declared field order, so that
      reading a row back rebuilds its record. */
  function SaveToFile(pages: seq<VinelloPage>): (table: seq<seq<Value>>)
    ensures |table| == |pages| + 1
    ensures |table[0]| == |Fields| && forall j :: 0 <= j < |Fields| ==> table[0][j] == Text(Fields[j])
    ensures forall i :: 0 <= i < |pages| ==>
      |table[i + 1]| == |Fields| && FromTuple(table[i + 1]) == pages[i]
  {
    [seq(|Fields|, j requires 0 <= j < |Fields| => Text(Fields[j]))]
      + seq(|pages|, i requires 0 <= i < |pages| => ToRow(pages[i]))
  }

  /** The CSV header lists the record's attributes by name, in the order
      the record declares them. */
  lemma HeaderInDeclaredOrder(pages: seq<VinelloPage>)
    ensures Fields == FieldNames
    ensures |SaveToFile(pages)[0]| == |FieldNames|
    ensures forall j :: 0 <= j < |FieldNames| ==> SaveToFile(pages)[0][j] == Text(FieldNames[j])
  {
    assert Fields == FieldNames;
  }

  /** Cell `j` of data row `i` is `getattr(pages[i], fields[j])`. */
  lemma SaveToFileCell(pages: seq<VinelloPage>, i: nat, j: nat)
    requires i < |pages| && j < |Fields|
    ensures |SaveToFile(pages)[i + 1]| == |Fields|
    ensures Attr(pages[i], Fields[j]) == Some(SaveToFile(pages)[i + 1][j])
  {
    assert SaveToFile(pages)[i + 1] == ToRow(pages[i]);
    HeaderInDeclaredOrder(pages);
    AttrByPosition(pages[i], j);
  }

  /** The records of the detail pages behind `links`, in link order. */
  function DetailRecords(links: seq<string>, fetchDetail: string -> DetailPage): seq<VinelloPage>
    requires forall url :: WellFormed(fetchDetail(url))
  {
    if links == [] then []
    else DetailRecords(links[..|links| - 1], fetchDetail) + Appended(Extract(fetchDetail(links[|links| - 1])))
  }

  /** Parsing one more link appends that page's record, if any. */
  lemma DetailRecordsStep(links: seq<string>, j: nat, fetchDetail: string -> DetailPage)
    requires forall url :: WellFormed(fetchDetail(url))
    requires j < |links|
    ensures DetailRecords(links[..j + 1], fetchDetail)
      == DetailRecords(links[..j], fetchDetail) + Appended(Extract(fetchDetail(links[j])))
  {
    assert links[..j + 1][..j] == links[..j];
  }

  /** The records of two runs of links, one after the other, are the
      records of the first run followed by those of the second. */
  lemma {:induction false} DetailRecordsAppend(a: seq<string>, b: seq<string>, fetchDetail: string -> DetailPage)
    requires forall url :: WellFormed(fetchDetail(url))
    ensures DetailRecords(a + b, fetchDetail) == DetailRecords(a, fetchDetail) + DetailRecords(b, fetchDetail)
    decreases |b|
  {
    if b == [] {
      assert a + b == a;
      AppendNothing(DetailRecords(a, fetchDetail));
    } else {
      var init := b[..|b| - 1];
      assert (a + b)[..|a + b| - 1] == a + init;
      assert (a + b)[|a + b| - 1] == b[|b| - 1];
      DetailRecordsAppend(a, init, fetchDetail);
      AppendAssociative(DetailRecords(a, fetchDetail), DetailRecords(init, fetchDetail),
                        Appended(Extract(fetchDetail(b[|b| - 1]))));
    }
  }

  /** The listing fetch succeeds for every page numbered `lo + 1` to `hi`. */
  predicate ListingsAvailable(lo: nat, hi: nat, fetchListing: string -> Option<ListingPage>)
  {
    forall n: nat :: lo < n <= hi ==>
      fetchListing(GetPageNumber(n)).Some? && ListingWellFormed(fetchListing(GetPageNumber(n)).value)
  }

  /** Crawling one more listing page appends that page's records. */
  lemma CrawlStep(lo: nat, hi: nat, fetchListing: string -> Option<ListingPage>, fetchDetail: string -> DetailPage)
    requires lo < hi
    requires ListingsAvailable(lo, hi, fetchListing)
    requires forall url :: WellFormed(fetchDetail(url))
    ensures ListingsAvailable(lo, hi - 1, fetchListing)
    ensures Crawl(lo, hi, fetchListing, fetchDetail)
      == Crawl(lo, hi - 1, fetchListing, fetchDetail)
         + DetailRecords(LinksOf(fetchListing(GetPageNumber(hi)).value), fetchDetail)
  {
  }

  /** The records of listing page `n`, or none when it is not available. */
  function ListingRecords(fetchListing: string -> Option<ListingPage>, fetchDetail: string -> DetailPage, n: nat): seq<VinelloPage>
    requires forall url :: WellFormed(fetchDetail(url))
  {
    var page := fetchListing(GetPageNumber(n));
    if page.Some? && ListingWellFormed(page.value) then DetailRecords(LinksOf(page.value), fetchDetail) else []
  }

  /** A crawl is the block of records of each listing page in turn. */
  lemma {:induction false} CrawlBlocks(lo: nat, hi: nat, fetchListing: string -> Option<ListingPage>,
                                       fetchDetail: string -> DetailPage)
    requires ListingsAvailable(lo, hi, fetchListing)
    requires forall url :: WellFormed(fetchDetail(url))
    ensures Crawl(lo, hi, fetchListing, fetchDetail)
      == Blocks(lo, hi, n => ListingRecords(fetchListing, fetchDetail, n))
    decreases hi
  {
    if lo < hi {
      CrawlStep(lo, hi, fetchListing, fetchDetail);
      CrawlBlocks(lo, hi - 1, fetchListing, fetchDetail);
    }
  }

  /** Crawling from `lo` to `hi` is crawling to some `mid` and then from
      `mid` on: a crawl can be split at any page boundary. */
  lemma CrawlSplit(lo: nat, mid: nat, hi: nat, fetchListing: string -> Option<ListingPage>,
                   fetchDetail: string -> DetailPage)
    requires lo <= mid <= hi
    requires ListingsAvailable(lo, hi, fetchListing)
    requires forall url :: WellFormed(fetchDetail(url))
    ensures ListingsAvailable(lo, mid, fetchListing) && ListingsAvailable(mid, hi, fetchListing)
    ensures Crawl(lo, hi, fetchListing, fetchDetail)
      == Crawl(lo, mid, fetchListing, fetchDetail) + Crawl(mid, hi, fetchListing, fetchDetail)
  {
    ListingsAvailableWithin(lo, hi, lo, mid, fetchListing);
    ListingsAvailableWithin(lo, hi, mid, hi, fetchListing);
    CrawlBlocks(lo, hi, fetchListing, fetchDetail);
    CrawlBlocks(lo, mid, fetchListing, fetchDetail);
    CrawlBlocks(mid, hi, fetchListing, fetchDetail);
    BlocksSplit(lo, mid, hi, n => ListingRecords(fetchListing, fetchDetail, n));
  }

  /** Availability of a range implies availability of every sub-range. */
  lemma ListingsAvailableWithin(lo: nat, hi: nat, lo': nat, hi': nat, fetchListing: string -> Option<ListingPage>)
    requires ListingsAvailable(lo, hi, fetchListing)
    requires lo <= lo' && hi' <= hi
    ensures ListingsAvailable(lo', hi', fetchListing)
  {
  }

  /** The records appended while the counter goes from `lo` to `hi`: listing
      pages `lo + 1` to `hi` in order, each one's links in order. */
  function Crawl(lo: nat, hi: nat, fetchListing: string -> Option<ListingPage>, fetchDetail: string -> DetailPage): seq<VinelloPage>
    requires ListingsAvailable(lo, hi, fetchListing)
    requires forall url :: WellFormed(fetchDetail(url))
    decreases hi
  {
    if hi <= lo then []
    else
      Crawl(lo, hi - 1, fetchListing, fetchDetail)
        + DetailRecords(LinksOf(fetchListing(GetPageNumber(hi)).value), fetchDetail)
  }

  /** The scraper's state: the listing counter and the records so far;
      `requested` records the listing URLs fetched. */
  class VinelloParser {
    var number: nat
    var pages: seq<VinelloPage>
    ghost var requested: seq<string>

    constructor ()
      ensures number == 0 && pages == [] && requested == []
    {
      number := 0;
      pages := [];
      requested := [];
    }

    /** `parse_wine_page`: seed every key with `None`, store the title and
        the table rows, then append the record or leave `pages` alone. */
    method ParseWinePage(doc: DetailPage)
      requires WellFormed(doc)
      modifies this`pages
      ensures pages == old(pages) + Appended(Extract(doc))
    {
      var res: FieldMap := map[];
      for i := 0 to |FieldsToParse|
        invariant res == Seed(FieldsToParse[..i])
        invariant pages == old(pages)
      {
        SeedStep(FieldsToParse, i);
        res := res[FieldsToParse[i] := Null];
      }
      assert FieldsToParse[..|FieldsToParse|] == FieldsToParse;
      res := res["wine_name" := Text(doc.headings[0])];
      res := StoreRows(res, doc.rows, DropExtra);
      if |doc.descriptions| > 0 {
        res := res["description" := Text(DropExtra(doc.descriptions[0]))];
        res := res["verification" := Text(Join(" ", AllButLast(doc.paragraphs)))];
        var record := JsonToWinePage(res);
        if record.Some? {
          pages := pages + [record.value];
        } else {
          AppendNothing(pages);
        }
      } else {
        AppendNothing(pages);
      }
    }

    /** `get_new_page`: the counter goes up first, then the next listing
        page is fetched; a failed fetch gives `None`. */
    method GetNewPage(fetchListing: string -> Option<ListingPage>) returns (page: Option<ListingPage>)
      modifies this`number, this`requested
      ensures number == old(number) + 1
      ensures page == fetchListing(GetPageNumber(number))
      ensures requested == old(requested) + [GetPageNumber(number)]
    {
      number := number + 1;
      requested := requested + [GetPageNumber(number)];
      page := fetchListing(GetPageNumber(number));
    }

    /** The inner loop of `parse_all`: parse the detail page behind every
        link, in link order. */
    method ParseLinks(links: seq<string>, fetchDetail: string -> DetailPage)
      requires forall url :: WellFormed(fetchDetail(url))
      modifies this`pages
      ensures pages == old(pages) + DetailRecords(links, fetchDetail)
    {
      for j := 0 to |links|
        invariant pages == old(pages) + DetailRecords(links[..j], fetchDetail)
      {
        ParseWinePage(fetchDetail(links[j]));
        DetailRecordsStep(links, j, fetchDetail);
        AppendAssociative(old(pages), DetailRecords(links[..j], fetchDetail), Appended(Extract(fetchDetail(links[j]))));
      }
      assert links[..|links|] == links;
    }

    /** One pass of the `parse_all` loop: advance the counter, fetch that
        listing page, then parse every detail page it links. */
    method CrawlNextListing(fetchListing: string -> Option<ListingPage>, fetchDetail: string -> DetailPage)
      requires ListingsAvailable(number, number + 1, fetchListing)
      requires forall url :: WellFormed(fetchDetail(url))
      modifies this`number, this`requested, this`pages
      ensures number == old(number) + 1
      ensures requested == old(requested) + [GetPageNumber(number)]
      ensures pages == old(pages) + DetailRecords(LinksOf(fetchListing(GetPageNumber(number)).value), fetchDetail)
    {
      var text := GetNewPage(fetchListing);
      var links := GetLinksPerPage(text.value);
      assert links == LinksOf(text.value);
      ParseLinks(links, fetchDetail);
    }

    /** `parse_all`: while the counter is below `TotalPages`, crawl the next
        listing page; then write the CSV. */
    method ParseAll(fetchListing: string -> Option<ListingPage>, fetchDetail: string -> DetailPage)
      returns (table: seq<seq<Value>>)
      requires ListingsAvailable(number, TotalPages, fetchListing)
      requires forall url :: WellFormed(fetchDetail(url))
      modifies this
      ensures number == if old(number) < TotalPages then TotalPages else old(number)
      ensures requested == old(requested) + ListingUrls(old(number), TotalPages)
      ensures pages == old(pages) + Crawl(old(number), TotalPages, fetchListing, fetchDetail)
      ensures table == SaveToFile(pages)
    {
      ghost var start := number;
      while number < TotalPages
        invariant start <= number && (if start < TotalPages then number <= TotalPages else number == start)
        invariant requested == old(requested) + ListingUrls(start, number)
        invariant ListingsAvailable(start, number, fetchListing)
        invariant pages == old(pages) + Crawl(start, number, fetchListing, fetchDetail)
        decreases TotalPages - number
      {
        ListingsAvailableWithin(start, TotalPages, number, number + 1, fetchListing);
        ghost var done := Crawl(start, number, fetchListing, fetchDetail);
        ghost var urls := ListingUrls(start, number);
        CrawlNextListing(fetchListing, fetchDetail);
        ListingUrlsStep(start, number);
        AppendAssociative(old(requested), urls, [GetPageNumber(number)]);
        ListingsAvailableWithin(start, TotalPages, start, number, fetchListing);
        CrawlStep(start, number, fetchListing, fetchDetail);
        ghost var records := DetailRecords(LinksOf(fetchListing(GetPageNumber(number)).value), fetchDetail);
        assert Crawl(start, number, fetchListing, fetchDetail) == done + records;
        assert pages == (old(pages) + done) + records;
        AppendAssociative(old(pages), done, records);
      }
      table := SaveToFile(pages);
    }
  }
}
