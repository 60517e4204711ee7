/** The Vinepair scraper (vinepair/main.py): the field normaliser, the
    `WinePage` record, the assembly of one review page into a record, the
    listing-page link set, the counter-driven crawl and the CSV projection.
    HTML parsing and HTTP are abstracted: a page is the data its selectors
    read, a fetch is a function parameter, and the iteration order of a
    Python `set` is a parameter too. */
module Vinepair {
  import opened Values
  import opened Text
  import opened RawFields

  const TotalPages: nat := 152

  const ReviewPage: string := "https://vinepair.com/review/category/wine/?fwp_paged="

  /** The record's attribute names, which are also its raw-map keys and the
      CSV header. */
  const Fields: seq<string> := [
    "wine_name",
    "slogan",
    "rating",
    "style",
    "blend",
    "variety",
    "vintage",
    "appellation",
    "abv",
    "price",
    "perfect_for",
    "recommendation",
    "description"
  ]

  /** The keys only a table row can supply: the record is lost without them. */
  const TableKeys: seq<string> := ["rating", "style", "vintage", "appellation", "abv", "price"]

  /** The characters `drop_extra` deletes. */
  const Removed: set<char> := {'\n', '\t', NoBreakSpace}

  /** `drop_extra`: three `replace(c, '')` passes; no stripping here. */
  function DropExtra(s: string): (r: string)
    ensures |r| <= |s|
    ensures forall c :: c in r <==> c in s && c !in Removed
  {
    Delete(Delete(Delete(s, {'\n'}), {'\t'}), {NoBreakSpace})
  }

  /** The three passes together delete exactly the set `Removed`. */
  lemma DropExtraDeletesRemoved(s: string)
    ensures DropExtra(s) == Delete(s, Removed)
  {
    var nl, tab, nbsp: set<char> := {'\n'}, {'\t'}, {NoBreakSpace};
    assert nl + tab + nbsp == Removed;
    DeleteTwice(s, nl, tab);
    DeleteTwice(s, nl + tab, nbsp);
  }

  /** Text without newlines, tabs and no-break spaces is left as it is. */
  lemma DropExtraKeepsClean(s: string)
    requires forall c :: c in s ==> c !in Removed
    ensures DropExtra(s) == s
  {
    DropExtraDeletesRemoved(s);
    DeleteNothing(s, Removed);
  }

  /** Normalising normalised text changes nothing. */
  lemma DropExtraIdempotent(s: string)
    ensures DropExtra(DropExtra(s)) == DropExtra(s)
  {
    DropExtraKeepsClean(DropExtra(s));
  }

  /** The `WinePage` named tuple. The annotations (`int`, `float`) are not
      enforced, so every field holds what the raw map held. */
  datatype WinePage = WinePage(
    wineName: Value,
    slogan: Value,
    rating: Value,
    style: Value,
    blend: Value,
    variety: Value,
    vintage: Value,
    appellation: Value,
    abv: Value,
    price: Value,
    perfectFor: Value,
    recommendation: Value,
    description: Value)

  /** The record read back from its values in declared order. */
  function FromTuple(vs: seq<Value>): WinePage
    requires |vs| == |Fields|
  {
    WinePage(vs[0], vs[1], vs[2], vs[3], vs[4], vs[5], vs[6], vs[7], vs[8], vs[9], vs[10], vs[11], vs[12])
  }

  /** One CSV row: the attributes in the order the header names them. */
  function ToRow(p: WinePage): (row: seq<Value>)
    ensures |row| == |Fields| && FromTuple(row) == p
  {
    [p.wineName, p.slogan, p.rating, p.style, p.blend, p.variety, p.vintage,
     p.appellation, p.abv, p.price, p.perfectFor, p.recommendation, p.description]
  }

  /** `save_to_file` without the file: the header, then one row per record
      in order, so that reading a row back rebuilds its record. */
  function SaveToFile(pages: seq<WinePage>): (table: seq<seq<Value>>)
    ensures |table| == |pages| + 1
    ensures |table[0]| == |Fields| && forall j :: 0 <= j < |Fields| ==> table[0][j] == Text(Fields[j])
    ensures forall i :: 0 <= i < |pages| ==>
      |table[i + 1]| == |Fields| && FromTuple(table[i + 1]) == pages[i]
  {
    [seq(|Fields|, j requires 0 <= j < |Fields| => Text(Fields[j]))]
      + seq(|pages|, i requires 0 <= i < |pages| => ToRow(pages[i]))
  }

  /** What the selectors of `parse_wine_page` read from a review page. */
  datatype DetailPage = DetailPage(
    headings: seq<string>,        // texts of the `h1` elements
    slogans: seq<string>,         // texts of the `h1 ~ p` elements
    rows: seq<Row>,               // cell texts of the rows of the first `table`
    sections: seq<seq<string>>)   // for each `h2 ~ p` element, the texts of its children

  /** Outside the `try`, a missing `h1`, a missing `h1 ~ p` or a short table
      row aborts the whole run. */
  predicate WellFormed(doc: DetailPage)
  {
    |doc.headings| > 0 && |doc.slogans| > 0 && WellFormedTable(doc.rows)
  }

  /** `[drop_extra(t) for t in parts if len(t) > 2]`: the length test is on
      the raw text. */
  function Keep(parts: seq<string>): (r: seq<string>)
    ensures |r| <= |parts|
    ensures r == [] <==> forall i :: 0 <= i < |parts| ==> |parts[i]| <= 2
  {
    if parts == [] then []
    else (if |parts[0]| > 2 then [DropExtra(parts[0])] else []) + Keep(parts[1..])
  }

  /** Filtering a concatenation filters each half and keeps the order. */
  lemma {:induction false} KeepAppend(a: seq<string>, b: seq<string>)
    ensures Keep(a + b) == Keep(a) + Keep(b)
  {
    if a == [] {
      assert a + b == b;
    } else {
      var head := if |a[0]| > 2 then [DropExtra(a[0])] else [];
      assert (a + b)[0] == a[0];
      assert (a + b)[1..] == a[1..] + b;
      assert Keep(a + b) == head + Keep(a[1..] + b);
      KeepAppend(a[1..], b);
      AppendAssociative(head, Keep(a[1..]), Keep(b));
    }
  }

  /** The first kept part is the first part longer than two characters. */
  lemma {:induction false} KeepFirst(parts: seq<string>, i: nat)
    requires i < |parts| && |parts[i]| > 2
    requires forall k :: 0 <= k < i ==> |parts[k]| <= 2
    ensures |Keep(parts)| > 0 && Keep(parts)[0] == DropExtra(parts[i])
  {
    if i > 0 {
      assert forall k :: 0 <= k < i - 1 ==> parts[1..][k] == parts[k + 1];
      KeepFirst(parts[1..], i - 1);
    }
  }

  /** `json_data['description'][0]`: the first item of a list, the first
      character of a string, a `TypeError` on `None`, an `IndexError` on an
      empty list or string. */
  function First(v: Value): (r: Option<Value>)
    ensures r.Some? <==> (v.Texts? && |v.items| > 0) || (v.Text? && |v.s| > 0)
    ensures v.Texts? && |v.items| > 0 ==> r == Some(Text(v.items[0]))
    ensures v.Text? && |v.s| > 0 ==> r == Some(Text([v.s[0]]))
  {
    match v
    case Null => None
    case Text(s) => if |s| > 0 then Some(Text([s[0]])) else None
    case Texts(xs) => if |xs| > 0 then Some(Text(xs[0])) else None
  }

  /** Every attribute's key is in the map. */
  predicate HasAllKeys(m: FieldMap)
  {
    forall j :: 0 <= j < |Fields| ==> Fields[j] in m
  }

  lemma AllKeysPresent(m: FieldMap)
    requires HasAllKeys(m)
    ensures
      "wine_name" in m && "slogan" in m && "rating" in m && "style" in m &&
      "blend" in m && "variety" in m && "vintage" in m && "appellation" in m &&
      "abv" in m && "price" in m && "perfect_for" in m && "recommendation" in m &&
      "description" in m
  {
    assert Fields[0] in m;
    assert Fields[1] in m;
    assert Fields[2] in m;
    assert Fields[3] in m;
    assert Fields[4] in m;
    assert Fields[5] in m;
    assert Fields[6] in m;
    assert Fields[7] in m;
    assert Fields[8] in m;
    assert Fields[9] in m;
    assert Fields[10] in m;
    assert Fields[11] in m;
    assert Fields[12] in m;
  }

  /** `_json_to_wine_page`: every key lookup must succeed (else `KeyError`)
      and the description must have a first item. */
  function JsonToWinePage(m: FieldMap): (r: Option<WinePage>)
    ensures r.Some? <==> HasAllKeys(m) && "description" in m && First(m["description"]).Some?
  {
    if !HasAllKeys(m) then None
    else
      AllKeysPresent(m);
      var d := First(m["description"]);
      if d.None? then None
      else
        Some(WinePage(
          wineName := m["wine_name"],
          slogan := m["slogan"],
          rating := m["rating"],
          style := m["style"],
          blend := m["blend"],
          variety := m["variety"],
          vintage := m["vintage"],
          appellation := m["appellation"],
          abv := m["abv"],
          price := m["price"],
          perfectFor := m["perfect_for"],
          recommendation := m["recommendation"],
          description := d.value
        ))
  }

  /** Every attribute but the description is the value stored under its own
      name; the description is the first item of the stored list. */
  lemma JsonToWinePageAt(m: FieldMap, j: nat)
    requires JsonToWinePage(m).Some?
    requires j < |Fields|
    ensures Fields[j] in m
    ensures j < 12 ==> ToRow(JsonToWinePage(m).value)[j] == m[Fields[j]]
    ensures j == 12 ==> ToRow(JsonToWinePage(m).value)[j] == First(m["description"]).value
  {
    AllKeysPresent(m);
    var vs := ToRow(JsonToWinePage(m).value);
    if j == 0 { assert vs[0] == m[Fields[0]]; }
    else if j == 1 { assert vs[1] == m[Fields[1]]; }
    else if j == 2 { assert vs[2] == m[Fields[2]]; }
    else if j == 3 { assert vs[3] == m[Fields[3]]; }
    else if j == 4 { assert vs[4] == m[Fields[4]]; }
    else if j == 5 { assert vs[5] == m[Fields[5]]; }
    else if j == 6 { assert vs[6] == m[Fields[6]]; }
    else if j == 7 { assert vs[7] == m[Fields[7]]; }
    else if j == 8 { assert vs[8] == m[Fields[8]]; }
    else if j == 9 { assert vs[9] == m[Fields[9]]; }
    else if j == 10 { assert vs[10] == m[Fields[10]]; }
    else if j == 11 { assert vs[11] == m[Fields[11]]; }
    else { assert vs[12] == First(m[Fields[12]]).value; }
  }

  /** The dictionary literal `parse_wine_page` starts from. */
  const Initial: FieldMap := map["blend" := Null, "variety" := Null, "description" := Null, "recommendation" := Null]

  /** `res` before the table rows: the seeded keys, the title, the slogan. */
  function Headed(doc: DetailPage): FieldMap
    requires WellFormed(doc)
  {
    Initial["wine_name" := Text(doc.headings[0])]["slogan" := Text(doc.slogans[0])]
  }

  /** `res` once the table rows are stored. */
  function RawFieldMap(doc: DetailPage): FieldMap
    requires WellFormed(doc)
  {
    ApplyRows(Headed(doc), doc.rows, DropExtra)
  }

  /** `res` once the `try` has stored the three free-text sections. */
  function TryMap(doc: DetailPage): FieldMap
    requires WellFormed(doc) && |doc.sections| >= 4
  {
    RawFieldMap(doc)
      ["perfect_for" := Texts(Keep(doc.sections[0]))]
      ["recommendation" := Texts(Keep(doc.sections[1]))]
      ["description" := Texts(Keep(doc.sections[3]))]
  }

  /** The record the page yields, or `None` when the `try` fails: fewer than
      four `h2 ~ p` elements, a missing key, or an empty description. */
  function Extract(doc: DetailPage): Option<WinePage>
    requires WellFormed(doc)
  {
    if |doc.sections| < 4 then None else JsonToWinePage(TryMap(doc))
  }

  /** The positions in `Fields` of the keys only a table row can supply. */
  predicate IsTableIndex(j: nat)
  {
    j == 2 || j == 3 || j == 6 || j == 7 || j == 8 || j == 9
  }

  /** The position in `TableKeys` of the table-backed field `j`. */
  function TableKeyIndex(j: nat): (k: nat)
    requires IsTableIndex(j)
    ensures k < |TableKeys| && TableKeys[k] == Fields[j]
  {
    if j == 2 then 0 else if j == 3 then 1 else j - 4
  }

  /** The field position of `TableKeys[k]`. */
  function TableFieldIndex(k: nat): (j: nat)
    requires k < |TableKeys|
    ensures IsTableIndex(j) && TableKeys[k] == Fields[j]
  {
    if k == 0 then 2 else if k == 1 then 3 else k + 4
  }

  /** A key the table does not back is in `res` before any row is read. */
  lemma HeadedKeys(doc: DetailPage, j: nat)
    requires WellFormed(doc)
    requires j < |Fields|
    ensures Fields[j] in Headed(doc) <==> !IsTableIndex(j) && j != 10
    ensures j == 4 || j == 5 ==> Headed(doc)[Fields[j]] == Null
  {
    var h := Headed(doc);
    if j == 0 { assert "wine_name" in h; }
    else if j == 1 { assert "slogan" in h; }
    else if j == 2 { assert "rating" !in h; }
    else if j == 3 { assert "style" !in h; }
    else if j == 4 { assert "blend" in h && h["blend"] == Null; }
    else if j == 5 { assert "variety" in h && h["variety"] == Null; }
    else if j == 6 { assert "vintage" !in h; }
    else if j == 7 { assert "appellation" !in h; }
    else if j == 8 { assert "abv" !in h; }
    else if j == 9 { assert "price" !in h; }
    else if j == 10 { assert "perfect_for" !in h; }
    else if j == 11 { assert "recommendation" in h; }
    else { assert "description" in h; }
  }

  /** The title, the slogan and the table-backed keys are not keys the `try`
      overwrites. */
  lemma TableBacked(doc: DetailPage, j: nat)
    requires WellFormed(doc) && |doc.sections| >= 4
    requires j < 10
    ensures Fields[j] in TryMap(doc) <==> Fields[j] in RawFieldMap(doc)
    ensures Fields[j] in RawFieldMap(doc) ==> TryMap(doc)[Fields[j]] == RawFieldMap(doc)[Fields[j]]
  {
    var k := Fields[j];
    assert k != "perfect_for" && k != "recommendation" && k != "description" by {
      if j == 0 { assert k == "wine_name"; }
      else if j == 1 { assert k == "slogan"; }
      else if j == 2 { assert k == "rating"; }
      else if j == 3 { assert k == "style"; }
      else if j == 4 { assert k == "blend"; }
      else if j == 5 { assert k == "variety"; }
      else if j == 6 { assert k == "vintage"; }
      else if j == 7 { assert k == "appellation"; }
      else if j == 8 { assert k == "abv"; }
      else { assert k == "price"; }
    }
  }

  /** Which keys `res` holds after the `try`: the always-set ones, and a
      table-backed key exactly when some row names it. */
  lemma TryMapKeys(doc: DetailPage, j: nat)
    requires WellFormed(doc) && |doc.sections| >= 4
    requires j < |Fields|
    ensures Fields[j] in TryMap(doc) <==> !IsTableIndex(j) || HasRow(doc.rows, DropExtra, Fields[j])
  {
    ApplyRowsKeys(Headed(doc), doc.rows, DropExtra, Fields[j]);
    HeadedKeys(doc, j);
    if 2 <= j < 10 {
      TableBacked(doc, j);
    }
  }

  /** Every key is in `res` after the `try` exactly when the table names
      every key only a row can supply. */
  lemma TryMapHasAllKeys(doc: DetailPage)
    requires WellFormed(doc) && |doc.sections| >= 4
    ensures HasAllKeys(TryMap(doc)) <==>
      forall k :: 0 <= k < |TableKeys| ==> HasRow(doc.rows, DropExtra, TableKeys[k])
  {
    if HasAllKeys(TryMap(doc)) {
      forall k | 0 <= k < |TableKeys| ensures HasRow(doc.rows, DropExtra, TableKeys[k]) {
        TryMapKeys(doc, TableFieldIndex(k));
      }
    }
    if forall k :: 0 <= k < |TableKeys| ==> HasRow(doc.rows, DropExtra, TableKeys[k]) {
      forall j | 0 <= j < |Fields| ensures Fields[j] in TryMap(doc) {
        TryMapKeys(doc, j);
        if IsTableIndex(j) {
          assert HasRow(doc.rows, DropExtra, TableKeys[TableKeyIndex(j)]);
        }
      }
    }
  }

  /** A page yields a record exactly when it has four `h2 ~ p` elements, the
      table names every key only a row can supply, and the fourth section
      has a part longer than two characters. */
  lemma ExtractSomeIff(doc: DetailPage)
    requires WellFormed(doc)
    ensures Extract(doc).Some? <==>
      && |doc.sections| >= 4
      && (forall k :: 0 <= k < |TableKeys| ==> HasRow(doc.rows, DropExtra, TableKeys[k]))
      && exists i :: 0 <= i < |doc.sections[3]| && |doc.sections[3][i]| > 2
  {
    if |doc.sections| >= 4 {
      TryMapHasAllKeys(doc);
      assert TryMap(doc)["description"] == Texts(Keep(doc.sections[3]));
    }
  }

  /** The rating, style, blend, variety, vintage, appellation, ABV and price
      columns hold the normalised value cell of the LAST row whose
      normalised, lower-cased key cell names them; so do the title and the
      slogan when a row names them, the rows being stored after both. */
  lemma ExtractTableField(doc: DetailPage, j: nat, i: nat)
    requires WellFormed(doc) && Extract(doc).Some?
    requires j < 10
    requires i < |doc.rows| && RowKey(doc.rows[i], DropExtra) == Fields[j]
    requires forall k :: i < k < |doc.rows| ==> RowKey(doc.rows[k], DropExtra) != Fields[j]
    ensures ToRow(Extract(doc).value)[j] == RowValue(doc.rows[i], DropExtra)
  {
    LastWriteWins(Headed(doc), doc.rows, DropExtra, i);
    TableBacked(doc, j);
    JsonToWinePageAt(TryMap(doc), j);
  }

  /** Blend and variety are seeded with `None`: a page whose table names
      neither keeps them as `None`. */
  lemma ExtractSeededField(doc: DetailPage, j: nat)
    requires WellFormed(doc) && Extract(doc).Some?
    requires j == 4 || j == 5
    requires !HasRow(doc.rows, DropExtra, Fields[j])
    ensures ToRow(Extract(doc).value)[j] == Null
  {
    HeadedKeys(doc, j);
    NoRowKeepsSeed(Headed(doc), doc.rows, DropExtra, Fields[j]);
    TableBacked(doc, j);
    JsonToWinePageAt(TryMap(doc), j);
  }

  /** The title is the first `h1` text unless a table row is keyed
      `wine_name`. */
  lemma ExtractWineName(doc: DetailPage)
    requires WellFormed(doc) && Extract(doc).Some?
    requires !HasRow(doc.rows, DropExtra, "wine_name")
    ensures Extract(doc).value.wineName == Text(doc.headings[0])
  {
    var h := Headed(doc);
    assert h["wine_name"] == Text(doc.headings[0]);
    NoRowKeepsSeed(h, doc.rows, DropExtra, "wine_name");
    JsonToWinePageAt(TryMap(doc), 0);
  }

  /** The slogan is the first `h1 ~ p` text unless a table row is keyed
      `slogan`. */
  lemma ExtractSlogan(doc: DetailPage)
    requires WellFormed(doc) && Extract(doc).Some?
    requires !HasRow(doc.rows, DropExtra, "slogan")
    ensures Extract(doc).value.slogan == Text(doc.slogans[0])
  {
    var h := Headed(doc);
    assert h["slogan"] == Text(doc.slogans[0]);
    NoRowKeepsSeed(h, doc.rows, DropExtra, "slogan");
    JsonToWinePageAt(TryMap(doc), 1);
  }

  /** `perfect_for` and `recommendation` are the kept parts of the first and
      second `h2 ~ p` elements, and `description` the first kept part of the
      fourth, whatever the table holds; the third element is skipped. */
  lemma ExtractSections(doc: DetailPage)
    requires WellFormed(doc) && Extract(doc).Some?
    ensures |doc.sections| >= 4 && |Keep(doc.sections[3])| > 0
    ensures Extract(doc).value.perfectFor == Texts(Keep(doc.sections[0]))
    ensures Extract(doc).value.recommendation == Texts(Keep(doc.sections[1]))
    ensures Extract(doc).value.description == Text(Keep(doc.sections[3])[0])
  {
    var m := TryMap(doc);
    JsonToWinePageAt(m, 10);
    JsonToWinePageAt(m, 11);
    JsonToWinePageAt(m, 12);
  }

  /** `get_page_number`. */
  function GetPageNumber(n: nat): string
  {
    ReviewPage + NatToString(n)
  }

  /** The listing URL is the fixed prefix followed by `n` in decimal, so it
      can be read back and distinct page numbers give distinct URLs. */
  lemma GetPageNumberDecodes(n: nat)
    ensures var url := GetPageNumber(n);
      && |url| > |ReviewPage|
      && url[..|ReviewPage|] == ReviewPage
      && var digits := url[|ReviewPage|..];
         (forall i :: 0 <= i < |digits| ==> IsDigit(digits[i])) && DecimalValue(digits) == n
  {
    var url := GetPageNumber(n);
    assert url[|ReviewPage|..] == NatToString(n);
    DecimalRoundTrip(n);
  }

  lemma GetPageNumberInjective(a: nat, b: nat)
    requires GetPageNumber(a) == GetPageNumber(b)
    ensures a == b
  {
    GetPageNumberDecodes(a);
    GetPageNumberDecodes(b);
  }

  /** Listing URLs requested while the counter goes from `lo` to `hi`. */
  function ListingUrls(lo: nat, hi: nat): seq<string>
    decreases hi
  {
    if hi <= lo then [] else ListingUrls(lo, hi - 1) + [GetPageNumber(hi)]
  }

  /** One more pass requests one more listing page, after the others. */
  lemma ListingUrlsStep(lo: nat, hi: nat)
    requires lo < hi
    ensures ListingUrls(lo, hi) == ListingUrls(lo, hi - 1) + [GetPageNumber(hi)]
  {
  }

  /** Pages `lo + 1` to `hi` are requested once each, in increasing order. */
  lemma {:induction false} ListingUrlsAt(lo: nat, hi: nat)
    requires lo <= hi
    ensures |ListingUrls(lo, hi)| == hi - lo
    ensures forall i :: 0 <= i < hi - lo ==> ListingUrls(lo, hi)[i] == GetPageNumber(lo + i + 1)
    decreases hi
  {
    if lo < hi {
      ListingUrlsAt(lo, hi - 1);
      ListingUrlsStep(lo, hi);
      var prev := ListingUrls(lo, hi - 1);
      forall i | 0 <= i < hi - lo ensures ListingUrls(lo, hi)[i] == GetPageNumber(lo + i + 1) {
        if i < hi - lo - 1 {
          assert ListingUrls(lo, hi)[i] == prev[i];
        }
      }
    }
  }

  /** What `get_links_per_page` reads: for each `main.main-content`
      element, the hrefs of its anchors that have one, in document order. */
  datatype ListingPage = ListingPage(mains: seq<seq<string>>)

  /** `container[0]` on a page without the main element aborts the run. */
  predicate ListingWellFormed(page: ListingPage)
  {
    |page.mains| > 0
  }

  /** The distinct elements of a list, as `set(...)` builds them. */
  function SetOf(xs: seq<string>): (r: set<string>)
    ensures forall u :: u in r <==> u in xs
    ensures |r| <= |xs|
  {
    if xs == [] then {}
    else
      var rest := SetOf(xs[..|xs| - 1]);
      assert forall u :: u in xs <==> u in xs[..|xs| - 1] || u == xs[|xs| - 1];
      rest + {xs[|xs| - 1]}
  }

  /** `get_links_per_page`: the hrefs of the first main element, with
      duplicates collapsed. */
  function GetLinksPerPage(page: ListingPage): (links: set<string>)
    requires ListingWellFormed(page)
    ensures forall u :: u in links <==> u in page.mains[0]
    ensures |links| <= |page.mains[0]|
  {
    SetOf(page.mains[0])
  }

  /** An iteration order over sets: every element of the set once. */
  ghost predicate IsEnumeration(order: set<string> -> seq<string>)
  {
    forall s :: multiset(order(s)) == multiset(s)
  }

  /** Under any iteration order, the review pages visited for a listing
      page are its distinct links, each exactly once. */
  lemma LinksVisitedOnce(page: ListingPage, order: set<string> -> seq<string>, u: string)
    requires ListingWellFormed(page) && IsEnumeration(order)
    ensures multiset(order(GetLinksPerPage(page)))[u] == if u in page.mains[0] then 1 else 0
  {
    assert multiset(order(GetLinksPerPage(page))) == multiset(GetLinksPerPage(page));
  }

  /** The records of the review pages behind `links`, in iteration order. */
  function DetailRecords(links: seq<string>, fetchDetail: string -> DetailPage): seq<WinePage>
    requires forall url :: WellFormed(fetchDetail(url))
  {
    if links == [] then []
    else DetailRecords(links[..|links| - 1], fetchDetail) + Appended(Extract(fetchDetail(links[|links| - 1])))
  }

  /** Parsing one more link appends that page's record, if any. */
  lemma DetailRecordsStep(links: seq<string>, j: nat, fetchDetail: string -> DetailPage)
    requires forall url :: WellFormed(fetchDetail(url))
    requires j < |links|
    ensures DetailRecords(links[..j + 1], fetchDetail)
      == DetailRecords(links[..j], fetchDetail) + Appended(Extract(fetchDetail(links[j])))
  {
    assert links[..j + 1][..j] == links[..j];
  }

  /** The records of two runs of links, one after the other, are the
      records of the first run followed by those of the second. */
  lemma {:induction false} DetailRecordsAppend(a: seq<string>, b: seq<string>, fetchDetail: string -> DetailPage)
    requires forall url :: WellFormed(fetchDetail(url))
    ensures DetailRecords(a + b, fetchDetail) == DetailRecords(a, fetchDetail) + DetailRecords(b, fetchDetail)
    decreases |b|
  {
    if b == [] {
      assert a + b == a;
      AppendNothing(DetailRecords(a, fetchDetail));
    } else {
      var init := b[..|b| - 1];
      assert (a + b)[..|a + b| - 1] == a + init;
      assert (a + b)[|a + b| - 1] == b[|b| - 1];
      DetailRecordsAppend(a, init, fetchDetail);
      AppendAssociative(DetailRecords(a, fetchDetail), DetailRecords(init, fetchDetail),
                        Appended(Extract(fetchDetail(b[|b| - 1]))));
    }
  }

  /** The listing fetch succeeds for every page numbered `lo + 1` to `hi`. */
  predicate ListingsAvailable(lo: nat, hi: nat, fetchListing: string -> Option<ListingPage>)
  {
    forall n: nat :: lo < n <= hi ==>
      fetchListing(GetPageNumber(n)).Some? && ListingWellFormed(fetchListing(GetPageNumber(n)).value)
  }

  /** The review pages a listing page sends the crawl to, in the order the
      loop meets them. */
  function VisitOrder(page: ListingPage, order: set<string> -> seq<string>): seq<string>
    requires ListingWellFormed(page)
  {
    order(GetLinksPerPage(page))
  }

  /** The records appended while the counter goes from `lo` to `hi`. */
  function Crawl(lo: nat, hi: nat, fetchListing: string -> Option<ListingPage>,
                 order: set<string> -> seq<string>, fetchDetail: string -> DetailPage): seq<WinePage>
    requires ListingsAvailable(lo, hi, fetchListing)
    requires forall url :: WellFormed(fetchDetail(url))
    decreases hi
  {
    if hi <= lo then []
    else
      Crawl(lo, hi - 1, fetchListing, order, fetchDetail)
        + DetailRecords(VisitOrder(fetchListing(GetPageNumber(hi)).value, order), fetchDetail)
  }

  /** Crawling one more listing page appends that page's records. */
  lemma CrawlStep(lo: nat, hi: nat, fetchListing: string -> Option<ListingPage>,
                  order: set<string> -> seq<string>, fetchDetail: string -> DetailPage)
    requires lo < hi
    requires ListingsAvailable(lo, hi, fetchListing)
    requires forall url :: WellFormed(fetchDetail(url))
    ensures ListingsAvailable(lo, hi - 1, fetchListing)
    ensures Crawl(lo, hi, fetchListing, order, fetchDetail)
      == Crawl(lo, hi - 1, fetchListing, order, fetchDetail)
         + DetailRecords(VisitOrder(fetchListing(GetPageNumber(hi)).value, order), fetchDetail)
  {
  }

  /** The records of listing page `n`, or none when it is not available. */
  function ListingRecords(fetchListing: string -> Option<ListingPage>, order: set<string> -> seq<string>,
                          fetchDetail: string -> DetailPage, n: nat): seq<WinePage>
    requires forall url :: WellFormed(fetchDetail(url))
  {
    var page := fetchListing(GetPageNumber(n));
    if page.Some? && ListingWellFormed(page.value) then DetailRecords(VisitOrder(page.value, order), fetchDetail) else []
  }

  /** A crawl is the block of records of each listing page in turn. */
  lemma {:induction false} CrawlBlocks(lo: nat, hi: nat, fetchListing: string -> Option<ListingPage>,
                                       order: set<string> -> seq<string>, fetchDetail: string -> DetailPage)
    requires ListingsAvailable(lo, hi, fetchListing)
    requires forall url :: WellFormed(fetchDetail(url))
    ensures Crawl(lo, hi, fetchListing, order, fetchDetail)
      == Blocks(lo, hi, n => ListingRecords(fetchListing, order, fetchDetail, n))
    decreases hi
  {
    if lo < hi {
      CrawlStep(lo, hi, fetchListing, order, fetchDetail);
      CrawlBlocks(lo, hi - 1, fetchListing, order, fetchDetail);
    }
  }

  /** Crawling from `lo` to `hi` is crawling to some `mid` and then from
      `mid` on: a crawl can be split at any page boundary. */
  lemma CrawlSplit(lo: nat, mid: nat, hi: nat, fetchListing: string -> Option<ListingPage>,
                   order: set<string> -> seq<string>, fetchDetail: string -> DetailPage)
    requires lo <= mid <= hi
    requires ListingsAvailable(lo, hi, fetchListing)
    requires forall url :: WellFormed(fetchDetail(url))
    ensures ListingsAvailable(lo, mid, fetchListing) && ListingsAvailable(mid, hi, fetchListing)
    ensures Crawl(lo, hi, fetchListing, order, fetchDetail)
      == Crawl(lo, mid, fetchListing, order, fetchDetail) + Crawl(mid, hi, fetchListing, order, fetchDetail)
  {
    ListingsAvailableWithin(lo, hi, lo, mid, fetchListing);
    ListingsAvailableWithin(lo, hi, mid, hi, fetchListing);
    CrawlBlocks(lo, hi, fetchListing, order, fetchDetail);
    CrawlBlocks(lo, mid, fetchListing, order, fetchDetail);
    CrawlBlocks(mid, hi, fetchListing, order, fetchDetail);
    BlocksSplit(lo, mid, hi, n => ListingRecords(fetchListing, order, fetchDetail, n));
  }

  /** Availability of a range implies availability of every sub-range. */
  lemma ListingsAvailableWithin(lo: nat, hi: nat, lo': nat, hi': nat, fetchListing: string -> Option<ListingPage>)
    requires ListingsAvailable(lo, hi, fetchListing)
    requires lo <= lo' && hi' <= hi
    ensures ListingsAvailable(lo', hi', fetchListing)
  {
  }

  /** The scraper's state: the listing counter and the records so far;
      `requested` records the listing URLs fetched. */
  class VineParser {
    var number: nat
    var pages: seq<WinePage>
    ghost var requested: seq<string>

    constructor ()
      ensures number == 0 && pages == [] && requested == []
    {
      number := 0;
      pages := [];
      requested := [];
    }

    /** `parse_wine_page`: seed four keys with `None`, store the title, the
        slogan and the table rows, then append the record or leave `pages`
        alone. */
    method ParseWinePage(doc: DetailPage)
      requires WellFormed(doc)
      modifies this`pages
      ensures pages == old(pages) + Appended(Extract(doc))
    {
      var res: FieldMap := map["blend" := Null, "variety" := Null, "description" := Null, "recommendation" := Null];
      res := res["wine_name" := Text(doc.headings[0])];
      res := res["slogan" := Text(doc.slogans[0])];
      res := StoreRows(res, doc.rows, DropExtra);
      if |doc.sections| >= 4 {
        res := res["perfect_for" := Texts(Keep(doc.sections[0]))];
        res := res["recommendation" := Texts(Keep(doc.sections[1]))];
        res := res["description" := Texts(Keep(doc.sections[3]))];
        var record := JsonToWinePage(res);
        if record.Some? {
          pages := pages + [record.value];
        }
      }
    }

    /** `get_new_page`: the counter goes up first, then the next listing
        page is fetched; a failed fetch gives `None`. */
    method GetNewPage(fetchListing: string -> Option<ListingPage>) returns (page: Option<ListingPage>)
      modifies this`number, this`requested
      ensures number == old(number) + 1
      ensures page == fetchListing(GetPageNumber(number))
      ensures requested == old(requested) + [GetPageNumber(number)]
    {
      number := number + 1;
      requested := requested + [GetPageNumber(number)];
      page := fetchListing(GetPageNumber(number));
    }

    /** The inner loop of `parse_all`: parse the review page behind every
        link, in the order the set's iteration yields them. */
    method ParseLinks(links: seq<string>, fetchDetail: string -> DetailPage)
      requires forall url :: WellFormed(fetchDetail(url))
      modifies this`pages
      ensures pages == old(pages) + DetailRecords(links, fetchDetail)
    {
      for j := 0 to |links|
        invariant pages == old(pages) + DetailRecords(links[..j], fetchDetail)
      {
        ParseWinePage(fetchDetail(links[j]));
        DetailRecordsStep(links, j, fetchDetail);
        AppendAssociative(old(pages), DetailRecords(links[..j], fetchDetail), Appended(Extract(fetchDetail(links[j]))));
      }
      assert links[..|links|] == links;
    }

    /** One pass of the `parse_all` loop: advance the counter, fetch that
        listing page, then parse every review page it links. */
    method CrawlNextListing(fetchListing: string -> Option<ListingPage>,
                            order: set<string> -> seq<string>, fetchDetail: string -> DetailPage)
      requires ListingsAvailable(number, number + 1, fetchListing)
      requires forall url :: WellFormed(fetchDetail(url))
      modifies this`number, this`requested, this`pages
      ensures number == old(number) + 1
      ensures requested == old(requested) + [GetPageNumber(number)]
      ensures pages == old(pages) + DetailRecords(VisitOrder(fetchListing(GetPageNumber(number)).value, order), fetchDetail)
    {
      var text := GetNewPage(fetchListing);
      var links := GetLinksPerPage(text.value);
      ParseLinks(order(links), fetchDetail);
    }

    /** `parse_all`: while the counter is below `TotalPages`, crawl the next
        listing page; then write the CSV. */
    method ParseAll(fetchListing: string -> Option<ListingPage>,
                    order: set<string> -> seq<string>, fetchDetail: string -> DetailPage)
      returns (table: seq<seq<Value>>)
      requires ListingsAvailable(number, TotalPages, fetchListing)
      requires forall url :: WellFormed(fetchDetail(url))
      modifies this
      ensures number == if old(number) < TotalPages then TotalPages else old(number)
      ensures requested == old(requested) + ListingUrls(old(number), TotalPages)
      ensures pages == old(pages) + Crawl(old(number), TotalPages, fetchListing, order, fetchDetail)
      ensures table == SaveToFile(pages)
    {
      ghost var start := number;
      while number < TotalPages
        invariant start <= number && (if start < TotalPages then number <= TotalPages else number == start)
        invariant requested == old(requested) + ListingUrls(start, number)
        invariant ListingsAvailable(start, number, fetchListing)
        invariant pages == old(pages) + Crawl(start, number, fetchListing, order, fetchDetail)
        decreases TotalPages - number
      {
        ListingsAvailableWithin(start, TotalPages, number, number + 1, fetchListing);
        ghost var done := Crawl(start, number, fetchListing, order, fetchDetail);
        ghost var urls := ListingUrls(start, number);
        CrawlNextListing(fetchListing, order, fetchDetail);
        ListingUrlsStep(start, number);
        AppendAssociative(old(requested), urls, [GetPageNumber(number)]);
        ListingsAvailableWithin(start, TotalPages, start, number, fetchListing);
        CrawlStep(start, number, fetchListing, order, fetchDetail);
        ghost var records := DetailRecords(VisitOrder(fetchListing(GetPageNumber(number)).value, order), fetchDetail);
        assert pages == (old(pages) + done) + records;
        AppendAssociative(old(pages), done, records);
      }
      table := SaveToFile(pages);
    }
  }
}
