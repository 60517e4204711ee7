# Wine review scrapers: a Dafny model

This project models the data handling of two wine-review scrapers.

- **Vinello** (`vinello/main.py`, with the record shape in `vinello/page_structure.py`) walks 643 listing pages. Each listing page yields a list of links; each link leads to a detail page. A detail page is turned into a 24-field `VinelloPage` record.
- **Vinepair** (`vinepair/main.py`) walks 152 listing pages. Each listing page yields a set of links; each link leads to a review page, which becomes a 13-field `WinePage` record.
- Both sites then write the records to a CSV file: a header row, then one row per record.

What the model covers:

- The field normaliser `drop_extra`, one per site.
- The raw field map built from a page's table. Every row stores `lower(drop_extra(cell0)) -> drop_extra(cell1)`, and a later row overwrites an earlier one.
- The `try` block. It either appends a record to `pages` or leaves `pages` unchanged.
- The counter-driven crawl: `get_page_number`, `get_new_page` and `parse_all`.
- The link selection.
- The CSV projection.

How the model is built:

- HTML and HTTP are abstracted. A page is the data its CSS selectors read. A fetch is a function parameter.
- The scraper object is a class with the fields `number` and `pages`. Its methods change those fields. A ghost field `requested` logs the listing URLs fetched.
- A record field holds whatever the raw map held (`Value`: `None`, a string, or a list of strings). The type annotations of the named tuples are never enforced, so nothing stronger can be assumed.
- Some failures happen outside the `try`: a missing `h1`, `h1 ~ p` or `table`, a table row with fewer than two cells, a listing container without an href, a missing `main.main-content`, a failed listing fetch, or a detail fetch that raises (`get_exact_page` has no `try` around `session.get`). Each of these aborts the whole run, so each is a precondition.
- Some failures happen inside the `try`: a missing description element, fewer than four `h2 ~ p` elements, a `KeyError`, or an empty description list. Each of these drops the page, modelled as `None`.

Module layout:

| file | module | contents |
|---|---|---|
| common.dfy | `Values` | `Value`, `Option`, and runs of numbered blocks laid end to end |
| common.dfy | `Text` | character deletion, strip, lower, `str(n)`, `join` |
| raw_fields.dfy | `RawFields` | the table fold shared by both sites |
| page_structure.dfy | `PageStructure` | the `VinelloPage` record |
| vinello.dfy | `Vinello` | the Vinello site |
| vinepair.dfy | `Vinepair` | the Vinepair site |

## Model

| member | source | states |
|---|---|---|
| Values.Appended | vinello/main.py:100-102 | the record list grows by one exactly when the page produced a record, and by nothing when it was dropped |
| Text.Delete | vinello/main.py:35 | `replace(c, '')` keeps exactly the characters not deleted, and never lengthens the text |
| Text.DeleteTwice | vinello/main.py:35 | two successive `replace` passes delete the union of their character sets |
| Text.DeleteNothing | vinepair/main.py:37 | deleting characters that do not occur leaves the text unchanged |
| Text.StripLeft | vinello/main.py:35 | `lstrip(' ')` drops exactly the leading spaces: the result is a suffix, everything dropped was a space, and the result does not start with a space |
| Text.StripRight | vinello/main.py:35 | `rstrip(' ')` drops exactly the trailing spaces: the result is a prefix, everything dropped was a space, and the result does not end with a space |
| Text.Strip | vinello/main.py:35 | `strip(' ')` gives the slice of the text that starts after its leading spaces; everything cut after that slice is a space, and the result has no space at either end |
| Text.StripNothing | vinello/main.py:35 | text with no space at either end is unchanged by `strip(' ')` |
| Text.Lower | vinello/main.py:93 | lower-casing keeps the length, maps each character on its own, and leaves no ASCII capital |
| Text.NatToString | vinello/main.py:105 | `str(n)` is a nonempty string of decimal digits with no leading zero |
| Text.DecimalRoundTrip | vinello/main.py:105 | reading back the digits `str(n)` wrote gives `n` |
| Text.NatToStringInjective | vinepair/main.py:95 | distinct numbers give distinct strings |
| Text.Join | vinello/main.py:98 | `' '.join` of no parts is empty, and of one part is that part |
| Text.JoinSnoc | vinello/main.py:98 | joining one more part appends the separator and then that part, so the separator sits between each pair of consecutive parts |
| Text.JoinLength | vinello/main.py:98 | the joined text is as long as all parts together plus one separator for each of the `n - 1` gaps between `n` parts |
| Text.AllButLast | vinello/main.py:98 | `xs[:-1]` is empty for an empty list, else the list without its last element, in order |
| RawFields.Seed | vinello/main.py:83-84 | after the seeding loop every listed key is present and maps to `None` |
| RawFields.ApplyRowsKeys | vinello/main.py:92-93 | after the row loop a key is present exactly when it was present before or some row's normalised, lower-cased first cell equals it |
| RawFields.LastWriteWins | vinello/main.py:92-93 | the last row naming a key decides its value: the normalised second cell of that row |
| RawFields.NoRowKeepsSeed | vinepair/main.py:81-82 | a key no row names keeps its earlier presence and value |
| RawFields.StoreRows | vinepair/main.py:81-82 | the row loop computes the fold of the rows over the map, in row order |
| PageStructure.AsTuple | vinello/page_structure.py:4-29 | a record has exactly 24 values, and rebuilding a record from them gives back the same record |
| PageStructure.AttrByPosition | vinello/page_structure.py:4-29 | `getattr` by the i-th declared name gives the i-th value of the tuple |
| PageStructure.AttrOnlyFields | vinello/page_structure.py:4-29 | the 24 declared names are the record's only fields |
| PageStructure.FieldNamesDistinct | vinello/page_structure.py:4-29 | each field is declared once |
| Vinello.DropExtra | vinello/main.py:34-35 | the result contains no newline, tab, no-break space or colon, adds no character, and has no space at either end |
| Vinello.DropExtraDeletesRemoved | vinello/main.py:34-35 | the four passes are one deletion of the four characters, followed by the strip |
| Vinello.DropExtraIdempotent | vinello/main.py:34-35 | normalising normalised text changes nothing |
| Vinello.FieldsToParseDistinct | vinello/main.py:26-32 | the 24 raw keys are pairwise distinct, so keys map to attributes one-to-one |
| Vinello.AllKeysPresent | vinello/main.py:26-32 | a map holding every listed key holds each of the 24 literal keys |
| Vinello.JsonToWinePage | vinello/main.py:49-77 | a record is built exactly when all 24 raw keys are present; otherwise the lookup fails |
| Vinello.TupleFromMap | vinello/main.py:52-77 | value i of the built record is the map's value under raw key i |
| Vinello.JsonToWinePagePositional | vinello/main.py:22-32 | the attribute named `fields[j]` holds the value stored under `fields_to_parse[j]` |
| Vinello.SeededKeysPresent | vinello/main.py:83-93 | after seeding, the title and the rows, all 24 raw keys are present |
| Vinello.ExtractSomeIff | vinello/main.py:95-102 | a detail page yields a record exactly when it has a `product--description` element; a missing table row never drops a page |
| Vinello.FreeTextKeysDistinct | vinello/main.py:26-32 | keys 3 to 23 are not the three keys set directly |
| Vinello.TryMapHasAllKeys | vinello/main.py:95-98 | after the two `try` assignments every raw key is still present |
| Vinello.TryMapTableKey | vinello/main.py:95-98 | the `try` assignments leave the table-backed keys alone |
| Vinello.ExtractTableField | vinello/main.py:86-93 | a table-backed attribute holds the normalised second cell of the last row whose normalised, lower-cased first cell is its raw key; the title does too when some row is keyed `wine_name`, because the rows are stored after the `h1` text |
| Vinello.ExtractMissingField | vinello/main.py:83-100 | a table-backed attribute no row names is `None`, and the record is still produced |
| Vinello.ExtractWineName | vinello/main.py:86 | the title is the first `h1` text unless a row is keyed `wine_name` |
| Vinello.ExtractFreeText | vinello/main.py:95-98 | `description` is the normalised first description text; `verification` is the space-join of every `h2 ~ p` text but the last, not normalised, whatever the table holds |
| Vinello.GetPageNumberDecodes | vinello/main.py:104-105 | the listing URL is the review prefix, then `n` in decimal, then `&n=16`; the number can be read back |
| Vinello.GetPageNumberInjective | vinello/main.py:104-105 | distinct page numbers give distinct listing URLs |
| Vinello.ListingUrlsAt | vinello/main.py:145-147 | while the counter goes from `lo` to `hi`, exactly `hi - lo` listing pages are requested: pages `lo + 1` to `hi`, in increasing order |
| Vinello.GetLinksPerPage | vinello/main.py:166-175 | one link per container, the first href of that container, in container order; duplicates are kept |
| Vinello.ToRow | vinello/main.py:182 | the `getattr` row of a record is its tuple of values in declared order |
| Vinello.SaveToFile | vinello/main.py:177-184 | the header is `fields`, followed by one row per record in order, and each row reads back as its record |
| Vinello.SaveToFileCell | vinello/main.py:182 | cell j of data row i is `getattr(pages[i], fields[j])` |
| Vinello.HeaderInDeclaredOrder | vinello/main.py:22-25 | the CSV header `fields` names the record's attributes in the order `VinelloPage` declares them at vinello/page_structure.py:4-29 |
| Vinello.DetailRecordsAppend | vinello/main.py:150-153 | parsing two runs of links one after the other yields the records of the first run followed by those of the second |
| Vinello.CrawlSplit | vinello/main.py:145-153 | the records of a crawl from `lo` to `hi` are those of the crawl to any `mid` followed by those of the crawl from `mid` on |
| Vinello.VinelloParser.constructor | vinello/main.py:46-47 | the counter starts at 0 with no records |
| Vinello.VinelloParser.ParseWinePage | vinello/main.py:79-102 | `pages` grows by the page's record when the `try` succeeds, and is unchanged when it fails |
| Vinello.VinelloParser.GetNewPage | vinello/main.py:118-122 | the counter goes up before the fetch, and the page fetched is the one at the new counter value |
| Vinello.VinelloParser.ParseLinks | vinello/main.py:150-153 | every link's detail page is parsed, in link order |
| Vinello.VinelloParser.CrawlNextListing | vinello/main.py:146-153 | one loop pass advances the counter by one, requests that listing page, and appends the records of its links |
| Vinello.VinelloParser.ParseAll | vinello/main.py:144-155 | the loop ends with the counter at 643 (or unchanged if already past it). It requests listing pages `number + 1` to 643 in order. It appends their records in crawl order, and the CSV is the projection of `pages` |
| Vinepair.DropExtra | vinepair/main.py:36-37 | the result keeps exactly the characters other than newline, tab and no-break space; spaces and colons survive |
| Vinepair.DropExtraDeletesRemoved | vinepair/main.py:36-37 | the three passes are one deletion of the three characters |
| Vinepair.DropExtraKeepsClean | vinepair/main.py:36-37 | text without those characters is unchanged |
| Vinepair.DropExtraIdempotent | vinepair/main.py:36-37 | normalising normalised text changes nothing |
| Vinepair.ToRow | vinepair/main.py:168-170 | a CSV row has 13 values and reads back as its record |
| Vinepair.SaveToFile | vinepair/main.py:162-170 | the header is the 13 `WinePage` names in declared order, followed by one row per record in order, and each row reads back as its record |
| Vinepair.Keep | vinepair/main.py:85-88 | the kept parts are empty exactly when no part's raw text is longer than two characters |
| Vinepair.KeepAppend | vinepair/main.py:85-88 | the filter keeps the order of the parts |
| Vinepair.KeepFirst | vinepair/main.py:85-88 | the first kept part is the normalised first part longer than two characters |
| Vinepair.First | vinepair/main.py:67 | `[0]` yields the first item of a nonempty list, the first character of a nonempty string, and fails on `None` or on an empty one |
| Vinepair.AllKeysPresent | vinepair/main.py:54-67 | a map holding every attribute name holds each of the 13 literal keys |
| Vinepair.JsonToWinePage | vinepair/main.py:51-68 | a record is built exactly when all 13 keys are present and the description has a first item |
| Vinepair.JsonToWinePageAt | vinepair/main.py:54-67 | each attribute but the description is the value under its own name; the description is the first item of the stored value |
| Vinepair.HeadedKeys | vinepair/main.py:72-75 | before the rows, only blend, variety, description, recommendation, wine_name and slogan are present, and blend and variety are `None` |
| Vinepair.TableBacked | vinepair/main.py:84-88 | the `try` assignments leave the title, the slogan and the eight table-backed keys alone |
| Vinepair.TryMapKeys | vinepair/main.py:72-88 | after the `try` assignments, a key only a row supplies is present exactly when some row names it; every other key is present |
| Vinepair.TryMapHasAllKeys | vinepair/main.py:54-66 | every lookup succeeds exactly when the table names rating, style, vintage, appellation, abv and price |
| Vinepair.ExtractSomeIff | vinepair/main.py:84-92 | a review page yields a record exactly when it has four `h2 ~ p` elements, its table names all six row-only keys, and its fourth section has a part longer than two characters |
| Vinepair.ExtractTableField | vinepair/main.py:74-82 | the rating, style, blend, variety, vintage, appellation, abv and price columns hold the normalised second cell of the last row naming them; so do the title and the slogan when a row names them, because the rows are stored after the `h1` and `h1 ~ p` texts |
| Vinepair.ExtractSeededField | vinepair/main.py:72 | blend or variety with no row is `None`, not a lost page |
| Vinepair.ExtractWineName | vinepair/main.py:74 | the title is the first `h1` text unless a row is keyed `wine_name` |
| Vinepair.ExtractSlogan | vinepair/main.py:75 | the slogan is the first `h1 ~ p` text unless a row is keyed `slogan` |
| Vinepair.ExtractSections | vinepair/main.py:85-88 | `perfect_for` and `recommendation` are the kept parts of sections 1 and 2. `description` is the first kept part of section 4. The third section is skipped, whatever the table holds |
| Vinepair.GetPageNumberDecodes | vinepair/main.py:94-95 | the listing URL is `review_page` followed by `n` in decimal; the number can be read back |
| Vinepair.GetPageNumberInjective | vinepair/main.py:94-95 | distinct page numbers give distinct listing URLs |
| Vinepair.ListingUrlsAt | vinepair/main.py:135-137 | while the counter goes from `lo` to `hi`, exactly `hi - lo` listing pages are requested: pages `lo + 1` to `hi`, in increasing order |
| Vinepair.SetOf | vinepair/main.py:156 | `set(xs)` holds exactly the elements of `xs` and is no larger than `xs` |
| Vinepair.GetLinksPerPage | vinepair/main.py:147-160 | the links are exactly the hrefs of the first main element, with duplicates collapsed |
| Vinepair.LinksVisitedOnce | vinepair/main.py:140-143 | under any iteration order of the set, each distinct link is parsed exactly once and nothing else is parsed |
| Vinepair.DetailRecordsAppend | vinepair/main.py:140-143 | parsing two runs of links one after the other yields the records of the first run followed by those of the second |
| Vinepair.CrawlSplit | vinepair/main.py:135-143 | the records of a crawl from `lo` to `hi` are those of the crawl to any `mid` followed by those of the crawl from `mid` on |
| Vinepair.VineParser.constructor | vinepair/main.py:48-49 | the counter starts at 0 with no records |
| Vinepair.VineParser.ParseWinePage | vinepair/main.py:70-92 | `pages` grows by the page's record when the `try` succeeds, and is unchanged when it fails |
| Vinepair.VineParser.GetNewPage | vinepair/main.py:108-112 | the counter goes up before the fetch, and the page fetched is the one at the new counter value |
| Vinepair.VineParser.ParseLinks | vinepair/main.py:140-143 | every link's review page is parsed, in iteration order |
| Vinepair.VineParser.CrawlNextListing | vinepair/main.py:135-143 | one loop pass advances the counter by one, requests that listing page, and appends the records of its link set |
| Vinepair.VineParser.ParseAll | vinepair/main.py:134-145 | the loop ends with the counter at 152 (or unchanged if already past it). It requests listing pages `number + 1` to 152 in order. It appends their records in crawl order, and the CSV is the projection of `pages` |

## Left out

- HTTP: the session, its headers, `session.get`, and the response text are not modelled. A fetch is a function parameter.
  - A listing fetch gives an optional page.
  - A detail fetch gives a page.
- HTML parsing and CSS selection: BeautifulSoup is not modelled. A page is the sequences its selectors return.
  - Vinepair's iteration over a tag's children is a given list of part texts.
- Logging, `print`, and the real file write are not modelled. The CSV is the header plus the rows as values; CSV quoting, escaping and the rendering of `None` and of lists are not modelled.
- The `params.append` loop is not modelled. It is only reached with keyword arguments, and no caller passes any. The unused `pandas` and `datetime` imports are not modelled either.
- PageStructure.Attr: only field names are modelled. `getattr` on a named tuple also succeeds for its other attributes (`count`, `index`, `_fields`, `_asdict`, `_replace`, `_make`), where the model gives `None`. `save_to_file` passes only field names.
- `get_exact_page` is not modelled. It is the detail fetch parameter. It has no `try`, so a detail request that raises (a connection error, a timeout) ends the whole run; the model's detail fetch always returns a page, so that outcome is not represented.
- Numeric coercion is not modelled. The `int` and `float` annotations are never enforced and the code converts nothing, so every field stays a `Value`.
- Text.Lower: lower-cases ASCII letters only. Python's `str.lower` also folds non-ASCII capitals. A table key containing one is therefore modelled as not matching the lower-case key.
- Vinello.VinelloParser.ParseAll: requires every listing fetch to succeed and every listing container to have an href. When these fail, the source crashes while parsing the `None` text or indexing an empty list.
- Vinepair.VineParser.ParseAll: the iteration order of a Python `set` is a parameter `order`. `LinksVisitedOnce` states what any genuine enumeration of the set guarantees. The order CPython actually uses is not modelled. The same `order` serves the whole run, so two equal link sets on different listing pages are visited in the same order. CPython may visit them in different orders when their hrefs were inserted differently, and such a run has no counterpart in the model.
- Vinello.VinelloParser.ParseAll, Vinepair.VineParser.ParseAll: the detail fetch is a function of the URL, so a link fetched twice yields the same page both times. This covers a duplicate Vinello keeps within a listing page, and a review listed on two pages. A site that changes between the two requests is not modelled.
- A table row whose `tr` holds no `td` cells, such as a `th` header row, is not modelled: the source crashes outside the `try` on `item[0]`. `WellFormedTable` requires at least two cells per row.
- The body of `parse_all`'s loop is split into `CrawlNextListing` and `ParseLinks`, and the single listing step into `CrawlStep`. The behaviour is the same; the split only keeps each proof small.
- Vinello.DetailRecords, Vinello.Crawl and the Vinello parser methods, like their Vinepair counterparts, require every URL to lead to a well-formed detail page, not only the URLs the crawl visits. The records depend only on the visited pages, so a fetch that is malformed only at unvisited URLs can be replaced by one that is well-formed there without changing any record; every run the source completes therefore has a counterpart in the model. Naming the visited links in each precondition would mean threading them through every crawl lemma, and the model does not do that.
