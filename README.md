# Rondônia procurement listing scraper — verified model

`extracao.py` reads the procurement listing of the Rondônia state portal. For
each `span12` block of the listing it takes:

- the block's publication date, title and detail link;
- from the detail page that link points to: the administrative unit, the
  estimated value, the status and the opening date (from the detail table),
  the edital download link, the full description, and an identifier derived
  from the URL.

It merges these into one ten-field record per block, in document order.

This project models that decision core in Dafny. It has these modules:

- `Text`: the Python string behaviour the scraper relies on. This covers
  ASCII `\d`, `str.isspace` and `str.strip()`, the `in` operator on strings,
  ASCII case-insensitive search, and BeautifulSoup's `get_text(strip=True)`.
- `IdResolver`: `extract_id_from_url`. The regular expressions `/(\d+)/?$` and
  `p=(\d+)$` are written as scanners that work from the back of the URL.
  Python's `$` matches at the end of the string and also just before a final
  newline, and the scanners keep that. Both patterns are defined separately as
  match predicates.
- `Monetary`: `extract_monetary_value`. It is a greedy scanner for
  `\d{1,3}(?:\.\d{3})*(?:,\d{1,2})?`, checked against a separate grammar of
  Brazilian-formatted amounts.
- `Dicts`: dict literals as key/value lists in insertion order, and `dict.get`.
- `Page`: the parsed pages as plain values. Each element lookup is an
  `Option`, each text is a string, and a fetch is a `Fetched` value. The
  crashes the script can hit are the `Crash` reasons.
- `Detail`: `extract_additional_info`. Its table row loop is the method
  `ScanTableRows`, proved against the fold `ScanRows`. The whole function is
  the method `ExtractAdditionalInfo`, proved against the function
  `AdditionalInfo`. The three lookups outside the table are each a function.
- `Listing`: the loop over the listing blocks and the record merge (lines
  78–105). The loop is the method `ExtractListing`, which appends one record
  per block. Its body is `ExtractBlock`. Both are proved against the functions
  `Listing` and `BlockRecord`.

The network is a parameter `fetch: string -> Fetched`. The model assumes a
fetch gives the same answer for the same URL within one run.

The places where the script raises are modelled as `Failure` results with a
`Crash` reason, not as preconditions:

- a failed `requests.get` (`FetchRaised`);
- a 200 page without the `table-condensed` table (`NoDetailTable`, line 22);
- a label cell with no `td` after it (`NoCellAfterLabel`, line 42);
- a title anchor without `href` (`AnchorWithoutHref`, line 88);
- `.get` called on the `None` that a non-200 detail page gives
  (`DetailMissing`, line 93).

A crash ends the whole run, so `Listing` is either every block's record or
the first block's crash.

`extracao.py` reads a single listing page. It has no pagination, no stop
rule based on publication dates, and no modality field, so the model has none
either.

## Model

| member | source | states |
|---|---|---|
| Text.Strip | extracao.py:31-32 | `str.strip()`: the result is the input with a whitespace-only prefix and suffix removed, and it is empty or starts and ends with a non-whitespace character, so it is the unique strip of the input |
| Text.ContainsIffOccurs | extracao.py:34-38 | the `in` test on strings holds exactly when the pattern occurs at some index of the text |
| Text.StripEmptyIff | extracao.py:31-32 | stripping leaves nothing exactly when the text is whitespace only |
| Text.GetTextStripped | extracao.py:50 | `get_text(strip=True)`: the text joined from the stripped fragments is empty exactly when every fragment is whitespace only, and otherwise it neither starts nor ends with whitespace |
| IdResolver.SlashRule | extracao.py:9-11 | the back-to-front scan finds a value exactly when `/(\d+)/?$` matches somewhere, and then the value is a match's group: non-empty ASCII digits |
| IdResolver.ParamRule | extracao.py:13-14 | the same for `p=(\d+)$` |
| IdResolver.SlashMatchEndsRun | extracao.py:9 | every match of `/(\d+)/?$` ends where the trailing digit run before the optional `/` and line end ends, and its group is that whole run |
| IdResolver.SlashGroupUnique | extracao.py:9-11 | all matches of `/(\d+)/?$` in a URL have the same group, so the leftmost match that `re.search` reports is determined |
| IdResolver.ParamGroupUnique | extracao.py:13-14 | all matches of `p=(\d+)$` in a URL have the same group |
| IdResolver.ExtractIdFromUrl | extracao.py:8-14 | a match of the first pattern decides the Id; only without one does a match of the second pattern decide it; with neither the result is `Não encontrado`; the result is always either the sentinel or a non-empty digit string |
| IdResolver.ExtractIdTrailingNumber | extracao.py:9-11 | `…/licitacoes/12345/` gives `12345` |
| IdResolver.ExtractIdQueryParameter | extracao.py:13-14 | `…/licitacoes/?p=99` gives `99`, since the first pattern does not match |
| IdResolver.ExtractIdNoNumber | extracao.py:14 | a URL with neither pattern gives the sentinel |
| Monetary.MatchEndIsAmount | extracao.py:67 | what the greedy scan takes from a digit is a well-formed amount `D{1,3}(.DDD)*(,D{1,2})?` |
| Monetary.NoLongerAmount | extracao.py:67 | no well-formed amount starting at that digit is longer than the greedy match, so greedy matching with no backtracking yields the longest amount |
| Monetary.ExtractMonetaryValue | extracao.py:66-68 | the result is `Não encontrado` exactly when the text has no digit; otherwise the result is the substring starting at the first digit, is a well-formed amount, and no longer amount starts there |
| Monetary.ExtractMonetaryValueIdempotent | extracao.py:66-68 | extracting from an extracted value, the sentinel included, gives it back unchanged |
| Monetary.ExtractMonetaryValueExample | extracao.py:67-68 | `R$ 1.234,56 (estimado)` gives `1.234,56` |
| Monetary.ExtractMonetaryValueNoDigits | extracao.py:68 | `indisponível` gives the sentinel |
| Dicts.GetPresent | extracao.py:93-102 | on a dict with distinct keys, `.get` of a present key returns its value whatever the default |
| Dicts.GetAbsent | extracao.py:93-102 | `.get` of an absent key returns the default |
| Detail.HeaderPrecedence | extracao.py:34-39 | a header selects a field exactly when it contains that field's label and none of a higher-priority field (`Valor Estimado` before `Situação` before `Data da Abertura`) |
| Detail.RowStepSetsOneField | extracao.py:30-39 | a row sets the field it selects to its stored value; every field it does not select keeps its value |
| Detail.ScanRowsDefault | extracao.py:24-39 | a field that no row selects stays `Não encontrado` |
| Detail.ScanRowsLastWins | extracao.py:28-39 | after the loop a field holds the value stored by the last row selecting it: the monetary extraction of the stripped value cell for `Valor Estimado`, the stripped value cell otherwise |
| Detail.ScanRowsSkipsUnmatched | extracao.py:28-39 | a row that selects no field (wrong cell count or an unmatched header) can be taken out, wherever it stands, without changing the result |
| Detail.ScanTableRows | extracao.py:24-39 | the row loop with its three mutable locals ends with the fields `ScanRows` gives for the rows |
| Detail.IsUnidadeLabelIgnoresCase | extracao.py:41 | a cell is the label exactly when, at some index of its text, every character of `Unidade Administrativa` agrees with the text's character up to ASCII case |
| Detail.FindLabel | extracao.py:41 | returns the first label cell at or after the start, or nothing exactly when no later cell is a label |
| Detail.UnidadeAdministrativa | extracao.py:41-42 | without a label cell the result is `Não encontrado`; with a first label cell followed by another cell it is that cell's stripped text; a label in the last cell is the `NoCellAfterLabel` crash |
| Detail.EditalLink | extracao.py:44-46 | the result is the `href` when the icon, its enclosing `<a>` and the attribute are all present, and `Não encontrado` when any one is missing |
| Detail.DescricaoCompleta | extracao.py:48-50 | a missing heading or `div` gives `Não encontrado`; with both present the result is `GetTextStripped` of the `div`'s text fragments, so it never starts or ends with whitespace |
| Detail.DetailDict | extracao.py:54-62 | the record has exactly the seven keys `DetailKeys`, in their fixed order and distinct |
| Detail.ExtractAdditionalInfo | extracao.py:16-64 | the method (fetch, status test, table loop, three lookups, record) returns `AdditionalInfo` of the response for the item URL |
| Detail.DetailRecordShape | extracao.py:52-64 | there is a record exactly when the fetch answered 200, the table exists and the label lookup does not crash; then it has the seven keys in order, and its Id is `ExtractIdFromUrl` of the item URL |
| Detail.NonOkGivesNone | extracao.py:64 | any status other than 200 gives `None`, whatever the page |
| Detail.FieldsIndependent | extracao.py:41-50 | two pages that agree on one part (cells, table, icon or heading) give records that agree on that part's fields, and the Id always agrees |
| Detail.MissingLabelDegradesOnlyItsField | extracao.py:41-42 | replacing the page's cells with cells that have no label gives the same record except that `Unidade Administrativa` becomes the sentinel |
| Listing.PublicationDate | extracao.py:83-84 | the stripped text of the date element, which never starts or ends with whitespace, or `Data não encontrada` without the element |
| Listing.TitleText | extracao.py:86-87 | the stripped text of the title span, or `Título não encontrado` without it |
| Listing.DetailLink | extracao.py:88 | the run crashes with `AnchorWithoutHref` exactly when the title has an `<a>` without `href`; an `<a>` with `href` gives that `href`; no title or no `<a>` gives `Link não encontrado` |
| Listing.MergeRecord | extracao.py:92-103 | the merged record has the ten keys `RecordKeys`, in order and distinct |
| Listing.MergeCopiesDetail | extracao.py:92-103 | since a detail record always has all seven keys, no `.get` fallback is used and each detail value is copied unchanged |
| Listing.ExtractBlock | extracao.py:83-103 | the loop body returns `BlockRecord` of the block |
| Listing.ExtractListing | extracao.py:80-105 | the loop that appends to `extracted_data` returns `Listing` of the blocks |
| Listing.ListingOnePerBlock | extracao.py:80-105 | a completed run has exactly one record per block, and the i-th record is the i-th block's record |
| Listing.ListingCrashes | extracao.py:82-105 | the run completes exactly when no block crashes; otherwise it ends with the crash of the first block that does |
| Listing.BlockRecordContents | extracao.py:83-103 | a block's record is the link's Id, followed by the block's own stripped date, title and link (each defaulting to its own sentinel), followed by the six detail values of the link's page, in the fixed order |

## Left out

- The root fetch, the `lista-template-licitacao` check, `json.dumps` and the `print` calls (lines 70–77 and 107–114). These are I/O around the core. The model begins with the list of `span12` blocks.
- `requests.get` and BeautifulSoup parsing. A fetch is the parameter `fetch`, and a parsed page is a `DetailPage` or `Block` value. Element search order is taken as given by those values. This covers `find_next` in document order and `find_parent`.
- `find('td', string=…)` only tests a `td` whose `.string` is set. That is a `td` with exactly one child, when that child is a text node or is itself a tag whose `.string` is set, as in `<td><b>Unidade Administrativa</b></td>`. A `td` with several children is never found. The model tests every `td`'s whole text.
- Detail.IsUnidadeLabelIgnoresCase: case folding covers ASCII letters only. Python's `re.IGNORECASE` also matches a few non-ASCII letters against letters of the label: `İ` (U+0130) and `ı` (U+0131) against `i`, and `ſ` (U+017F) against `s`. The model does not treat a cell spelled with those as the label.
- Monetary.ExtractMonetaryValue: `\d` is the ASCII digits only. Python's `\d` on `str` patterns also accepts the other Unicode decimal digits.
- IdResolver.ExtractIdFromUrl: `\d` is the ASCII digits only, as for the monetary pattern.
- The sentinel URL `Link não encontrado`: a block without a title or without an `<a>` in it gets that link, and `extract_additional_info` then calls `requests.get` on it. With no scheme in the URL, `requests` raises `MissingSchema`, so in the script such a block ends the whole run. In the model that outcome is left to the `fetch` parameter, whose answer for that string is `Raised` (the `FetchRaised` crash) exactly when it models `requests` faithfully.
- Pagination, a date-based stop rule and a modality field: `extracao.py` has none of them.
