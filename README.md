# markitos-it-app-website: a verified model of the documentation pages

This project models, in Dafny, the parts of the documentation site that carry
logic of their own:

- **The local document catalog** (`internal/domain/documents/inmemory_storage.go`).
  `GetAllDocuments` walks a fixed list of ten metadata records. It reads each
  record's markdown file from the embedded file system and base64-encodes its
  bytes. A record whose file cannot be opened or read is skipped, and the call
  never reports an error. Base64 is Go's `StdEncoding`, the padded alphabet of
  section 4 of RFC 4648. It is modelled in both directions, because the
  document page decodes what the catalog encoded.
- **The two page assemblers of the docs handler**
  (`internal/infrastructure/http/handlers/docs_handler.go`).
  - `Index` builds the category facets ("All", then each category once, in
    first-seen order) and one view row per document.
  - `View` trims `/docs/` off the path, then answers with the first failure
    in a fixed order, or else with the rendered page.
  - Markdown conversion, the document lookup and template execution are
    function parameters that may fail.
- **The table of contents of a document page**
  (`internal/templates/docs/view/script.js`). `slugify` turns heading text
  into an anchor id. `generateTableOfContents` gives every h2/h3 heading an id
  made unique by a `-2`, `-3`, … suffix loop, and builds one link per heading.
- **The filter of the documentation listing**
  (`internal/templates/docs/index/script.js`). The page is modelled as a class.
  - The class holds the page state: the selected category, the search query,
    the card and pill elements, and the displays of the "no results" panel and
    of the grid.
  - The listeners are its methods. Each click or input updates that state in
    place.

The modules are:

| file | module | models |
|---|---|---|
| `results.dfy` | `Results` | `Option` and `Result` |
| `base64.dfy` | `Base64` | `EncodeToString` and `DecodeString` of Go's standard encoding |
| `js_text.dfy` | `JsText` | the string operations the scripts use: `toLowerCase`, `trim`, `includes`, the decimal text of a number |
| `catalog.dfy` | `Catalog` | `inmemory_storage.go` |
| `docs_handler.dfy` | `DocsHandler` | `Index` and `View` of `docs_handler.go` |
| `table_of_contents.dfy` | `TableOfContents` | `slugify` and `generateTableOfContents` |
| `docs_filter.dfy` | `DocsFilter` | the listing page's state, `filterDocuments` and the listeners |

## Model

| member | source | states |
|---|---|---|
| Base64.ValueOf | internal/infrastructure/http/handlers/docs_handler.go:161 | a character the decoder accepts maps back to itself through the alphabet |
| Base64.ValueOfCharOf | internal/domain/documents/inmemory_storage.go:159 | every 6-bit value's alphabet character decodes to that value |
| Base64.Encode | internal/domain/documents/inmemory_storage.go:159 | the encoding of n bytes has 4·⌈n/3⌉ characters |
| Base64.EncodePadding | internal/domain/documents/inmemory_storage.go:159 | the encoding ends in exactly 0, 1 or 2 pads (for n mod 3 = 0, 2, 1), with alphabet characters before them |
| Base64.FinalQuantumPadding | internal/domain/documents/inmemory_storage.go:159 | an input of fewer than three bytes encodes to alphabet characters followed by the padding its length calls for |
| Base64.DecodeQuantum | internal/infrastructure/http/handlers/docs_handler.go:161 | a group of four decodes to three bytes exactly when all four are alphabet characters; it is a padded group, of two bytes, exactly when three alphabet characters are followed by `=`, and of one byte exactly when two are followed by `==`; any other group is rejected |
| Base64.StripNewlines | internal/infrastructure/http/handlers/docs_handler.go:161 | the decoder's input with carriage returns and line feeds removed: no line break is left and every other character keeps its count |
| Base64.StripNewlinesAppend | internal/infrastructure/http/handlers/docs_handler.go:161 | stripping a concatenation strips each part, so the kept characters stay in their order |
| Base64.DecodeRejectsPartialQuantum | internal/infrastructure/http/handlers/docs_handler.go:161-165 | input whose length, newlines removed, is not a multiple of four is a decode error |
| Base64.DecodeQuantaRejectsPartial | internal/infrastructure/http/handlers/docs_handler.go:161-165 | the quantum decoder rejects a length that is not a multiple of four |
| Base64.DecodedLength | internal/infrastructure/http/handlers/docs_handler.go:161 | a successful decode of 4k characters (k ≥ 1) gives exactly 3k bytes less one per trailing `=`; the empty text gives no bytes |
| Base64.DecodeQuantaFullStep | internal/infrastructure/http/handlers/docs_handler.go:161 | an unpadded leading quantum gives three bytes, followed by the decoding of the rest |
| Base64.DecodeQuantaPaddedStep | internal/infrastructure/http/handlers/docs_handler.go:161 | a padded quantum is accepted only as the last one, and gives three bytes less one per `=` |
| Base64.StripNewlinesIdentity | internal/infrastructure/http/handlers/docs_handler.go:161 | text without newlines passes the newline filter unchanged |
| Base64.EncodeHasNoNewlines | internal/domain/documents/inmemory_storage.go:159 | the decoder's newline filter keeps the whole of an encoding |
| Base64.QuantumInAlphabet | internal/domain/documents/inmemory_storage.go:159 | a full quantum encodes to four alphabet characters |
| Base64.QuantumRoundTrip | internal/domain/documents/inmemory_storage.go:159 | the four 6-bit groups of three bytes reassemble to those bytes |
| Base64.DecodeFullQuantum | internal/infrastructure/http/handlers/docs_handler.go:161 | decoding an encoded full quantum followed by decodable text gives the three bytes, then the rest's bytes |
| Base64.DecodeLeadingQuantum | internal/infrastructure/http/handlers/docs_handler.go:161 | when the rest of an encoding decodes back, so does the whole: the first quantum gives back the first three bytes |
| Base64.DecodeFinalQuantum | internal/infrastructure/http/handlers/docs_handler.go:161 | an encoding of fewer than three bytes decodes back to them |
| Base64.DecodeTwoBytes | internal/infrastructure/http/handlers/docs_handler.go:161 | the one-pad final quantum decodes to its two bytes |
| Base64.DecodeOneByte | internal/infrastructure/http/handlers/docs_handler.go:161 | the two-pad final quantum decodes to its byte |
| Base64.DecodeQuantaEncode | internal/domain/documents/inmemory_storage.go:159 | the quantum decoder inverts the encoder on every byte sequence |
| Base64.DecodeEncode | internal/infrastructure/http/handlers/docs_handler.go:161 | `DecodeString(EncodeToString(b))` succeeds with exactly `b` for every `b` |
| Catalog.LoadDocumentContent | internal/domain/documents/inmemory_storage.go:147-160 | an absent file is an open error, an unreadable one a read error, each with ""; otherwise no error and the encoding of the bytes, which decodes back to them |
| Catalog.GetAllDocuments | internal/domain/documents/inmemory_storage.go:124-144 | the error is always nil; the documents are exactly those of the records whose file loads, in catalog order; at most 10 |
| Catalog.CollectedLength | internal/domain/documents/inmemory_storage.go:124-142 | the loop never yields more documents than records |
| Catalog.CollectedAppend | internal/domain/documents/inmemory_storage.go:126-142 | the loop's result over two runs of records is the concatenation of its results over each, so order is kept |
| Catalog.CollectedMembers | internal/domain/documents/inmemory_storage.go:126-141 | a document is returned exactly when some record's file loads and the document copies that record's fields, drops its path and carries its file's encoding |
| Catalog.CollectedAllLoad | internal/domain/documents/inmemory_storage.go:126-142 | when every file loads, the i-th document is built from the i-th record |
| Catalog.CollectedNoneLoad | internal/domain/documents/inmemory_storage.go:126-144 | when no file loads, the collected list is empty |
| Catalog.CollectedDistinctIds | internal/domain/documents/inmemory_storage.go:126-142 | records with distinct IDs give documents with distinct IDs |
| Catalog.CatalogIdsDistinct | internal/domain/documents/inmemory_storage.go:22-121 | the ten catalog IDs are pairwise distinct |
| Catalog.AllDocumentsFacts | internal/domain/documents/inmemory_storage.go:11-145 | the catalog yields at most ten documents with distinct IDs, each built from a catalog record whose file loaded |
| Catalog.CollectedDecodes | internal/domain/documents/inmemory_storage.go:159 | every returned document's body decodes to exactly the bytes of its record's file |
| DocsHandler.Respond | internal/infrastructure/http/handlers/docs_handler.go:141-143 | a successful render is the page with its output; a failed one is a 500 whose message is the error text |
| DocsHandler.FirstOccurrences | internal/infrastructure/http/handlers/docs_handler.go:107-113 | each value once, and exactly the values of the input |
| DocsHandler.CategoryFacets | internal/infrastructure/http/handlers/docs_handler.go:106-113 | the loop over the documents and the `categoryMap` yields "All" followed by the categories' first occurrences |
| DocsHandler.FirstIndex | internal/infrastructure/http/handlers/docs_handler.go:108-112 | the position of a value's first occurrence |
| DocsHandler.FirstIndexExtend | internal/infrastructure/http/handlers/docs_handler.go:108-112 | appending a document does not move an earlier first occurrence |
| DocsHandler.FirstOccurrencesOrder | internal/infrastructure/http/handlers/docs_handler.go:108-112 | the facets after "All" are ordered by where each category first occurs |
| DocsHandler.CategoryFacetsFacts | internal/infrastructure/http/handlers/docs_handler.go:106-113 | "All" comes first; after it no duplicates, every document's category, only documents' categories, in first-occurrence order |
| DocsHandler.CategoryNamedAllRepeats | internal/infrastructure/http/handlers/docs_handler.go:106-112 | "All" is not entered in the map, so a document in a category named "All" puts "All" in the list twice |
| DocsHandler.RowRoundTrip | internal/infrastructure/http/handlers/docs_handler.go:117-126 | a row has exactly the eight keys of the source's map literal and gives back its document, with the body still base64-encoded |
| DocsHandler.ProjectDocuments | internal/infrastructure/http/handlers/docs_handler.go:115-127 | `docsInterface` has one row per document, in order; each row has exactly the eight keys and gives back its document |
| DocsHandler.Index | internal/infrastructure/http/handlers/docs_handler.go:83-144 | the response is the render of the catalog's eight-key rows, one per document in order, and of its facets; a render failure is a 500 with the error text |
| DocsHandler.ListingFromRows | internal/infrastructure/http/handlers/docs_handler.go:115-141 | eight-key rows that give back the documents, with the facets, make the listing page |
| DocsHandler.DocId | internal/infrastructure/http/handlers/docs_handler.go:148 | one leading `/docs/` is removed when present; otherwise the path is the ID |
| DocsHandler.DocIdOfDocumentPath | internal/infrastructure/http/handlers/docs_handler.go:148 | `/docs/` followed by any ID gives back that ID |
| DocsHandler.View | internal/infrastructure/http/handlers/docs_handler.go:146-209 | store error → 500, else no document → 404 (and 404 only then), else bad base64 → 500, else conversion error → 500 |
| DocsHandler.ViewRendersConvertedBody | internal/infrastructure/http/handlers/docs_handler.go:161-206 | on success the template gets the document's title and, unescaped, the conversion of the decoded body |
| DocsHandler.ViewOfCatalogDocument | internal/infrastructure/http/handlers/docs_handler.go:161-171 | for a catalog document the converter receives exactly the bytes of its file |
| DocsHandler.ViewStopsEarly | internal/infrastructure/http/handlers/docs_handler.go:150-159 | a failed or empty lookup answers before the converter or the template is used |
| JsText.LowerChar | internal/templates/docs/index/script.js:57-59 | the lowercased character is not an upper-case ASCII letter; others are unchanged, and a letter moves by the case offset |
| JsText.ToLower | internal/templates/docs/index/script.js:45 | the result has the input's length and is lowercased character by character |
| JsText.ToLowerIdempotent | internal/templates/docs/index/script.js:45-59 | lowercasing twice is lowercasing once |
| JsText.TrimStartFacts | internal/templates/docs/view/script.js:26 | trimming the start removes a white-space prefix and stops at the first other character |
| JsText.TrimEndFacts | internal/templates/docs/view/script.js:26 | trimming the end removes a white-space suffix and stops at the last other character |
| JsText.TrimFacts | internal/templates/docs/view/script.js:20-26 | the trimmed text neither starts nor ends with white space; text without white space is unchanged |
| JsText.TrimKeepsInfix | internal/templates/docs/view/script.js:20-26 | the trimmed text is a contiguous part of the input, with only white space around it |
| JsText.Includes | internal/templates/docs/index/script.js:66-68 | `includes` is true exactly when the needle occurs at some position |
| JsText.OccursInTail | internal/templates/docs/index/script.js:66-68 | an occurrence that is not at the front is an occurrence in the tail |
| JsText.Decimal | internal/templates/docs/view/script.js:30-36 | the decimal text of a number is not empty |
| JsText.ParseDecimalOfDecimal | internal/templates/docs/view/script.js:36 | the decimal text is all digits and reads back as the number |
| JsText.DecimalInjective | internal/templates/docs/view/script.js:36 | different counters give different texts |
| TableOfContents.KeepSlugSourceFacts | internal/templates/docs/view/script.js:19 | only `[a-z0-9\s-]` characters remain, and text made only of them is unchanged |
| TableOfContents.TrimKeepsSlugSource | internal/templates/docs/view/script.js:19-20 | trimming adds no character outside `[a-z0-9\s-]` |
| TableOfContents.SkipSpacesSuffix | internal/templates/docs/view/script.js:21 | a white-space run is skipped: the rest is a suffix that starts with a non-space |
| TableOfContents.SkipDashesSuffix | internal/templates/docs/view/script.js:22 | a dash run is skipped: the rest is a suffix that starts with a non-dash |
| TableOfContents.DashSpacesSlugChars | internal/templates/docs/view/script.js:21 | with white-space runs turned into dashes, only `[a-z0-9-]` remains |
| TableOfContents.CollapseDashesFacts | internal/templates/docs/view/script.js:22 | collapsing keeps emptiness and the first character, leaves no `--`, and adds no character |
| TableOfContents.SlugifyIsSlug | internal/templates/docs/view/script.js:16-22 | a slug uses only `[a-z0-9-]` and has no `--` |
| TableOfContents.DashSpacesIdentity | internal/templates/docs/view/script.js:21 | text without white space is unchanged by the white-space replacement |
| TableOfContents.CollapseDashesIdentity | internal/templates/docs/view/script.js:22 | text without `--` is unchanged by the dash collapse |
| TableOfContents.SlugifyFixesSlugs | internal/templates/docs/view/script.js:16-22 | every slug is its own slug |
| TableOfContents.SlugifyIdempotent | internal/templates/docs/view/script.js:16-22 | slugifying a slug changes nothing |
| TableOfContents.Suffixed | internal/templates/docs/view/script.js:36 | `${id}-${counter}` is longer than `id` plus the dash |
| TableOfContents.SuffixedInjective | internal/templates/docs/view/script.js:36 | different counters give different candidates |
| TableOfContents.CandidateInjective | internal/templates/docs/view/script.js:33-37 | the loop never tries the same candidate twice |
| TableOfContents.CandidatesInUsed | internal/templates/docs/view/script.js:35-38 | the loop ends: n distinct candidates all in use need n used ids |
| TableOfContents.UniqueId | internal/templates/docs/view/script.js:33-38 | the id is unused; it is the base when the base is free, else the first free of `base-2`, `base-3`, … |
| TableOfContents.BaseId | internal/templates/docs/view/script.js:28-31 | the base id is never empty, and is the heading's own id when it has one |
| TableOfContents.UsedMembers | internal/templates/docs/view/script.js:15-39 | `usedIds` holds exactly the ids assigned so far |
| TableOfContents.UsedSnoc | internal/templates/docs/view/script.js:39 | adding an id to the set is set union with it |
| TableOfContents.UniqueAssignmentExtend | internal/templates/docs/view/script.js:33-39 | a first free candidate for the next heading extends a valid assignment |
| TableOfContents.UniqueAssignmentFresh | internal/templates/docs/view/script.js:33-40 | under the assignment, no id repeats an earlier one |
| TableOfContents.FreshEachDistinct | internal/templates/docs/view/script.js:15-40 | the assigned ids are pairwise distinct, and the set grows by exactly one per heading |
| TableOfContents.MapIndexedSnoc | internal/templates/docs/view/script.js:24 | walking one more heading appends its result |
| TableOfContents.LabelHeading | internal/templates/docs/view/script.js:25-46 | the heading gets the first free candidate for its base id; its link is `#` + id, the trimmed text, and the level digit |
| TableOfContents.AssignStep | internal/templates/docs/view/script.js:24-40 | one turn of the loop keeps each id the first free candidate for its heading's base |
| TableOfContents.LinkStep | internal/templates/docs/view/script.js:43-59 | one turn of the loop appends the link of that heading |
| TableOfContents.LinkHeadings | internal/templates/docs/view/script.js:15-60 | the headings keep all but their ids; the ids are a valid unique assignment; the links follow the headings |
| TableOfContents.GenerateTableOfContents | internal/templates/docs/view/script.js:2-61 | a missing element changes nothing; zero headings give only the message; otherwise pairwise distinct ids and one link per heading |
| DocsFilter.Shown | internal/templates/docs/index/script.js:70-75 | only the display changes: `flex` exactly when the card matches, otherwise `none` |
| DocsFilter.VisibleCountIsSize | internal/templates/docs/index/script.js:53-72 | the count is the number of shown cards, never more than the cards |
| DocsFilter.VisibleCountZero | internal/templates/docs/index/script.js:79 | the count is zero exactly when no card is shown |
| DocsFilter.VisibleCountAllShown | internal/templates/docs/index/script.js:70-72 | with every card shown, the count is the number of cards |
| DocsFilter.InitialStateMatchesAll | internal/templates/docs/index/script.js:1-94 | "All" with an empty query shows every card |
| DocsFilter.FilteredAgrees | internal/templates/docs/index/script.js:62-75 | after the filter, a card is shown exactly when it matches |
| DocsFilter.CategoryMatchExact | internal/templates/docs/index/script.js:62 | any category but "All" matches exactly the cards of that category, case-sensitively |
| DocsFilter.SearchMatchOccurs | internal/templates/docs/index/script.js:57-68 | a card matches the query exactly when it occurs in the lowercased title, description or tags |
| DocsFilter.SearchIgnoresCardCase | internal/templates/docs/index/script.js:57-59 | the case of the card's fields does not affect the match |
| DocsFilter.SearchIgnoresInputCase | internal/templates/docs/index/script.js:45 | typing a value or its lowercase form selects the same cards |
| DocsFilter.FilteredIdempotent | internal/templates/docs/index/script.js:51-76 | filtering twice in the same state is filtering once |
| DocsFilter.DocumentUrl | internal/templates/docs/index/script.js:89-91 | the href `/docs/` + ID, as a string, gives back the ID under the handler's `DocId` |
| DocsFilter.KeyNavigation | internal/templates/docs/index/script.js:12-20 | Enter or Space on a card navigates to the href string of that card's document; anything else does nothing |
| DocsFilter.FilterCard | internal/templates/docs/index/script.js:56-75 | a card is set to `flex` and counted exactly when its category and the search both match |
| DocsFilter.DocsIndexPage.constructor | internal/templates/docs/index/script.js:1-94 | the initial state shows every card; the panel shows only when there are no cards |
| DocsFilter.DocsIndexPage.FilterDocuments | internal/templates/docs/index/script.js:51-86 | the cards become the filtered cards; the count is the number shown; the panel shows, and the grid hides, exactly when it is zero |
| DocsFilter.DocsIndexPage.OnCategoryClick | internal/templates/docs/index/script.js:25-39 | a click on a pill makes it the only active pill, selects its category and filters; any other click changes nothing |
| DocsFilter.DocsIndexPage.OnSearchInput | internal/templates/docs/index/script.js:44-47 | the query becomes the lowercased value and the cards are filtered by it |

## Left out

- The gRPC document client (`internal/domain/documents/grpc_client.go`) is not part of this model. `GetDocumentById`, which `View` calls, is a function parameter returning a document or nothing, and an error or none.
- Goldmark's markdown conversion is a fallible function parameter. The `html/template` execution of `base.html` is one too.
- Reading the stylesheets and scripts from the embedded file system is not modelled; the model assumes they open and takes their contents as given `Assets`. In the source a read error is discarded, but a failed `Open` is discarded too and leaves a nil file, on which `io.ReadAll` (and `Close`) panics, so the handler writes no response at all.
- DocsHandler.Respond: a template error is modelled as a 500 carrying the error text. In the source, execution may already have written part of the page; the status 200 has then been sent, `http.Error`'s `WriteHeader(500)` is ignored, and the error text is appended to the partial page. In that case both the status and the body differ from the model.
- The home and post handlers, the post repository and `cmd/app/main.go` are not part of this model. They hold wiring and fixed data, with no logic.
- Browser behaviour beyond ids, links, displays and classes is not modelled. This covers scrolling, the scroll spy, sharing, clipboard copy, code-block buttons, reading progress, history updates, and the click handlers of the table's links.
- DocsFilter.DocumentUrl, DocsFilter.KeyNavigation: the browser's resolution of the href and Go's percent-decoding of `r.URL.Path` are not modelled; the round trip is stated on the href string. It carries over to the handler only for IDs without `#`, `?`, `%`, `\` or dot segments, which all ten catalog IDs satisfy.
- The `if (docsGrid)`, `if (categoryFilters)` and `if (searchInput)` guards of the listing script are not modelled: the model assumes the elements exist. The grid's key listener is the function `KeyNavigation`; its `preventDefault` is not modelled.
- `slugify`'s `normalize('NFD')` and `\p{Diacritic}` removal are not modelled. `Slugify` is the remaining pipeline, and on ASCII input the two agree.
- JsText.ToLower, JsText.LowerChar: map only ASCII letters. Unicode case mapping is not modelled.
- Go's `CorruptInputError` carries the byte offset of the bad input. The model's decode error does not.
- GenerateTableOfContents: heading ids are made unique only among the headings. Clashes with ids of other elements on the page are not modelled, as the script does not check them either.
