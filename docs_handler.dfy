/**
  The two page assemblers of `internal/infrastructure/http/handlers/docs_handler.go`:
  the listing (`Index`) and the single document (`View`). Markdown
  conversion, the document lookup by ID and template execution are
  parameters of the model; the view data is the `map[string]interface{}`
  the handlers hand to the template.
 */
module DocsHandler {
  import opened Results
  import opened Base64
  import opened Catalog

  /** The values stored in view data. The three trusted kinds are inserted unescaped. */
  datatype Value =
    | Text(text: string)
    | TextList(items: seq<string>)
    | Records(rows: seq<map<string, Value>>)
    | TrustedCss(css: string)
    | TrustedJs(js: string)
    | TrustedHtml(html: string)

  type ViewData = map<string, Value>

  /** What the handler writes: a rendered page or an error status with its message. */
  datatype Response = Page(body: string) | HttpError(status: int, message: string)

  const NotFoundResponse: Response := HttpError(404, "404 page not found")

  /** The page's shared and own stylesheets and scripts, read from the embedded templates. */
  datatype Assets = Assets(sharedStyles: string, sharedScript: string, pageStyles: string, pageScript: string)

  /** Executing `base.html` on some view data: the output, or the error's text. */
  type Renderer = ViewData -> Result<string, string>

  /** A failed template execution becomes a 500 carrying the error's text. */
  function Respond(rendered: Result<string, string>): (resp: Response)
    ensures rendered.Ok? ==> resp == Page(rendered.value)
    ensures rendered.Err? ==> resp == HttpError(500, rendered.error)
  {
    match rendered
    case Ok(body) => Page(body)
    case Err(message) => HttpError(500, message)
  }

  // ---------------------------------------------------------------------
  // Index: the category facets

  /** The category of each document, in order. */
  function CategoriesOf(docs: seq<Document>): seq<string>
  {
    seq(|docs|, i requires 0 <= i < |docs| => docs[i].category)
  }

  predicate NoDuplicates(s: seq<string>)
  {
    forall i, j :: 0 <= i < j < |s| ==> s[i] != s[j]
  }

  /** Each value of `s` once, in the order of its first occurrence. */
  function FirstOccurrences(s: seq<string>): (r: seq<string>)
    ensures forall x :: x in r <==> x in s
    ensures NoDuplicates(r)
  {
    if s == [] then []
    else
      var before := FirstOccurrences(s[..|s| - 1]);
      var last := s[|s| - 1];
      assert forall x :: x in s <==> x in s[..|s| - 1] || x == last by {
        assert s == s[..|s| - 1] + [last];
      }
      if last in before then before else before + [last]
  }

  /** Go's lookup in a `map[string]bool`: a missing key reads as false. */
  function Seen(m: map<string, bool>, key: string): bool
  {
    key in m && m[key]
  }

  /** The `categories` loop of `Index`. "All" is not entered in the map. */
  method CategoryFacets(docs: seq<Document>) returns (categories: seq<string>)
    ensures categories == ["All"] + FirstOccurrences(CategoriesOf(docs))
  {
    categories := ["All"];
    var categoryMap: map<string, bool> := map[];
    for i := 0 to |docs|
      invariant categories == ["All"] + FirstOccurrences(CategoriesOf(docs[..i]))
      invariant forall c :: Seen(categoryMap, c) <==> c in CategoriesOf(docs[..i])
    {
      var category := docs[i].category;
      assert CategoriesOf(docs[..i + 1]) == CategoriesOf(docs[..i]) + [category];
      assert CategoriesOf(docs[..i + 1])[..i] == CategoriesOf(docs[..i]);
      if !Seen(categoryMap, category) {
        categories := categories + [category];
        categoryMap := categoryMap[category := true];
      }
    }
    assert docs[..|docs|] == docs;
  }

  /** Index of the first occurrence of `x` in `s`. */
  function FirstIndex(s: seq<string>, x: string): (k: nat)
    requires x in s
    ensures k < |s| && s[k] == x
    ensures forall j :: 0 <= j < k ==> s[j] != x
  {
    if s[0] == x then 0 else 1 + FirstIndex(s[1..], x)
  }

  lemma {:induction false} FirstIndexExtend(s: seq<string>, c: string, x: string)
    requires x in s
    ensures FirstIndex(s + [c], x) == FirstIndex(s, x)
  {
    if s[0] != x {
      assert (s + [c])[1..] == s[1..] + [c];
      FirstIndexExtend(s[1..], c, x);
    }
  }

  /** Every value of `r` occurs in `s`, and earlier in `r` means earlier first occurrence in `s`. */
  predicate OrderedByFirstOccurrence(s: seq<string>, r: seq<string>)
  {
    && (forall x :: x in r ==> x in s)
    && forall i, j :: 0 <= i < j < |r| ==> FirstIndex(s, r[i]) < FirstIndex(s, r[j])
  }

  /** The facets are ordered by where each category first occurs. */
  lemma {:induction false} FirstOccurrencesOrder(s: seq<string>)
    ensures OrderedByFirstOccurrence(s, FirstOccurrences(s))
  {
    if s != [] {
      var init, last := s[..|s| - 1], s[|s| - 1];
      assert s == init + [last];
      FirstOccurrencesOrder(init);
      var before := FirstOccurrences(init);
      var r := FirstOccurrences(s);
      forall x | x in init ensures FirstIndex(s, x) == FirstIndex(init, x) {
        FirstIndexExtend(init, last, x);
      }
      if last !in before {
        assert FirstIndex(s, last) == |init|;
      }
      forall i, j | 0 <= i < j < |r| ensures FirstIndex(s, r[i]) < FirstIndex(s, r[j]) {
        assert i < |before| && r[i] == before[i] && before[i] in init;
        if j < |before| {
          assert r[j] == before[j] && before[j] in init;
          assert FirstIndex(init, before[i]) < FirstIndex(init, before[j]);
        } else {
          assert r[j] == last && last !in before;
          assert FirstIndex(init, before[i]) < |init|;
        }
      }
    }
  }

  /** What the facet list promises the listing page. */
  lemma {:induction false} CategoryFacetsFacts(docs: seq<Document>)
    ensures var facets := ["All"] + FirstOccurrences(CategoriesOf(docs));
      && facets[0] == "All"
      && NoDuplicates(facets[1..])
      && (forall d :: d in docs ==> d.category in facets[1..])
      && (forall c :: c in facets[1..] ==> exists d :: d in docs && d.category == c)
      && OrderedByFirstOccurrence(CategoriesOf(docs), facets[1..])
  {
    var cats := CategoriesOf(docs);
    var facets := ["All"] + FirstOccurrences(cats);
    assert facets[1..] == FirstOccurrences(cats);
    forall d | d in docs ensures d.category in cats {
      var k :| 0 <= k < |docs| && docs[k] == d;
      assert cats[k] == d.category;
    }
    forall c | c in facets[1..] ensures exists d :: d in docs && d.category == c {
      var k :| 0 <= k < |cats| && cats[k] == c;
      assert docs[k] in docs;
    }
    FirstOccurrencesOrder(cats);
  }

  /** "All" is not reserved: a document in a category named "All" adds a second "All". */
  lemma {:induction false} CategoryNamedAllRepeats(docs: seq<Document>)
    requires exists d :: d in docs && d.category == "All"
    ensures multiset(["All"] + FirstOccurrences(CategoriesOf(docs)))["All"] == 2
  {
    var cats := CategoriesOf(docs);
    var r := FirstOccurrences(cats);
    var d :| d in docs && d.category == "All";
    var k :| 0 <= k < |docs| && docs[k] == d;
    assert cats[k] == "All";
    var m := FirstIndex(r, "All");
    assert r == r[..m] + [r[m]] + r[m + 1..];
    assert "All" !in r[m + 1..] by {
      forall j | m + 1 <= j < |r| ensures r[j] != "All" {
        assert r[m] != r[j];
      }
    }
    assert multiset(r)["All"] == 1;
  }

  // ---------------------------------------------------------------------
  // Index: the rows of the document grid

  /** The eight keys of a `docsInterface` entry. */
  const RowFields: set<string> :=
    {"ID", "Title", "Description", "Category", "Tags", "UpdatedAt", "ContentB64", "CoverImage"}

  /** One entry of `docsInterface`; the body stays base64-encoded. */
  function RowOf(doc: Document): ViewData
  {
    map[
      "ID" := Text(doc.id),
      "Title" := Text(doc.title),
      "Description" := Text(doc.description),
      "Category" := Text(doc.category),
      "Tags" := TextList(doc.tags),
      "UpdatedAt" := Text(doc.updatedAt),
      "ContentB64" := Text(doc.contentB64),
      "CoverImage" := Text(doc.coverImage)
    ]
  }

  /** Reads a document back out of a row, if the row has the eight fields with the right kinds. */
  function DocumentOfRow(row: ViewData): Option<Document>
  {
    if && "ID" in row && row["ID"].Text?
       && "Title" in row && row["Title"].Text?
       && "Description" in row && row["Description"].Text?
       && "Category" in row && row["Category"].Text?
       && "Tags" in row && row["Tags"].TextList?
       && "UpdatedAt" in row && row["UpdatedAt"].Text?
       && "ContentB64" in row && row["ContentB64"].Text?
       && "CoverImage" in row && row["CoverImage"].Text?
    then Some(Document(row["ID"].text, row["Title"].text, row["Description"].text,
      row["Category"].text, row["Tags"].items, row["UpdatedAt"].text,
      row["ContentB64"].text, row["CoverImage"].text))
    else None
  }

  /** A row loses nothing of its document: in particular the body is passed on still encoded. */
  lemma {:induction false} RowRoundTrip(doc: Document)
    ensures DocumentOfRow(RowOf(doc)) == Some(doc)
    ensures RowOf(doc)["ContentB64"] == Text(doc.contentB64)
    ensures RowOf(doc).Keys == RowFields
  {
  }

  /** The `docsInterface` loop: one row per document, filled by index. */
  method ProjectDocuments(docs: seq<Document>) returns (rows: seq<ViewData>)
    ensures |rows| == |docs|
    ensures forall i :: 0 <= i < |docs| ==> DocumentOfRow(rows[i]) == Some(docs[i])
    ensures forall i :: 0 <= i < |docs| ==> rows[i].Keys == RowFields
  {
    var docsInterface := new ViewData[|docs|];
    for i := 0 to |docs|
      invariant forall k :: 0 <= k < i ==> DocumentOfRow(docsInterface[k]) == Some(docs[k])
      invariant forall k :: 0 <= k < i ==> docsInterface[k].Keys == RowFields
    {
      docsInterface[i] := RowOf(docs[i]);
      RowRoundTrip(docs[i]);
    }
    rows := docsInterface[..];
  }

  /** The view data of the listing page. */
  function IndexData(rows: seq<ViewData>, categories: seq<string>, assets: Assets): ViewData
  {
    map[
      "PageClass" := Text("docs-page"),
      "Title" := Text("Documentation Dashboard"),
      "ActiveSection" := Text("docs"),
      "Documents" := Records(rows),
      "Categories" := TextList(categories),
      "SharedStyles" := TrustedCss(assets.sharedStyles),
      "SharedScript" := TrustedJs(assets.sharedScript),
      "PageStyles" := TrustedCss(assets.pageStyles),
      "PageScript" := TrustedJs(assets.pageScript)
    ]
  }

  /**
    `resp` is the listing page of `docs`: one row of the eight fields per document, in
    order, and the category facets led by "All".
   */
  ghost predicate ListingOf(docs: seq<Document>, assets: Assets, render: Renderer, resp: Response)
  {
    exists rows: seq<ViewData> ::
      && |rows| == |docs|
      && (forall i :: 0 <= i < |rows| ==> DocumentOfRow(rows[i]) == Some(docs[i]))
      && (forall i :: 0 <= i < |rows| ==> rows[i].Keys == RowFields)
      && resp == Respond(render(IndexData(rows, ["All"] + FirstOccurrences(CategoriesOf(docs)), assets)))
  }

  /**
    `Index`: load the catalog, derive the facets, project the rows, render.
    The catalog never reports an error, so the only failure is the template's.
   */
  method Index(fs: FileSystem, assets: Assets, render: Renderer) returns (resp: Response)
    ensures ListingOf(Collected(fs, Metadata), assets, render, resp)
  {
    var docs, err := GetAllDocuments(fs);
    if err.Some? {
      return HttpError(500, "Error loading documents");
    }
    var categories := CategoryFacets(docs);
    var rows := ProjectDocuments(docs);
    resp := Respond(render(IndexData(rows, categories, assets)));
    ListingFromRows(docs, rows, assets, render);
  }

  /** Rows that give back the documents, rendered with the facets, make the listing page. */
  lemma {:induction false} ListingFromRows(docs: seq<Document>, rows: seq<ViewData>, assets: Assets, render: Renderer)
    requires |rows| == |docs|
    requires forall i :: 0 <= i < |docs| ==> DocumentOfRow(rows[i]) == Some(docs[i])
    requires forall i :: 0 <= i < |docs| ==> rows[i].Keys == RowFields
    ensures ListingOf(docs, assets, render,
      Respond(render(IndexData(rows, ["All"] + FirstOccurrences(CategoriesOf(docs)), assets))))
  {
  }

  // ---------------------------------------------------------------------
  // View

  const DocsPrefix: string := "/docs/"

  /** `strings.TrimPrefix(path, "/docs/")`: at most one leading prefix is removed. */
  function DocId(path: string): (id: string)
    ensures |path| >= |DocsPrefix| && path[..|DocsPrefix|] == DocsPrefix ==> DocsPrefix + id == path
    ensures !(|path| >= |DocsPrefix| && path[..|DocsPrefix|] == DocsPrefix) ==> id == path
  {
    if |path| >= |DocsPrefix| && path[..|DocsPrefix|] == DocsPrefix then path[|DocsPrefix|..] else path
  }

  /** The path of a document's page gives back its ID, whatever the ID contains. */
  lemma {:induction false} DocIdOfDocumentPath(id: string)
    ensures DocId(DocsPrefix + id) == id
  {
    assert (DocsPrefix + id)[..|DocsPrefix|] == DocsPrefix;
  }

  /** `GetDocumentById`'s two results: the document pointer (nil as None) and the error. */
  datatype StoreReply = StoreReply(doc: Option<Document>, err: Option<string>)

  /** The view data of a document page; `Content` holds the converted markdown, unescaped. */
  function ViewPageData(doc: Document, html: string, assets: Assets): ViewData
  {
    map[
      "PageClass" := Text("docs-view-page"),
      "Title" := Text(doc.title),
      "ActiveSection" := Text("docs"),
      "ID" := Text(doc.id),
      "Category" := Text(doc.category),
      "Description" := Text(doc.description),
      "Tags" := TextList(doc.tags),
      "UpdatedAt" := Text(doc.updatedAt),
      "CoverImage" := Text(doc.coverImage),
      "Content" := TrustedHtml(html),
      "SharedStyles" := TrustedCss(assets.sharedStyles),
      "SharedScript" := TrustedJs(assets.sharedScript),
      "PageStyles" := TrustedCss(assets.pageStyles),
      "PageScript" := TrustedJs(assets.pageScript)
    ]
  }

  /**
    `View`: look the document up, decode its body, convert the markdown,
    render. Each failure answers at once, in this order: store error (500),
    no document (404), bad base64 (500), conversion error (500), then the
    template's own error (500).
   */
  function View(path: string, lookup: string -> StoreReply, convert: seq<byte> -> Result<string, string>,
                render: Renderer, assets: Assets): (resp: Response)
    ensures lookup(DocId(path)).err.Some? ==> resp == HttpError(500, "Error loading document")
    ensures lookup(DocId(path)).err.None? && lookup(DocId(path)).doc.None? ==> resp == NotFoundResponse
    ensures resp == NotFoundResponse ==> lookup(DocId(path)).err.None? && lookup(DocId(path)).doc.None?
    ensures lookup(DocId(path)).err.None? && lookup(DocId(path)).doc.Some? ==>
      var doc := lookup(DocId(path)).doc.value;
      && (Decode(doc.contentB64).Err? ==> resp == HttpError(500, "Error decoding document"))
      && (Decode(doc.contentB64).Ok? && convert(Decode(doc.contentB64).value).Err? ==>
            resp == HttpError(500, "Error converting markdown"))
  {
    var reply := lookup(DocId(path));
    if reply.err.Some? then HttpError(500, "Error loading document")
    else if reply.doc.None? then NotFoundResponse
    else
      var doc := reply.doc.value;
      match Decode(doc.contentB64)
      case Err(_) => HttpError(500, "Error decoding document")
      case Ok(markdown) =>
        match convert(markdown)
        case Err(_) => HttpError(500, "Error converting markdown")
        case Ok(html) => Respond(render(ViewPageData(doc, html, assets)))
  }

  /**
    The success path: the template receives the document's title and, as
    `Content`, the conversion of the decoded body.
   */
  lemma {:induction false} ViewRendersConvertedBody(path: string, lookup: string -> StoreReply,
                                 convert: seq<byte> -> Result<string, string>, render: Renderer, assets: Assets)
    requires lookup(DocId(path)).err.None? && lookup(DocId(path)).doc.Some?
    requires Decode(lookup(DocId(path)).doc.value.contentB64).Ok?
    requires convert(Decode(lookup(DocId(path)).doc.value.contentB64).value).Ok?
    ensures var doc := lookup(DocId(path)).doc.value;
      var html := convert(Decode(doc.contentB64).value).value;
      var data := ViewPageData(doc, html, assets);
      && data["Content"] == TrustedHtml(html)
      && data["Title"] == Text(doc.title)
      && View(path, lookup, convert, render, assets) == Respond(render(data))
  {
  }

  /**
    For a document of the local catalog, the markdown handed to the
    converter is exactly the bytes of its file.
   */
  lemma {:induction false} ViewOfCatalogDocument(fs: FileSystem, meta: DocumentMeta, path: string,
                              lookup: string -> StoreReply, convert: seq<byte> -> Result<string, string>,
                              render: Renderer, assets: Assets)
    requires Loads(fs, meta.filePath)
    requires lookup(DocId(path)) == StoreReply(Some(ToDocument(meta, Encode(fs[meta.filePath].content))), None)
    ensures var bytes := fs[meta.filePath].content;
      View(path, lookup, convert, render, assets) ==
        match convert(bytes)
        case Err(_) => HttpError(500, "Error converting markdown")
        case Ok(html) => Respond(render(ViewPageData(ToDocument(meta, Encode(bytes)), html, assets)))
  {
    DecodeEncode(fs[meta.filePath].content);
  }

  /** Once the lookup fails or finds nothing, neither the converter nor the template is consulted. */
  lemma {:induction false} ViewStopsEarly(path: string, lookup: string -> StoreReply,
                       convert1: seq<byte> -> Result<string, string>, convert2: seq<byte> -> Result<string, string>,
                       render1: Renderer, render2: Renderer, assets: Assets)
    requires lookup(DocId(path)).err.Some? || lookup(DocId(path)).doc.None?
    ensures View(path, lookup, convert1, render1, assets) == View(path, lookup, convert2, render2, assets)
  {
  }
}
