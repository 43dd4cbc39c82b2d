/**
  The local document catalog (`internal/domain/documents/inmemory_storage.go`):
  a fixed list of metadata records whose markdown files are read from the
  embedded file system and base64-encoded. Unreadable files are skipped.
 */
module Catalog {
  import opened Results
  import opened Base64

  /** One record of the fixed catalog. */
  datatype DocumentMeta = DocumentMeta(
    id: string,
    title: string,
    description: string,
    category: string,
    tags: seq<string>,
    updatedAt: string,
    filePath: string,
    coverImage: string)

  /** `documents.Document`: the metadata without the file path, plus the encoded body. */
  datatype Document = Document(
    id: string,
    title: string,
    description: string,
    category: string,
    tags: seq<string>,
    updatedAt: string,
    contentB64: string,
    coverImage: string)

  /** A file of the embedded file system: its bytes, or a read that fails. */
  datatype FileEntry = Readable(content: seq<byte>) | Unreadable

  /** The embedded file system; a path that is absent cannot be opened. */
  type FileSystem = map<string, FileEntry>

  datatype LoadError = OpenFailed(path: string) | ReadFailed(path: string)

  const Metadata: seq<DocumentMeta> := [
    DocumentMeta("getting-started-keptn", "Getting Started with Keptn",
      "Learn the basics of Keptn and how to set up your first project",
      "Keptn Integrations", ["beginner", "setup", "tutorial"], "2026-01-20",
      "docs/getting-started-keptn.md",
      "https://images.unsplash.com/photo-1551288049-bebda4e38f71?w=1200&h=400&fit=crop"),
    DocumentMeta("youtube-api-integration", "YouTube API Integration Guide",
      "Learn how to integrate YouTube's Data API v3 into your applications",
      "API Integration", ["youtube", "api", "video"], "2026-01-22",
      "docs/youtube-api-integration.md",
      "https://images.unsplash.com/photo-1611162616305-c69b3fa7fbe0?w=1200&h=400&fit=crop"),
    DocumentMeta("helm-chart-best-practices", "Helm Chart Best Practices",
      "Create production-ready Helm charts that are maintainable and secure",
      "Helm Charts", ["helm", "kubernetes", "best-practices"], "2026-01-18",
      "docs/helm-chart-best-practices.md",
      "https://images.unsplash.com/photo-1605745341075-1a6e8b9e7b8e?w=1200&h=400&fit=crop"),
    DocumentMeta("docker-optimization", "Docker Image Optimization",
      "Best practices for creating smaller, faster, and more secure Docker images",
      "Container Images", ["docker", "optimization", "security"], "2026-01-21",
      "docs/docker-optimization.md",
      "https://images.unsplash.com/photo-1605745341112-85968b19335b?w=1200&h=400&fit=crop"),
    DocumentMeta("kubernetes-networking", "Kubernetes Networking Deep Dive",
      "Understanding Kubernetes networking model, services, and policies",
      "Kubernetes", ["kubernetes", "networking", "advanced"], "2026-01-19",
      "docs/kubernetes-networking.md",
      "https://images.unsplash.com/photo-1558494949-ef010cbdcc31?w=1200&h=400&fit=crop"),
    DocumentMeta("ci-cd-pipelines", "Modern CI/CD Pipelines",
      "Build automated CI/CD pipelines with GitHub Actions, GitLab CI, and Jenkins",
      "DevOps", ["cicd", "automation", "deployment"], "2026-01-23",
      "docs/ci-cd-pipelines.md",
      "https://images.unsplash.com/photo-1667372393119-3d4c48d07fc9?w=1200&h=400&fit=crop"),
    DocumentMeta("video-streaming-architecture", "Video Streaming Architecture",
      "Building a scalable video streaming platform like YouTube or Netflix",
      "Architecture", ["video", "streaming", "architecture"], "2026-01-24",
      "docs/video-streaming-architecture.md",
      "https://images.unsplash.com/photo-1574717024653-61fd2cf4d44d?w=1200&h=400&fit=crop"),
    DocumentMeta("microservices-patterns", "Microservices Design Patterns",
      "Essential patterns for building resilient distributed systems",
      "Architecture", ["microservices", "patterns", "distributed-systems"], "2026-01-17",
      "docs/microservices-patterns.md",
      "https://images.unsplash.com/photo-1558494949-ef010cbdcc31?w=1200&h=400&fit=crop"),
    DocumentMeta("monitoring-observability", "Monitoring & Observability",
      "Implement comprehensive monitoring with Prometheus, Grafana, and OpenTelemetry",
      "DevOps", ["monitoring", "observability", "prometheus"], "2026-01-16",
      "docs/monitoring-observability.md",
      "https://images.unsplash.com/photo-1551288049-bebda4e38f71?w=1200&h=400&fit=crop"),
    DocumentMeta("content-delivery-networks", "Content Delivery Networks (CDN)",
      "Optimize global content delivery with CDN strategies and best practices",
      "Infrastructure", ["cdn", "performance", "caching"], "2026-01-25",
      "docs/content-delivery-networks.md",
      "https://images.unsplash.com/photo-1558494949-ef010cbdcc31?w=1200&h=400&fit=crop")
  ]

  /** The file at `path` can be opened and read to the end. */
  predicate Loads(fs: FileSystem, path: string)
  {
    path in fs && fs[path].Readable?
  }

  /** The document built from a record and its encoded file. */
  function ToDocument(meta: DocumentMeta, contentB64: string): (d: Document)
  {
    Document(meta.id, meta.title, meta.description, meta.category, meta.tags,
      meta.updatedAt, contentB64, meta.coverImage)
  }

  /** `d` is the document for `meta`, built from the bytes of its file. */
  ghost predicate BuiltFrom(fs: FileSystem, meta: DocumentMeta, d: Document)
  {
    && Loads(fs, meta.filePath)
    && d == ToDocument(meta, Encode(fs[meta.filePath].content))
  }

  /**
    The documents the loop collects from `metas`: one per record whose file
    loads, in record order. Defined from the end so that it grows with the loop.
   */
  function Collected(fs: FileSystem, metas: seq<DocumentMeta>): seq<Document>
  {
    if metas == [] then []
    else
      var meta := metas[|metas| - 1];
      var before := Collected(fs, metas[..|metas| - 1]);
      if Loads(fs, meta.filePath)
      then before + [ToDocument(meta, Encode(fs[meta.filePath].content))]
      else before
  }

  /** `loadDocumentContent`: open, read, encode; a failed step gives an error and "". */
  method LoadDocumentContent(fs: FileSystem, path: string) returns (contentB64: string, err: Option<LoadError>)
    ensures err.None? <==> Loads(fs, path)
    ensures path !in fs ==> err == Some(OpenFailed(path))
    ensures path in fs && fs[path].Unreadable? ==> err == Some(ReadFailed(path))
    ensures err.Some? ==> contentB64 == ""
    ensures err.None? ==> contentB64 == Encode(fs[path].content)
    ensures err.None? ==> Decode(contentB64) == Ok(fs[path].content)
  {
    if path !in fs {
      return "", Some(OpenFailed(path));
    }
    match fs[path]
    case Unreadable =>
      return "", Some(ReadFailed(path));
    case Readable(content) =>
      contentB64 := Encode(content);
      DecodeEncode(content);
      return contentB64, None;
  }

  /**
    `GetAllDocuments`: walks the catalog, drops every record whose file
    cannot be loaded, and never reports an error.
   */
  method GetAllDocuments(fs: FileSystem) returns (docs: seq<Document>, err: Option<LoadError>)
    ensures err == None
    ensures docs == Collected(fs, Metadata)
    ensures |docs| <= |Metadata| == 10
  {
    docs := [];
    for i := 0 to |Metadata|
      invariant docs == Collected(fs, Metadata[..i])
    {
      var meta := Metadata[i];
      var contentB64, loadErr := LoadDocumentContent(fs, meta.filePath);
      assert Metadata[..i + 1][..i] == Metadata[..i];
      if loadErr.Some? {
        continue;
      }
      docs := docs + [ToDocument(meta, contentB64)];
    }
    assert Metadata[..|Metadata|] == Metadata;
    CollectedLength(fs, Metadata);
    return docs, None;
  }

  lemma {:induction false} CollectedLength(fs: FileSystem, metas: seq<DocumentMeta>)
    ensures |Collected(fs, metas)| <= |metas|
  {
    if metas != [] {
      CollectedLength(fs, metas[..|metas| - 1]);
    }
  }

  /** Collecting distributes over concatenation: the kept records stay in order. */
  lemma {:induction false} CollectedAppend(fs: FileSystem, a: seq<DocumentMeta>, b: seq<DocumentMeta>)
    ensures Collected(fs, a + b) == Collected(fs, a) + Collected(fs, b)
    decreases |b|
  {
    if b == [] {
      assert a + b == a;
    } else {
      var b' := b[..|b| - 1];
      assert (a + b)[..|a + b| - 1] == a + b';
      CollectedAppend(fs, a, b');
    }
  }

  /** A document is collected exactly when some record's file loads and builds it. */
  lemma {:induction false} CollectedMembers(fs: FileSystem, metas: seq<DocumentMeta>, d: Document)
    ensures d in Collected(fs, metas) <==> exists i :: 0 <= i < |metas| && BuiltFrom(fs, metas[i], d)
  {
    if metas != [] {
      var init := metas[..|metas| - 1];
      CollectedMembers(fs, init, d);
      if d in Collected(fs, init) {
        var i :| 0 <= i < |init| && BuiltFrom(fs, init[i], d);
        assert metas[i] == init[i];
      }
      if exists i :: 0 <= i < |metas| && BuiltFrom(fs, metas[i], d) {
        var i :| 0 <= i < |metas| && BuiltFrom(fs, metas[i], d);
        if i < |init| {
          assert init[i] == metas[i];
        }
      }
    }
  }

  /** When every file loads, every record is kept, in order. */
  lemma {:induction false} CollectedAllLoad(fs: FileSystem, metas: seq<DocumentMeta>)
    requires forall i :: 0 <= i < |metas| ==> Loads(fs, metas[i].filePath)
    ensures |Collected(fs, metas)| == |metas|
    ensures forall i :: 0 <= i < |metas| ==> BuiltFrom(fs, metas[i], Collected(fs, metas)[i])
  {
    if metas != [] {
      CollectedAllLoad(fs, metas[..|metas| - 1]);
    }
  }

  /** When no file loads, the result is empty. */
  lemma {:induction false} CollectedNoneLoad(fs: FileSystem, metas: seq<DocumentMeta>)
    requires forall i :: 0 <= i < |metas| ==> !Loads(fs, metas[i].filePath)
    ensures Collected(fs, metas) == []
  {
    if metas != [] {
      CollectedNoneLoad(fs, metas[..|metas| - 1]);
    }
  }

  /** The IDs of a sequence of records or documents are pairwise distinct. */
  predicate DistinctMetaIds(metas: seq<DocumentMeta>)
  {
    forall i, j :: 0 <= i < j < |metas| ==> metas[i].id != metas[j].id
  }

  predicate DistinctDocIds(docs: seq<Document>)
  {
    forall i, j :: 0 <= i < j < |docs| ==> docs[i].id != docs[j].id
  }

  /** Records with distinct IDs give documents with distinct IDs. */
  lemma {:induction false} CollectedDistinctIds(fs: FileSystem, metas: seq<DocumentMeta>)
    requires DistinctMetaIds(metas)
    ensures DistinctDocIds(Collected(fs, metas))
  {
    if metas != [] {
      var init := metas[..|metas| - 1];
      var last := metas[|metas| - 1];
      CollectedDistinctIds(fs, init);
      var before := Collected(fs, init);
      forall k | 0 <= k < |before| ensures before[k].id != last.id {
        CollectedMembers(fs, init, before[k]);
        var i :| 0 <= i < |init| && BuiltFrom(fs, init[i], before[k]);
        assert init[i] == metas[i];
      }
    }
  }

  /** The catalog's IDs are pairwise distinct. */
  lemma {:induction false} CatalogIdsDistinct()
    ensures DistinctMetaIds(Metadata)
  {
    forall i, j | 0 <= i < j < |Metadata| ensures Metadata[i].id != Metadata[j].id {
      // no two IDs agree on both their length and their first letter
      assert |Metadata[i].id| != |Metadata[j].id| || Metadata[i].id[0] != Metadata[j].id[0];
    }
  }

  /**
    What `GetAllDocuments` promises its callers: at most ten documents with
    distinct IDs, each built from a catalog record whose file loaded and
    decoding back to that file's bytes.
   */
  lemma {:induction false} AllDocumentsFacts(fs: FileSystem)
    ensures var docs := Collected(fs, Metadata);
      && |docs| <= 10
      && DistinctDocIds(docs)
      && forall d :: d in docs ==> exists i :: 0 <= i < |Metadata| && BuiltFrom(fs, Metadata[i], d)
  {
    var docs := Collected(fs, Metadata);
    CollectedLength(fs, Metadata);
    CatalogIdsDistinct();
    CollectedDistinctIds(fs, Metadata);
    forall d | d in docs ensures exists i :: 0 <= i < |Metadata| && BuiltFrom(fs, Metadata[i], d) {
      CollectedMembers(fs, Metadata, d);
    }
  }

  /** Every collected document's body decodes to the bytes of its record's file. */
  lemma {:induction false} CollectedDecodes(fs: FileSystem, metas: seq<DocumentMeta>, d: Document)
    requires d in Collected(fs, metas)
    ensures exists i ::
      && 0 <= i < |metas|
      && Loads(fs, metas[i].filePath)
      && Decode(d.contentB64) == Ok(fs[metas[i].filePath].content)
  {
    CollectedMembers(fs, metas, d);
    var i :| 0 <= i < |metas| && BuiltFrom(fs, metas[i], d);
    DecodeEncode(fs[metas[i].filePath].content);
  }
}
