/**
 * The index build: every chunk of the chunked corpus is embedded (text by the
 * sentence model, images by CLIP), padded with zeros to the common dimension
 * DIM and appended to a flat inner-product index, and one metadata record per
 * indexed vector is appended beside it. Chunks of other types, and chunks
 * whose embedding raises, are skipped without stopping the build.
 */
module BuildIndex {
  import opened Wrappers
  import opened JsonValue
  import opened Embedding

  /** Characters of content kept in a metadata record. */
  const PREVIEW_CHARS: nat := 200

  /** One row of `metadata.json`, the join partner of the vector at the same position. */
  datatype MetaRecord = MetaRecord(chunkId: Json, kind: Json, doc: Json, page: Json, content: Json)

  /** What the build consults: the text model, CLIP when it loaded, and the
      `is_base64` test (whether `base64.b64decode` accepts the string). */
  datatype Models = Models(text: TextModel, clip: Option<ImageModel>, isBase64: string -> bool)
  {
    ghost predicate Valid() {
      text.Valid() && (clip.Some? ==> clip.value.Valid())
    }
  }

  /** `obj.get("chunk_id") or obj.get("id")` */
  function ChunkIdOf(obj: Obj): Json
  {
    if Truthy(Get(obj, "chunk_id")) then Get(obj, "chunk_id") else Get(obj, "id")
  }

  /** `obj.get("type", "text")` */
  function KindOf(obj: Obj): Json
  {
    GetOr(obj, "type", JStr("text"))
  }

  /** `obj.get("content", "")` */
  function ContentOf(obj: Obj): Json
  {
    GetOr(obj, "content", JStr(""))
  }

  /** `cont[:200]`: a prefix, at most 200 characters long, the whole string when
      it is no longer than that. */
  function Preview(s: string): (p: string)
    ensures |p| <= PREVIEW_CHARS && p <= s
    ensures |s| <= PREVIEW_CHARS ==> p == s
    ensures |s| > PREVIEW_CHARS ==> |p| == PREVIEW_CHARS
  {
    if |s| <= PREVIEW_CHARS then s else s[..PREVIEW_CHARS]
  }

  /** How one chunk fares: skipped by the `continue` branch, dropped by the
      `except` branch, or embedded. */
  datatype Outcome = Skipped | Failed | Embedded(vector: Vector)

  /** The embedding step of the loop body, with the image step as intended
      (see `EmbedAsWritten` for the script as it stands, which is this step
      run with `AsWritten(m)`, a CLIP whose `features` always fail). Text
      content that is not a string does not survive `encode` and `index.add`
      (neither turns a non-string into one row of DIM numbers), so it fails;
      image content must be a string that `is_base64` accepts, and CLIP must
      have loaded. */
  function Embed(m: Models, obj: Obj): (r: Outcome)
    ensures r.Embedded? ==> ContentOf(obj).JStr?
    ensures r.Embedded? ==>
              KindOf(obj) == JStr("text") ||
              (KindOf(obj) == JStr("image") && m.clip.Some? && m.isBase64(ContentOf(obj).s))
    ensures r.Skipped? <==>
              KindOf(obj) != JStr("text") && (KindOf(obj) != JStr("image") || m.clip.None?)
  {
    var dim := Dim(m.text, m.clip);
    var kind, cont := KindOf(obj), ContentOf(obj);
    if kind == JStr("text") then
      if !cont.JStr? then Failed
      else match m.text.encode(cont.s)
        case None => Failed
        case Some(emb) =>
          Embedded(if dim > m.text.dim then emb + Zeros(dim - m.text.dim) else emb)
    else if kind == JStr("image") && m.clip.Some? then
      var clip := m.clip.value;
      if !cont.JStr? || !m.isBase64(cont.s) then Failed
      else match clip.features(cont.s)
        case None => Failed
        case Some(emb) =>
          Embedded(if dim > clip.dim then emb + Zeros(dim - clip.dim) else emb)
    else Skipped
  }

  /** An embedded chunk's vector has length DIM: it is the model's vector padded
      with zeros to DIM, so the model's vector is its prefix and the rest is zero. */
  lemma EmbedSpec(m: Models, obj: Obj)
    requires m.Valid()
    requires Embed(m, obj).Embedded?
    ensures |Embed(m, obj).vector| == Dim(m.text, m.clip)
    ensures KindOf(obj) == JStr("text") ==>
              Embed(m, obj).vector == PadTo(m.text.encode(ContentOf(obj).s).value, Dim(m.text, m.clip))
    ensures KindOf(obj) == JStr("image") ==>
              Embed(m, obj).vector ==
              PadTo(m.clip.value.features(ContentOf(obj).s).value, Dim(m.text, m.clip))
  {
    var s := ContentOf(obj).s;
    if KindOf(obj) == JStr("text") {
      assert |m.text.encode(s).value| == m.text.dim;
    } else {
      assert |m.clip.value.features(s).value| == m.clip.value.dim;
    }
  }

  /** A vector and the metadata record stored beside it. */
  datatype Entry = Entry(vector: Vector, meta: MetaRecord)

  /** What one chunk adds to the index: a vector and its record, or nothing. */
  function EntryOf(m: Models, obj: Obj): (r: Option<Entry>)
    ensures r.Some? <==> Embed(m, obj).Embedded?
    ensures r.Some? ==> r.value.vector == Embed(m, obj).vector
    ensures r.Some? ==> r.value.meta.chunkId == ChunkIdOf(obj) && r.value.meta.kind == KindOf(obj)
    ensures r.Some? ==> r.value.meta.doc == Get(obj, "doc") && r.value.meta.page == Get(obj, "page")
    ensures r.Some? ==> r.value.meta.content == JStr(Preview(ContentOf(obj).s))
  {
    match Embed(m, obj)
    case Embedded(v) =>
      Some(Entry(v, MetaRecord(ChunkIdOf(obj), KindOf(obj), Get(obj, "doc"), Get(obj, "page"),
                               JStr(Preview(ContentOf(obj).s)))))
    case _ => None
  }

  /** The entries of a whole build, in the order the chunks were read. */
  function Entries(m: Models, chunks: seq<Obj>): seq<Entry>
    decreases |chunks|
  {
    if chunks == [] then []
    else
      var prev := Entries(m, chunks[..|chunks| - 1]);
      match EntryOf(m, chunks[|chunks| - 1])
      case Some(e) => prev + [e]
      case None => prev
  }

  function VectorsOf(es: seq<Entry>): seq<Vector>
  {
    seq(|es|, i requires 0 <= i < |es| => es[i].vector)
  }

  function MetadataOf(es: seq<Entry>): seq<MetaRecord>
  {
    seq(|es|, i requires 0 <= i < |es| => es[i].meta)
  }

  /** Building from two batches one after the other gives the first batch's
      entries followed by the second's. */
  lemma {:induction false} EntriesAppend(m: Models, a: seq<Obj>, b: seq<Obj>)
    ensures Entries(m, a + b) == Entries(m, a) + Entries(m, b)
    decreases |b|
  {
    if b == [] {
      assert a + b == a;
    } else {
      var n := |b|;
      assert (a + b)[..|a + b| - 1] == a + b[..n - 1];
      EntriesAppend(m, a, b[..n - 1]);
    }
  }

  /** The positions of the chunks that get indexed, in increasing order. */
  function IndexedPositions(m: Models, chunks: seq<Obj>): seq<nat>
    decreases |chunks|
  {
    if chunks == [] then []
    else
      var prev := IndexedPositions(m, chunks[..|chunks| - 1]);
      if EntryOf(m, chunks[|chunks| - 1]).Some? then prev + [|chunks| - 1] else prev
  }

  /** The indexed positions are valid, strictly increasing, and name exactly
      the chunks that succeed. */
  lemma {:induction false} IndexedPositionsSpec(m: Models, chunks: seq<Obj>)
    ensures forall k :: 0 <= k < |IndexedPositions(m, chunks)| ==> IndexedPositions(m, chunks)[k] < |chunks|
    ensures forall k, l :: 0 <= k < l < |IndexedPositions(m, chunks)| ==>
              IndexedPositions(m, chunks)[k] < IndexedPositions(m, chunks)[l]
    ensures forall j :: 0 <= j < |chunks| ==>
              (EntryOf(m, chunks[j]).Some? <==> j in IndexedPositions(m, chunks))
    decreases |chunks|
  {
    if chunks != [] {
      var n := |chunks|;
      var init := chunks[..n - 1];
      IndexedPositionsSpec(m, init);
      forall j | 0 <= j < n - 1
        ensures chunks[j] == init[j]
      {
      }
      if EntryOf(m, chunks[n - 1]).Some? {
        assert IndexedPositions(m, chunks) == IndexedPositions(m, init) + [n - 1];
      } else {
        assert IndexedPositions(m, chunks) == IndexedPositions(m, init);
      }
    }
  }

  /** The entries are exactly those of the chunks that succeed, in input order:
      entry k comes from the chunk at the k-th indexed position, the positions
      increase, and a position is indexed exactly when its chunk succeeds. */
  lemma EntriesInInputOrder(m: Models, chunks: seq<Obj>)
    ensures |IndexedPositions(m, chunks)| == |Entries(m, chunks)| <= |chunks|
    ensures forall k :: 0 <= k < |Entries(m, chunks)| ==>
              IndexedPositions(m, chunks)[k] < |chunks| &&
              EntryOf(m, chunks[IndexedPositions(m, chunks)[k]]) == Some(Entries(m, chunks)[k])
    ensures forall k, l :: 0 <= k < l < |IndexedPositions(m, chunks)| ==>
              IndexedPositions(m, chunks)[k] < IndexedPositions(m, chunks)[l]
    ensures forall j :: 0 <= j < |chunks| ==>
              (EntryOf(m, chunks[j]).Some? <==> j in IndexedPositions(m, chunks))
  {
    IndexedPositionsSpec(m, chunks);
    EntriesAtPositions(m, chunks);
  }

  /** Entry k is the entry of the chunk at the k-th indexed position. */
  lemma {:induction false} EntriesAtPositions(m: Models, chunks: seq<Obj>)
    ensures |IndexedPositions(m, chunks)| == |Entries(m, chunks)| <= |chunks|
    ensures forall k :: 0 <= k < |Entries(m, chunks)| ==>
              IndexedPositions(m, chunks)[k] < |chunks| &&
              EntryOf(m, chunks[IndexedPositions(m, chunks)[k]]) == Some(Entries(m, chunks)[k])
    decreases |chunks|
  {
    if chunks != [] {
      var n := |chunks|;
      var init := chunks[..n - 1];
      EntriesAtPositions(m, init);
      forall j | 0 <= j < n - 1
        ensures chunks[j] == init[j]
      {
      }
      var e := EntryOf(m, chunks[n - 1]);
      if e.Some? {
        assert Entries(m, chunks) == Entries(m, init) + [e.value];
        assert IndexedPositions(m, chunks) == IndexedPositions(m, init) + [n - 1];
      } else {
        assert Entries(m, chunks) == Entries(m, init);
        assert IndexedPositions(m, chunks) == IndexedPositions(m, init);
      }
    }
  }

  /** Every stored content preview is a prefix, of at most 200 characters, of
      the content of a chunk of the input. */
  lemma EntriesPreviews(m: Models, chunks: seq<Obj>)
    ensures forall k :: 0 <= k < |Entries(m, chunks)| ==>
              exists j :: 0 <= j < |chunks| && ContentOf(chunks[j]).JStr? &&
                var p := Entries(m, chunks)[k].meta.content;
                p.JStr? && |p.s| <= PREVIEW_CHARS && p.s <= ContentOf(chunks[j]).s
  {
    EntriesInInputOrder(m, chunks);
    forall k | 0 <= k < |Entries(m, chunks)|
      ensures exists j :: 0 <= j < |chunks| && ContentOf(chunks[j]).JStr? &&
                var p := Entries(m, chunks)[k].meta.content;
                p.JStr? && |p.s| <= PREVIEW_CHARS && p.s <= ContentOf(chunks[j]).s
    {
      var j := IndexedPositions(m, chunks)[k];
      assert EntryOf(m, chunks[j]) == Some(Entries(m, chunks)[k]);
    }
  }

  /** Reading one more chunk adds its entry, if any, to the vectors and the
      records built so far. */
  lemma EntriesStep(m: Models, chunks: seq<Obj>, n: nat)
    requires n < |chunks|
    ensures EntryOf(m, chunks[n]).Some? ==>
              VectorsOf(Entries(m, chunks[..n + 1])) ==
                VectorsOf(Entries(m, chunks[..n])) + [EntryOf(m, chunks[n]).value.vector] &&
              MetadataOf(Entries(m, chunks[..n + 1])) ==
                MetadataOf(Entries(m, chunks[..n])) + [EntryOf(m, chunks[n]).value.meta]
    ensures EntryOf(m, chunks[n]).None? ==>
              Entries(m, chunks[..n + 1]) == Entries(m, chunks[..n])
  {
    assert chunks[..n + 1][..n] == chunks[..n];
    assert chunks[..n + 1][n] == chunks[n];
  }

  /** The state of a build: the flat inner-product index (its vectors, in the
      order they were added) and the metadata list beside it. */
  class IndexBuild {
    const dim: nat
    var vectors: seq<Vector>
    var metadata: seq<MetaRecord>

    /** Vector i and metadata record i describe the same chunk, and every
        vector has the index dimension. */
    ghost predicate Valid()
      reads this
    {
      |vectors| == |metadata| &&
      forall i :: 0 <= i < |vectors| ==> |vectors[i]| == dim
    }

    /** `faiss.IndexFlatIP(DIM)` and `metadata = []`, after the old index
        directory has been removed: a build starts empty and merges nothing. */
    constructor (m: Models)
      ensures dim == Dim(m.text, m.clip)
      ensures vectors == [] && metadata == []
      ensures Valid()
    {
      dim := Dim(m.text, m.clip);
      vectors, metadata := [], [];
    }

    /** `index.ntotal` */
    function Count(): nat
      reads this
    {
      |vectors|
    }

    /** `index.add`: the index takes only vectors of its own dimension. */
    method Add(v: Vector)
      requires |v| == dim
      modifies this
      ensures vectors == old(vectors) + [v]
      ensures metadata == old(metadata)
    {
      vectors := vectors + [v];
    }

    /** One pass of the loop body: read the chunk's id, type and content,
        embed it, and on success add the vector and append its record. */
    method IndexChunk(m: Models, obj: Obj)
      requires Valid() && m.Valid() && dim == Dim(m.text, m.clip)
      modifies this
      ensures Valid()
      ensures EntryOf(m, obj).Some? ==>
                vectors == old(vectors) + [EntryOf(m, obj).value.vector] &&
                metadata == old(metadata) + [EntryOf(m, obj).value.meta]
      ensures EntryOf(m, obj).None? ==> vectors == old(vectors) && metadata == old(metadata)
    {
      var cid, ctype, cont := ChunkIdOf(obj), KindOf(obj), ContentOf(obj);
      var outcome := Embed(m, obj);
      if outcome.Embedded? {
        EmbedSpec(m, obj);
        Add(outcome.vector);
        metadata := metadata + [MetaRecord(cid, ctype, Get(obj, "doc"), Get(obj, "page"),
                                           JStr(Preview(cont.s)))];
      }
    }

    /** The build loop: each chunk adds one vector and one metadata record, or
        neither, so the two stay in lock-step; what it adds is `Entries`. Run
        with `AsWritten(m)`, it is the loop of the script as it stands. */
    method Build(m: Models, chunks: seq<Obj>)
      requires Valid() && m.Valid() && dim == Dim(m.text, m.clip)
      modifies this
      ensures Valid()
      ensures vectors == old(vectors) + VectorsOf(Entries(m, chunks))
      ensures metadata == old(metadata) + MetadataOf(Entries(m, chunks))
      ensures Count() == old(Count()) + |Entries(m, chunks)|
    {
      var n := 0;
      while n < |chunks|
        invariant 0 <= n <= |chunks|
        invariant Valid()
        invariant vectors == old(vectors) + VectorsOf(Entries(m, chunks[..n]))
        invariant metadata == old(metadata) + MetadataOf(Entries(m, chunks[..n]))
      {
        EntriesStep(m, chunks, n);
        IndexChunk(m, chunks[n]);
        n := n + 1;
      }
      assert chunks[..n] == chunks;
    }
  }

  /** The whole build script: a fresh, empty index of dimension DIM, then the loop. */
  method BuildFromScratch(m: Models, chunks: seq<Obj>) returns (b: IndexBuild)
    requires m.Valid()
    ensures fresh(b) && b.Valid()
    ensures b.dim == Dim(m.text, m.clip)
    ensures b.vectors == VectorsOf(Entries(m, chunks))
    ensures b.metadata == MetadataOf(Entries(m, chunks))
  {
    b := new IndexBuild(m);
    b.Build(m, chunks);
  }

  /** The image step as the script has it: `torch` is used without being
      imported, so once the base64 check passes the `with torch.no_grad()` line
      raises `NameError`, and the chunk is dropped like any failing one. */
  function EmbedAsWritten(m: Models, obj: Obj): Outcome
  {
    if KindOf(obj) == JStr("image") && m.clip.Some? then
      Failed
    else Embed(m, obj)
  }

  /** As written, no image chunk is ever indexed, whatever CLIP returns; every
      other chunk fares as in `Embed`. A concrete case: CLIP loaded, a valid
      payload, a successful feature vector, and still nothing is added. */
  lemma TorchNameErrorDropsImages(m: Models, obj: Obj)
    ensures KindOf(obj) == JStr("image") ==> !EmbedAsWritten(m, obj).Embedded?
    ensures KindOf(obj) != JStr("image") ==> EmbedAsWritten(m, obj) == Embed(m, obj)
    ensures var clip := ImageModel(1, (s: string) => Some([1.0]));
            var m1 := Models(TextModel(1, (s: string) => Some([1.0])), Some(clip), (s: string) => true);
            var img := map["type" := JStr("image"), "content" := JStr("AA==")];
            Embed(m1, img).Embedded? && !EmbedAsWritten(m1, img).Embedded?
  {
  }

  /** The models the script as written effectively runs with: CLIP, when it
      loaded, keeps its dimension (so DIM is unchanged) but every feature
      extraction fails, because the `NameError` is raised before any
      features come back. */
  function AsWritten(m: Models): Models
  {
    if m.clip.None? then m
    else m.(clip := Some(m.clip.value.(features := (s: string) => None)))
  }

  /** The as-written step is the intended step run with `AsWritten(m)`, so
      `Entries`, `IndexBuild.Build` and `BuildFromScratch` applied to
      `AsWritten(m)` model the script as it stands. */
  lemma EmbedAsWrittenIsFailingClip(m: Models, obj: Obj)
    requires m.Valid()
    ensures AsWritten(m).Valid()
    ensures Dim(AsWritten(m).text, AsWritten(m).clip) == Dim(m.text, m.clip)
    ensures EmbedAsWritten(m, obj) == Embed(AsWritten(m), obj)
  {
  }

  /** Built as written, the index holds no image chunk at all: every record
      it stores has a type other than image. */
  lemma {:induction false} BuildAsWrittenHasNoImages(m: Models, chunks: seq<Obj>)
    ensures forall k :: 0 <= k < |Entries(AsWritten(m), chunks)| ==>
              Entries(AsWritten(m), chunks)[k].meta.kind != JStr("image")
  {
    var m' := AsWritten(m);
    EntriesInInputOrder(m', chunks);
    forall k | 0 <= k < |Entries(m', chunks)|
      ensures Entries(m', chunks)[k].meta.kind != JStr("image")
    {
      var j := IndexedPositions(m', chunks)[k];
      assert EntryOf(m', chunks[j]) == Some(Entries(m', chunks)[k]);
      assert Embed(m', chunks[j]).Embedded?;
    }
  }

  /** With the image step working as intended, an image chunk whose content is
      a string that passes the base64 check, and on which CLIP succeeds, is
      indexed with its normalised feature vector padded to DIM. */
  lemma ImageChunkIndexed(m: Models, obj: Obj)
    requires m.Valid() && m.clip.Some?
    requires KindOf(obj) == JStr("image") && ContentOf(obj).JStr?
    requires m.isBase64(ContentOf(obj).s)
    requires m.clip.value.features(ContentOf(obj).s).Some?
    ensures EntryOf(m, obj).Some?
    ensures EntryOf(m, obj).value.vector ==
              PadTo(m.clip.value.features(ContentOf(obj).s).value, Dim(m.text, m.clip))
    ensures |EntryOf(m, obj).value.vector| == Dim(m.text, m.clip)
  {
    EmbedSpec(m, obj);
  }

  /** A text chunk with string content on which the text model succeeds is
      indexed with its embedding padded to DIM. */
  lemma TextChunkIndexed(m: Models, obj: Obj)
    requires m.Valid()
    requires KindOf(obj) == JStr("text") && ContentOf(obj).JStr?
    requires m.text.encode(ContentOf(obj).s).Some?
    ensures EntryOf(m, obj).Some?
    ensures EntryOf(m, obj).value.vector ==
              PadTo(m.text.encode(ContentOf(obj).s).value, Dim(m.text, m.clip))
    ensures |EntryOf(m, obj).value.vector| == Dim(m.text, m.clip)
  {
    EmbedSpec(m, obj);
  }
}
