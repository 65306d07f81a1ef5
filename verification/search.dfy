/**
 * Query-time retrieval over a loaded index: the query (text, or a base64
 * image when CLIP is available) is embedded, zero-padded to the index
 * dimension `d`, handed to the index's inner-product search, and the
 * returned positions are joined, rank by rank, with the metadata list.
 */
module SearchFaiss {
  import opened Wrappers
  import opened JsonValue
  import opened Embedding
  import opened BuildIndex

  /** What `index.search` returns for one query: the scores `D[0]` and the
      positions `I[0]`, best first. */
  datatype SearchResult = SearchResult(scores: seq<real>, positions: seq<int>)

  /** The two lists are parallel and every position names a metadata record
      (Python would silently read a negative position from the end; the model
      demands valid positions instead). */
  predicate Fits(res: SearchResult, records: nat) {
    |res.scores| == |res.positions| &&
    forall r :: 0 <= r < |res.positions| ==> 0 <= res.positions[r] < records
  }

  /** The index as loaded at start-up: its dimension `d`, the metadata list
      and the search it answers. `index.search` accepts only queries `d` wide;
      the callers below check the width before searching. */
  datatype LoadedIndex = LoadedIndex(d: nat, metadata: seq<MetaRecord>, search: (Vector, nat) -> SearchResult)
  {
    ghost predicate Valid() {
      forall q, k :: |q| == d ==> Fits(search(q, k), |metadata|)
    }
  }

  /** The index a build leaves behind, as it is read back: dimension DIM, the
      build's metadata in order. */
  ghost predicate LoadedFrom(idx: LoadedIndex, m: Models, chunks: seq<Obj>) {
    idx.d == Dim(m.text, m.clip) && idx.metadata == MetadataOf(Entries(m, chunks))
  }

  datatype Hit = Hit(chunkId: Json, kind: Json, caption: Json, score: real)

  /** The list comprehension over `enumerate(I[0])`. */
  function JoinHits(metadata: seq<MetaRecord>, res: SearchResult): (hits: seq<Hit>)
    requires Fits(res, |metadata|)
  {
    seq(|res.positions|, r requires 0 <= r < |res.positions| =>
      var rec := metadata[res.positions[r]];
      Hit(rec.chunkId, rec.kind, rec.content, res.scores[r]))
  }

  /** One hit per returned position; hit r is the record at the r-th position,
      its caption that record's stored content, its score the r-th score. So
      the hits come in the search's rank order, and scores that the search
      returns best first stay best first. */
  lemma JoinHitsSpec(metadata: seq<MetaRecord>, res: SearchResult)
    requires Fits(res, |metadata|)
    ensures |JoinHits(metadata, res)| == |res.positions|
    ensures forall r :: 0 <= r < |res.positions| ==>
              var rec := metadata[res.positions[r]];
              JoinHits(metadata, res)[r].chunkId == rec.chunkId &&
              JoinHits(metadata, res)[r].kind == rec.kind &&
              JoinHits(metadata, res)[r].caption == rec.content &&
              JoinHits(metadata, res)[r].score == res.scores[r]
    ensures (forall r, s :: 0 <= r < s < |res.scores| ==> res.scores[r] >= res.scores[s]) ==>
              forall r, s :: 0 <= r < s < |JoinHits(metadata, res)| ==>
                JoinHits(metadata, res)[r].score >= JoinHits(metadata, res)[s].score
  {
  }

  /** `h` shows the record of chunk `obj`: same id and type, and a caption
      that is a prefix, of at most 200 characters, of the chunk's content. */
  ghost predicate ShowsChunk(h: Hit, m: Models, obj: Obj) {
    EntryOf(m, obj).Some? &&
    h.chunkId == ChunkIdOf(obj) && h.kind == KindOf(obj) &&
    h.caption.JStr? && |h.caption.s| <= PREVIEW_CHARS &&
    ContentOf(obj).JStr? && h.caption.s <= ContentOf(obj).s
  }

  /** Over an index this project built, every hit shows an input chunk that
      was indexed. */
  lemma HitsFromBuiltIndex(idx: LoadedIndex, m: Models, chunks: seq<Obj>, res: SearchResult)
    requires LoadedFrom(idx, m, chunks)
    requires Fits(res, |idx.metadata|)
    ensures forall r :: 0 <= r < |JoinHits(idx.metadata, res)| ==>
              exists j :: 0 <= j < |chunks| && ShowsChunk(JoinHits(idx.metadata, res)[r], m, chunks[j])
  {
    var hits := JoinHits(idx.metadata, res);
    var es := Entries(m, chunks);
    EntriesInInputOrder(m, chunks);
    forall r | 0 <= r < |hits|
      ensures exists j :: 0 <= j < |chunks| && ShowsChunk(hits[r], m, chunks[j])
    {
      var k := res.positions[r];
      var j := IndexedPositions(m, chunks)[k];
      assert EntryOf(m, chunks[j]) == Some(es[k]);
      assert idx.metadata[k] == es[k].meta;
      assert Embed(m, chunks[j]).Embedded?;
      assert ShowsChunk(hits[r], m, chunks[j]);
    }
  }

  /** Why a query fails: the text model raised, CLIP is not loaded, the
      image payload could not be decoded or embedded, or the padded query is
      wider than the index (`np.pad` never shortens, and `index.search`
      rejects a query whose width is not `d`). */
  datatype SearchError = EncodeFailed | ClipNotLoaded | DecodeFailed | DimensionMismatch

  /** `search_text(query, k=5)` */
  function SearchText(idx: LoadedIndex, text: TextModel, query: string, k: nat := 5): (r: Result<seq<Hit>, SearchError>)
    requires idx.Valid()
  {
    match text.encode(query)
    case None => Failure(EncodeFailed)
    case Some(emb) =>
      var q := PadTo(emb, idx.d);
      if |q| != idx.d then Failure(DimensionMismatch)
      else Success(JoinHits(idx.metadata, idx.search(q, k)))
  }

  /** `search_image_b64(b64str, k=5)`; `features` covers decoding, opening,
      CLIP and normalisation, any of which may raise. */
  function SearchImage(idx: LoadedIndex, clip: Option<ImageModel>, b64: Json, k: nat := 5): (r: Result<seq<Hit>, SearchError>)
    requires idx.Valid()
  {
    if clip.None? then Failure(ClipNotLoaded)
    else if !b64.JStr? then Failure(DecodeFailed)
    else match clip.value.features(b64.s)
      case None => Failure(DecodeFailed)
      case Some(feat) =>
        var q := PadTo(feat, idx.d);
        if |q| != idx.d then Failure(DimensionMismatch)
        else Success(JoinHits(idx.metadata, idx.search(q, k)))
  }

  /** A text query searches with its embedding padded to `d` and answers with
      one hit per returned position; when the model's dimension is at most `d`
      the searched vector has exactly length `d`, starts with the embedding,
      is zero after it, and keeps its norm. */
  lemma SearchTextSpec(idx: LoadedIndex, text: TextModel, query: string, k: nat)
    requires idx.Valid() && text.Valid() && text.dim <= idx.d
    requires text.encode(query).Some?
    ensures var q := PadTo(text.encode(query).value, idx.d);
            |q| == idx.d && q[..text.dim] == text.encode(query).value &&
            (forall i :: text.dim <= i < idx.d ==> q[i] == 0.0) &&
            SumSq(q) == SumSq(text.encode(query).value) &&
            SearchText(idx, text, query, k) == Success(JoinHits(idx.metadata, idx.search(q, k))) &&
            |SearchText(idx, text, query, k).value| == |idx.search(q, k).positions|
  {
    var emb := text.encode(query).value;
    PadToSpec(emb, idx.d);
    PadKeepsNorm(emb, idx.d);
    JoinHitsSpec(idx.metadata, idx.search(PadTo(emb, idx.d), k));
  }

  /** An image query with CLIP loaded searches with the normalised features
      padded to `d`; a unit feature vector stays a unit vector. */
  lemma SearchImageSpec(idx: LoadedIndex, clip: ImageModel, b64: string, k: nat)
    requires idx.Valid() && clip.Valid() && clip.dim <= idx.d
    requires clip.features(b64).Some?
    ensures var q := PadTo(clip.features(b64).value, idx.d);
            |q| == idx.d && q[..clip.dim] == clip.features(b64).value &&
            (SumSq(clip.features(b64).value) == 1.0 ==> SumSq(q) == 1.0) &&
            SearchImage(idx, Some(clip), JStr(b64), k) == Success(JoinHits(idx.metadata, idx.search(q, k)))
  {
    var feat := clip.features(b64).value;
    PadToSpec(feat, idx.d);
    PadKeepsNorm(feat, idx.d);
  }

  /** A query wider than the index fails: an index built without CLIP is
      `dim_txt` wide, and a CLIP that loads at query time with a wider
      projection makes every image query fail, whatever the payload. */
  lemma WideQueryFails(idx: LoadedIndex, text: TextModel, clip: ImageModel, query: string, b64: string, k: nat)
    requires idx.Valid()
    ensures text.encode(query).Some? && |text.encode(query).value| > idx.d ==>
              SearchText(idx, text, query, k) == Failure(DimensionMismatch)
    ensures clip.features(b64).Some? && |clip.features(b64).value| > idx.d ==>
              SearchImage(idx, Some(clip), JStr(b64), k) == Failure(DimensionMismatch)
    ensures text.encode(query).Some? && |text.encode(query).value| <= idx.d ==>
              SearchText(idx, text, query, k).Success?
  {
    if text.encode(query).Some? {
      PadToSpec(text.encode(query).value, idx.d);
    }
    if clip.features(b64).Some? {
      PadToSpec(clip.features(b64).value, idx.d);
    }
  }

  /** Without CLIP, an image query fails with the same error whatever the
      payload and whatever the index holds: nothing is decoded or searched. */
  lemma SearchImageWithoutClip(idx1: LoadedIndex, idx2: LoadedIndex, b1: Json, b2: Json, k1: nat, k2: nat)
    requires idx1.Valid() && idx2.Valid()
    ensures SearchImage(idx1, None, b1, k1) == Failure(ClipNotLoaded)
    ensures SearchImage(idx1, None, b1, k1) == SearchImage(idx2, None, b2, k2)
  {
  }
}
