/**
 * The chunker: splits each text unit of the parsed corpus into windows of at
 * most MAX_TOKENS whitespace-separated words, gives every piece an id built
 * from its document, page and position, and passes every other unit through
 * as one piece with an image id.
 */
module Chunker {
  import opened Wrappers
  import opened PyText
  import opened JsonValue

  /** Words per text chunk. */
  const MAX_TOKENS: nat := 500

  /** `words[i:i+MAX_TOKENS]` for `i` in `range(0, len(words), MAX_TOKENS)`. */
  function Windows(words: seq<string>): (r: seq<seq<string>>)
    ensures |r| == (|words| + MAX_TOKENS - 1) / MAX_TOKENS
    ensures Flatten(r) == words
    ensures forall i :: 0 <= i < |r| ==> 0 < |r[i]| <= MAX_TOKENS
    ensures forall i :: 0 <= i < |r| - 1 ==> |r[i]| == MAX_TOKENS
    decreases |words|
  {
    if words == [] then []
    else
      var n := if |words| < MAX_TOKENS then |words| else MAX_TOKENS;
      assert words == words[..n] + words[n..];
      [words[..n]] + Windows(words[n..])
  }

  /** `chunk_text(text)`: each window of `text.split()` joined with single spaces. */
  function ChunkText(text: string): seq<string>
  {
    var w := Windows(Words(text));
    seq(|w|, i requires 0 <= i < |w| => JoinWith(" ", w[i]))
  }

  /** The word lists of the chunks, in order. */
  function ChunkWords(chunks: seq<string>): seq<seq<string>>
  {
    seq(|chunks|, i requires 0 <= i < |chunks| => Words(chunks[i]))
  }

  /** What `chunk_text` promises: ceil(n / 500) chunks for n words; each chunk
      splits back into its window of words, so the chunks' words, concatenated
      in order, are exactly `text.split()`; every chunk holds between 1 and 500
      words, and every chunk but the last exactly 500. */
  lemma ChunkTextSpec(text: string)
    ensures |ChunkText(text)| == (|Words(text)| + MAX_TOKENS - 1) / MAX_TOKENS
    ensures ChunkWords(ChunkText(text)) == Windows(Words(text))
    ensures Flatten(ChunkWords(ChunkText(text))) == Words(text)
    ensures forall i :: 0 <= i < |ChunkText(text)| ==>
              0 < |Words(ChunkText(text)[i])| <= MAX_TOKENS
    ensures forall i :: 0 <= i < |ChunkText(text)| - 1 ==>
              |Words(ChunkText(text)[i])| == MAX_TOKENS
  {
    var w := Windows(Words(text));
    ChunksSplitBack(text);
    forall i | 0 <= i < |ChunkText(text)|
      ensures Words(ChunkText(text)[i]) == w[i]
    {
      assert ChunkWords(ChunkText(text))[i] == Words(ChunkText(text)[i]);
    }
  }

  /** The chunks split back into the windows of words, one for one. */
  lemma ChunksSplitBack(text: string)
    ensures ChunkWords(ChunkText(text)) == Windows(Words(text))
  {
    var w := Windows(Words(text));
    var c := ChunkText(text);
    forall i | 0 <= i < |w|
      ensures ChunkWords(c)[i] == w[i]
    {
      ChunkSplitsBack(text, i);
    }
  }

  /** Chunk i splits back into the i-th window of words. */
  lemma ChunkSplitsBack(text: string, i: nat)
    requires i < |Windows(Words(text))|
    ensures Words(ChunkText(text)[i]) == Windows(Words(text))[i]
  {
    var ws := Words(text);
    WordsAreWords(text);
    WindowsOfWords(ws);
    SplitJoinRoundTrip(Windows(ws)[i]);
  }

  /** Every window of a list of words is a list of words. */
  lemma {:induction false} WindowsOfWords(words: seq<string>)
    requires forall k :: 0 <= k < |words| ==> IsWord(words[k])
    ensures forall i, j :: 0 <= i < |Windows(words)| && 0 <= j < |Windows(words)[i]| ==>
              IsWord(Windows(words)[i][j])
    decreases |words|
  {
    if words != [] {
      var n := if |words| < MAX_TOKENS then |words| else MAX_TOKENS;
      var rest := words[n..];
      forall k | 0 <= k < |rest|
        ensures IsWord(rest[k])
      {
        assert rest[k] == words[n + k];
      }
      WindowsOfWords(rest);
      assert Windows(words) == [words[..n]] + Windows(rest);
    }
  }

  /** Empty or whitespace-only text yields no chunks, and any other text yields some. */
  lemma ChunkTextEmptyIff(text: string)
    ensures ChunkText(text) == [] <==> AllSpace(text)
  {
    WordsEmptyIff(text);
  }

  /** `f"{doc}-{page}-txt-{i}"` */
  function TextChunkId(doc: Json, page: Json, i: nat): string
  {
    PyStr(doc) + "-" + PyStr(page) + "-txt-" + NatToString(i)
  }

  /** `f"{doc}-{page}-img"` */
  function ImageChunkId(doc: Json, page: Json): string
  {
    PyStr(doc) + "-" + PyStr(page) + "-img"
  }

  /** The pieces of one text unit get pairwise different ids. (Two non-text
      units of the same page share their id: `ImageChunkId` reads only the
      document and the page.) */
  lemma TextChunkIdsDistinct(doc: Json, page: Json, i: nat, j: nat)
    requires i != j
    ensures TextChunkId(doc, page, i) != TextChunkId(doc, page, j)
  {
    var p := PyStr(doc) + "-" + PyStr(page) + "-txt-";
    if TextChunkId(doc, page, i) == TextChunkId(doc, page, j) {
      assert NatToString(i) == TextChunkId(doc, page, i)[|p|..];
      assert NatToString(j) == TextChunkId(doc, page, j)[|p|..];
      NatToStringInjective(i, j);
    }
  }

  /** Why the chunker script stops: a `KeyError` on a missing key, or an
      `AttributeError` when text content is not a string. */
  datatype ChunkError = MissingKey(key: string) | NotAString(key: string)

  /** The i-th record a text unit writes: a copy of the unit with its id and
      content replaced. */
  function TextRecord(obj: Obj, chunk: string, i: nat): Obj
    requires "doc" in obj && "page" in obj
  {
    obj["chunk_id" := JStr(TextChunkId(obj["doc"], obj["page"], i))]["content" := JStr(chunk)]
  }

  /** The records one input unit writes, or the error that stops the script
      while handling it (before it writes anything: every lookup that can fail
      runs before the unit's first write). */
  function Expand(obj: Obj): Result<seq<Obj>, ChunkError>
  {
    if "type" !in obj then Failure(MissingKey("type"))
    else if obj["type"] == JStr("text") then
      if "content" !in obj then Failure(MissingKey("content"))
      else if !obj["content"].JStr? then Failure(NotAString("content"))
      else
        var chunks := ChunkText(obj["content"].s);
        // the f-string reads doc and page only once a first chunk exists
        if chunks == [] then Success([])
        else if "doc" !in obj then Failure(MissingKey("doc"))
        else if "page" !in obj then Failure(MissingKey("page"))
        else Success(seq(|chunks|, i requires 0 <= i < |chunks| => TextRecord(obj, chunks[i], i)))
    else if "doc" !in obj then Failure(MissingKey("doc"))
    else if "page" !in obj then Failure(MissingKey("page"))
    else Success([obj["chunk_id" := JStr(ImageChunkId(obj["doc"], obj["page"]))]])
  }

  /** A text unit with string content and its document and page: one record per
      chunk, in order; record i has id `doc-page-txt-i` and the i-th chunk as
      content, and every other field of the unit unchanged. */
  lemma ExpandText(obj: Obj)
    requires "type" in obj && obj["type"] == JStr("text")
    requires "content" in obj && obj["content"].JStr?
    requires "doc" in obj && "page" in obj
    ensures Expand(obj).Success?
    ensures |Expand(obj).value| == |ChunkText(obj["content"].s)|
    ensures forall i :: 0 <= i < |Expand(obj).value| ==>
              var rec := Expand(obj).value[i];
              rec.Keys == obj.Keys + {"chunk_id"} &&
              rec["chunk_id"] == JStr(TextChunkId(obj["doc"], obj["page"], i)) &&
              rec["content"] == JStr(ChunkText(obj["content"].s)[i]) &&
              forall k :: k in obj && k != "chunk_id" && k != "content" ==> rec[k] == obj[k]
  {
  }

  /** The records of a text unit hold its words: each record's content has 1 to
      500 words, and the records' words, concatenated in order, are exactly the
      unit's `content.split()`. */
  lemma ExpandTextWords(obj: Obj)
    requires "type" in obj && obj["type"] == JStr("text")
    requires "content" in obj && obj["content"].JStr?
    requires "doc" in obj && "page" in obj
    ensures Expand(obj).Success?
    ensures forall i :: 0 <= i < |Expand(obj).value| ==>
              "content" in Expand(obj).value[i] && Expand(obj).value[i]["content"].JStr? &&
              0 < |Words(Expand(obj).value[i]["content"].s)| <= MAX_TOKENS
    ensures Flatten(RecordWords(Expand(obj).value)) == Words(obj["content"].s)
  {
    ExpandText(obj);
    ChunkRecordsHoldWords(obj["content"].s, Expand(obj).value);
  }

  /** Records carrying the chunks of `text` as their contents hold its words. */
  lemma ChunkRecordsHoldWords(text: string, recs: seq<Obj>)
    requires |recs| == |ChunkText(text)|
    requires forall i :: 0 <= i < |recs| ==> "content" in recs[i] && recs[i]["content"] == JStr(ChunkText(text)[i])
    ensures forall i :: 0 <= i < |recs| ==>
              "content" in recs[i] && recs[i]["content"].JStr? &&
              0 < |Words(recs[i]["content"].s)| <= MAX_TOKENS
    ensures Flatten(RecordWords(recs)) == Words(text)
  {
    ChunkTextSpec(text);
    assert RecordWords(recs) == ChunkWords(ChunkText(text));
  }

  /** The word lists of records whose content is a string. */
  function RecordWords(recs: seq<Obj>): seq<seq<string>>
    requires forall i :: 0 <= i < |recs| ==> "content" in recs[i] && recs[i]["content"].JStr?
  {
    seq(|recs|, i requires 0 <= i < |recs| => Words(recs[i]["content"].s))
  }

  /** Text that is empty or whitespace only writes no record at all, whatever
      else the unit holds. */
  lemma ExpandBlankText(obj: Obj)
    requires "type" in obj && obj["type"] == JStr("text")
    requires "content" in obj && obj["content"].JStr? && AllSpace(obj["content"].s)
    ensures Expand(obj) == Success([])
  {
    ChunkTextEmptyIff(obj["content"].s);
  }

  /** Any unit that is not text (an image or a table) writes exactly one record:
      the unit itself with id `doc-page-img`, its content untouched. */
  lemma ExpandOther(obj: Obj)
    requires "type" in obj && obj["type"] != JStr("text")
    requires "doc" in obj && "page" in obj
    ensures Expand(obj).Success? && |Expand(obj).value| == 1
    ensures Expand(obj).value[0].Keys == obj.Keys + {"chunk_id"}
    ensures Expand(obj).value[0]["chunk_id"] == JStr(ImageChunkId(obj["doc"], obj["page"]))
    ensures forall k :: k in obj && k != "chunk_id" ==> Expand(obj).value[0][k] == obj[k]
  {
  }

  /** What the chunker script has written, and why it stopped early if it did. */
  datatype ChunkRun = ChunkRun(written: seq<Obj>, stopped: Option<ChunkError>)

  /** The run over the first |units| lines of the input file. */
  function RunChunker(units: seq<Obj>): ChunkRun
    decreases |units|
  {
    if units == [] then ChunkRun([], None)
    else
      var prev := RunChunker(units[..|units| - 1]);
      if prev.stopped.Some? then prev
      else match Expand(units[|units| - 1])
        case Success(recs) => ChunkRun(prev.written + recs, None)
        case Failure(e) => ChunkRun(prev.written, Some(e))
  }

  /** Once the script has stopped, later lines change nothing. */
  lemma {:induction false} RunChunkerStopped(units: seq<Obj>, more: seq<Obj>)
    requires RunChunker(units).stopped.Some?
    ensures RunChunker(units + more) == RunChunker(units)
    decreases |more|
  {
    if more == [] {
      assert units + more == units;
    } else {
      var m := |more|;
      assert (units + more)[..|units + more| - 1] == units + more[..m - 1];
      RunChunkerStopped(units, more[..m - 1]);
    }
  }

  /** The records of units that all succeed, unit by unit. */
  function RecordsOf(units: seq<Obj>): seq<seq<Obj>>
    requires forall i :: 0 <= i < |units| ==> Expand(units[i]).Success?
  {
    seq(|units|, i requires 0 <= i < |units| => Expand(units[i]).value)
  }

  /** When no unit fails, the output is every unit's records, unit after unit. */
  lemma {:induction false} RunChunkerAllOk(units: seq<Obj>)
    requires forall i :: 0 <= i < |units| ==> Expand(units[i]).Success?
    ensures RunChunker(units).stopped == None
    ensures RunChunker(units).written == Flatten(RecordsOf(units))
    decreases |units|
  {
    if units != [] {
      var n := |units|;
      var init, last := units[..n - 1], units[n - 1];
      forall i | 0 <= i < n - 1
        ensures Expand(init[i]).Success?
      {
        assert init[i] == units[i];
      }
      RunChunkerAllOk(init);
      assert units == init + [last];
      RecordsOfSnoc(init, last);
      FlattenSnoc(RecordsOf(init), Expand(last).value);
    }
  }

  lemma RecordsOfSnoc(init: seq<Obj>, last: Obj)
    requires forall i :: 0 <= i < |init| ==> Expand(init[i]).Success?
    requires Expand(last).Success?
    ensures forall i :: 0 <= i < |init + [last]| ==> Expand((init + [last])[i]).Success?
    ensures RecordsOf(init + [last]) == RecordsOf(init) + [Expand(last).value]
  {
  }

  /** The script's handling of one unit: a copy of a text unit per chunk, with
      its id and content set, or the unit itself with its id set in place;
      appended to what was written before. */
  method WriteUnit(obj: Obj, written: seq<Obj>) returns (out: seq<Obj>, stopped: Option<ChunkError>)
    ensures Expand(obj).Success? ==> out == written + Expand(obj).value && stopped == None
    ensures Expand(obj).Failure? ==> out == written && stopped == Some(Expand(obj).error)
  {
    out, stopped := written, None;
    if "type" !in obj {
      stopped := Some(MissingKey("type"));
    } else if obj["type"] == JStr("text") {
      if "content" !in obj {
        stopped := Some(MissingKey("content"));
      } else if !obj["content"].JStr? {
        stopped := Some(NotAString("content"));
      } else {
        var chunks := ChunkText(obj["content"].s);
        if chunks == [] {
        } else if "doc" !in obj {
          stopped := Some(MissingKey("doc"));
        } else if "page" !in obj {
          stopped := Some(MissingKey("page"));
        } else {
          out := WriteChunks(obj, chunks, written);
          assert out == written + Expand(obj).value;
        }
      }
    } else if "doc" !in obj {
      stopped := Some(MissingKey("doc"));
    } else if "page" !in obj {
      stopped := Some(MissingKey("page"));
    } else {
      var rec := obj["chunk_id" := JStr(ImageChunkId(obj["doc"], obj["page"]))];
      out := out + [rec];
    }
  }

  /** The inner loop over `enumerate(chunk_text(...))`: a copy of the unit per
      chunk, with its id and content set, appended in chunk order. */
  method WriteChunks(obj: Obj, chunks: seq<string>, written: seq<Obj>) returns (out: seq<Obj>)
    requires "doc" in obj && "page" in obj
    ensures |out| == |written| + |chunks| && out[..|written|] == written
    ensures forall j :: 0 <= j < |chunks| ==> out[|written| + j] == TextRecord(obj, chunks[j], j)
  {
    out := written;
    var i := 0;
    while i < |chunks|
      invariant 0 <= i <= |chunks|
      invariant |out| == |written| + i && out[..|written|] == written
      invariant forall j :: 0 <= j < i ==> out[|written| + j] == TextRecord(obj, chunks[j], j)
    {
      var obj2 := obj;
      obj2 := obj2["chunk_id" := JStr(TextChunkId(obj["doc"], obj["page"], i))];
      obj2 := obj2["content" := JStr(chunks[i])];
      out := out + [obj2];
      i := i + 1;
    }
  }

  /** The script's loop: reads the units in order and writes each one's records,
      stopping at the first unit that fails. */
  method ChunkFile(units: seq<Obj>) returns (written: seq<Obj>, stopped: Option<ChunkError>)
    ensures ChunkRun(written, stopped) == RunChunker(units)
  {
    written, stopped := [], None;
    var n := 0;
    while n < |units| && stopped.None?
      invariant 0 <= n <= |units|
      invariant ChunkRun(written, stopped) == RunChunker(units[..n])
    {
      assert units[..n + 1][..n] == units[..n];
      written, stopped := WriteUnit(units[n], written);
      n := n + 1;
    }
    if n < |units| {
      assert units == units[..n] + units[n..];
      RunChunkerStopped(units[..n], units[n..]);
    } else {
      assert units[..n] == units;
    }
  }
}
