/**
 * Answer synthesis: the hits of a search become a bullet list of facts, the
 * facts go into a fixed prompt (a worked example for text questions, a
 * direct instruction for images), the generator continues the prompt, and
 * the answer is what it wrote after the prompt, stripped of surrounding
 * whitespace.
 */
module Qa {
  import opened Wrappers
  import opened PyText
  import opened JsonValue
  import opened Embedding
  import opened SearchFaiss

  /** A hit as `format_hits` reads it, through `h.get(...)`: its caption and
      score may be missing. */
  datatype HitView = HitView(caption: Option<Json>, score: Option<real>)

  /** The hit dicts a search returns carry both keys. */
  function Views(hits: seq<Hit>): seq<HitView>
  {
    seq(|hits|, i requires 0 <= i < |hits| => HitView(Some(hits[i].caption), Some(hits[i].score)))
  }

  const NO_CAPTION: string := "<no caption>"

  /** `f"• {caption}  (score: {score:.3f})"`, with `fmt3` standing for the
      `:.3f` rendering of a float. */
  function FactLine(h: HitView, fmt3: real -> string): string
  {
    "\U{2022} " + PyStr(h.caption.GetOr(JStr(NO_CAPTION))) + "  (score: " + fmt3(h.score.GetOr(0.0)) + ")"
  }

  function FactLines(hits: seq<HitView>, fmt3: real -> string): seq<string>
  {
    seq(|hits|, i requires 0 <= i < |hits| => FactLine(hits[i], fmt3))
  }

  /** The fact list: the lines joined with newlines. */
  function Facts(hits: seq<HitView>, fmt3: real -> string): string
  {
    JoinWith("\n", FactLines(hits, fmt3))
  }

  /** `format_hits`: one line per hit, appended in hit order, then joined. */
  method FormatHits(hits: seq<HitView>, fmt3: real -> string) returns (facts: string)
    ensures facts == Facts(hits, fmt3)
  {
    var lines: seq<string> := [];
    var i := 0;
    while i < |hits|
      invariant 0 <= i <= |hits|
      invariant |lines| == i
      invariant forall j :: 0 <= j < i ==> lines[j] == FactLine(hits[j], fmt3)
    {
      var h := hits[i];
      var caption := h.caption.GetOr(JStr(NO_CAPTION));
      var score := h.score.GetOr(0.0);
      lines := lines + ["\U{2022} " + PyStr(caption) + "  (score: " + fmt3(score) + ")"];
      i := i + 1;
    }
    assert lines == FactLines(hits, fmt3);
    facts := JoinWith("\n", lines);
  }

  /** No hits give the empty string. Otherwise, when no line holds a newline of
      its own, the fact list splits back into exactly one bullet line per hit,
      in hit order. */
  lemma FactsAreLines(hits: seq<HitView>, fmt3: real -> string)
    ensures hits == [] ==> Facts(hits, fmt3) == ""
    ensures hits != [] && (forall i :: 0 <= i < |hits| ==> '\n' !in FactLine(hits[i], fmt3)) ==>
              SplitOn(Facts(hits, fmt3), '\n') == FactLines(hits, fmt3)
    ensures forall i :: 0 <= i < |hits| ==> FactLines(hits, fmt3)[i][..2] == "\U{2022} "
  {
    if hits != [] && (forall i :: 0 <= i < |hits| ==> '\n' !in FactLine(hits[i], fmt3)) {
      SplitOnJoinRoundTrip(FactLines(hits, fmt3), '\n');
    }
  }

  /** A missing caption reads as `<no caption>` and a missing score as 0.0. */
  lemma FactLineDefaults(caption: Option<Json>, score: Option<real>, fmt3: real -> string)
    ensures FactLine(HitView(None, score), fmt3) == FactLine(HitView(Some(JStr(NO_CAPTION)), score), fmt3)
    ensures FactLine(HitView(caption, None), fmt3) == FactLine(HitView(caption, Some(0.0)), fmt3)
  {
  }

  const TEXT_PROMPT_HEAD: string := "\nExample:\nFacts:\n\U{2022} FAST University is a private research university in Islamabad, Pakistan.  (score: 0.99)\n\U{2022} It was founded in 2000.                                           (score: 0.95)\nQuestion: When was FAST University founded?\nAnswer: FAST University was founded in 2000.\n\nNow you:\nFacts:\n"
  const TEXT_PROMPT_QUESTION: string := "\n\nQuestion: "
  const TEXT_PROMPT_TAIL: string := "\nAnswer (use only the facts above, think step-by-step):"

  /** The few-shot prompt of `answer_from_text`. */
  function TextPrompt(facts: string, query: string): string
  {
    TEXT_PROMPT_HEAD + facts + TEXT_PROMPT_QUESTION + query + TEXT_PROMPT_TAIL
  }

  /** The text prompt holds the worked example, then the facts, then the
      question, each at a fixed place. */
  lemma TextPromptLayout(facts: string, query: string)
    ensures var p, f := TextPrompt(facts, query), |TEXT_PROMPT_HEAD|;
            var q := f + |facts| + |TEXT_PROMPT_QUESTION|;
            q + |query| <= |p| &&
            p[..f] == TEXT_PROMPT_HEAD && p[f..f + |facts|] == facts && p[q..q + |query|] == query
  {
    var p, f := TextPrompt(facts, query), |TEXT_PROMPT_HEAD|;
    var q := f + |facts| + |TEXT_PROMPT_QUESTION|;
    assert p == TEXT_PROMPT_HEAD + facts + TEXT_PROMPT_QUESTION + query + TEXT_PROMPT_TAIL;
    assert p[f..f + |facts|] == facts;
    assert p[q..q + |query|] == query;
  }

  const IMAGE_PROMPT_HEAD: string := "\nFacts (captions):\n"
  const IMAGE_PROMPT_TAIL: string := "\n\nDescribe the image in detail, using only these captions, think step-by-step:"

  /** The instruction prompt of `answer_from_image_b64`. */
  function ImagePrompt(facts: string): string
  {
    IMAGE_PROMPT_HEAD + facts + IMAGE_PROMPT_TAIL
  }

  /** `output[len(prompt):].strip()`: Python's slice gives the empty string
      when the output is not longer than the prompt. The answer never starts
      or ends with whitespace. */
  function ExtractAnswer(output: string, prompt: string): (answer: string)
    ensures answer == [] || (!IsSpace(answer[0]) && !IsSpace(answer[|answer| - 1]))
    ensures |output| <= |prompt| ==> answer == []
  {
    Strip(if |prompt| <= |output| then output[|prompt|..] else "")
  }

  /** When the generator echoes the prompt and continues it, the answer is the
      continuation with its surrounding whitespace removed. */
  lemma AnswerIsContinuation(prompt: string, pre: string, core: string, post: string)
    requires AllSpace(pre) && AllSpace(post)
    requires core == [] || (!IsSpace(core[0]) && !IsSpace(core[|core| - 1]))
    ensures ExtractAnswer(prompt + pre + core + post, prompt) == core
  {
    var out := prompt + pre + core + post;
    assert out[|prompt|..] == pre + core + post;
    StripExact(pre, core, post);
  }

  /** What a query needs at hand: the loaded index, the models, the generator
      (greedy, at most 100 new tokens; `None` when it raises) and the score
      format. */
  datatype Pipeline = Pipeline(
    index: LoadedIndex,
    text: TextModel,
    clip: Option<ImageModel>,
    generate: string -> Option<string>,
    fmt3: real -> string)
  {
    ghost predicate Valid() {
      index.Valid()
    }
  }

  /** `{"answer": ..., "hits": ...}` */
  datatype Answer = Answer(answer: string, hits: seq<Hit>)

  datatype QaError = SearchFailed(cause: SearchError) | GenerationFailed

  function TextPromptFor(p: Pipeline, hits: seq<Hit>, query: string): string
  {
    TextPrompt(Facts(Views(hits), p.fmt3), query)
  }

  function ImagePromptFor(p: Pipeline, hits: seq<Hit>): string
  {
    ImagePrompt(Facts(Views(hits), p.fmt3))
  }

  /** `answer_from_text(query, k=5)`: the returned hits are the search's own,
      unmodified; a failing search or generator fails the whole answer. */
  function TextAnswer(p: Pipeline, query: string, k: nat := 5): (r: Result<Answer, QaError>)
    requires p.Valid()
    ensures SearchText(p.index, p.text, query, k).Failure? ==>
              r == Failure(SearchFailed(SearchText(p.index, p.text, query, k).error))
    ensures r.Success? ==> SearchText(p.index, p.text, query, k) == Success(r.value.hits)
    ensures r.Success? ==>
              p.generate(TextPromptFor(p, r.value.hits, query)).Some? &&
              r.value.answer == ExtractAnswer(p.generate(TextPromptFor(p, r.value.hits, query)).value,
                                              TextPromptFor(p, r.value.hits, query))
    ensures r == Failure(GenerationFailed) <==>
              SearchText(p.index, p.text, query, k).Success? &&
              p.generate(TextPromptFor(p, SearchText(p.index, p.text, query, k).value, query)).None?
  {
    match SearchText(p.index, p.text, query, k)
    case Failure(e) => Failure(SearchFailed(e))
    case Success(hits) =>
      var prompt := TextPromptFor(p, hits, query);
      match p.generate(prompt)
      case None => Failure(GenerationFailed)
      case Some(output) => Success(Answer(ExtractAnswer(output, prompt), hits))
  }

  /** `answer_from_image_b64(b64str, k=5)` */
  function ImageAnswer(p: Pipeline, b64: Json, k: nat := 5): (r: Result<Answer, QaError>)
    requires p.Valid()
    ensures SearchImage(p.index, p.clip, b64, k).Failure? ==>
              r == Failure(SearchFailed(SearchImage(p.index, p.clip, b64, k).error))
    ensures r.Success? ==> SearchImage(p.index, p.clip, b64, k) == Success(r.value.hits)
    ensures r.Success? ==>
              p.generate(ImagePromptFor(p, r.value.hits)).Some? &&
              r.value.answer == ExtractAnswer(p.generate(ImagePromptFor(p, r.value.hits)).value,
                                              ImagePromptFor(p, r.value.hits))
    ensures r == Failure(GenerationFailed) <==>
              SearchImage(p.index, p.clip, b64, k).Success? &&
              p.generate(ImagePromptFor(p, SearchImage(p.index, p.clip, b64, k).value)).None?
  {
    match SearchImage(p.index, p.clip, b64, k)
    case Failure(e) => Failure(SearchFailed(e))
    case Success(hits) =>
      var prompt := ImagePromptFor(p, hits);
      match p.generate(prompt)
      case None => Failure(GenerationFailed)
      case Some(output) => Success(Answer(ExtractAnswer(output, prompt), hits))
  }

  /** A text answer is what the generator added after the prompt, which
      carries the facts of the search's hits and the question; an image
      answer likewise after the image prompt. */
  lemma AnswersAreContinuations(p: Pipeline, query: string, b64: Json, k: nat, pre: string, core: string, post: string)
    requires p.Valid()
    requires AllSpace(pre) && AllSpace(post)
    requires core == [] || (!IsSpace(core[0]) && !IsSpace(core[|core| - 1]))
    ensures var s := SearchText(p.index, p.text, query, k);
            s.Success? && p.generate(TextPromptFor(p, s.value, query)) ==
              Some(TextPromptFor(p, s.value, query) + pre + core + post) ==>
            TextAnswer(p, query, k) == Success(Answer(core, s.value))
    ensures var s := SearchImage(p.index, p.clip, b64, k);
            s.Success? && p.generate(ImagePromptFor(p, s.value)) ==
              Some(ImagePromptFor(p, s.value) + pre + core + post) ==>
            ImageAnswer(p, b64, k) == Success(Answer(core, s.value))
  {
    var s := SearchText(p.index, p.text, query, k);
    if s.Success? {
      AnswerIsContinuation(TextPromptFor(p, s.value, query), pre, core, post);
    }
    var t := SearchImage(p.index, p.clip, b64, k);
    if t.Success? {
      AnswerIsContinuation(ImagePromptFor(p, t.value), pre, core, post);
    }
  }

  /** `answer_from_text`: search, format the facts, prompt, generate, extract. */
  method AnswerFromText(p: Pipeline, query: string, k: nat := 5) returns (r: Result<Answer, QaError>)
    requires p.Valid()
    ensures r == TextAnswer(p, query, k)
  {
    var found := SearchText(p.index, p.text, query, k);
    if found.Failure? {
      return Failure(SearchFailed(found.error));
    }
    var hits := found.value;
    var facts := FormatHits(Views(hits), p.fmt3);
    var prompt := TextPrompt(facts, query);
    var output := p.generate(prompt);
    if output.None? {
      return Failure(GenerationFailed);
    }
    r := Success(Answer(ExtractAnswer(output.value, prompt), hits));
  }

  /** `answer_from_image_b64`: the same sequence with the image search and prompt. */
  method AnswerFromImage(p: Pipeline, b64: Json, k: nat := 5) returns (r: Result<Answer, QaError>)
    requires p.Valid()
    ensures r == ImageAnswer(p, b64, k)
  {
    var found := SearchImage(p.index, p.clip, b64, k);
    if found.Failure? {
      return Failure(SearchFailed(found.error));
    }
    var hits := found.value;
    var facts := FormatHits(Views(hits), p.fmt3);
    var prompt := ImagePrompt(facts);
    var output := p.generate(prompt);
    if output.None? {
      return Failure(GenerationFailed);
    }
    r := Success(Answer(ExtractAnswer(output.value, prompt), hits));
  }
}
