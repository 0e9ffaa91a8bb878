/**
 * The post-processing of the parsed model output in
 * `generate_event_content` (ai_generator.py, lines 59-140): the description
 * is cleaned, the image is fetched and `imageUrl` is set on every path.
 *
 * The text step (the prompt, the Gemini call and the JSON parser) is not
 * modelled: its outcome is a parameter, either the parsed JSON object or
 * the exception it raised.
 */
module EventGenerator {
  import opened Wrappers
  import opened Strings
  import opened Encoding
  import opened Cleaner
  import opened ImageRequest
  import opened ImageFetch

  /** A JSON value as the parser returns it; numbers are kept as their literal text. */
  datatype Value =
    | Null
    | Bool(truth: bool)
    | Number(literal: string)
    | Str(text: string)
    | Array(items: seq<Value>)
    | Object(members: map<string, Value>)

  /** What `chain.ainvoke(prompt)` did. */
  datatype TextOutcome = Parsed(result: map<string, Value>) | TextFailed(cause: string)

  /** The exceptions that leave `generate_event_content`. */
  datatype Error =
    | TextStepFailed(cause: string)   // re-raised from the text step (lines 138-140)
    | TypeMismatch(key: string)       // the value under `key` is not a string (see StrOrAbsent)

  /**
   * The key is absent or holds a string. `re.sub` raises a TypeError for any
   * other description. Slicing, then appending to, a prompt that is not a
   * string raises too: a TypeError, or a KeyError for an object on Python
   * 3.12 and later, where slices can be dictionary keys.
   */
  predicate StrOrAbsent(result: map<string, Value>, key: string) {
    key in result ==> result[key].Str?
  }

  lemma {:induction false} KeyNames()
    ensures "description" != "imageUrl" && "description" != "image_prompt" && "image_prompt" != "imageUrl"
  {
    assert "description"[0] != "imageUrl"[0];
    assert "description"[0] != "image_prompt"[0];
    assert "image_prompt"[5] != "imageUrl"[5];
  }

  /**
   * Lines 67-68: a string description is replaced by its cleaned text, any
   * other value raises; without a description the result is unchanged.
   */
  method CleanDescriptionField(result: map<string, Value>) returns (outcome: Result<map<string, Value>, Error>)
    ensures outcome.Ok? <==> StrOrAbsent(result, "description")
    ensures outcome.Err? ==> outcome.error == TypeMismatch("description")
    ensures outcome.Ok? ==>
      && outcome.value.Keys == result.Keys
      && (forall k :: k in result && k != "description" ==> outcome.value[k] == result[k])
      && ("description" in result ==>
            outcome.value["description"] == Str(CleanDescription(result["description"].text)))
  {
    if "description" in result {
      match result["description"]
      case Str(description) =>
        return Ok(result["description" := Str(CleanDescription(description))]);
      case _ =>
        return Err(TypeMismatch("description"));
    }
    return Ok(result);
  }

  /**
   * Lines 71-134: with a string image prompt, build the flux URL, fetch the
   * image and store its address (or "") under `imageUrl`; a prompt of any
   * other type raises; without a prompt `imageUrl` is "" and nothing is
   * requested.
   */
  method AddImageUrl(result: map<string, Value>, seed: Seed, apiKey: Option<string>,
                     first: Attempt, second: Attempt, id: string, saved: bool)
    returns (outcome: Result<map<string, Value>, Error>, requested: seq<string>)
    ensures outcome.Ok? <==> StrOrAbsent(result, "image_prompt")
    ensures outcome.Err? ==> outcome.error == TypeMismatch("image_prompt") && requested == []
    ensures outcome.Ok? ==>
      && outcome.value.Keys == result.Keys + {"imageUrl"}
      && (forall k :: k in result && k != "imageUrl" ==> outcome.value[k] == result[k])
      && outcome.value["imageUrl"].Str?
      && (outcome.value["imageUrl"].text == "" || outcome.value["imageUrl"].text == UploadUrl(id))
    ensures outcome.Ok? && "image_prompt" !in result ==>
      outcome.value["imageUrl"] == Str("") && requested == []
    ensures outcome.Ok? && "image_prompt" in result ==>
      var prompt := result["image_prompt"].text;
      && 1 <= |requested| <= 2
      && requested[0] == FluxUrl(prompt, seed, apiKey)
      && (|requested| == 2 <==> Rejected(first))
      && (|requested| == 2 ==> requested[1] == RetryUrl(requested[0]))
      && (|requested| == 2 && (apiKey.None? || !Contains(apiKey.value, Flux)) ==>
            requested[1] == PollinationsUrl(Quote(EnhancePrompt(prompt)), "turbo", seed, apiKey))
      && (outcome.value["imageUrl"].text != "" <==>
            saved && (Accepted(first) || (Rejected(first) && Accepted(second))))
  {
    KeyNames();
    if "image_prompt" in result {
      match result["image_prompt"]
      case Str(prompt) =>
        var url := FluxUrl(prompt, seed, apiKey);
        FluxUrlHasFlux(prompt, seed, apiKey);
        if apiKey.None? || !Contains(apiKey.value, Flux) {
          RetryUrlIsTurbo(prompt, seed, apiKey);
        }
        var imageUrl;
        imageUrl, requested := FetchImage(url, first, second, id, saved);
        return Ok(result["imageUrl" := Str(imageUrl)]), requested;
      case _ =>
        return Err(TypeMismatch("image_prompt")), [];
    }
    return Ok(result["imageUrl" := Str("")]), [];
  }

  /**
   * `generate_event_content` from the parsed result on: `seed`, `apiKey`,
   * `first`, `second`, `id` and `saved` stand for `random.randint`, the
   * POLLINATIONS_API_KEY variable, the two requests, `uuid.uuid4()` and the
   * file write. `requested` lists the image URLs requested, in order.
   */
  method GenerateEventContent(text: TextOutcome, seed: Seed, apiKey: Option<string>,
                              first: Attempt, second: Attempt, id: string, saved: bool)
    returns (outcome: Result<map<string, Value>, Error>, requested: seq<string>)
    // an exception from the text step is raised again and nothing is requested
    ensures text.TextFailed? ==> outcome == Err(TextStepFailed(text.cause)) && requested == []
    ensures text.Parsed? && !StrOrAbsent(text.result, "description") ==>
      outcome == Err(TypeMismatch("description")) && requested == []
    ensures text.Parsed? && StrOrAbsent(text.result, "description") && !StrOrAbsent(text.result, "image_prompt") ==>
      outcome == Err(TypeMismatch("image_prompt")) && requested == []
    ensures outcome.Ok? <==>
      text.Parsed? && StrOrAbsent(text.result, "description") && StrOrAbsent(text.result, "image_prompt")
    // keys: imageUrl is always added; description is cleaned; nothing else changes
    ensures outcome.Ok? ==>
      var r, fields := text.result, outcome.value;
      && fields.Keys == r.Keys + {"imageUrl"}
      && (forall k :: k in r && k != "description" && k != "imageUrl" ==> fields[k] == r[k])
      && ("description" in r ==> fields["description"] == Str(CleanDescription(r["description"].text)))
      && fields["imageUrl"].Str?
      && (fields["imageUrl"].text == "" || fields["imageUrl"].text == UploadUrl(id))
    // without an image prompt nothing is requested and imageUrl is empty
    ensures outcome.Ok? && "image_prompt" !in text.result ==>
      outcome.value["imageUrl"] == Str("") && requested == []
    // with one: the flux URL first, the Turbo URL only after a turned-down response
    ensures outcome.Ok? && "image_prompt" in text.result ==>
      var prompt := text.result["image_prompt"].text;
      && 1 <= |requested| <= 2
      && requested[0] == FluxUrl(prompt, seed, apiKey)
      && (|requested| == 2 <==> Rejected(first))
      && (|requested| == 2 ==> requested[1] == RetryUrl(requested[0]))
      && (|requested| == 2 && (apiKey.None? || !Contains(apiKey.value, Flux)) ==>
            requested[1] == PollinationsUrl(Quote(EnhancePrompt(prompt)), "turbo", seed, apiKey))
      && (outcome.value["imageUrl"].text != "" <==>
            saved && (Accepted(first) || (Rejected(first) && Accepted(second))))
  {
    if text.TextFailed? {
      return Err(TextStepFailed(text.cause)), [];
    }
    KeyNames();
    var cleaned := CleanDescriptionField(text.result);
    if cleaned.Err? {
      return Err(cleaned.error), [];
    }
    outcome, requested := AddImageUrl(cleaned.value, seed, apiKey, first, second, id, saved);
  }
}
