/**
 * The image request built from the generated `image_prompt`
 * (ai_generator.py, lines 77-88), and the Turbo retry URL derived from it
 * (lines 114-116).
 *
 * The random seed and the POLLINATIONS_API_KEY environment variable are
 * parameters: the seed is any value `random.randint(1, 1000000)` can return,
 * the key is None when the variable is unset.
 */
module ImageRequest {
  import opened Wrappers
  import opened Strings
  import opened Encoding

  /** Prompts are cut to this many characters before the suffix is added. */
  const PromptLimit: nat := 200
  const Suffix := ", cinematic lighting"
  const Endpoint := "https://image.pollinations.ai/prompt/"
  /** The file extension and the query up to the model parameter. */
  const SizeQuery := ".png?width=1280&height=720&"
  /** The query between the model parameter and the seed. */
  const SeedQuery := "&nologo=true&seed="
  const Flux := "model=flux"
  const Turbo := "model=turbo"
  const KeyParam := "&api_key="

  /** The values `random.randint(1, 1000000)` returns: both bounds included. */
  type Seed = x: int | 1 <= x <= 1000000 witness 1

  /** `result["image_prompt"][:200] + ", cinematic lighting"`. */
  function EnhancePrompt(imagePrompt: string): string {
    imagePrompt[..if |imagePrompt| <= PromptLimit then |imagePrompt| else PromptLimit] + Suffix
  }

  /**
   * The enhanced prompt keeps a prompt of at most 200 characters whole and
   * the first 200 characters of a longer one, then adds the suffix; it is
   * never longer than 220 characters.
   */
  lemma {:induction false} EnhancePromptShape(imagePrompt: string)
    ensures var r := EnhancePrompt(imagePrompt);
      && |Suffix| <= |r| <= PromptLimit + |Suffix| == 220
      && r[|r| - |Suffix|..] == Suffix
      && r[..|r| - |Suffix|] == imagePrompt[..|r| - |Suffix|]
      && (|imagePrompt| <= PromptLimit ==> r == imagePrompt + Suffix)
      && (|imagePrompt| > PromptLimit ==> |r| == PromptLimit + |Suffix|)
  {
    var r := EnhancePrompt(imagePrompt);
    var n := |r| - |Suffix|;
    assert r[n..] == Suffix;
    assert r[..n] == imagePrompt[..n];
    if |imagePrompt| <= PromptLimit {
      assert imagePrompt[..|imagePrompt|] == imagePrompt;
    }
  }

  /** `f"&api_key={key}" if key else ""`: the key is added unencoded. */
  function ApiKeyParam(key: Option<string>): string {
    if key.Some? && key.value != "" then KeyParam + key.value else ""
  }

  /**
   * The request URL for an encoded prompt, a model name, a seed and the key:
   * the pieces of the f-string at lines 84-88, in order.
   */
  function PollinationsUrl(encodedPrompt: string, model: string, seed: Seed, key: Option<string>): string {
    Endpoint + encodedPrompt
      + (SizeQuery + ("model=" + model + (SeedQuery + (Decimal(seed) + ApiKeyParam(key)))))
  }

  /** `pollinations_url` for a generated image prompt. */
  function FluxUrl(imagePrompt: string, seed: Seed, key: Option<string>): string {
    PollinationsUrl(Quote(EnhancePrompt(imagePrompt)), "flux", seed, key)
  }

  /** `pollinations_url.replace("model=flux", "model=turbo")`. */
  function RetryUrl(url: string): string {
    ReplaceAll(url, Flux, Turbo)
  }

  // ---------------------------------------------------------------- the literals

  lemma {:induction false} ModelParams()
    ensures "model=" + "flux" == Flux && "model=" + "turbo" == Turbo
  {
  }

  lemma {:induction false} EndpointChars()
    ensures '=' !in Endpoint && '&' !in Endpoint && '?' !in Endpoint
  {
    EndpointLacks('=');
    EndpointLacks('&');
    EndpointLacks('?');
  }

  lemma {:induction false} EndpointLacks(c: char)
    requires c in "=&?"
    ensures c !in Endpoint
  {
  }

  lemma {:induction false} SizeQueryChars()
    ensures |SizeQuery| > 5 && SizeQuery[..4] == ".png" && SizeQuery[4] == '?'
    ensures forall j :: 0 <= j < 4 ==> SizeQuery[j] != '?'
    ensures forall j :: 0 <= j < 5 ==> SizeQuery[j] != '='
    ensures 'l' !in SizeQuery && 'a' !in SizeQuery
  {
    SizeQueryHead();
    SizeQueryLacks('l');
    SizeQueryLacks('a');
  }

  lemma {:induction false} SizeQueryHead()
    ensures |SizeQuery| > 5 && SizeQuery[..5] == ".png?"
  {
  }

  lemma {:induction false} SizeQueryLacks(c: char)
    requires c in "la"
    ensures c !in SizeQuery
  {
  }

  lemma {:induction false} TailChars()
    ensures forall j :: 0 <= j < 4 ==> Flux[j] != 'l'
    ensures 'a' !in Flux && Flux[0] != 'a'
    ensures 'm' !in SeedQuery && 'a' !in SeedQuery && SeedQuery[0] != 'a'
    ensures 'm' !in KeyParam
  {
  }

  // ---------------------------------------------------------------- the URLs

  /** A flux URL holds "model=flux" at the head of its third query parameter. */
  lemma {:induction false} FluxParts(enc: string, seed: Seed, key: Option<string>)
    ensures PollinationsUrl(enc, "flux", seed, key)
      == (Endpoint + enc) + (SizeQuery + (Flux + (SeedQuery + (Decimal(seed) + ApiKeyParam(key)))))
  {
    ModelParams();
  }

  /** The search for "model=flux" passes over the endpoint, the prompt and the size query. */
  lemma {:induction false} FluxSkips(enc: string, t: string)
    requires '=' !in enc
    ensures SkipsPattern(Endpoint + enc, SizeQuery + (Flux + t), Flux, 5)
    ensures SkipsPattern(SizeQuery, Flux + t, Flux, 4)
  {
    EndpointChars();
    SizeQueryChars();
    TailChars();
  }

  /** Whatever the prompt, a flux URL contains "model=flux". */
  lemma {:induction false} UrlHasFlux(enc: string, seed: Seed, key: Option<string>)
    requires '=' !in enc
    ensures Contains(PollinationsUrl(enc, "flux", seed, key), Flux)
  {
    var t := SeedQuery + (Decimal(seed) + ApiKeyParam(key));
    FluxParts(enc, seed, key);
    FluxSkips(enc, t);
    ContainsPast(Endpoint + enc, SizeQuery + (Flux + t), Flux, 5);
    ContainsPast(SizeQuery, Flux + t, Flux, 4);
    ContainsFront(Flux, t);
  }

  /**
   * The request URL always contains "model=flux", so the test at line 114
   * always holds and its `else` branch (line 128) cannot be reached.
   */
  lemma {:induction false} FluxUrlHasFlux(imagePrompt: string, seed: Seed, key: Option<string>)
    ensures Contains(FluxUrl(imagePrompt, seed, key), Flux)
  {
    QuoteNoDelimiters(EnhancePrompt(imagePrompt));
    UrlHasFlux(Quote(EnhancePrompt(imagePrompt)), seed, key);
  }

  /** The query after the model parameter holds no "model=flux" unless the key does. */
  lemma {:induction false} RetryTail(seed: Seed, key: Option<string>)
    requires key.None? || !Contains(key.value, Flux)
    ensures var t := SeedQuery + (Decimal(seed) + ApiKeyParam(key));
      ReplaceAll(t, Flux, Turbo) == t
  {
    var d := Decimal(seed);
    var k := ApiKeyParam(key);
    TailChars();
    ReplaceAllPast(SeedQuery, d + k, Flux, Turbo, 0);
    assert 'm' !in d;
    ReplaceAllPast(d, k, Flux, Turbo, 0);
    if k != "" {
      ReplaceAllPast(KeyParam, key.value, Flux, Turbo, 0);
      ReplaceAllAbsent(key.value, Flux, Turbo);
    } else {
      ReplaceAllShort(k, Flux, Turbo);
    }
  }

  /** Replacing "model=flux" in a flux URL changes its model parameter and then the rest of the query. */
  lemma {:induction false} RetryHead(enc: string, t: string)
    requires '=' !in enc
    ensures ReplaceAll((Endpoint + enc) + (SizeQuery + (Flux + t)), Flux, Turbo)
      == (Endpoint + enc) + (SizeQuery + (Turbo + ReplaceAll(t, Flux, Turbo)))
  {
    FluxSkips(enc, t);
    ReplaceAllPast(Endpoint + enc, SizeQuery + (Flux + t), Flux, Turbo, 5);
    ReplaceAllPast(SizeQuery, Flux + t, Flux, Turbo, 4);
    ReplaceAllFront(t, Flux, Turbo);
  }

  /**
   * The Turbo retry URL is the flux URL with only its model parameter
   * changed, provided the API key itself does not contain "model=flux".
   */
  lemma {:induction false} RetryIsTurbo(enc: string, seed: Seed, key: Option<string>)
    requires '=' !in enc
    requires key.None? || !Contains(key.value, Flux)
    ensures RetryUrl(PollinationsUrl(enc, "flux", seed, key)) == PollinationsUrl(enc, "turbo", seed, key)
  {
    var t := SeedQuery + (Decimal(seed) + ApiKeyParam(key));
    FluxParts(enc, seed, key);
    ModelParams();
    RetryHead(enc, t);
    RetryTail(seed, key);
  }

  lemma {:induction false} RetryUrlIsTurbo(imagePrompt: string, seed: Seed, key: Option<string>)
    requires key.None? || !Contains(key.value, Flux)
    ensures RetryUrl(FluxUrl(imagePrompt, seed, key))
      == PollinationsUrl(Quote(EnhancePrompt(imagePrompt)), "turbo", seed, key)
  {
    QuoteNoDelimiters(EnhancePrompt(imagePrompt));
    RetryIsTurbo(Quote(EnhancePrompt(imagePrompt)), seed, key);
  }

  /**
   * The replacement also reaches the API key: whatever the key, the retry
   * URL is the Turbo URL carrying the key with "model=flux" replaced, so a
   * key that contains "model=flux" is sent changed.
   */
  lemma {:induction false} RetryRewritesKey(enc: string, seed: Seed, k: string)
    requires '=' !in enc && k != ""
    ensures RetryUrl(PollinationsUrl(enc, "flux", seed, Some(k)))
      == PollinationsUrl(enc, "turbo", seed, Some(ReplaceAll(k, Flux, Turbo)))
  {
    var d := Decimal(seed);
    var t := SeedQuery + (d + (KeyParam + k));
    FluxParts(enc, seed, Some(k));
    ModelParams();
    ReplaceAllNonEmpty(k, Flux, Turbo);
    RetryHead(enc, t);
    TailChars();
    ReplaceAllPast(SeedQuery, d + (KeyParam + k), Flux, Turbo, 0);
    assert 'm' !in d;
    ReplaceAllPast(d, KeyParam + k, Flux, Turbo, 0);
    ReplaceAllPast(KeyParam, k, Flux, Turbo, 0);
  }

  /** The key "model=flux" itself is sent as "model=turbo" on the retry. */
  lemma {:induction false} RetryRewritesFluxKey(enc: string, seed: Seed)
    requires '=' !in enc
    ensures RetryUrl(PollinationsUrl(enc, "flux", seed, Some(Flux)))
      == PollinationsUrl(enc, "turbo", seed, Some(Turbo))
  {
    RetryRewritesKey(enc, seed, Flux);
    assert Flux + [] == Flux;
    ReplaceAllFront([], Flux, Turbo);
    ReplaceAllShort([], Flux, Turbo);
    assert Turbo + [] == Turbo;
  }

  /** After the prompt, "&api_key=" can only start at the key parameter. */
  lemma {:induction false} KeyParamSkips(enc: string, d: string, k: string)
    requires '&' !in enc
    requires |d| > 0 && '&' !in d && d[0] != 'a'
    ensures SkipsPattern(Endpoint + enc, SizeQuery + (Flux + (SeedQuery + (d + k))), KeyParam, 0)
    ensures SkipsPattern(SizeQuery, Flux + (SeedQuery + (d + k)), KeyParam, 1)
    ensures SkipsPattern(Flux, SeedQuery + (d + k), KeyParam, 1)
    ensures SkipsPattern(SeedQuery, d + k, KeyParam, 1)
    ensures SkipsPattern(d, k, KeyParam, 0)
  {
    EndpointChars();
    SizeQueryChars();
    TailChars();
  }

  /** A flux URL carries an `api_key` parameter exactly when the key is set and not empty. */
  lemma {:induction false} UrlHasKey(enc: string, seed: Seed, key: Option<string>)
    requires '&' !in enc
    ensures Contains(PollinationsUrl(enc, "flux", seed, key), KeyParam) <==> key.Some? && key.value != ""
  {
    var d := Decimal(seed);
    var k := ApiKeyParam(key);
    FluxParts(enc, seed, key);
    assert d[0] != 'a' && '&' !in d;
    KeyParamSkips(enc, d, k);
    ContainsPast(Endpoint + enc, SizeQuery + (Flux + (SeedQuery + (d + k))), KeyParam, 0);
    ContainsPast(SizeQuery, Flux + (SeedQuery + (d + k)), KeyParam, 1);
    ContainsPast(Flux, SeedQuery + (d + k), KeyParam, 1);
    ContainsPast(SeedQuery, d + k, KeyParam, 1);
    ContainsPast(d, k, KeyParam, 0);
    if k != "" {
      ContainsFront(KeyParam, key.value);
    } else {
      assert !OccursAt(k, KeyParam, 0);
    }
  }

  lemma {:induction false} FluxUrlHasKey(imagePrompt: string, seed: Seed, key: Option<string>)
    ensures Contains(FluxUrl(imagePrompt, seed, key), KeyParam) <==> key.Some? && key.value != ""
  {
    QuoteNoDelimiters(EnhancePrompt(imagePrompt));
    UrlHasKey(Quote(EnhancePrompt(imagePrompt)), seed, key);
  }

  /** Behind text without '?', a query that opens with ".png?" puts the first '?' right after ".png". */
  lemma {:induction false} PathPrefix(x: string, y: string)
    requires '?' !in x
    requires |y| > 4 && y[..4] == ".png" && y[4] == '?' && forall j :: 0 <= j < 4 ==> y[j] != '?'
    ensures var i := |x| + 4;
      && i < |x + y| && (x + y)[i] == '?'
      && (x + y)[..i] == x + ".png"
      && forall j :: 0 <= j < i ==> (x + y)[j] != '?'
  {
    var i := |x| + 4;
    assert (x + y)[..i] == x + y[..4];
  }

  lemma {:induction false} SizeQueryFront(z: string)
    ensures var y := SizeQuery + z;
      |y| > 4 && y[..4] == ".png" && y[4] == '?' && forall j :: 0 <= j < 4 ==> y[j] != '?'
  {
    SizeQueryChars();
    assert (SizeQuery + z)[..4] == SizeQuery[..4];
  }

  /**
   * The encoded prompt cannot reach the query: the first '?' of the URL is
   * the one after ".png", and the URL up to it is the endpoint, the encoded
   * prompt and ".png".
   */
  lemma {:induction false} PromptStaysInPath(imagePrompt: string, seed: Seed, key: Option<string>)
    ensures var url := FluxUrl(imagePrompt, seed, key);
      var enc := Quote(EnhancePrompt(imagePrompt));
      var i := |Endpoint| + |enc| + 4;
      && i < |url| && url[i] == '?'
      && url[..i] == Endpoint + enc + ".png"
      && forall j :: 0 <= j < i ==> url[j] != '?'
  {
    var enc := Quote(EnhancePrompt(imagePrompt));
    var z := "model=" + "flux" + (SeedQuery + (Decimal(seed) + ApiKeyParam(key)));
    QuoteNoDelimiters(EnhancePrompt(imagePrompt));
    EndpointChars();
    SizeQueryFront(z);
    PathPrefix(Endpoint + enc, SizeQuery + z);
  }
}
