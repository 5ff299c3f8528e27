/**
 * The pure parts of the language-model post generator: the sanitiser every generated
 * text passes through, the list of Gemini models tried in turn, and the excerpt of recent
 * network posts given to the model as context. The secret-redacting regular expression is
 * a parameter `redact`.
 */
module LlmProvider {
  import opened Wrappers
  import opened Schemas
  import opened Sequences
  import opened Text

  /** The longest text a generated post may carry. */
  const MaxPostLength: int := 280
  /** The Gemini model used when none is configured. */
  const DefaultGeminiModel: string := "gemini-2.5-flash"
  /** The models tried after the configured one, in this order. */
  const FallbackModels: seq<string> := ["gemini-2.0-flash", "gemini-2.0-flash-lite", "gemini-3-flash-preview"]
  /** The context excerpt keeps this many of the most recent posts. */
  const ContextPosts: int := 5
  /** A context post's text is cut to this many characters. */
  const ContextTextLimit: int := 100
  /** The first line of the context excerpt. */
  const ContextHeader: string := "Recent posts from the network (for tone only):\n"

  /**
   * `_sanitize`: "" for empty or all-whitespace text; otherwise strip, redact, strip again,
   * and cut to 277 characters plus "..." when longer than 280. The result never exceeds
   * 280 characters and has no whitespace at either end.
   */
  function Sanitize(text: string, redact: string -> string): (r: string)
    ensures AllSpace(text) ==> r == ""
    ensures |r| <= MaxPostLength
    ensures Trimmed(r)
  {
    if text == [] || Strip(text) == [] then ""
    else
      var t := Strip(redact(Strip(text)));
      if |t| > MaxPostLength then Truncate(t) else t
  }

  /** A text too long to post, cut to 277 characters and marked with "...". */
  function Truncate(t: string): (r: string)
    requires |t| > MaxPostLength && Trimmed(t)
    ensures |r| == MaxPostLength && Trimmed(r)
    ensures r[..MaxPostLength - 3] == t[..MaxPostLength - 3] && r[MaxPostLength - 3..] == "..."
  {
    var head := t[..MaxPostLength - 3];
    var r := head + "...";
    assert r[..|head|] == head && r[|head|..] == "...";
    assert r[0] == t[0];
    assert r[|r| - 1] == '.' && !IsSpace('.');
    r
  }

  /**
   * For text with something visible in it: the stripped, redacted, re-stripped text is
   * returned whole when it fits in 280 characters; otherwise exactly 280 characters come
   * back, its first 277 followed by "...".
   */
  lemma SanitizeCases(text: string, redact: string -> string)
    requires !AllSpace(text)
    ensures var t := Strip(redact(Strip(text)));
            var r := Sanitize(text, redact);
            && (|t| <= MaxPostLength ==> r == t)
            && (|t| > MaxPostLength ==> |r| == MaxPostLength && r[..MaxPostLength - 3] == t[..MaxPostLength - 3]
                                         && r[MaxPostLength - 3..] == "...")
  {
    assert text != [] && Strip(text) != [];
  }

  /** Sanitising a sanitised text again changes nothing, whenever redaction leaves it alone. */
  lemma SanitizeIdempotent(text: string, redact: string -> string)
    requires redact(Sanitize(text, redact)) == Sanitize(text, redact)
    ensures Sanitize(Sanitize(text, redact), redact) == Sanitize(text, redact)
  {
    var r := Sanitize(text, redact);
    if r != [] {
      StripTrimmed(r);
      assert !AllSpace(r) by {
        assert !IsSpace(r[0]);
      }
      assert Strip(redact(Strip(r))) == r;
    }
  }

  /**
   * `os.environ.get("GEMINI_MODEL", "gemini-2.5-flash").strip()`: the configured model
   * name without outer whitespace, or the default model, which has none to strip
   * (`DefaultModelStripped`).
   */
  function GeminiModel(env: Option<string>): (m: string)
    ensures Trimmed(m)
    ensures env.Some? ==> m == Strip(env.value)
    ensures env.None? ==> m == DefaultGeminiModel
  {
    if env.Some? then Strip(env.value)
    else
      DefaultModelTrimmed();
      DefaultGeminiModel
  }

  /** The default model name starts and ends with a visible character. */
  lemma DefaultModelTrimmed()
    ensures Trimmed(DefaultGeminiModel)
  {
    assert DefaultGeminiModel[0] == 'g' && DefaultGeminiModel[|DefaultGeminiModel| - 1] == 'h';
  }

  /** Stripping the default model name changes nothing. */
  lemma DefaultModelStripped()
    ensures Strip(DefaultGeminiModel) == DefaultGeminiModel
  {
    DefaultModelTrimmed();
    StripTrimmed(DefaultGeminiModel);
  }

  /**
   * The models `generate_post` tries, for the environment's `GEMINI_MODEL` setting `env`.
   * With nothing configured: the default model, then all three fallback models in order.
   */
  lemma ConfiguredModels(env: Option<string>)
    ensures var r := ModelsToTry(GeminiModel(env));
            && r[0] == GeminiModel(env)
            && (env.None? ==> r == [DefaultGeminiModel] + FallbackModels)
  {
    assert DefaultGeminiModel !in FallbackModels by {
      assert FallbackModels[0][9] != DefaultGeminiModel[9];
      assert FallbackModels[1][9] != DefaultGeminiModel[9];
      assert FallbackModels[2][7] != DefaultGeminiModel[7];
    }
  }

  /**
   * `models_to_try`: the configured model first, then the fallback models other than it,
   * in their order; no model is tried twice.
   */
  function ModelsToTry(modelName: string): (r: seq<string>)
    ensures |r| >= 1 && r[0] == modelName
    ensures IsSubseq(r[1..], FallbackModels)
    ensures forall m :: m in r[1..] <==> m in FallbackModels && m != modelName
    ensures Distinct(r)
    ensures modelName !in FallbackModels ==> r == [modelName] + FallbackModels
  {
    var others := Filter(FallbackModels, (m: string) => m != modelName);
    FallbackModelsDistinct();
    OtherModels(FallbackModels, modelName);
    var r := [modelName] + others;
    assert r[1..] == others;
    r
  }

  /**
   * Leaving one model out of a list of distinct models keeps the rest, in order, once
   * each, and keeps the whole list when the model is not in it.
   */
  lemma OtherModels(models: seq<string>, modelName: string)
    requires Distinct(models)
    ensures var others := Filter(models, (m: string) => m != modelName);
            && IsSubseq(others, models)
            && (forall m :: m in others <==> m in models && m != modelName)
            && Distinct(others)
            && (modelName !in models ==> others == models)
  {
    var others := Filter(models, (m: string) => m != modelName);
    if modelName !in models {
      FilterKeepsAll(models, (m: string) => m != modelName);
    }
    FilterSubseq(models, (m: string) => m != modelName);
    SubseqElements(others, models);
    SubseqDistinct(others, models);
  }

  /** The three fallback models are different models. */
  lemma FallbackModelsDistinct()
    ensures Distinct(FallbackModels)
  {
    var a, b, c := FallbackModels[0], FallbackModels[1], FallbackModels[2];
    assert a != b by { assert |a| != |b|; }
    assert a != c by { assert a[7] != c[7]; }
    assert b != c by { assert b[7] != c[7]; }
  }

  /** How many models are tried: three when the configured model is a fallback model, else four. */
  lemma ModelsToTryCount(modelName: string)
    ensures |ModelsToTry(modelName)| == if modelName in FallbackModels then 3 else 4
  {
    if modelName in FallbackModels {
      var a, b, c := FallbackModels[0], FallbackModels[1], FallbackModels[2];
      var p := (m: string) => m != modelName;
      FallbackModelsDistinct();
      assert FallbackModels == [a] + [b] + [c];
      FilterAppend([a] + [b], [c], p);
      FilterAppend([a], [b], p);
      FilterSingleton(a, p);
      FilterSingleton(b, p);
      FilterSingleton(c, p);
      assert ModelsToTry(modelName) == [modelName] + Filter(FallbackModels, p);
    }
  }

  /** `context[-5:]`: the last five posts, or all of them when there are fewer. */
  function RecentContext(context: seq<Post>): (r: seq<Post>)
    ensures |r| == (if |context| < ContextPosts then |context| else ContextPosts)
    ensures r == context[|context| - |r|..]
  {
    if |context| <= ContextPosts then context else context[|context| - ContextPosts..]
  }

  /**
   * One line of the excerpt: "- " and the post's text, cut to its first 100 characters
   * plus "..." when longer; so a line never exceeds 105 characters.
   */
  function ExcerptLine(p: Post): (line: string)
    ensures 2 <= |line| <= 2 + ContextTextLimit + 3 && line[..2] == "- "
    ensures |p.text| <= ContextTextLimit ==> line[2..] == p.text
    ensures |p.text| > ContextTextLimit ==>
              |line| == 2 + ContextTextLimit + 3 && line[2..2 + ContextTextLimit] == p.text[..ContextTextLimit] && line[2 + ContextTextLimit..] == "..."
  {
    if |p.text| > ContextTextLimit then "- " + p.text[..ContextTextLimit] + "..." else "- " + p.text
  }

  /** `sep.join(lines)`. */
  function Join(sep: string, lines: seq<string>): string
    decreases |lines|
  {
    if lines == [] then ""
    else if |lines| == 1 then lines[0]
    else lines[0] + sep + Join(sep, lines[1..])
  }

  /** Joining `n` lines of at most `w` characters with a one-character separator takes at most `n * (w + 1)`. */
  lemma {:induction false} JoinLength(sep: string, lines: seq<string>, w: nat)
    requires |sep| == 1
    requires forall i :: 0 <= i < |lines| ==> |lines[i]| <= w
    ensures |Join(sep, lines)| <= |lines| * (w + 1)
    decreases |lines|
  {
    if |lines| > 1 {
      JoinLength(sep, lines[1..], w);
    }
  }

  /**
   * The `extra` context of `generate_post`: nothing without context posts; otherwise the
   * header, then one line for each of the last five posts, newline-separated.
   */
  function ContextExcerpt(context: Option<seq<Post>>): string {
    if context.None? || context.value == [] then ""
    else ContextHeader + Join("\n", Map(RecentContext(context.value), ExcerptLine))
  }

  /**
   * The excerpt is empty exactly when there are no context posts; otherwise it is the
   * header followed by lines for only the last five posts, in order, and however many
   * posts are given it stays within the header plus five lines of 105 characters and
   * their separators.
   */
  lemma ContextExcerptFacts(context: Option<seq<Post>>)
    ensures var extra := ContextExcerpt(context);
            && (extra == "" <==> context.None? || context.value == [])
            && |extra| <= |ContextHeader| + ContextPosts * (2 + ContextTextLimit + 3 + 1)
            && (context.Some? && context.value != [] ==>
                  var ctx := context.value;
                  var lines := Map(RecentContext(ctx), ExcerptLine);
                  && extra == ContextHeader + Join("\n", lines)
                  && |lines| == (if |ctx| < ContextPosts then |ctx| else ContextPosts)
                  && forall i :: 0 <= i < |lines| ==> lines[i] == ExcerptLine(ctx[|ctx| - |lines| + i]))
  {
    if context.Some? && context.value != [] {
      var ctx := context.value;
      var recent := RecentContext(ctx);
      var lines := Map(recent, ExcerptLine);
      JoinLength("\n", lines, 2 + ContextTextLimit + 3);
      forall i | 0 <= i < |lines| ensures lines[i] == ExcerptLine(ctx[|ctx| - |lines| + i]) {
        assert recent[i] == ctx[|ctx| - |recent| + i];
      }
    }
  }
}
