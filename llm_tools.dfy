/** `LLMTools` of app/tools/transformer_tools.py: purchase extraction and audio transcription,
    each trying the configured provider first and the other one of OpenAI and Groq second.

    The clients, the prompt, the parser and the transcription services are not modelled: the
    outcome of calling a provider (its parsed purchase or transcript, or the text of the
    exception it raised) is a parameter, as is the already formatted current time. */
module LlmTools {
  import opened Wrappers
  import opened Helpers
  import OcrLabels

  /** The fields of the parsed `PurchaseInfo` other than the floating-point `amount`. */
  datatype Purchase = Purchase(
    storeName: string,
    currency: string,
    date: string,
    paymentMethod: string,
    category: Option<string>)

  /** The schema defaults of `PurchaseInfo`. */
  const DefaultPurchase: Purchase :=
    Purchase("Unknown Store", "R$", "Unknown Date", "Unknown", Some("Uncategorized"))

  /** `str.lower()` on ASCII letters. */
  function LowerStr(s: string): (r: string)
    ensures |r| == |s|
    ensures forall i :: 0 <= i < |s| ==> r[i] == OcrLabels.Lower(s[i])
  {
    seq(|s|, i requires 0 <= i < |s| => OcrLabels.Lower(s[i]))
  }

  /** The lower-cased name holds no ASCII capital, lower-casing it again changes nothing, and a
      name without capitals is its own lower case. */
  lemma LowerStrLower(s: string)
    ensures forall i :: 0 <= i < |s| ==> !('A' <= LowerStr(s)[i] <= 'Z')
    ensures LowerStr(LowerStr(s)) == LowerStr(s)
    ensures (forall i :: 0 <= i < |s| ==> !('A' <= s[i] <= 'Z')) ==> LowerStr(s) == s
  {
  }

  /** `[default, "groq" if default == "openai" else "openai"]`. */
  function ProviderList(default: string): seq<string> {
    [default, if default == "openai" then "groq" else "openai"]
  }

  /** The list always holds two different providers, the configured one first, and OpenAI is
      always one of them. */
  lemma ProviderListShape(default: string)
    ensures |ProviderList(default)| == 2 && ProviderList(default)[0] == default
    ensures ProviderList(default)[0] != ProviderList(default)[1]
    ensures "openai" in ProviderList(default)
    ensures default == "openai" <==> ProviderList(default)[1] == "groq"
  {
  }

  /** One attempt: OpenAI and Groq give their outcome; any other name raises
      `ValueError("Unsupported provider: <name>")`, which the loop catches like any failure. */
  function Attempt<T>(provider: string, openai: Result<T>, groq: Result<T>): (r: Result<T>)
    ensures provider != "openai" && provider != "groq" ==> r == Err("Unsupported provider: " + provider)
    ensures provider == "openai" ==> r == openai
    ensures provider == "groq" ==> r == groq
  {
    if provider == "openai" then openai
    else if provider == "groq" then groq
    else Err("Unsupported provider: " + provider)
  }

  /** Only the two known providers can succeed, and a known provider that succeeds answered
      with its own result. */
  lemma AttemptOk<T>(provider: string, openai: Result<T>, groq: Result<T>)
    ensures Attempt(provider, openai, groq).Ok? ==> provider == "openai" || provider == "groq"
    ensures Attempt(provider, openai, groq).Ok? ==>
              Attempt(provider, openai, groq) == (if provider == "openai" then openai else groq)
  {
  }

  /** How many providers the loop tries: up to and including the first success. */
  function Tried<T>(ps: seq<string>, openai: Result<T>, groq: Result<T>): (n: nat)
    ensures n <= |ps|
    ensures ps != [] ==> n >= 1
  {
    if ps == [] then 0
    else if Attempt(ps[0], openai, groq).Ok? then 1
    else 1 + Tried(ps[1..], openai, groq)
  }

  /** The outcome of the loop: the first successful attempt, or the failure of the last one. */
  function Fallback<T>(ps: seq<string>, openai: Result<T>, groq: Result<T>): Result<T>
    requires ps != []
  {
    var a := Attempt(ps[0], openai, groq);
    if a.Ok? || |ps| == 1 then a else Fallback(ps[1..], openai, groq)
  }

  /** The loop returns the first success and tries nothing after it; when every attempt fails
      it reports the last failure, having tried them all. */
  lemma {:induction false} FallbackSpec<T>(ps: seq<string>, openai: Result<T>, groq: Result<T>)
    requires ps != []
    ensures var n := Tried(ps, openai, groq);
      (forall k :: 0 <= k < n - 1 ==> Attempt(ps[k], openai, groq).Err?)
      && Fallback(ps, openai, groq) == Attempt(ps[n - 1], openai, groq)
      && (Fallback(ps, openai, groq).Err? ==> n == |ps|)
    decreases |ps|
  {
    if !Attempt(ps[0], openai, groq).Ok? && |ps| > 1 {
      FallbackSpec(ps[1..], openai, groq);
      var n := Tried(ps[1..], openai, groq);
      forall k | 0 <= k < n ensures Attempt(ps[k], openai, groq).Err? {
        if k > 0 {
          assert ps[k] == ps[1..][k - 1];
        }
      }
    } else if !Attempt(ps[0], openai, groq).Ok? {
      assert Tried(ps[1..], openai, groq) == 0;
    }
  }

  /** With an unknown configured provider the first attempt always fails, so the answer is
      OpenAI's: its result, or its failure. */
  lemma UnknownDefault<T>(default: string, openai: Result<T>, groq: Result<T>)
    requires default != "openai" && default != "groq"
    ensures Fallback(ProviderList(default), openai, groq) == openai
    ensures Tried(ProviderList(default), openai, groq) == 2
  {
    var ps := ProviderList(default);
    assert ps[1..] == ["openai"];
  }

  /** `if result.model_dump()["date"] == "Unknown": result.date = <now>`. */
  function FixDate(p: Purchase, now: string): (r: Purchase)
    ensures r.date == if p.date == "Unknown" then now else p.date
    ensures r == p.(date := r.date)
  {
    if p.date == "Unknown" then p.(date := now) else p
  }

  /** Only the exact placeholder `Unknown` is replaced: the schema default `Unknown Date`, or
      any other date, passes through. */
  lemma FixDateKeepsDefault(now: string)
    ensures FixDate(DefaultPurchase, now) == DefaultPurchase
  {
    assert DefaultPurchase.date != "Unknown";
  }

  /** After the fix the date is the placeholder only when `now` is; a real date is never
      touched, and fixing twice is fixing once. */
  lemma FixDateFills(p: Purchase, now: string)
    ensures now != "Unknown" ==> FixDate(p, now).date != "Unknown"
    ensures p.date != "Unknown" ==> FixDate(p, now) == p
    ensures FixDate(FixDate(p, now), now) == FixDate(p, now)
  {
  }

  /** `result.model_dump()` without `amount`. */
  function PurchaseJson(p: Purchase): Json {
    JDict([
      ("store_name", JStr(p.storeName)),
      ("currency", JStr(p.currency)),
      ("date", JStr(p.date)),
      ("payment_method", JStr(p.paymentMethod)),
      ("category", if p.category.Some? then JStr(p.category.value) else JNull)])
  }

  /** The `{"error": ..., "message": ...}` map returned when both providers fail. */
  function ErrorJson(error: string, message: string): Json {
    JDict([("error", JStr(error)), ("message", JStr(message))])
  }

  const TextFailure := "Failed to process text with both OpenAI and Groq"
  const AudioFailure := "Failed to transcribe audio with both OpenAI and Groq"

  /** What `get_text_info` returns for the given outcomes of the providers it may call. */
  function TextInfo(default: string, openai: Result<Purchase>, groq: Result<Purchase>, now: string): Json {
    match Fallback(ProviderList(default), openai, groq)
    case Ok(p) => PurchaseJson(FixDate(p, now))
    case Err(m) => ErrorJson(TextFailure, m)
  }

  /** What `get_text_from_audio` returns for the given outcomes of the providers it may call. */
  function Transcription(default: string, openai: Result<string>, groq: Result<string>): Json {
    match Fallback(ProviderList(default), openai, groq)
    case Ok(t) => JDict([("text", JStr(t))])
    case Err(m) => ErrorJson(AudioFailure, m)
  }

  /** A transcription answer has a `text` entry exactly when some provider succeeded, and then
      it holds that provider's transcript. */
  lemma TranscriptionText(default: string, openai: Result<string>, groq: Result<string>)
    ensures var r := Transcription(default, openai, groq);
      r.JDict? && (Get(r.fields, "text").Some? <==> Fallback(ProviderList(default), openai, groq).Ok?)
      && (Get(r.fields, "text").Some? ==>
            Get(r.fields, "text") == Some(JStr(Fallback(ProviderList(default), openai, groq).value)))
  {
    var r := Transcription(default, openai, groq);
    if Fallback(ProviderList(default), openai, groq).Err? {
      assert IndexOfKey(r.fields, "text") == 2 by {
        IndexOfKeyIs(r.fields, "text", 2);
      }
    }
  }

  class LLMTools {
    /** The configured provider, lower-cased. */
    var defaultProvider: string

    constructor(defaultProvider: string := "openai")
      ensures this.defaultProvider == LowerStr(defaultProvider)
    {
      this.defaultProvider := LowerStr(defaultProvider);
    }

    function Providers(): seq<string>
      reads this
    {
      ProviderList(defaultProvider)
    }

    /** `get_text_info`: tries the providers in order and returns the first parsed purchase,
        its date placeholder filled in; when both fail, the error map with the last failure.
        `attempted` lists the providers it called. */
    method GetTextInfo(openai: Result<Purchase>, groq: Result<Purchase>, now: string)
      returns (r: Json, attempted: seq<string>)
      ensures r == TextInfo(defaultProvider, openai, groq, now)
      ensures attempted == Providers()[..Tried(Providers(), openai, groq)]
    {
      var providers := Providers();
      FallbackSpec(providers, openai, groq);
      var lastError := "None";
      attempted := [];
      var i := 0;
      while i < |providers|
        invariant 0 <= i <= |providers|
        invariant attempted == providers[..i]
        invariant forall k :: 0 <= k < i ==> Attempt(providers[k], openai, groq).Err?
        invariant i > 0 ==> lastError == Attempt(providers[i - 1], openai, groq).error
      {
        attempted := attempted + [providers[i]];
        var outcome := Attempt(providers[i], openai, groq);
        if outcome.Ok? {
          var result := outcome.value;
          if result.date == "Unknown" {
            result := result.(date := now);
          }
          assert providers[..i + 1] == providers[..Tried(providers, openai, groq)] by {
            SuccessIndex(providers, openai, groq, i);
          }
          r := PurchaseJson(result);
          return;
        }
        lastError := outcome.error;
        i := i + 1;
      }
      AllFailed(providers, openai, groq);
      r := ErrorJson(TextFailure, lastError);
    }

    /** `get_text_from_audio`: the same loop over the providers, returning `{"text": ...}` from
        the first transcription that succeeds, or the error map with the last failure. */
    method GetTextFromAudio(openai: Result<string>, groq: Result<string>)
      returns (r: Json, attempted: seq<string>)
      ensures r == Transcription(defaultProvider, openai, groq)
      ensures attempted == Providers()[..Tried(Providers(), openai, groq)]
    {
      var providers := Providers();
      FallbackSpec(providers, openai, groq);
      var lastError := "None";
      attempted := [];
      var i := 0;
      while i < |providers|
        invariant 0 <= i <= |providers|
        invariant attempted == providers[..i]
        invariant forall k :: 0 <= k < i ==> Attempt(providers[k], openai, groq).Err?
        invariant i > 0 ==> lastError == Attempt(providers[i - 1], openai, groq).error
      {
        attempted := attempted + [providers[i]];
        if providers[i] == "openai" || providers[i] == "groq" {
          var outcome := if providers[i] == "openai" then openai else groq;
          if outcome.Ok? {
            assert providers[..i + 1] == providers[..Tried(providers, openai, groq)] by {
              SuccessIndex(providers, openai, groq, i);
            }
            r := JDict([("text", JStr(outcome.value))]);
            return;
          }
          lastError := outcome.error;
        } else {
          lastError := "Unsupported provider: " + providers[i];
        }
        i := i + 1;
      }
      AllFailed(providers, openai, groq);
      r := ErrorJson(AudioFailure, lastError);
    }
  }

  /** The first success at index `i` is the answer, after `i + 1` attempts. */
  lemma SuccessIndex<T>(ps: seq<string>, openai: Result<T>, groq: Result<T>, i: nat)
    requires i < |ps| && Attempt(ps[i], openai, groq).Ok?
    requires forall k :: 0 <= k < i ==> Attempt(ps[k], openai, groq).Err?
    ensures Tried(ps, openai, groq) == i + 1
    ensures Fallback(ps, openai, groq) == Attempt(ps[i], openai, groq)
  {
    FallbackSpec(ps, openai, groq);
  }

  /** When every attempt fails, the answer is the last failure, after all of them. */
  lemma AllFailed<T>(ps: seq<string>, openai: Result<T>, groq: Result<T>)
    requires ps != []
    requires forall k :: 0 <= k < |ps| ==> Attempt(ps[k], openai, groq).Err?
    ensures Tried(ps, openai, groq) == |ps|
    ensures Fallback(ps, openai, groq) == Attempt(ps[|ps| - 1], openai, groq)
  {
    FallbackSpec(ps, openai, groq);
  }
}
