/** The client of the embedding service: its configuration, and how it reads the service's answer. */
module Embedding {
  import opened Tables
  import opened Store

  const DefaultTimeoutMs := 8000
  const EmbedPath := "/embed"
  const UrlNotSet := "Embedding service URL is not set"
  const NoVectors := "Embedding service returned no vectors"
  const TimedOut := "Embedding service request timed out"
  const RequestFailed := "Embedding service request failed"

  /** An embedding; its numbers are carried, never computed with. */
  type Vector = seq<real>

  /** The JSON body of a successful response, as far as it decodes. */
  datatype Payload = Undecodable | Decoded(embeddings: Option<seq<Vector>>)

  /** How a request to the service ends. */
  datatype HttpOutcome =
    | Responded(status: int, body: string, payload: Payload)
    | Aborted  // the timeout fired before the exchange completed
    | Failed   // any other error on the way

  /** A POST of `{ texts }` to `url`, aborted after `timeoutMs` milliseconds. */
  datatype EmbedRequest = EmbedRequest(url: string, texts: seq<string>, timeoutMs: int)

  /** `rawUrl.replace(/\/+$/, '')`: the URL without its run of trailing slashes. */
  function StripTrailingSlashes(raw: string): (r: string)
    ensures r <= raw
    ensures r == [] || r[|r| - 1] != '/'
    ensures forall i :: |r| <= i < |raw| ==> raw[i] == '/'
  {
    if raw != [] && raw[|raw| - 1] == '/' then StripTrailingSlashes(raw[..|raw| - 1]) else raw
  }

  /** Stripping twice strips nothing more. */
  lemma StripIdempotent(raw: string)
    ensures StripTrailingSlashes(StripTrailingSlashes(raw)) == StripTrailingSlashes(raw)
  {
  }

  /** A URL made only of slashes strips to the empty base. */
  lemma {:induction false} OnlySlashesStripToEmpty(raw: string)
    requires forall i :: 0 <= i < |raw| ==> raw[i] == '/'
    ensures StripTrailingSlashes(raw) == ""
  {
    if raw != [] {
      OnlySlashesStripToEmpty(raw[..|raw| - 1]);
    }
  }

  /** `res.ok`: a status in the 2xx range. */
  predicate IsOk(status: int) {
    200 <= status <= 299
  }

  predicate IsDigit(c: char) {
    '0' <= c <= '9'
  }

  /** The decimal digits of `n`, most significant first. */
  function Decimal(n: nat): (s: string)
    ensures |s| > 0
    ensures forall i :: 0 <= i < |s| ==> IsDigit(s[i])
  {
    if n < 10 then ["0123456789"[n]] else Decimal(n / 10) + ["0123456789"[n % 10]]
  }

  /** The number a string of decimal digits denotes. */
  function DecimalValue(s: string): int {
    if s == [] then 0 else DecimalValue(s[..|s| - 1]) * 10 + (s[|s| - 1] as int - '0' as int)
  }

  /** The number a status text denotes: an optional '-' followed by decimal digits. */
  function SignedValue(s: string): int {
    if s != [] && s[0] == '-' then -DecimalValue(s[1..]) else DecimalValue(s)
  }

  /** Reading back the digits of `n` gives `n`. */
  lemma {:induction false} DecimalRoundTrip(n: nat)
    ensures DecimalValue(Decimal(n)) == n
  {
    if n >= 10 {
      DecimalRoundTrip(n / 10);
      var s := Decimal(n);
      assert s[..|s| - 1] == Decimal(n / 10);
    }
  }

  /** `${res.status}`: the status in decimal, with a '-' before a negative one. */
  function StatusText(status: int): (r: string)
    ensures |r| > 0 && (r[0] == '-' <==> status < 0)
    ensures forall i :: (if status < 0 then 1 else 0) <= i < |r| ==> IsDigit(r[i])
  {
    if status >= 0 then Decimal(status) else "-" + Decimal(-status)
  }

  /** The status text denotes the status. */
  lemma StatusTextRoundTrip(status: int)
    ensures SignedValue(StatusText(status)) == status
  {
    if status >= 0 {
      DecimalRoundTrip(status);
    } else {
      DecimalRoundTrip(-status);
      assert StatusText(status)[1..] == Decimal(-status);
    }
  }

  /** What `embedMany` makes of the outcome of its request. */
  function Classify(outcome: HttpOutcome): (r: Result<seq<Vector>>)
    ensures r.Err? ==> r.error.ServiceUnavailable?
    ensures r.Ok? <==> && outcome.Responded? && IsOk(outcome.status)
                       && outcome.payload.Decoded? && outcome.payload.embeddings.Some?
                       && |outcome.payload.embeddings.value| > 0
    ensures r.Ok? ==> r.value == outcome.payload.embeddings.value
    ensures outcome.Aborted? ==> r.error.message == TimedOut
    ensures outcome.Failed? ==> r.error.message == RequestFailed
    ensures outcome.Responded? && IsOk(outcome.status) && outcome.payload.Undecodable? ==>
              r.error.message == RequestFailed
    ensures outcome.Responded? && IsOk(outcome.status) && outcome.payload.Decoded? && r.Err? ==>
              r.error.message == NoVectors
    ensures outcome.Responded? && !IsOk(outcome.status) ==>
              r.error.message == "Embedding service error: " + StatusText(outcome.status) + " " + outcome.body
  {
    match outcome
    case Aborted => Err(ServiceUnavailable(TimedOut))
    case Failed => Err(ServiceUnavailable(RequestFailed))
    case Responded(status, body, payload) =>
      if !IsOk(status) then
        Err(ServiceUnavailable("Embedding service error: " + StatusText(status) + " " + body))
      else if payload.Undecodable? then
        Err(ServiceUnavailable(RequestFailed))
      else if payload.embeddings.None? || |payload.embeddings.value| == 0 then
        Err(ServiceUnavailable(NoVectors))
      else
        Ok(payload.embeddings.value)
  }

  class EmbeddingService {
    const baseUrl: string
    const timeoutMs: int
    /** The HTTP exchange, which is not part of this model. */
    const transport: EmbedRequest -> HttpOutcome

    /** Reads `EMBEDDING_SERVICE_URL` and `EMBEDDING_TIMEOUT_MS`. */
    constructor (urlSetting: Option<string>, timeoutSetting: Option<int>, transport: EmbedRequest -> HttpOutcome)
      ensures baseUrl == StripTrailingSlashes(if urlSetting.Some? then urlSetting.value else "")
      ensures timeoutSetting.None? ==> timeoutMs == DefaultTimeoutMs
      ensures timeoutSetting.Some? ==> timeoutMs == timeoutSetting.value
      ensures this.transport == transport
    {
      var rawUrl := if urlSetting.Some? then urlSetting.value else "";
      baseUrl := StripTrailingSlashes(rawUrl);
      timeoutMs := if timeoutSetting.Some? then timeoutSetting.value else DefaultTimeoutMs;
      this.transport := transport;
    }

    /** Embeds `texts`; every failure is ServiceUnavailable. `sent` lists the requests made. */
    method EmbedMany(texts: seq<string>) returns (r: Result<seq<Vector>>, ghost sent: seq<EmbedRequest>)
      ensures baseUrl == "" ==> r == Err(ServiceUnavailable(UrlNotSet)) && sent == []
      ensures baseUrl != "" ==>
                && sent == [EmbedRequest(baseUrl + EmbedPath, texts, timeoutMs)]
                && r == Classify(transport(sent[0]))
      ensures r.Err? ==> r.error.ServiceUnavailable?
      ensures r.Ok? ==> |r.value| > 0
    {
      if baseUrl == "" {
        return Err(ServiceUnavailable(UrlNotSet)), [];
      }
      var request := EmbedRequest(baseUrl + EmbedPath, texts, timeoutMs);
      var outcome := transport(request);
      return Classify(outcome), [request];
    }

    /** Embeds one text: the first vector of embedding `[text]`. */
    method EmbedOne(text: string) returns (r: Result<Vector>)
      ensures r.Err? ==> r.error.ServiceUnavailable?
      ensures r.Ok? <==> baseUrl != "" && Classify(transport(EmbedRequest(baseUrl + EmbedPath, [text], timeoutMs))).Ok?
      ensures r.Ok? ==> r.value == Classify(transport(EmbedRequest(baseUrl + EmbedPath, [text], timeoutMs))).value[0]
    {
      var embeddings, _ := EmbedMany([text]);
      if embeddings.Err? {
        return Err(embeddings.error);
      }
      return Ok(embeddings.value[0]);
    }
  }
}
