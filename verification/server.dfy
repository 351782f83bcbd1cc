/** The request handler of the whisper server: `/health` and the
    `/transcribe` decision flow (model check, payload choice, decoding,
    resampling to 16 kHz, transcription, response). The container parser
    and the speech model are parameters; the model lock is not modelled, so
    each transcription is one atomic step. */
module Server {
  import opened Wrappers
  import opened Pcm
  import Resample
  import Transcript

  /** The rate the speech model expects, in Hz. */
  const ModelRate: nat := 16000

  /** A JSON value in a response body. */
  datatype Json = JStr(s: string) | JNum(x: real)

  /** A response: a plain-text body, a JSON object, or the framework's
      generic 500 page after an exception the handler does not catch. */
  datatype Response =
    | Plain(status: int, text: string)
    | JsonObject(status: int, fields: map<string, Json>)
    | Unhandled(exception: string)
  {
    /** The HTTP status the client sees. */
    function Status(): int
    {
      match this
      case Plain(s, _) => s
      case JsonObject(s, _) => s
      case Unhandled(_) => 500
    }
  }

  /** What the handler reads from a request: the multipart `audio` file
      field if there is one, and the raw body as the framework returns it. */
  datatype Request = Request(audioField: Option<seq<byte>>, rawBody: seq<byte>)

  /** The fixed decoding parameters passed on every transcription. */
  datatype DecodeOptions = DecodeOptions(language: string, initialPrompt: string, vadFilter: bool,
                                         minSilenceDurationMs: nat, speechPadMs: nat)

  /** The domain vocabulary that primes recognition. */
  const InitialPrompt: string :=
    "commit, push, pull, git, merge, rebase, branch, repo, deploy, "
    + "API, endpoint, TypeScript, JavaScript, Python, npm, Docker, "
    + "Kubernetes, Claude, LLM"

  const FixedOptions: DecodeOptions := DecodeOptions("en", InitialPrompt, true, 200, 100)

  /** What the speech model reports: the text of every segment it found,
      the language it detected and the audio duration in seconds. */
  datatype EngineReport = EngineReport(segmentTexts: seq<string>, language: string, duration: real)

  /** The speech model as an opaque capability that may raise. */
  type Engine = (seq<real>, DecodeOptions) -> Result<EngineReport, string>

  /** The container parser as an opaque capability that may raise. */
  type Parser = seq<byte> -> Result<WavFrames, string>

  const ModelNotLoaded: string := "model not loaded"
  const NoAudioData: string := "no audio data"
  const ReadFailurePrefix: string := "failed to read audio: "
  /** The message of the exception `to_rate / from_rate` raises on a zero rate. */
  const DivisionByZero: string := "division by zero"

  /** A JSON error response. */
  function Error(status: int, message: string): (r: Response)
    ensures r.JsonObject? && r.Status() == status
    ensures r.fields.Keys == {"error"} && r.fields["error"] == JStr(message)
  {
    JsonObject(status, map["error" := JStr(message)])
  }

  /** `/health`: ready exactly when the model is loaded. */
  function Health(modelLoaded: bool): (r: Response)
    ensures r.Plain?
    ensures r.Status() == 200 <==> modelLoaded
    ensures r.Status() == 200 || r.Status() == 503
    ensures r.text == (if modelLoaded then "ok" else "not ready")
  {
    if modelLoaded then Plain(200, "ok") else Plain(503, "not ready")
  }

  /** The audio bytes a request carries: the `audio` file field whenever it
      is present, even if empty, and the raw body only otherwise. */
  function Payload(req: Request): (bytes: seq<byte>)
    ensures req.audioField.Some? ==> bytes == req.audioField.value
    ensures req.audioField.None? ==> bytes == req.rawBody
  {
    match req.audioField
    case Some(a) => a
    case None => req.rawBody
  }

  /** Bring a decoded buffer to the model's rate: untouched when already at
      16 kHz, resampled otherwise; a zero rate raises. */
  function ToModelRate(buf: AudioBuffer): (r: Result<AudioBuffer, string>)
    ensures r.Success? ==> r.value.rate == ModelRate
    ensures buf.rate == ModelRate ==> r == Success(buf)
    ensures r.Failure? <==> buf.rate == 0
    ensures r.Failure? ==> r.error == DivisionByZero
    ensures r.Success? && buf.rate != ModelRate ==>
              r.value.samples == Resample.Fallback(buf.samples, buf.rate, ModelRate)
  {
    if buf.rate == ModelRate then Success(buf)
    else
      match Resample.Resample(buf.samples, buf.rate, ModelRate)
      case None => Failure(DivisionByZero)
      case Some(out) => Success(AudioBuffer(out, ModelRate))
  }

  /** The success body: exactly `text`, `language` and `duration`. */
  function SuccessBody(report: EngineReport): (r: Response)
    ensures r.JsonObject? && r.Status() == 200
    ensures r.fields.Keys == {"text", "language", "duration"}
    ensures r.fields["text"] == JStr(Transcript.Transcript(report.segmentTexts))
    ensures r.fields["language"] == JStr(report.language)
    ensures r.fields["duration"] == JNum(report.duration)
  {
    JsonObject(200, map["text" := JStr(Transcript.Transcript(report.segmentTexts)),
                        "language" := JStr(report.language),
                        "duration" := JNum(report.duration)])
  }

  /** `/transcribe`: refuse when the model is absent, take the payload,
      refuse an empty one, decode it, bring it to 16 kHz and transcribe it
      with the fixed options. */
  function Transcribe(modelLoaded: bool, req: Request, parse: Parser, engine: Engine): (r: Response)
    ensures !modelLoaded ==> r == Error(503, ModelNotLoaded)
    ensures modelLoaded && Payload(req) == [] ==> r == Error(400, NoAudioData)
    ensures modelLoaded && Payload(req) != [] && ReadWavBytes(Payload(req), parse).Failure? ==>
              r == Error(400, ReadFailurePrefix + ReadWavBytes(Payload(req), parse).error)
    ensures modelLoaded && Payload(req) != [] && ReadWavBytes(Payload(req), parse).Success? &&
            ReadWavBytes(Payload(req), parse).value.rate == 0 ==>
              r == Unhandled(DivisionByZero) && r.Status() == 500
    ensures modelLoaded && Payload(req) != [] && ReadWavBytes(Payload(req), parse).Success? ==>
              var input := ToModelRate(ReadWavBytes(Payload(req), parse).value);
              input.Success? && engine(input.value.samples, FixedOptions).Failure? ==>
                r == Unhandled(engine(input.value.samples, FixedOptions).error) && r.Status() == 500
    ensures r.Status() == 200 <==>
              && modelLoaded && Payload(req) != []
              && ReadWavBytes(Payload(req), parse).Success?
              && ToModelRate(ReadWavBytes(Payload(req), parse).value).Success?
              && engine(ToModelRate(ReadWavBytes(Payload(req), parse).value).value.samples, FixedOptions).Success?
    ensures r.Status() == 200 ==> r.JsonObject? && r.fields.Keys == {"text", "language", "duration"}
    ensures r.JsonObject? && r.Status() != 200 ==> r.fields.Keys == {"error"}
  {
    if !modelLoaded then Error(503, ModelNotLoaded)
    else
      var audio := Payload(req);
      if audio == [] then Error(400, NoAudioData)
      else
        match ReadWavBytes(audio, parse)
        case Failure(e) => Error(400, ReadFailurePrefix + e)
        case Success(buf) =>
          match ToModelRate(buf)
          case Failure(e) => Unhandled(e)
          case Success(input) =>
            match engine(input.samples, FixedOptions)
            case Failure(e) => Unhandled(e)
            case Success(report) => SuccessBody(report)
  }

  /** Without a model the answer is fixed before the request is looked at:
      neither the payload, the parser nor the engine matters. */
  lemma NotLoadedIgnoresRequest(req1: Request, req2: Request, parse1: Parser, parse2: Parser,
                                engine1: Engine, engine2: Engine)
    ensures Transcribe(false, req1, parse1, engine1) == Transcribe(false, req2, parse2, engine2)
    ensures Transcribe(false, req1, parse1, engine1).Status() == 503
  {
  }

  /** An empty payload is refused before any decoding: the parser and the
      engine are never consulted. */
  lemma EmptyPayloadSkipsDecoding(req: Request, parse1: Parser, parse2: Parser, engine1: Engine, engine2: Engine)
    requires Payload(req) == []
    ensures Transcribe(true, req, parse1, engine1) == Transcribe(true, req, parse2, engine2)
    ensures Transcribe(true, req, parse1, engine1).Status() == 400
  {
  }

  /** When the `audio` field is present the raw body is never used, and a
      present but empty field is refused even if the raw body has data. */
  lemma AudioFieldTakesPrecedence(modelLoaded: bool, audio: seq<byte>, body1: seq<byte>, body2: seq<byte>,
                                  parse: Parser, engine: Engine)
    ensures Transcribe(modelLoaded, Request(Some(audio), body1), parse, engine)
            == Transcribe(modelLoaded, Request(Some(audio), body2), parse, engine)
    ensures modelLoaded && audio == [] ==>
              Transcribe(modelLoaded, Request(Some(audio), body1), parse, engine) == Error(400, NoAudioData)
  {
  }

  /** The samples handed to the model are at 16 kHz and stay in [-1, 1);
      they are the decoded samples themselves when the file already was at
      16 kHz, and a resampling of them to `floor(n * 16000 / rate)` samples
      otherwise. */
  lemma ModelInputNormalized(audio: seq<byte>, parse: Parser)
    requires ReadWavBytes(audio, parse).Success?
    requires ReadWavBytes(audio, parse).value.rate > 0
    ensures ToModelRate(ReadWavBytes(audio, parse).value).Success?
    ensures ToModelRate(ReadWavBytes(audio, parse).value).value.rate == ModelRate
    ensures Resample.InUnitRange(ToModelRate(ReadWavBytes(audio, parse).value).value.samples)
    ensures ReadWavBytes(audio, parse).value.rate == ModelRate ==>
              ToModelRate(ReadWavBytes(audio, parse).value).value.samples == ReadWavBytes(audio, parse).value.samples
    ensures ReadWavBytes(audio, parse).value.rate != ModelRate ==>
              |ToModelRate(ReadWavBytes(audio, parse).value).value.samples|
              == |ReadWavBytes(audio, parse).value.samples| * ModelRate / ReadWavBytes(audio, parse).value.rate
  {
    var buf := ReadWavBytes(audio, parse).value;
    assert Resample.InUnitRange(buf.samples);
    Resample.ResamplePreservesRange(buf.samples, buf.rate, ModelRate);
  }

  /** A successful response carries the joined, stripped segment texts the
      engine produced for the normalized samples under the fixed options,
      together with the language and duration it reported. */
  lemma TranscribeSuccess(req: Request, parse: Parser, engine: Engine)
    requires Transcribe(true, req, parse, engine).Status() == 200
    ensures var input := ToModelRate(ReadWavBytes(Payload(req), parse).value).value;
            var report := engine(input.samples, FixedOptions).value;
            && Transcribe(true, req, parse, engine) == SuccessBody(report)
            && Transcribe(true, req, parse, engine).fields["text"] == JStr(Transcript.Transcript(report.segmentTexts))
  {
  }

  /** A second of 8 kHz silence reaches the model as a second of 16 kHz
      silence: twice as many samples, every one of them zero. */
  lemma SilenceUpsampled(n: nat)
    ensures var out := ToModelRate(AudioBuffer(seq(n, i => 0.0), 8000));
            && out.Success? && out.value.rate == ModelRate
            && |out.value.samples| == 2 * n
            && forall i :: 0 <= i < 2 * n ==> out.value.samples[i] == 0.0
  {
    var silence := seq(n, i => 0.0);
    Resample.FallbackConstant(silence, 8000, ModelRate, 0.0);
    assert n * 16000 / 8000 == 2 * n;
  }
}
