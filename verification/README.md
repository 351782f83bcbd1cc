# whisper-server, modelled in Dafny

The telnyx-voice plugin runs a persistent speech-to-text daemon,
`whisper-server.py`. It keeps a faster-whisper model loaded and answers
HTTP requests on a Unix socket. This project models the daemon's pure logic
and proves properties of it:

- **Audio decoding** (`Pcm`, `read_wav_bytes`). An external WAV parser
  yields a header and raw frame bytes. The bytes are read as native-endian
  (little-endian) signed 16-bit words, and each word is divided by 32768.
- **Resampling** (`Resample`, `resample`). Equal rates return the input
  unchanged. Otherwise the linear-interpolation fallback runs. Samples are
  exact reals and source positions are exact rationals `i * from / to`.
- **Transcript assembly** (`Transcript`). Each segment text is stripped
  with Python's `str.strip()` whitespace set, and the results are joined
  with single spaces.
- **Request handling** (`Server`). `/health`, and the `/transcribe`
  decision flow: model check, payload choice, empty check, decoding,
  resampling to 16 kHz, transcription, response. The WAV parser and the
  speech model are function parameters. Each may fail.
- **Start-up defaults** (`Device`). The model name, the `auto` device
  probe and the default compute type. Accelerator availability is an
  input.

`Wrappers` holds the `Option`/`Result` datatypes the other modules share.

The model follows the code as written. The module docstring
(`whisper-server.py:11-12`) documents only an `audio` file field and a
`text` key. The code also accepts a raw body, and it returns `language` and
`duration` as well. Other behaviour of the code worth knowing:

- The resampled length is `int(len * to / from)`, which truncates. It is
  not rounded.
- The decoder does not check the channel count or sample width. A stereo
  or 8-bit file is reinterpreted as mono 16-bit words.
- A file with zero frames is not an error. It decodes to an empty buffer.
- A frame rate of 0 is not refused by the decoder. Resampling then divides
  by zero, outside the handler's `try`, so the framework answers with a
  generic 500.

## Model

| member | source | states |
|---|---|---|
| Pcm.WordOfBytes | plugins/telnyx-voice/whisper-server.py:55 | the int16 read from bytes lo, hi has the two's-complement bit pattern lo + 256*hi |
| Pcm.WordBytesRoundTrip | plugins/telnyx-voice/whisper-server.py:55 | splitting a word into its little-endian bytes and reading them back gives the same word |
| Pcm.BytesWordRoundTrip | plugins/telnyx-voice/whisper-server.py:55 | reading two bytes as a word and splitting it gives the same two bytes |
| Pcm.WordsOfBytes | plugins/telnyx-voice/whisper-server.py:55 | `np.frombuffer(raw, int16)` succeeds exactly when the byte count is even, and then yields one word per two bytes |
| Pcm.BytesOfWords | plugins/telnyx-voice/whisper-server.py:55 | the inverse layout takes two bytes per word |
| Pcm.WordsOfBytesAt | plugins/telnyx-voice/whisper-server.py:55 | word i of the decoded buffer is made from bytes 2i and 2i+1 |
| Pcm.WordsRoundTrip | plugins/telnyx-voice/whisper-server.py:55 | decoding the byte layout of any word sequence returns those words |
| Pcm.BytesRoundTrip | plugins/telnyx-voice/whisper-server.py:55 | every even-length byte buffer is exactly the layout of the words it decodes to |
| Pcm.SampleOfWord | plugins/telnyx-voice/whisper-server.py:55 | `w / 32768` lies in [-1, 1), and multiplying it by 32768 gives back w |
| Pcm.SamplesOfWords | plugins/telnyx-voice/whisper-server.py:55 | one sample per word; sample i times 32768 is word i, so it lies in [-1, 1) |
| Pcm.SamplesRoundTrip | plugins/telnyx-voice/whisper-server.py:55 | scaling loses nothing: the words are recovered exactly from the samples |
| Pcm.ReadWavBytes | plugins/telnyx-voice/whisper-server.py:48-56 | a parser failure is passed through; an odd frame-byte count fails with numpy's message; otherwise the buffer has the parsed rate, half as many samples as frame bytes, every sample in [-1, 1), and sample i times 32768 is the little-endian int16 of frame bytes 2i and 2i+1 |
| Pcm.DecodedFramesRoundTrip | plugins/telnyx-voice/whisper-server.py:48-56 | a decoded buffer re-encodes to exactly the frame bytes it was read from |
| Pcm.DecodeIgnoresLayout | plugins/telnyx-voice/whisper-server.py:50-55 | the result depends only on the frame bytes and the rate, not on the channel count or sample width |
| Resample.OutputLength | plugins/telnyx-voice/whisper-server.py:68-69 | the output length m is the truncation of n*to/from: m*from <= n*to < (m+1)*from |
| Resample.Position | plugins/telnyx-voice/whisper-server.py:70 | output index i sits at the non-negative position p with p*to == i*from |
| Resample.Left | plugins/telnyx-voice/whisper-server.py:71 | the left neighbour is the floor of the position: l <= p < l+1, and l >= 0 |
| Resample.Right | plugins/telnyx-voice/whisper-server.py:72 | the right neighbour is min(left+1, n-1): at most both, and equal to one of them |
| Resample.Frac | plugins/telnyx-voice/whisper-server.py:73 | the weight is the position's distance past its left neighbour, in [0, 1) |
| Resample.Blend | plugins/telnyx-voice/whisper-server.py:74 | `a*(1-f) + b*f` is a at f = 0, b at f = 1, and between a and b for f in [0, 1] |
| Resample.BlendLinear | plugins/telnyx-voice/whisper-server.py:74 | the blend is linear in its weight: it moves from a by the fraction f of the way to b |
| Resample.Interpolates | plugins/telnyx-voice/whisper-server.py:74 | the same interval bound, stated on the arithmetic expression itself |
| Resample.SampleAt | plugins/telnyx-voice/whisper-server.py:70-74 | output i reads in-bounds neighbours and lies between them |
| Resample.IndexSafety | plugins/telnyx-voice/whisper-server.py:70-73 | for positive rates and every output index, 0 <= left <= right <= n-1 and the blend weight lies in [0, 1) |
| Resample.IndexSafetyAll | plugins/telnyx-voice/whisper-server.py:70-73 | the same bounds for all output indices at once |
| Resample.Fallback | plugins/telnyx-voice/whisper-server.py:66-74 | the output has the truncated length, every read index is inside the input (including for empty input), and each output lies between its left and right input samples |
| Resample.FallbackAt | plugins/telnyx-voice/whisper-server.py:70-74 | output i of the fallback is the blend at position i |
| Resample.Resample | plugins/telnyx-voice/whisper-server.py:59-74 | equal rates return the input unchanged; a zero source rate with a different target raises; otherwise the output is the fallback's, with the truncated length |
| Resample.FallbackPreservesRange | plugins/telnyx-voice/whisper-server.py:73-74 | inputs in [-1, 1) give fallback outputs in [-1, 1) |
| Resample.ResamplePreservesRange | plugins/telnyx-voice/whisper-server.py:59-74 | inputs in [-1, 1) give outputs in [-1, 1) on either branch |
| Resample.FallbackRamp | plugins/telnyx-voice/whisper-server.py:67-74 | the fallback is linear interpolation: a linear ramp input is reproduced exactly at every output position that has two distinct neighbours |
| Resample.FallbackConstant | plugins/telnyx-voice/whisper-server.py:73-74 | a constant input resamples to the same constant |
| Resample.SampleAtGridPoint | plugins/telnyx-voice/whisper-server.py:70-74 | where the position is a whole index j, the output copies input sample j |
| Resample.FallbackAtEqualRates | plugins/telnyx-voice/whisper-server.py:61-74 | the identity short-circuit agrees with what the fallback would compute at equal rates |
| Resample.FallbackDecimates | plugins/telnyx-voice/whisper-server.py:68-74 | downsampling by a whole factor k yields n/k samples, each the input sample at i*k |
| Transcript.TrimStart | plugins/telnyx-voice/whisper-server.py:119 | removes exactly the leading whitespace, leaving a suffix that starts with non-space |
| Transcript.TrimEnd | plugins/telnyx-voice/whisper-server.py:119 | removes exactly the trailing whitespace, leaving a prefix that ends with non-space |
| Transcript.Strip | plugins/telnyx-voice/whisper-server.py:119 | `str.strip()` never lengthens the text and leaves no whitespace at either end |
| Transcript.StripSurrounded | plugins/telnyx-voice/whisper-server.py:119 | the stripped text is a contiguous slice with only whitespace around it, and is empty exactly when the text is all whitespace |
| Transcript.StripUnchanged | plugins/telnyx-voice/whisper-server.py:119 | a text with no whitespace at its ends is unchanged by stripping |
| Transcript.StripIdempotent | plugins/telnyx-voice/whisper-server.py:119 | stripping twice equals stripping once |
| Transcript.Join | plugins/telnyx-voice/whisper-server.py:119 | `" ".join`: no parts give "", otherwise the length is the parts' lengths plus one separator per gap |
| Transcript.JoinEnds | plugins/telnyx-voice/whisper-server.py:119 | a join starts with its first part and ends with its last |
| Transcript.JoinPartAt | plugins/telnyx-voice/whisper-server.py:119 | part i of a join appears unchanged at its offset: the lengths of the earlier parts plus one space each |
| Transcript.JoinSeparatorAt | plugins/telnyx-voice/whisper-server.py:119 | a single space follows every part but the last |
| Transcript.JoinLayout | plugins/telnyx-voice/whisper-server.py:119 | both facts for all parts at once; with the length they fix the joined string |
| Transcript.JoinAppend | plugins/telnyx-voice/whisper-server.py:119 | joining a + b is joining a, one space, and joining b |
| Transcript.JoinLastChar | plugins/telnyx-voice/whisper-server.py:119 | a join ends with the last character of its last part |
| Transcript.SplitJoin | plugins/telnyx-voice/whisper-server.py:119 | for parts without spaces, splitting the join on single spaces gives back the parts |
| Transcript.StrippedTexts | plugins/telnyx-voice/whisper-server.py:119 | one text per segment, and text i is `seg.text.strip()` of segment i |
| Transcript.StrippedTextsStripped | plugins/telnyx-voice/whisper-server.py:119 | every stripped text is already stripped |
| Transcript.Transcript | plugins/telnyx-voice/whisper-server.py:119 | an empty segment list gives "", and the length is the stripped lengths plus one space per gap |
| Transcript.TranscriptSingle | plugins/telnyx-voice/whisper-server.py:119 | one segment's transcript is its stripped text |
| Transcript.TranscriptAppend | plugins/telnyx-voice/whisper-server.py:119 | one more segment appends a single space and its stripped text; with `TranscriptSingle` this fixes every transcript |
| Transcript.JoinEdges | plugins/telnyx-voice/whisper-server.py:119 | the join starts with the first part's first character and ends with the last part's last character |
| Transcript.TranscriptStripped | plugins/telnyx-voice/whisper-server.py:119 | when every segment has non-space content, the transcript has no surrounding whitespace |
| Transcript.StrippedAt | plugins/telnyx-voice/whisper-server.py:119 | a stripped segment with content starts and ends with a non-space character |
| Transcript.JoinUnstripped | plugins/telnyx-voice/whisper-server.py:119 | a join whose first part starts and last part ends with non-space is its own strip |
| Transcript.TranscriptSplits | plugins/telnyx-voice/whisper-server.py:119 | when no stripped segment contains a space, splitting the transcript gives back the stripped segments |
| Server.Error | plugins/telnyx-voice/whisper-server.py:87 | an error response is JSON whose only key is `error` |
| Server.Health | plugins/telnyx-voice/whisper-server.py:77-81 | 200 "ok" exactly when the model is loaded, 503 "not ready" otherwise |
| Server.Payload | plugins/telnyx-voice/whisper-server.py:89-93 | the `audio` file field is used whenever present; the raw body is used only without it |
| Server.ToModelRate | plugins/telnyx-voice/whisper-server.py:103-105 | the result is at 16000 Hz; a 16 kHz buffer passes untouched; other rates are resampled; only a zero rate fails, with the division-by-zero message |
| Server.SuccessBody | plugins/telnyx-voice/whisper-server.py:119-121 | the success body has exactly the keys text, language and duration, with the joined transcript and the engine's language and duration |
| Server.Transcribe | plugins/telnyx-voice/whisper-server.py:84-121 | the checks run in order: 503 "model not loaded", then 400 "no audio data", then 400 "failed to read audio: " plus the detail; a zero decoded rate gives the division-by-zero 500, and an engine failure an unhandled 500 with its message; status 200 exactly when every step succeeds; JSON bodies carry exactly the success keys or only `error` |
| Server.NotLoadedIgnoresRequest | plugins/telnyx-voice/whisper-server.py:86-87 | without a model the response is 503 whatever the request, parser or engine |
| Server.EmptyPayloadSkipsDecoding | plugins/telnyx-voice/whisper-server.py:95-96 | an empty payload gets 400 whatever the parser or engine |
| Server.AudioFieldTakesPrecedence | plugins/telnyx-voice/whisper-server.py:90-96 | with an `audio` field the raw body never matters, and an empty field is refused even when the body has data |
| Server.ModelInputNormalized | plugins/telnyx-voice/whisper-server.py:99-105 | the model gets 16 kHz samples in [-1, 1): the decoded ones at 16 kHz, otherwise floor(n*16000/rate) resampled ones |
| Server.TranscribeSuccess | plugins/telnyx-voice/whisper-server.py:108-121 | a 200 response carries the transcript of what the engine returned for the normalized samples under the fixed options |
| Server.SilenceUpsampled | plugins/telnyx-voice/whisper-server.py:103-105 | n samples of 8 kHz silence reach the model as 2n zero samples at 16 kHz |
| Device.DefaultArguments | plugins/telnyx-voice/whisper-server.py:172-178 | without options the model is large-v3, the device is auto, and no compute type or pid file is set |
| Device.ResolveDevice | plugins/telnyx-voice/whisper-server.py:181-187 | an explicit device is kept; auto gives cuda exactly when the probe reports an accelerator, and cpu otherwise, including when the probe library is missing |
| Device.ResolveComputeType | plugins/telnyx-voice/whisper-server.py:189-191 | an explicit compute type is kept; the default is float16 exactly on cuda and int8 otherwise |
| Device.Resolve | plugins/telnyx-voice/whisper-server.py:181-193 | the settings passed to the loader combine the model name with the resolved device and compute type |
| Device.DefaultSettings | plugins/telnyx-voice/whisper-server.py:172-193 | with all defaults: large-v3/cuda/float16 with an accelerator, large-v3/cpu/int8 otherwise |
| Device.ExplicitDeviceIgnoresProbe | plugins/telnyx-voice/whisper-server.py:181-187 | naming a device makes the accelerator probe irrelevant |

## Left out

- The high-quality `soxr` resampling path is a foreign library. The model always uses the linear fallback, which is the only algorithm the code itself defines.
- WAV header parsing by the `wave` module is a library parser. It is the `Parser` parameter, and its failure text is passed through unchanged.
- The faster-whisper model and `load_model` are a foreign capability. The model is the `Engine` parameter. Its fixed arguments are recorded in `Server.FixedOptions`: language "en", the vocabulary prompt, VAD on, 200 ms minimum silence, 100 ms speech padding.
- `model_lock` and threading are left out. Each transcription is one atomic step.
- Flask routing, `request.files`, `get_data` and `jsonify` are left out. A request is reduced to its optional `audio` field and the raw body the framework returns. For form-encoded requests without an `audio` field, that body is empty once the form has been parsed. A response is a datatype.
- The Unix socket setup, `chmod`, `listen`, the pid file, the signal handlers, `sys.exit` and the server loop are OS plumbing.
- `argparse` is reduced to the parsed `Device.Arguments` record. The `torch` probe is an input: `None` when the library cannot be imported, otherwise whether CUDA is available.
- Transcript.Join: its own contract gives the empty case and the length only. The contents are stated by `JoinEnds`, `JoinLayout` and `JoinAppend`, because a content clause on the function makes every proof that mentions a join much more expensive.
- Transcript.Transcript: its own contract gives the empty case and the length only. The contents are stated by `TranscriptSingle` and `TranscriptAppend`, for the same reason.
- Resample.IndexSafety: holds for exact rational positions. float64 rounding of `to_rate / from_rate` and of `np.arange(n_out) / ratio`, and the float32 sample values, are not modelled.
- Resample.Blend: its own contract gives the end points and the interval bound only. Linearity in the weight is stated by `BlendLinear`, because a linear clause on the function makes the decimation proof run out of resources.
- Resample.Fallback: its own contract gives the length, in-bounds reads and the interval bound. That it interpolates linearly is stated by `FallbackAt` with `BlendLinear`, and shown on whole ramps by `FallbackRamp`.
- Resample.Fallback: uses exact rational arithmetic. Python may round the length `int(len * ratio)` differently where `len * to / from` is within float error of an integer.
- Pcm.WordsOfBytes: assumes a little-endian host, since `np.int16` uses native byte order.
- Server.Transcribe: an exception raised by the engine, or by a zero rate in resampling, is shown as one `Unhandled` 500 response. The framework's error page is not modelled.
