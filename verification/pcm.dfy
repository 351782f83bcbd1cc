/** The audio decoder of the whisper server (`read_wav_bytes`): a WAV
    container is opened by an external parser, its frame bytes are read as
    native-endian signed 16-bit words, and every word is scaled into
    [-1, 1) by dividing by 32768. */
module Pcm {
  import opened Wrappers

  type byte = b: int | 0 <= b < 256
  type int16 = w: int | -32768 <= w < 32768

  /** The scale factor that maps a 16-bit word into [-1, 1). */
  const Scale: real := 32768.0

  /** What the container parser hands back: the header fields and the raw
      frame bytes (`getnchannels`, `getsampwidth`, `getframerate`,
      `readframes(getnframes())`). */
  datatype WavFrames = WavFrames(channels: nat, sampleWidth: nat, rate: nat, frames: seq<byte>)

  /** A decoded buffer: normalized samples plus their sample rate in Hz. */
  datatype AudioBuffer = AudioBuffer(samples: seq<real>, rate: nat)

  /** The message numpy raises when a byte buffer does not split into
      whole 16-bit elements. */
  const OddLengthError: string := "buffer size must be a multiple of element size"

  /** The signed word stored little-endian in the bytes `lo`, `hi`: its
      two's-complement bit pattern is exactly `lo + 256 * hi`. */
  function WordOfBytes(lo: byte, hi: byte): (w: int16)
    ensures (w as int) % 65536 == lo + 256 * hi
  {
    var u := lo + 256 * hi;
    if u < 32768 then u else u - 65536
  }

  /** The low byte of a word's two's-complement pattern. */
  function LowByte(w: int16): byte
  {
    (w % 65536) % 256
  }

  /** The high byte of a word's two's-complement pattern. */
  function HighByte(w: int16): byte
  {
    (w % 65536) / 256
  }

  /** Splitting a word into bytes and reading it back gives the same word. */
  lemma WordBytesRoundTrip(w: int16)
    ensures WordOfBytes(LowByte(w), HighByte(w)) == w
  {
    var u := w % 65536;
    assert LowByte(w) + 256 * HighByte(w) == u;
    if w >= 0 {
      assert u == w;
    } else {
      assert u == w + 65536;
    }
  }

  /** Reading two bytes as a word and splitting it again gives the same bytes. */
  lemma BytesWordRoundTrip(lo: byte, hi: byte)
    ensures LowByte(WordOfBytes(lo, hi)) == lo
    ensures HighByte(WordOfBytes(lo, hi)) == hi
  {
    var w := WordOfBytes(lo, hi);
    assert (w as int) % 65536 == lo + 256 * hi;
  }

  /** `np.frombuffer(raw, dtype=np.int16)`: consecutive byte pairs become
      words, and a buffer with a dangling byte is refused. */
  function WordsOfBytes(bs: seq<byte>): (r: Option<seq<int16>>)
    ensures r.Some? <==> |bs| % 2 == 0
    ensures r.Some? ==> |r.value| * 2 == |bs|
    decreases |bs|
  {
    if |bs| == 0 then Some([])
    else if |bs| == 1 then None
    else
      match WordsOfBytes(bs[2..])
      case None => None
      case Some(rest) => Some([WordOfBytes(bs[0], bs[1])] + rest)
  }

  /** The inverse direction: every word laid out as its low then high byte. */
  function BytesOfWords(ws: seq<int16>): (bs: seq<byte>)
    ensures |bs| == 2 * |ws|
  {
    if |ws| == 0 then [] else [LowByte(ws[0]), HighByte(ws[0])] + BytesOfWords(ws[1..])
  }

  /** Word `i` of the decoded buffer is made from bytes `2i` and `2i+1`. */
  lemma {:induction false} WordsOfBytesAt(bs: seq<byte>, i: nat)
    requires |bs| % 2 == 0 && i < |bs| / 2
    ensures WordsOfBytes(bs).Some?
    ensures WordsOfBytes(bs).value[i] == WordOfBytes(bs[2 * i], bs[2 * i + 1])
    decreases |bs|
  {
    if i > 0 {
      WordsOfBytesAt(bs[2..], i - 1);
      assert bs[2..][2 * (i - 1)] == bs[2 * i];
      assert bs[2..][2 * (i - 1) + 1] == bs[2 * i + 1];
    }
  }

  /** Encoding words and decoding the bytes returns the same words. */
  lemma {:induction false} WordsRoundTrip(ws: seq<int16>)
    ensures WordsOfBytes(BytesOfWords(ws)) == Some(ws)
  {
    if |ws| > 0 {
      var bs := BytesOfWords(ws);
      assert bs[2..] == BytesOfWords(ws[1..]);
      WordsRoundTrip(ws[1..]);
      WordBytesRoundTrip(ws[0]);
      assert ws == [ws[0]] + ws[1..];
    }
  }

  /** Every even-length byte buffer is the encoding of the words it decodes to. */
  lemma {:induction false} BytesRoundTrip(bs: seq<byte>)
    requires |bs| % 2 == 0
    ensures WordsOfBytes(bs).Some?
    ensures BytesOfWords(WordsOfBytes(bs).value) == bs
    decreases |bs|
  {
    if |bs| > 0 {
      BytesRoundTrip(bs[2..]);
      BytesWordRoundTrip(bs[0], bs[1]);
      var ws := WordsOfBytes(bs).value;
      assert ws[1..] == WordsOfBytes(bs[2..]).value;
      assert bs == [bs[0], bs[1]] + bs[2..];
    }
  }

  /** One word scaled into [-1, 1); multiplying back by 32768 recovers it. */
  function SampleOfWord(w: int16): (x: real)
    ensures -1.0 <= x < 1.0
    ensures x * Scale == w as real
  {
    w as real / Scale
  }

  /** The `astype(np.float32) / 32768.0` step, one sample per word. */
  function SamplesOfWords(ws: seq<int16>): (xs: seq<real>)
    ensures |xs| == |ws|
    ensures forall i :: 0 <= i < |xs| ==> xs[i] * Scale == ws[i] as real
    ensures forall i :: 0 <= i < |xs| ==> -1.0 <= xs[i] < 1.0
  {
    seq(|ws|, i requires 0 <= i < |ws| => SampleOfWord(ws[i]))
  }

  /** The inverse scaling: a sample back to the word it came from. */
  function WordOfSample(x: real): int
  {
    (x * Scale).Floor
  }

  /** The inverse scaling applied to a whole buffer. */
  function WordsOfSamples(xs: seq<real>): seq<int>
  {
    seq(|xs|, i requires 0 <= i < |xs| => WordOfSample(xs[i]))
  }

  /** Scaling loses nothing: the words are recovered exactly. */
  lemma SamplesRoundTrip(ws: seq<int16>)
    ensures WordsOfSamples(SamplesOfWords(ws)) == ws
  {
    var xs := SamplesOfWords(ws);
    forall i | 0 <= i < |ws|
      ensures WordsOfSamples(xs)[i] == ws[i]
    {
      assert xs[i] * Scale == ws[i] as real;
    }
  }

  /** `read_wav_bytes`: run the container parser, reinterpret the frame
      bytes as 16-bit words and scale them. Any failure is reported with
      its description; the channel count and sample width the header gives
      are not consulted. */
  function ReadWavBytes(audio: seq<byte>, parse: seq<byte> -> Result<WavFrames, string>): (r: Result<AudioBuffer, string>)
    ensures parse(audio).Failure? ==> r == Failure(parse(audio).error)
    ensures parse(audio).Success? && |parse(audio).value.frames| % 2 == 1 ==> r == Failure(OddLengthError)
    ensures r.Success? <==> parse(audio).Success? && |parse(audio).value.frames| % 2 == 0
    ensures r.Success? ==> r.value.rate == parse(audio).value.rate
    ensures r.Success? ==> |r.value.samples| * 2 == |parse(audio).value.frames|
    ensures r.Success? ==> forall i :: 0 <= i < |r.value.samples| ==> -1.0 <= r.value.samples[i] < 1.0
    ensures r.Success? ==> forall i :: 0 <= i < |r.value.samples| ==>
              r.value.samples[i] * Scale
              == WordOfBytes(parse(audio).value.frames[2 * i], parse(audio).value.frames[2 * i + 1]) as real
  {
    match parse(audio)
    case Failure(e) => Failure(e)
    case Success(wav) =>
      match WordsOfBytes(wav.frames)
      case None => Failure(OddLengthError)
      case Some(ws) =>
        var xs := SamplesOfWords(ws);
        assert forall i :: 0 <= i < |xs| ==> xs[i] * Scale == WordOfBytes(wav.frames[2 * i], wav.frames[2 * i + 1]) as real by {
          forall i | 0 <= i < |xs|
            ensures xs[i] * Scale == WordOfBytes(wav.frames[2 * i], wav.frames[2 * i + 1]) as real
          {
            WordsOfBytesAt(wav.frames, i);
          }
        }
        Success(AudioBuffer(xs, wav.rate))
  }

  /** A decoded buffer re-encodes to exactly the frame bytes it came from:
      decoding neither drops, reorders nor alters a single byte. */
  lemma DecodedFramesRoundTrip(audio: seq<byte>, parse: seq<byte> -> Result<WavFrames, string>)
    requires ReadWavBytes(audio, parse).Success?
    ensures WordsOfSamples(ReadWavBytes(audio, parse).value.samples) == WordsOfBytes(parse(audio).value.frames).value
    ensures BytesOfWords(WordsOfBytes(parse(audio).value.frames).value) == parse(audio).value.frames
  {
    var frames := parse(audio).value.frames;
    SamplesRoundTrip(WordsOfBytes(frames).value);
    BytesRoundTrip(frames);
  }

  /** Decoding depends only on the frame bytes and the rate: two headers
      that differ in channel count or sample width decode alike. */
  lemma DecodeIgnoresLayout(audio: seq<byte>, parse1: seq<byte> -> Result<WavFrames, string>,
                            parse2: seq<byte> -> Result<WavFrames, string>)
    requires parse1(audio).Success? && parse2(audio).Success?
    requires parse1(audio).value.frames == parse2(audio).value.frames
    requires parse1(audio).value.rate == parse2(audio).value.rate
    ensures ReadWavBytes(audio, parse1) == ReadWavBytes(audio, parse2)
  {
  }
}
