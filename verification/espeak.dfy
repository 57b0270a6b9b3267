/**
 * What both phonemizers share about the eSpeak-ng engine: its status and
 * flag constants, the packing of the phoneme separator into the phoneme-mode
 * flag, the synthesis flags, and the two ways a voice is selected.
 */
module Espeak {
  import opened Wrappers

  /** `EE_OK`: the status the engine returns on success. */
  const EE_OK: int := 0

  const AudioOutputSynchronous: nat := 0x02
  const PhonemesIpa: nat := 0x02
  const CharsAuto: nat := 0
  const Ssml: nat := 0x10
  const Phonemes: nat := 0x100

  // ---------------------------------------------------------------------------
  // Python's `|` and `<<` on non-negative integers

  function Pow2(n: nat): (r: nat)
    ensures r >= 1
  {
    if n == 0 then 1 else 2 * Pow2(n - 1)
  }

  /** Shifting by `a + b` is shifting by `a`, then by `b`. */
  lemma {:induction false} Pow2Add(a: nat, b: nat)
    ensures Pow2(a + b) == Pow2(a) * Pow2(b)
    decreases a
  {
    if a > 0 {
      Pow2Add(a - 1, b);
      assert Pow2(a + b) == 2 * Pow2(a - 1 + b);
    }
  }

  /** `a << n` */
  function ShiftLeft(a: nat, n: nat): nat
  {
    a * Pow2(n)
  }

  /** `a | b`, bit by bit from the lowest. */
  function BitOr(a: nat, b: nat): nat
    decreases a + b
  {
    if a == 0 then b
    else if b == 0 then a
    else 2 * BitOr(a / 2, b / 2) + (if a % 2 == 1 || b % 2 == 1 then 1 else 0)
  }

  /** Bit `n` of `x` is set: `x & (1 << n) != 0`. */
  predicate BitSet(x: nat, n: nat) {
    (x / Pow2(n)) % 2 == 1
  }

  /** When `a` fits below bit `n`, `a | (b << n)` is the sum `a + (b << n)`. */
  lemma {:induction false} OrDisjoint(a: nat, b: nat, n: nat)
    requires a < Pow2(n)
    ensures BitOr(a, ShiftLeft(b, n)) == a + ShiftLeft(b, n)
  {
    var B := ShiftLeft(b, n);
    if n > 0 && a != 0 && B != 0 {
      assert B == 2 * (b * Pow2(n - 1)) by {
        assert Pow2(n) == 2 * Pow2(n - 1);
      }
      assert B / 2 == ShiftLeft(b, n - 1) && B % 2 == 0;
      OrDisjoint(a / 2, b, n - 1);
    }
  }

  // ---------------------------------------------------------------------------
  // flags

  /**
   * The phoneme-mode flag both strategies hand the engine: `espeakPHONEMES_IPA`
   * alone, or `espeakPHONEMES_IPA | (ord(sep) << 8)` for a separator `sep`.
   * The low byte always says "IPA" and the bits above it carry the
   * separator's code point (zero for none).
   */
  function PhonemeFlags(separator: Option<char>): (flags: nat)
    ensures flags % 256 == PhonemesIpa
    ensures flags / 256 == if separator.Some? then separator.value as int else 0
  {
    match separator
    case None => PhonemesIpa
    case Some(c) =>
      assert Pow2(8) == 256 by {
        Pow2Eight();
      }
      OrDisjoint(PhonemesIpa, c as nat, 8);
      LowByte(PhonemesIpa, c as nat);
      BitOr(PhonemesIpa, ShiftLeft(c as nat, 8))
  }

  lemma Pow2Eight()
    ensures Pow2(8) == 256
  {
    assert Pow2(4) == 16;
  }

  /** The byte below bit 8 and the number above it stay apart. */
  lemma LowByte(low: nat, high: nat)
    requires low < 256
    ensures (low + high * 256) % 256 == low && (low + high * 256) / 256 == high
  {
  }

  /** How the engine reads a phoneme-mode flag back: code point 0 means no separator. */
  function SeparatorOf(flags: nat): Option<char>
  {
    var code := flags / 256;
    if code == 0 || 0xD800 <= code < 0xE000 || code >= 0x11_0000 then None
    else Some(code as char)
  }

  /** The packing loses nothing, except that a NUL separator reads as no separator. */
  lemma SeparatorRoundTrip(separator: Option<char>)
    ensures separator != Some('\0') ==> SeparatorOf(PhonemeFlags(separator)) == separator
    ensures PhonemeFlags(Some('\0')) == PhonemeFlags(None)
  {
  }

  /** The SSML bit and the phoneme bit are disjoint, so their `|` is their sum. */
  lemma PhonemesOrSsml()
    ensures BitOr(Phonemes, Ssml) == Phonemes + Ssml
  {
    assert BitOr(16, 1) == 17 by {
      assert BitOr(8, 0) == 8;
    }
    assert BitOr(32, 2) == 2 * BitOr(16, 1);
    assert BitOr(64, 4) == 2 * BitOr(32, 2);
    assert BitOr(128, 8) == 2 * BitOr(64, 4);
  }

  lemma BitsOfSynthFlags()
    ensures BitSet(Phonemes, 8) && !BitSet(Phonemes, 4)
    ensures BitSet(Phonemes + Ssml, 8) && BitSet(Phonemes + Ssml, 4)
  {
    assert Pow2(4) == 16;
    assert Pow2(8) == 256 by {
      assert Pow2(8) == 16 * Pow2(4);
    }
  }

  /**
   * The synthesis flags of the captured-stream strategy:
   * `espeakCHARS_AUTO | espeakPHONEMES`, with `espeakSSML` or-ed in for SSML
   * input. The phoneme bit is always set, the SSML bit exactly when asked
   * for, and no other bit ever is.
   */
  function SynthFlags(ssml: bool): (flags: nat)
    ensures BitSet(flags, 8)
    ensures BitSet(flags, 4) <==> ssml
    ensures flags == Phonemes || flags == Phonemes + Ssml
  {
    var base := BitOr(CharsAuto, Phonemes);
    BitsOfSynthFlags();
    if ssml then
      PhonemesOrSsml();
      BitOr(base, Ssml)
    else base
  }

  // ---------------------------------------------------------------------------
  // voices

  /** `voice or default_voice`: an absent or empty voice falls back to the default. */
  function EffectiveVoice(voice: Option<string>, defaultVoice: Option<string>): (v: Option<string>)
    ensures voice.Some? && voice.value != "" ==> v == voice
    ensures voice.None? || voice.value == "" ==> v == defaultVoice
  {
    if voice.Some? && voice.value != "" then voice else defaultVoice
  }

  /** The engine call that selects a voice: `espeak_SetVoiceByName` or `espeak_SetVoiceByFile`. */
  datatype VoiceCall = ByName(name: string) | ByFile(path: string)

  /**
   * The voice call for `voice`: by file when its user-expanded path is
   * absolute (`absolutePath` is then the resolved path), by name otherwise.
   */
  function VoiceCallFor(voice: string, absolutePath: Option<string>): (call: VoiceCall)
    ensures call.ByFile? <==> absolutePath.Some?
    ensures call.ByName? ==> call.name == voice
    ensures call.ByFile? ==> call.path == absolutePath.value
  {
    if absolutePath.Some? then ByFile(absolutePath.value) else ByName(voice)
  }

  /** A call into the engine, with the arguments the phonemizers pass. */
  datatype EngineCall =
    | Initialize(output: nat)                                        // espeak_Initialize
    | SetVoice(voice: VoiceCall)                                     // espeak_SetVoiceByName / ByFile
    | SetPhonemeTrace(phonemeFlags: nat)                             // espeak_SetPhonemeTrace
    | Synth(text: string, synthFlags: nat)                           // espeak_Synth
    | TextToPhonemes(textFlags: nat, phonemeFlags: nat)              // espeak_TextToPhonemes
    | TextToPhonemesWithTerminator(textFlags: nat, phonemeFlags: nat) // espeak_TextToPhonemesWithTerminator

  /** `n` copies of `x`: the calls a loop of `n` identical engine calls leaves in the log. */
  function Repeat<T>(x: T, n: nat): (r: seq<T>)
    ensures |r| == n && forall i :: 0 <= i < n ==> r[i] == x
  {
    if n == 0 then [] else Repeat(x, n - 1) + [x]
  }

  /** One more call logged after `prefix`. */
  lemma RepeatStep<T>(prefix: seq<T>, x: T, n: nat)
    ensures prefix + Repeat(x, n + 1) == prefix + Repeat(x, n) + [x]
  {
    assert Repeat(x, n + 1) == Repeat(x, n) + [x];
  }
}
