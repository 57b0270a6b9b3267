/**
 * The stream-based phonemizer (`util_espeak_ng_phonemizer.Phonemizer` and its
 * two strategies). The engine is replaced by the answers it gives
 * (`EngineReplies`), and every call made into it is appended to the
 * phonemizer's `calls` log, so the order and arguments of the calls are part
 * of what the methods promise.
 */
module StreamPhonemizer {
  import opened Wrappers
  import opened PyStrings
  import opened PhonemeText
  import opened Espeak

  /** `StreamType`: how the engine's phonemes are read back. */
  datatype StreamType =
    | Memory    // PhonemizerMemoryStream: a phoneme trace written to an in-memory file
    | NoStream  // PhonemizerNoStream: espeak_TextToPhonemes, clause by clause

  datatype Error =
    | SsmlWithoutStream  // ValueError: SSML needs the memory stream
    | InitFailed         // RuntimeError: espeak_Initialize returned a sample rate <= 0
    | BadEscape          // re.error: a lone `\` as the replacement in the separator clean-up

  const DefaultClauseBreakers: set<char> := {',', ';', ':', '.', '!', '?'}

  /** The keyword arguments of `phonemize`. */
  datatype Options = Options(
    voice: Option<string>,
    keepClauseBreakers: bool,
    phonemeSeparator: Option<char>,
    wordSeparator: string,
    punctuationSeparator: string,
    keepLanguageFlags: bool,
    noStress: bool,
    ssml: bool)

  /** What the engine answers during one `phonemize` call. */
  datatype EngineReplies = EngineReplies(
    sampleRate: int,                   // espeak_Initialize
    clauseReplies: seq<Option<string>>,  // successive espeak_TextToPhonemes results, until the text pointer is NULL
    traceLines: seq<string>)           // the decoded lines of the memory-stream phoneme trace

  // ---------------------------------------------------------------------------
  // pure stages

  /**
   * `[c for c in text if c in breakers]`: only breakers, and each breaker as
   * often as it occurs in `text`.
   */
  function CollectBreakers(text: string, breakers: set<char>): (r: seq<char>)
    ensures forall i :: 0 <= i < |r| ==> r[i] in breakers
    ensures forall c :: c in breakers ==> multiset(r)[c] == multiset(text)[c]
  {
    if text == [] then []
    else
      assert text == [text[0]] + text[1..];
      (if text[0] in breakers then [text[0]] else []) + CollectBreakers(text[1..], breakers)
  }

  /** Collecting keeps the text's order: it distributes over concatenation. */
  lemma {:induction false} CollectBreakersAppend(a: string, b: string, breakers: set<char>)
    ensures CollectBreakers(a + b, breakers) == CollectBreakers(a, breakers) + CollectBreakers(b, breakers)
  {
    if a == [] {
      assert a + b == b;
    } else {
      assert (a + b)[0] == a[0] && (a + b)[1..] == a[1..] + b;
      CollectBreakersAppend(a[1..], b, breakers);
    }
  }

  /** `missing_breakers`: collected only when asked for and there are breakers. */
  function MissingBreakers(text: string, keepClauseBreakers: bool, breakers: set<char>): seq<char>
  {
    if keepClauseBreakers && breakers != {} then CollectBreakers(text, breakers) else []
  }

  /**
   * The lines `PhonemizerNoStream` keeps: the engine's non-NULL answers, in
   * order (`PresentAppend` with `PresentOne`), and exactly those.
   */
  function Present(replies: seq<Option<string>>): (lines: seq<string>)
    ensures |lines| <= |replies|
    ensures forall l :: l in lines <==> Some(l) in replies
  {
    if replies == [] then []
    else
      var rest := Present(replies[1..]);
      assert forall l :: Some(l) in replies <==> replies[0] == Some(l) || Some(l) in replies[1..] by {
        assert replies == [replies[0]] + replies[1..];
      }
      (if replies[0].Some? then [replies[0].value] else []) + rest
  }

  /** A NULL answer is dropped and any other answer kept. */
  lemma PresentOne(reply: Option<string>)
    ensures Present([reply]) == if reply.Some? then [reply.value] else []
  {
    assert [reply][1..] == [];
  }

  lemma {:induction false} PresentAppend(a: seq<Option<string>>, b: seq<Option<string>>)
    ensures Present(a + b) == Present(a) + Present(b)
  {
    if a == [] {
      assert a + b == b;
    } else {
      assert (a + b)[0] == a[0] && (a + b)[1..] == a[1..] + b;
      PresentAppend(a[1..], b);
    }
  }

  /** The language-flag rewrite of every line: as many lines, none with a flag left. */
  function StripLangFlags(lines: seq<string>): (r: seq<string>)
    ensures |r| == |lines|
    ensures forall i :: 0 <= i < |r| ==> NoLangFlag(r[i]) && |r[i]| <= |lines[i]|
  {
    seq(|lines|, i requires 0 <= i < |lines| => RemoveLangFlags(lines[i]))
  }

  /** The lines' whitespace split, re-joined with `wordSeparator`. */
  function Rejoin(line: string, wordSeparator: string): string
  {
    Join(wordSeparator, Words(line))
  }

  /** Every line re-joined in place of the old one; `RejoinSplitsBack` says what a re-joined line holds. */
  function RejoinAll(lines: seq<string>, wordSeparator: string): (r: seq<string>)
    ensures |r| == |lines|
    ensures forall i :: 0 <= i < |r| ==> r[i] == Rejoin(lines[i], wordSeparator)
  {
    seq(|lines|, i requires 0 <= i < |lines| => Rejoin(lines[i], wordSeparator))
  }

  /** Re-joining with a single space keeps the words of a line exactly. */
  lemma RejoinKeepsWords(line: string)
    ensures Words(Rejoin(line, " ")) == Words(line)
  {
    WordsOfJoin(Words(line));
  }

  /**
   * Re-joining with any separator that cannot start inside a word (it starts
   * with whitespace, or with a character the line lacks) is undone by
   * splitting at that separator: the words come back, in order, and a line
   * without words comes back as one empty piece.
   */
  lemma RejoinSplitsBack(line: string, wordSeparator: string)
    requires wordSeparator != []
    requires IsSpace(wordSeparator[0]) || wordSeparator[0] !in line
    ensures Split(Rejoin(line, wordSeparator), wordSeparator) == if Words(line) == [] then [""] else Words(line)
  {
    var ws := Words(line);
    if ws != [] {
      WordsChars(line);
      forall k | 0 <= k < |ws|
        ensures (forall j :: !OccursAt(ws[k], wordSeparator, j))
        ensures k < |ws| - 1 ==> Find(ws[k] + wordSeparator, wordSeparator) == Some(|ws[k]|)
      {
        assert wordSeparator[0] !in ws[k] by {
          if !IsSpace(wordSeparator[0]) {
            forall j | 0 <= j < |ws[k]| ensures ws[k][j] != wordSeparator[0] {
              assert ws[k][j] in line;
            }
          }
        }
        SeparatorAfter(ws[k], wordSeparator);
      }
      SplitUnique(Join(wordSeparator, ws), wordSeparator, ws);
    }
  }

  /** Line `i` with breaker `i` appended, for the lines that have a breaker. */
  function Reinserted(lines: seq<string>, breakers: seq<char>, punctuationSeparator: string): (r: seq<string>)
    ensures |r| == |lines|
    ensures forall i :: 0 <= i < |r| ==> |lines[i]| <= |r[i]| && r[i][..|lines[i]|] == lines[i]
    ensures forall i :: 0 <= i < |r| && i < |breakers| ==> r[i][|lines[i]|..] == punctuationSeparator + [breakers[i]]
    ensures forall i :: |breakers| <= i < |r| ==> r[i] == lines[i]
  {
    seq(|lines|, i requires 0 <= i < |lines| =>
      if i < |breakers| then lines[i] + punctuationSeparator + [breakers[i]] else lines[i])
  }

  function StripAll(lines: seq<string>): (r: seq<string>)
    ensures |r| == |lines|
    ensures forall i :: 0 <= i < |r| ==> r[i] == [] || (!IsSpace(r[i][0]) && !IsSpace(r[i][|r[i]| - 1]))
  {
    seq(|lines|, i requires 0 <= i < |lines| => Strip(lines[i]))
  }

  /**
   * The text stages of `phonemize` after the engine: language flags, word
   * re-join, breaker re-insertion, strip-and-join, stress, separator runs.
   * The result is stress-free when `noStress` is set and never has the
   * phoneme separator twice in a row.
   */
  function Format(raw: seq<string>, missing: seq<char>, opts: Options): (r: string)
    ensures opts.noStress ==> NoStress(r)
    ensures opts.phonemeSeparator.Some? ==> NoDoubled(r, opts.phonemeSeparator.value)
  {
    var flagged := if opts.keepLanguageFlags then raw else StripLangFlags(raw);
    var joined := if opts.wordSeparator != " " then RejoinAll(flagged, opts.wordSeparator) else flagged;
    var marked := if missing != [] then Reinserted(joined, missing, opts.punctuationSeparator) else joined;
    Tidy(Join(opts.wordSeparator, StripAll(marked)), opts.noStress, opts.phonemeSeparator)
  }

  /** `keep_clause_breakers` changes nothing for a text without breakers. */
  lemma FormatIgnoresAbsentBreakers(raw: seq<string>, text: string, breakers: set<char>, opts: Options)
    requires forall i :: 0 <= i < |text| ==> text[i] !in breakers
    ensures Format(raw, MissingBreakers(text, true, breakers), opts)
         == Format(raw, MissingBreakers(text, false, breakers), opts)
  {
  }

  /** The lines `_phonemize` returns, by strategy and by what is loaded. */
  function RawLines(streamType: StreamType, libEspeak: bool, libc: bool, replies: EngineReplies): seq<string>
  {
    match streamType
    case Memory => if libc && libEspeak then replies.traceLines else []
    case NoStream => if libEspeak then Present(replies.clauseReplies) else []
  }

  /** The engine calls `_phonemize` issues. */
  function ReadCalls(streamType: StreamType, libEspeak: bool, libc: bool, text: string,
                     separator: Option<char>, ssml: bool, clauses: nat): seq<EngineCall>
  {
    match streamType
    case Memory =>
      if libc && libEspeak then [SetPhonemeTrace(PhonemeFlags(separator)), Synth(text, SynthFlags(ssml))] else []
    case NoStream =>
      if libEspeak then Repeat(TextToPhonemes(CharsAuto, PhonemeFlags(separator)), clauses) else []
  }

  // ---------------------------------------------------------------------------
  // in-place line rewrites

  /** The word re-join loop: every line becomes its words joined by `wordSeparator`. */
  method RejoinWords(lines: array<string>, wordSeparator: string)
    modifies lines
    ensures forall i :: 0 <= i < lines.Length ==> lines[i] == Rejoin(old(lines[i]), wordSeparator)
  {
    for i := 0 to lines.Length
      invariant forall j :: 0 <= j < i ==> lines[j] == Rejoin(old(lines[j]), wordSeparator)
      invariant forall j :: i <= j < lines.Length ==> lines[j] == old(lines[j])
    {
      lines[i] := Join(wordSeparator, Words(lines[i]));
    }
  }

  /**
   * The re-insertion loop: line `i` gains `punctuationSeparator` and breaker
   * `i` when there is such a breaker; the other lines are unchanged, and
   * breakers beyond the last line are dropped.
   */
  method ReinsertBreakers(lines: array<string>, breakers: seq<char>, punctuationSeparator: string)
    modifies lines
    ensures forall i :: 0 <= i < lines.Length && i < |breakers| ==>
      lines[i] == old(lines[i]) + punctuationSeparator + [breakers[i]]
    ensures forall i :: |breakers| <= i < lines.Length ==> lines[i] == old(lines[i])
  {
    for i := 0 to lines.Length
      invariant forall j :: 0 <= j < i && j < |breakers| ==>
        lines[j] == old(lines[j]) + punctuationSeparator + [breakers[j]]
      invariant forall j :: 0 <= j < i && |breakers| <= j ==> lines[j] == old(lines[j])
      invariant forall j :: i <= j < lines.Length ==> lines[j] == old(lines[j])
    {
      if i < |breakers| {
        lines[i] := lines[i] + punctuationSeparator + [breakers[i]];
      }
    }
  }

  /** The text stages of `phonemize`, in place on a list of lines as the source does them. */
  method FormatLines(raw: seq<string>, missing: seq<char>, opts: Options) returns (phonemes: string)
    ensures phonemes == Format(raw, missing, opts)
  {
    var flagged := if opts.keepLanguageFlags then raw else StripLangFlags(raw);
    var lines := new string[|flagged|](i requires 0 <= i < |flagged| => flagged[i]);
    assert lines[..] == flagged;
    if opts.wordSeparator != " " {
      RejoinWords(lines, opts.wordSeparator);
      assert lines[..] == RejoinAll(flagged, opts.wordSeparator);
    }
    ghost var joined := lines[..];
    if missing != [] {
      ReinsertBreakers(lines, missing, opts.punctuationSeparator);
      assert lines[..] == Reinserted(joined, missing, opts.punctuationSeparator);
    }
    phonemes := Join(opts.wordSeparator, StripAll(lines[..]));
    if opts.noStress {
      phonemes := RemoveStress(phonemes);
    }
    if opts.phonemeSeparator.Some? {
      phonemes := CollapseRuns(phonemes, opts.phonemeSeparator.value);
    }
  }

  // ---------------------------------------------------------------------------
  // the phonemizer object

  class Phonemizer {
    const streamType: StreamType
    const defaultVoice: Option<string>
    const clauseBreakers: set<char>
    var currentVoice: Option<string>
    /** `lib_espeak is not None` */
    var libEspeak: bool
    /** `libc is not None` */
    var libc: bool
    /** Every engine call issued so far, oldest first. */
    var calls: seq<EngineCall>

    /** An empty or absent breaker collection falls back to the default breakers. */
    constructor (streamType: StreamType, defaultVoice: Option<string>, clauseBreakers: Option<set<char>>)
      ensures this.streamType == streamType && this.defaultVoice == defaultVoice
      ensures this.clauseBreakers ==
        if clauseBreakers.Some? && clauseBreakers.value != {} then clauseBreakers.value else DefaultClauseBreakers
      ensures currentVoice.None? && !libEspeak && !libc && calls == []
    {
      this.streamType := streamType;
      this.defaultVoice := defaultVoice;
      this.clauseBreakers :=
        if clauseBreakers.Some? && clauseBreakers.value != {} then clauseBreakers.value else DefaultClauseBreakers;
      currentVoice := None;
      libEspeak := false;
      libc := false;
      calls := [];
    }

    /**
     * `_maybe_init`: nothing at all once the library is loaded. Otherwise the
     * library is marked loaded and initialized, which fails exactly when the
     * sample rate is not positive; the memory strategy then also loads libc,
     * but only after a successful initialization.
     */
    method MaybeInit(sampleRate: int) returns (err: Option<Error>)
      modifies this
      ensures old(libEspeak) ==> err.None? && unchanged(this)
      ensures !old(libEspeak) ==> libEspeak && calls == old(calls) + [Initialize(AudioOutputSynchronous)]
      ensures !old(libEspeak) ==> (err.None? <==> sampleRate > 0) && (err.Some? ==> err.value == InitFailed)
      ensures !old(libEspeak) ==> libc == (old(libc) || (sampleRate > 0 && streamType == Memory))
      ensures currentVoice == old(currentVoice)
    {
      if libEspeak {
        return None;
      }
      libEspeak := true;
      calls := calls + [Initialize(AudioOutputSynchronous)];
      if sampleRate <= 0 {
        return Some(InitFailed);
      }
      if streamType == Memory {
        libc := true;
      }
      return None;
    }

    /**
     * `PhonemizerNoStream._phonemize`'s loop: one engine call per clause, each
     * with the same flags, keeping the answers that are not NULL in order.
     */
    method NoStreamLines(replies: seq<Option<string>>, separator: Option<char>) returns (lines: seq<string>)
      modifies this`calls
      ensures lines == Present(replies)
      ensures calls == old(calls) + Repeat(TextToPhonemes(CharsAuto, PhonemeFlags(separator)), |replies|)
    {
      var phonemeFlags := PhonemeFlags(separator);
      var textFlags := CharsAuto;
      lines := [];
      var i := 0;
      while i < |replies|
        invariant 0 <= i <= |replies|
        invariant lines == Present(replies[..i])
        invariant calls == old(calls) + Repeat(TextToPhonemes(textFlags, phonemeFlags), i)
      {
        RepeatStep(old(calls), TextToPhonemes(textFlags, phonemeFlags), i);
        calls := calls + [TextToPhonemes(textFlags, phonemeFlags)];
        assert replies[..i + 1] == replies[..i] + [replies[i]];
        PresentAppend(replies[..i], [replies[i]]);
        if replies[i].Some? {
          lines := lines + [replies[i].value];
        }
        i := i + 1;
      }
      assert replies[..i] == replies;
    }

    /** `_phonemize` of the strategy, on whatever has been loaded. */
    method PhonemeLines(text: string, separator: Option<char>, ssml: bool, replies: EngineReplies)
      returns (lines: seq<string>)
      modifies this`calls
      ensures lines == RawLines(streamType, libEspeak, libc, replies)
      ensures calls == old(calls) + ReadCalls(streamType, libEspeak, libc, text, separator, ssml, |replies.clauseReplies|)
    {
      lines := [];
      match streamType
      case Memory =>
        if libc && libEspeak {
          calls := calls + [SetPhonemeTrace(PhonemeFlags(separator)), Synth(text, SynthFlags(ssml))];
          lines := replies.traceLines;
        }
      case NoStream =>
        if libEspeak {
          lines := NoStreamLines(replies.clauseReplies, separator);
        }
    }

    /**
     * Lines 132-165 once the library is loaded: the voice becomes current and
     * is sent to the engine, whose status is only logged.
     */
    method ApplyVoice(voice: Option<string>, absolutePath: string -> Option<string>)
      requires libEspeak
      modifies this`currentVoice, this`calls
      ensures currentVoice == (if voice.Some? then voice else old(currentVoice))
      ensures calls == old(calls) + (if voice.Some? then [SetVoice(VoiceCallFor(voice.value, absolutePath(voice.value)))] else [])
    {
      if voice.Some? {
        currentVoice := voice;
      }
      if voice.Some? && libEspeak {
        // a status other than EE_OK is only logged
        calls := calls + [SetVoice(VoiceCallFor(voice.value, absolutePath(voice.value)))];
      }
    }

    /**
     * `phonemize`. SSML without a stream is refused before anything else
     * happens. A failed initialization is reported and leaves the voice alone.
     * Otherwise any effective voice (the explicit one, else the default)
     * becomes the current voice and is sent to the engine on every call, by
     * file when its expanded path is absolute and by name otherwise; the
     * engine's lines then go through the text stages of `Format`, except that
     * a phoneme separator `\` makes the final clean-up raise once every
     * engine call has been made.
     */
    method Phonemize(text: string, opts: Options, replies: EngineReplies, absolutePath: string -> Option<string>)
      returns (r: Result<string, Error>)
      modifies this
      ensures opts.ssml && streamType == NoStream ==> r == Failure(SsmlWithoutStream) && unchanged(this)
      ensures !(opts.ssml && streamType == NoStream) ==>
        && libEspeak
        && (r == Failure(InitFailed) <==> !old(libEspeak) && replies.sampleRate <= 0)
        && (r == Failure(BadEscape) <==> (old(libEspeak) || replies.sampleRate > 0) && opts.phonemeSeparator == Some('\\'))
        && (r.Success? <==> (old(libEspeak) || replies.sampleRate > 0) && opts.phonemeSeparator != Some('\\'))
      ensures r == Failure(InitFailed) ==>
        && currentVoice == old(currentVoice) && libc == old(libc)
        && calls == old(calls) + [Initialize(AudioOutputSynchronous)]
      ensures r.Success? || r == Failure(BadEscape) ==>
        var voice := EffectiveVoice(opts.voice, defaultVoice);
        var initCalls := if old(libEspeak) then [] else [Initialize(AudioOutputSynchronous)];
        var voiceCalls := if voice.Some? then [SetVoice(VoiceCallFor(voice.value, absolutePath(voice.value)))] else [];
        && currentVoice == (if voice.Some? then voice else old(currentVoice))
        && libc == (old(libc) || (!old(libEspeak) && streamType == Memory))
        && calls == old(calls) + initCalls + voiceCalls
                    + ReadCalls(streamType, true, libc, text, opts.phonemeSeparator, opts.ssml, |replies.clauseReplies|)
        && (r.Success? ==> r.value == Format(RawLines(streamType, true, libc, replies),
                                             MissingBreakers(text, opts.keepClauseBreakers, clauseBreakers), opts))
    {
      if opts.ssml && streamType == NoStream {
        return Failure(SsmlWithoutStream);
      }
      ghost var initCalls := if libEspeak then [] else [Initialize(AudioOutputSynchronous)];
      var err := MaybeInit(replies.sampleRate);
      if err.Some? {
        return Failure(err.value);
      }
      assert calls == old(calls) + initCalls;

      var voice := EffectiveVoice(opts.voice, defaultVoice);
      ApplyVoice(voice, absolutePath);
      ghost var voiceCalls := if voice.Some? then [SetVoice(VoiceCallFor(voice.value, absolutePath(voice.value)))] else [];
      assert calls == old(calls) + initCalls + voiceCalls;

      var missing := MissingBreakers(text, opts.keepClauseBreakers, clauseBreakers);
      var raw := PhonemeLines(text, opts.phonemeSeparator, opts.ssml, replies);

      assert calls == old(calls) + initCalls + voiceCalls
        + ReadCalls(streamType, true, libc, text, opts.phonemeSeparator, opts.ssml, |replies.clauseReplies|);

      if opts.phonemeSeparator == Some('\\') {
        // `re.sub` rejects the template before it looks for any run
        return Failure(BadEscape);
      }
      var phonemes := FormatLines(raw, missing, opts);
      return Success(phonemes);
    }
  }
}
