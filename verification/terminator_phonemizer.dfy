/**
 * The terminator-driven phonemizer (`espeak_phonemizer.Phonemizer`). The
 * engine hands back each clause's phonemes together with a 32-bit terminator
 * word; the phonemizer appends the clause, optionally its punctuation, and a
 * sentence or word break, then tidies the whole string.
 */
module TerminatorPhonemizer {
  import opened Wrappers
  import opened PyStrings
  import opened PhonemeText
  import opened Espeak

  // ---------------------------------------------------------------------------
  // terminator words (a C int, kept as its 32 bits)

  const ClauseIntonationFullStop: bv32 := 0x0000_0000
  const ClauseIntonationComma: bv32 := 0x0000_1000
  const ClauseIntonationQuestion: bv32 := 0x0000_2000
  const ClauseIntonationExclamation: bv32 := 0x0000_3000
  const ClauseIntonationNone: bv32 := 0x0000_4000

  const ClauseTypeNone: bv32 := 0x0000_0000
  const ClauseTypeEof: bv32 := 0x0001_0000
  const ClauseTypeClause: bv32 := 0x0004_0000
  const ClauseTypeSentence: bv32 := 0x0008_0000

  const ClauseNone: bv32 := 0 | ClauseIntonationNone | ClauseTypeNone
  const ClauseParagraph: bv32 := 70 | ClauseIntonationFullStop | ClauseTypeSentence
  const ClauseEof: bv32 := 40 | ClauseIntonationFullStop | ClauseTypeSentence | ClauseTypeEof
  const ClausePeriod: bv32 := 40 | ClauseIntonationFullStop | ClauseTypeSentence
  const ClauseComma: bv32 := 20 | ClauseIntonationComma | ClauseTypeClause
  const ClauseQuestion: bv32 := 40 | ClauseIntonationQuestion | ClauseTypeSentence
  const ClauseExclamation: bv32 := 45 | ClauseIntonationExclamation | ClauseTypeSentence
  const ClauseColon: bv32 := 30 | ClauseIntonationFullStop | ClauseTypeClause
  const ClauseSemicolon: bv32 := 30 | ClauseIntonationComma | ClauseTypeClause

  /** `DEFAULT_PUNCTUATIONS`, keyed like any Python dict of ints. */
  const DefaultPunctuations: map<int, string> := map[
    ClauseColon as int := ":",
    ClauseComma as int := ",",
    ClauseExclamation as int := "!",
    ClausePeriod as int := ".",
    ClauseQuestion as int := "?",
    ClauseSemicolon as int := ";"
  ]

  const PunctuationMask: bv32 := 0x000F_FFFF

  /** The terminator ends a sentence: its `CLAUSE_TYPE_SENTENCE` bit is set. */
  predicate EndsSentence(terminator: bv32) {
    terminator & ClauseTypeSentence == ClauseTypeSentence
  }

  /** `punctuations.get(terminator & PUNCTUATION_MASK, "")` */
  function PunctuationOf(punctuations: map<int, string>, terminator: bv32): string
  {
    var key := (terminator & PunctuationMask) as int;
    if key in punctuations then punctuations[key] else ""
  }

  /** The terminator words, written out. */
  lemma TerminatorValues()
    ensures ClauseNone == 0x4000 && ClauseParagraph == 0x80046 && ClauseEof == 0x90028
    ensures ClausePeriod == 0x80028 && ClauseComma == 0x41014 && ClauseQuestion == 0x82028
    ensures ClauseExclamation == 0x8302D && ClauseColon == 0x4001E && ClauseSemicolon == 0x4101E
  {
  }

  /**
   * Every default key is a fixed point of the mask, so each default
   * terminator finds its own punctuation.
   */
  lemma DefaultKeysMasked()
    ensures DefaultPunctuations.Keys == {ClauseColon as int, ClauseComma as int, ClauseExclamation as int,
                                         ClausePeriod as int, ClauseQuestion as int, ClauseSemicolon as int}
    ensures ClauseColon & PunctuationMask == ClauseColon && ClauseComma & PunctuationMask == ClauseComma
    ensures ClauseExclamation & PunctuationMask == ClauseExclamation && ClausePeriod & PunctuationMask == ClausePeriod
    ensures ClauseQuestion & PunctuationMask == ClauseQuestion && ClauseSemicolon & PunctuationMask == ClauseSemicolon
    ensures PunctuationOf(DefaultPunctuations, ClauseColon) == ":" && PunctuationOf(DefaultPunctuations, ClauseComma) == ","
    ensures PunctuationOf(DefaultPunctuations, ClauseExclamation) == "!" && PunctuationOf(DefaultPunctuations, ClausePeriod) == "."
    ensures PunctuationOf(DefaultPunctuations, ClauseQuestion) == "?" && PunctuationOf(DefaultPunctuations, ClauseSemicolon) == ";"
  {
    TerminatorValues();
  }

  /** The end of the text, a paragraph break and "no clause" add no punctuation under the defaults. */
  lemma NoDefaultPunctuation()
    ensures PunctuationOf(DefaultPunctuations, ClauseEof) == ""
    ensures PunctuationOf(DefaultPunctuations, ClauseParagraph) == ""
    ensures PunctuationOf(DefaultPunctuations, ClauseNone) == ""
  {
    TerminatorValues();
  }

  /**
   * Among the default terminators, exactly those of `.`, `?` and `!` end a
   * sentence; so do the end of the text and a paragraph break.
   */
  lemma DefaultSentenceEnds()
    ensures EndsSentence(ClausePeriod) && EndsSentence(ClauseQuestion) && EndsSentence(ClauseExclamation)
    ensures !EndsSentence(ClauseComma) && !EndsSentence(ClauseColon) && !EndsSentence(ClauseSemicolon)
    ensures EndsSentence(ClauseEof) && EndsSentence(ClauseParagraph) && !EndsSentence(ClauseNone)
  {
    TerminatorValues();
  }

  // ---------------------------------------------------------------------------
  // assembling the clauses

  /** One engine answer: the clause's phonemes (NULL for none) and its terminator. */
  datatype Clause = Clause(phonemes: Option<string>, terminator: bv32)

  datatype Error =
    | InitFailed    // espeak_Initialize returned a sample rate <= 0
    | VoiceNotSet   // espeak_SetVoiceByName did not return EE_OK
    | BadEscape     // re.error: a lone `\` as the replacement in the separator clean-up

  /** The keyword arguments of `phonemize`. */
  datatype Options = Options(
    voice: Option<string>,
    keepPunctuation: bool,
    phonemeSeparator: Option<char>,
    wordSeparator: string,
    sentenceSeparator: string,
    keepLanguageFlags: bool,
    noStress: bool,
    punctuations: Option<map<int, string>>)

  /** What the engine answers during one `phonemize` call. */
  datatype EngineReplies = EngineReplies(
    sampleRate: int,       // espeak_Initialize
    voiceStatus: int,      // espeak_SetVoiceByName
    clauses: seq<Clause>)  // successive espeak_TextToPhonemesWithTerminator answers, until the text pointer is NULL

  /** The punctuation table in use: the given one, else the defaults (an empty table is not replaced). */
  function PunctuationsIn(opts: Options): map<int, string>
  {
    if opts.punctuations.Some? then opts.punctuations.value else DefaultPunctuations
  }

  /** What one clause adds: its phonemes, its punctuation if kept, then a sentence or word break. */
  function Piece(c: Clause, keepPunctuation: bool, punctuations: map<int, string>, sentenceSeparator: string): string
  {
    (if c.phonemes.Some? then c.phonemes.value else "")
    + (if keepPunctuation then PunctuationOf(punctuations, c.terminator) else "")
    + (if EndsSentence(c.terminator) then sentenceSeparator else " ")
  }

  /** The clauses' pieces, in order. */
  function Assemble(clauses: seq<Clause>, keepPunctuation: bool, punctuations: map<int, string>,
                    sentenceSeparator: string): string
  {
    if clauses == [] then ""
    else
      Assemble(clauses[..|clauses| - 1], keepPunctuation, punctuations, sentenceSeparator)
      + Piece(clauses[|clauses| - 1], keepPunctuation, punctuations, sentenceSeparator)
  }

  lemma AssembleStep(clauses: seq<Clause>, i: int, keep: bool, punctuations: map<int, string>, sep: string)
    requires 0 <= i < |clauses|
    ensures Assemble(clauses[..i + 1], keep, punctuations, sep)
            == Assemble(clauses[..i], keep, punctuations, sep) + Piece(clauses[i], keep, punctuations, sep)
  {
    assert clauses[..i + 1][..i] == clauses[..i];
  }

  /** Assembling consecutive runs of clauses is concatenating their assemblies. */
  lemma {:induction false} AssembleAppend(a: seq<Clause>, b: seq<Clause>, keep: bool,
                                          punctuations: map<int, string>, sep: string)
    ensures Assemble(a + b, keep, punctuations, sep) == Assemble(a, keep, punctuations, sep) + Assemble(b, keep, punctuations, sep)
    decreases |b|
  {
    if b == [] {
      assert a + b == a;
    } else {
      var n := |b| - 1;
      assert (a + b)[..|a + b| - 1] == a + b[..n];
      assert (a + b)[|a + b| - 1] == b[n];
      AssembleAppend(a, b[..n], keep, punctuations, sep);
    }
  }

  /** A sentence of phonemes `p` ended by a period comes out as `p`, `.`, then the sentence separator. */
  lemma PeriodSentence(p: string, sep: string)
    ensures Assemble([Clause(Some(p), ClausePeriod)], true, DefaultPunctuations, sep) == p + "." + sep
    ensures Assemble([Clause(Some(p), ClausePeriod)], false, DefaultPunctuations, sep) == p + sep
  {
    assert [Clause(Some(p), ClausePeriod)][..0] == [];
    TerminatorValues();
  }

  /** A comma clause of phonemes `p` comes out as `p`, `,`, then a space. */
  lemma CommaClause(p: string, sep: string)
    ensures Assemble([Clause(Some(p), ClauseComma)], true, DefaultPunctuations, sep) == p + ", "
  {
    assert [Clause(Some(p), ClauseComma)][..0] == [];
    TerminatorValues();
  }

  // ---------------------------------------------------------------------------
  // after the loop

  /** `t.join(s.split(" "))` */
  function ReplaceSpaces(s: string, wordSeparator: string): string
  {
    Join(wordSeparator, Split(s, " "))
  }

  /**
   * The word-separator rewrite touches only the character `" "`: it is
   * `s` with each space replaced, so sentence separators such as newlines
   * survive it.
   */
  lemma ReplaceSpacesKeepsOthers(s: string, wordSeparator: string, x: char)
    requires x != ' ' && x !in wordSeparator
    ensures ReplaceSpaces(s, wordSeparator) == Replace(s, ' ', wordSeparator)
    ensures multiset(ReplaceSpaces(s, wordSeparator))[x] == multiset(s)[x]
  {
    JoinSplitIsReplace(s, ' ', wordSeparator);
    ReplaceKeepsOthers(s, ' ', wordSeparator, x);
  }

  /** `strip()` cuts a slice, so it keeps a text stress-free. */
  lemma StripKeepsStressFree(s: string)
    requires NoStress(s)
    ensures NoStress(Strip(s))
  {
    var a := StripStart(s);
    var r := Strip(s);
    SliceStressFree(s, a, a + |r|);
  }

  lemma SliceStressFree(s: string, a: int, b: int)
    requires 0 <= a <= b <= |s| && NoStress(s)
    ensures NoStress(s[a..b])
  {
    forall i | 0 <= i < b - a ensures !IsStress(s[a..b][i]) {
      assert s[a..b][i] == s[a + i];
    }
  }

  /** `strip()` cuts a slice, so it brings no separators together. */
  lemma StripKeepsUndoubled(s: string, c: char)
    requires NoDoubled(s, c)
    ensures NoDoubled(Strip(s), c)
  {
    var a := StripStart(s);
    var r := Strip(s);
    SliceUndoubled(s, a, a + |r|, c);
  }

  lemma SliceUndoubled(s: string, a: int, b: int, c: char)
    requires 0 <= a <= b <= |s| && NoDoubled(s, c)
    ensures NoDoubled(s[a..b], c)
  {
    NoDoubledAt(s, c);
    NoDoubledAt(s[a..b], c);
    forall i | 0 <= i < b - a - 1 ensures !(s[a..b][i] == c && s[a..b][i + 1] == c) {
      assert s[a..b][i] == s[a + i] && s[a..b][i + 1] == s[a + i + 1];
    }
  }

  lemma StripKept(s: string, noStress: bool, separator: Option<char>)
    requires noStress ==> NoStress(s)
    requires separator.Some? ==> NoDoubled(s, separator.value)
    ensures noStress ==> NoStress(Strip(s))
    ensures separator.Some? ==> NoDoubled(Strip(s), separator.value)
  {
    if noStress {
      StripKeepsStressFree(s);
    }
    if separator.Some? {
      StripKeepsUndoubled(s, separator.value);
    }
  }

  /**
   * The rewrites after the loop: language flags, word separator, stress,
   * separator runs, then `strip()`. The result is stress-free when asked,
   * never has the phoneme separator twice in a row, and has no whitespace at
   * either end.
   */
  function PostProcess(s: string, opts: Options): (r: string)
    ensures opts.noStress ==> NoStress(r)
    ensures opts.phonemeSeparator.Some? ==> NoDoubled(r, opts.phonemeSeparator.value)
    ensures r != [] ==> !IsSpace(r[0]) && !IsSpace(r[|r| - 1])
  {
    var unflagged := if opts.keepLanguageFlags then s else RemoveLangFlags(s);
    var spaced := if opts.wordSeparator != " " then ReplaceSpaces(unflagged, opts.wordSeparator) else unflagged;
    var tidy := Tidy(spaced, opts.noStress, opts.phonemeSeparator);
    StripKept(tidy, opts.noStress, opts.phonemeSeparator);
    var r := Strip(tidy);
    assert r != [] ==> !IsSpace(r[0]) && !IsSpace(r[|r| - 1]);
    r
  }

  /** The rewrites after the clause loop, applied one after the other to the assembled text. */
  method PostProcessText(s: string, opts: Options) returns (r: string)
    ensures r == PostProcess(s, opts)
    ensures opts.noStress ==> NoStress(r)
    ensures r != [] ==> !IsSpace(r[0]) && !IsSpace(r[|r| - 1])
  {
    r := s;
    if !opts.keepLanguageFlags {
      r := RemoveLangFlags(r);
    }
    if opts.wordSeparator != " " {
      r := Join(opts.wordSeparator, Split(r, " "));
    }
    if opts.noStress {
      r := RemoveStress(r);
    }
    if opts.phonemeSeparator.Some? {
      r := CollapseRuns(r, opts.phonemeSeparator.value);
    }
    r := Strip(r);
  }

  /** One turn of the clause loop: the clause's phonemes, its punctuation if kept, then its ending. */
  method AppendPiece(phonemes: string, clause: Clause, keepPunctuation: bool,
                     punctuations: map<int, string>, sentenceSeparator: string)
    returns (r: string)
    ensures r == phonemes + Piece(clause, keepPunctuation, punctuations, sentenceSeparator)
  {
    ghost var text := if clause.phonemes.Some? then clause.phonemes.value else "";
    ghost var punctuation := if keepPunctuation then PunctuationOf(punctuations, clause.terminator) else "";
    ghost var ending := if EndsSentence(clause.terminator) then sentenceSeparator else " ";
    r := phonemes;
    if clause.phonemes.Some? {
      r := r + clause.phonemes.value;
    }
    assert r == phonemes + text;
    if keepPunctuation {
      r := r + PunctuationOf(punctuations, clause.terminator);
    }
    assert r == phonemes + text + punctuation;
    if EndsSentence(clause.terminator) {
      r := r + sentenceSeparator;
    } else {
      r := r + " ";
    }
    assert r == phonemes + text + punctuation + ending;
    AppendThree(phonemes, text, punctuation, ending);
  }

  lemma AppendThree(a: string, b: string, c: string, d: string)
    ensures a + b + c + d == a + (b + c + d)
  {
    assert a + b + c + d == a + (b + c) + d;
  }

  // ---------------------------------------------------------------------------
  // the phonemizer object

  class Phonemizer {
    const defaultVoice: Option<string>
    var currentVoice: Option<string>
    /** `lib_espeak` is set */
    var libEspeak: bool
    /** Every engine call issued so far, oldest first. */
    var calls: seq<EngineCall>

    constructor (defaultVoice: Option<string>)
      ensures this.defaultVoice == defaultVoice
      ensures currentVoice.None? && !libEspeak && calls == []
    {
      this.defaultVoice := defaultVoice;
      currentVoice := None;
      libEspeak := false;
      calls := [];
    }

    /**
     * `_maybe_init`: nothing once the library is set. Otherwise the library
     * is set first and then initialized, so a failed initialization is
     * reported once and later calls go on without initializing again.
     */
    method MaybeInit(sampleRate: int) returns (err: Option<Error>)
      modifies this
      ensures old(libEspeak) ==> err.None? && unchanged(this)
      ensures !old(libEspeak) ==> libEspeak && calls == old(calls) + [Initialize(AudioOutputSynchronous)]
      ensures !old(libEspeak) ==> (err.None? <==> sampleRate > 0) && (err.Some? ==> err.value == InitFailed)
      ensures currentVoice == old(currentVoice)
    {
      if libEspeak {
        return None;
      }
      libEspeak := true;
      calls := calls + [Initialize(AudioOutputSynchronous)];
      if sampleRate <= 0 {
        return Some(InitFailed);
      }
      return None;
    }

    /**
     * The clause loop: one engine call per clause, all with the same flags,
     * and the string built so far is always the assembly of the clauses
     * answered so far.
     */
    method AssembleClauses(clauses: seq<Clause>, separator: Option<char>, keepPunctuation: bool,
                           punctuations: map<int, string>, sentenceSeparator: string)
      returns (phonemes: string)
      modifies this`calls
      ensures phonemes == Assemble(clauses, keepPunctuation, punctuations, sentenceSeparator)
      ensures calls == old(calls) + Repeat(TextToPhonemesWithTerminator(CharsAuto, PhonemeFlags(separator)), |clauses|)
    {
      var call := TextToPhonemesWithTerminator(CharsAuto, PhonemeFlags(separator));
      phonemes := "";
      var i := 0;
      while i < |clauses|
        invariant 0 <= i <= |clauses|
        invariant phonemes == Assemble(clauses[..i], keepPunctuation, punctuations, sentenceSeparator)
        invariant calls == old(calls) + Repeat(call, i)
      {
        RepeatStep(old(calls), call, i);
        calls := calls + [call];
        AssembleStep(clauses, i, keepPunctuation, punctuations, sentenceSeparator);
        phonemes := AppendPiece(phonemes, clauses[i], keepPunctuation, punctuations, sentenceSeparator);
        i := i + 1;
      }
      assert clauses[..i] == clauses;
    }

    /**
     * `phonemize`. A failed initialization is reported. The effective voice
     * (the explicit one, else the default) is sent to the engine by name only
     * when it differs from the current voice, and becomes the current voice
     * before the engine's answer is checked, so a refused voice is not tried
     * again. The clauses are then assembled and post-processed, except that
     * a phoneme separator `\` makes the separator clean-up raise once every
     * clause has been read.
     */
    method Phonemize(opts: Options, replies: EngineReplies) returns (r: Result<string, Error>)
      modifies this
      ensures libEspeak
      ensures r == Failure(InitFailed) <==> !old(libEspeak) && replies.sampleRate <= 0
      ensures r == Failure(InitFailed) ==>
        currentVoice == old(currentVoice) && calls == old(calls) + [Initialize(AudioOutputSynchronous)]
      ensures r != Failure(InitFailed) ==>
        var voice := EffectiveVoice(opts.voice, defaultVoice);
        var initCalls := if old(libEspeak) then [] else [Initialize(AudioOutputSynchronous)];
        var switching := voice.Some? && voice != old(currentVoice);
        && currentVoice == (if voice.Some? then voice else old(currentVoice))
        && (r == Failure(VoiceNotSet) <==> switching && replies.voiceStatus != EE_OK)
        && (r == Failure(VoiceNotSet) ==> calls == old(calls) + initCalls + [SetVoice(ByName(voice.value))])
        && (r == Failure(BadEscape) <==> !(switching && replies.voiceStatus != EE_OK) && opts.phonemeSeparator == Some('\\'))
        && (r.Success? <==> !(switching && replies.voiceStatus != EE_OK) && opts.phonemeSeparator != Some('\\'))
        && (r.Success? || r == Failure(BadEscape) ==>
              calls == old(calls) + initCalls + (if switching then [SetVoice(ByName(voice.value))] else [])
                       + Repeat(TextToPhonemesWithTerminator(CharsAuto, PhonemeFlags(opts.phonemeSeparator)), |replies.clauses|))
        && (r.Success? ==>
              r.value == PostProcess(Assemble(replies.clauses, opts.keepPunctuation,
                                              PunctuationsIn(opts), opts.sentenceSeparator), opts))
    {
      ghost var initCalls := if libEspeak then [] else [Initialize(AudioOutputSynchronous)];
      var err := MaybeInit(replies.sampleRate);
      if err.Some? {
        return Failure(err.value);
      }
      assert calls == old(calls) + initCalls;
      var punctuations := PunctuationsIn(opts);

      var voice := EffectiveVoice(opts.voice, defaultVoice);
      ghost var voiceCalls: seq<EngineCall> := [];
      if voice.Some? && voice != currentVoice {
        currentVoice := voice;
        calls := calls + [SetVoice(ByName(voice.value))];
        voiceCalls := [SetVoice(ByName(voice.value))];
        if replies.voiceStatus != EE_OK {
          return Failure(VoiceNotSet);
        }
      }
      assert calls == old(calls) + initCalls + voiceCalls;

      var phonemes := AssembleClauses(replies.clauses, opts.phonemeSeparator, opts.keepPunctuation,
                                      punctuations, opts.sentenceSeparator);
      if opts.phonemeSeparator == Some('\\') {
        // `re.sub` rejects the template before it looks for any run
        return Failure(BadEscape);
      }
      phonemes := PostProcessText(phonemes, opts);
      return Success(phonemes);
    }
  }
}
