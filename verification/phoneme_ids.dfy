/**
 * The phoneme-to-id vocabulary builder (`phoneme_ids.main` without its
 * command line and streams): an optional `ID PHONEME` file seeds the map,
 * reserved symbols and then every newly seen phoneme get fresh ids equal to
 * the map's size, and each input line of phonemes becomes a line of ids.
 */
module PhonemeIds {
  import opened Wrappers
  import opened PyStrings
  import opened PyInts
  import opened StringOrder
  import opened PhonemeText

  /** `phoneme_to_id` */
  type PhonemeMap = map<string, int>

  datatype Error =
    | BadId(line: string)  // int() rejected the id of an id-file line
    | EmptySeparator       // str.split("") on an input line

  /**
   * The command-line options that reach the logic. An option that is not
   * given is the empty string, which the program treats the same way.
   */
  datatype Options = Options(
    phonemeSeparator: string,
    wordSeparator: string,
    idSeparator: string,
    pad: string,
    bos: string,
    eos: string,
    addBlank: bool,
    simplePunctuation: bool,
    printInput: bool,
    outputSeparator: string,
    separateStress: bool)

  // ---------------------------------------------------------------------------
  // the id file

  predicate IsNewline(c: char) {
    c == '\r' || c == '\n'
  }

  function TrimNewlinesStart(s: string): (r: string)
    ensures |r| <= |s| && r == s[|s| - |r|..]
    ensures forall i :: 0 <= i < |s| - |r| ==> IsNewline(s[i])
    ensures r != [] ==> !IsNewline(r[0])
  {
    if s != [] && IsNewline(s[0]) then TrimNewlinesStart(s[1..]) else s
  }

  function TrimNewlinesEnd(s: string): (r: string)
    ensures |r| <= |s| && r == s[..|r|]
    ensures forall i :: |r| <= i < |s| ==> IsNewline(s[i])
    ensures r != [] ==> !IsNewline(r[|r| - 1])
  {
    if s != [] && IsNewline(s[|s| - 1]) then TrimNewlinesEnd(s[..|s| - 1]) else s
  }

  /**
   * `line.strip("\r\n")`: the line without the carriage returns and newlines
   * at its ends (what is cut off is only `\r` and `\n`: `StripNewlinesCuts`).
   */
  function StripNewlines(s: string): (r: string)
    ensures r != [] ==> !IsNewline(r[0]) && !IsNewline(r[|r| - 1])
    ensures var a := |s| - |TrimNewlinesStart(s)|; a + |r| <= |s| && r == s[a..a + |r|]
  {
    TrimNewlinesEnd(TrimNewlinesStart(s))
  }

  /** `StripNewlines` cuts only carriage returns and newlines, at either end. */
  lemma StripNewlinesCuts(s: string)
    ensures var a := |s| - |TrimNewlinesStart(s)|; var r := StripNewlines(s);
      && (forall i :: 0 <= i < a ==> IsNewline(s[i]))
      && (forall i :: a + |r| <= i < |s| ==> IsNewline(s[i]))
  {
    var t := TrimNewlinesStart(s);
    var r := StripNewlines(s);
    var a := |s| - |t|;
    forall i | a + |r| <= i < |s| ensures IsNewline(s[i]) {
      assert s[i] == t[i - a];
    }
  }

  /** An id-file line: skipped, or an id and its phoneme. */
  datatype IdLine = Skipped | Entry(id: int, phoneme: string)

  /**
   * One line of the id file, once stripped of its newlines. Empty lines,
   * comments and lines without a space are skipped; any other line is split
   * at its first space into an id, which must parse as an integer, and the
   * phoneme (which may itself hold spaces).
   */
  function ParseIdEntry(l: string): (r: Result<IdLine, Error>)
    ensures r == Success(Skipped) <==> l == [] || l[0] == '#' || ' ' !in l
    ensures r.Success? && r.value.Entry? ==>
      var k := |l| - |r.value.phoneme| - 1;
      0 <= k < |l| && l[k] == ' ' && l[k + 1..] == r.value.phoneme
      && ' ' !in l[..k] && ParseInt(l[..k]) == Some(r.value.id)
    ensures r.Failure? ==> r.error == BadId(l)
  {
    if l == [] || l[0] == '#' || ' ' !in l then Success(Skipped)
    else
      FindChar(l, ' ');
      var k := Find(l, " ").value;
      match ParseInt(l[..k])
      case None => Failure(BadId(l))
      case Some(id) => Success(Entry(id, l[k + 1..]))
  }

  /**
   * A line that is not a comment is cut at its first space: it fails
   * exactly when the text before that space is not an integer, and is
   * otherwise the entry of that integer and the text after the space.
   */
  lemma IdEntryAtFirstSpace(l: string, k: nat)
    requires k < |l| && l[k] == ' ' && ' ' !in l[..k] && l[0] != '#'
    ensures ParseIdEntry(l).Failure? <==> ParseInt(l[..k]).None?
    ensures ParseInt(l[..k]).Some? ==> ParseIdEntry(l) == Success(Entry(ParseInt(l[..k]).value, l[k + 1..]))
  {
    FindChar(l, ' ');
  }

  /** One line of the id file as read, with its line ending. */
  function ParseIdLine(line: string): Result<IdLine, Error>
  {
    ParseIdEntry(StripNewlines(line))
  }

  /** Each line of the id file, parsed. */
  function ParseLines(lines: seq<string>): (r: seq<Result<IdLine, Error>>)
    ensures |r| == |lines|
    ensures forall i :: 0 <= i < |lines| ==> r[i] == ParseIdLine(lines[i])
  {
    if lines == [] then [] else ParseLines(lines[..|lines| - 1]) + [ParseIdLine(lines[|lines| - 1])]
  }

  /** The map that parsed id-file lines define, or the first line's error. */
  function Load(parsed: seq<Result<IdLine, Error>>): Result<PhonemeMap, Error>
  {
    if parsed == [] then Success(map[])
    else
      match Load(parsed[..|parsed| - 1])
      case Failure(e) => Failure(e)
      case Success(m) =>
        match parsed[|parsed| - 1]
        case Failure(e) => Failure(e)
        case Success(Skipped) => Success(m)
        case Success(Entry(id, p)) => Success(m[p := id])
  }

  /** The map the id file defines, or its first bad line's error. */
  function IdFile(lines: seq<string>): Result<PhonemeMap, Error>
  {
    Load(ParseLines(lines))
  }

  predicate EntryAt(parsed: seq<Result<IdLine, Error>>, i: int, p: string)
    requires 0 <= i < |parsed|
  {
    parsed[i].Success? && parsed[i].value.Entry? && parsed[i].value.phoneme == p
  }

  /** Reading fails exactly when some line's id does not parse. */
  lemma {:induction false} LoadFails(parsed: seq<Result<IdLine, Error>>)
    ensures Load(parsed).Failure? <==> exists i :: 0 <= i < |parsed| && parsed[i].Failure?
  {
    if parsed != [] {
      var n := |parsed| - 1;
      var init := parsed[..n];
      LoadFails(init);
      assert forall i :: 0 <= i < n ==> init[i] == parsed[i];
    }
  }

  /**
   * The phonemes of the map are those of the entry lines, and each keeps
   * the id of its last entry line: later lines overwrite earlier ones.
   */
  lemma {:induction false} LoadLastWins(parsed: seq<Result<IdLine, Error>>, p: string)
    requires Load(parsed).Success?
    ensures p in Load(parsed).value <==> exists i :: 0 <= i < |parsed| && EntryAt(parsed, i, p)
    ensures forall i :: 0 <= i < |parsed| && EntryAt(parsed, i, p)
                        && (forall j :: i < j < |parsed| ==> !EntryAt(parsed, j, p))
                        ==> Load(parsed).value[p] == parsed[i].value.id
  {
    if parsed != [] {
      var n := |parsed| - 1;
      var init := parsed[..n];
      LoadLastWins(init, p);
      forall i | 0 <= i < n ensures EntryAt(parsed, i, p) == EntryAt(init, i, p) {
        assert parsed[i] == init[i];
      }
      var m := Load(init).value;
      if EntryAt(parsed, n, p) {
        assert Load(parsed).value == m[p := parsed[n].value.id];
      } else {
        assert Load(parsed).value.Keys == m.Keys || parsed[n].value.phoneme in Load(parsed).value;
        assert p in Load(parsed).value <==> p in m;
        assert p in Load(parsed).value ==> Load(parsed).value[p] == m[p];
      }
    }
  }

  /** Reading the id file fails exactly when one of its lines does. */
  lemma IdFileFails(lines: seq<string>)
    ensures IdFile(lines).Failure? <==> exists i :: 0 <= i < |lines| && ParseIdLine(lines[i]).Failure?
  {
    var parsed := ParseLines(lines);
    LoadFails(parsed);
    assert IdFile(lines) == Load(parsed);
  }

  /** A failure in a prefix of the lines is the failure of them all. */
  lemma {:induction false} LoadFailsExtend(prefix: seq<Result<IdLine, Error>>, parsed: seq<Result<IdLine, Error>>)
    requires prefix <= parsed && Load(prefix).Failure?
    ensures Load(parsed) == Load(prefix)
    decreases |parsed|
  {
    if |parsed| > |prefix| {
      var init := parsed[..|parsed| - 1];
      assert prefix <= init;
      LoadFailsExtend(prefix, init);
    } else {
      assert prefix == parsed;
    }
  }

  /** One more parsed line extends the map, leaves it, or fails. */
  lemma LoadStep(parsed: seq<Result<IdLine, Error>>, i: int, m: PhonemeMap)
    requires 0 <= i < |parsed| && Load(parsed[..i]) == Success(m)
    ensures parsed[i].Failure? ==> Load(parsed[..i + 1]) == Failure(parsed[i].error)
    ensures parsed[i] == Success(Skipped) ==> Load(parsed[..i + 1]) == Success(m)
    ensures parsed[i].Success? && parsed[i].value.Entry? ==>
      Load(parsed[..i + 1]) == Success(m[parsed[i].value.phoneme := parsed[i].value.id])
  {
    assert parsed[..i + 1][..i] == parsed[..i];
  }

  /** The id-file loop: one line at a time, stopping at the first bad id. */
  method LoadIdFile(lines: seq<string>) returns (r: Result<PhonemeMap, Error>)
    ensures r == IdFile(lines)
  {
    ghost var parsed := ParseLines(lines);
    var m: PhonemeMap := map[];
    for i := 0 to |lines|
      invariant Load(parsed[..i]) == Success(m)
    {
      LoadStep(parsed, i, m);
      var line := ParseIdLine(lines[i]);
      match line
      case Failure(e) =>
        LoadFailsExtend(parsed[..i + 1], parsed);
        return Failure(e);
      case Success(Skipped) =>
      case Success(Entry(id, p)) =>
        m := m[p := id];
    }
    assert parsed[..|lines|] == parsed;
    return Success(m);
  }

  // ---------------------------------------------------------------------------
  // growing the map

  /** `phoneme_to_id[s] = len(phoneme_to_id)`, unless `s` already has an id. */
  function WithSymbol(m: PhonemeMap, s: string): (r: PhonemeMap)
    ensures forall p :: p in r <==> p in m || p == s
    ensures forall p :: p in m ==> r[p] == m[p]
    ensures s !in m ==> r[s] == |m| && |r| == |m| + 1
    ensures s in m ==> r == m
  {
    if s in m then m else m[s := |m|]
  }

  /** `WithSymbol` for each symbol in turn. */
  function WithSymbols(m: PhonemeMap, syms: seq<string>): (r: PhonemeMap)
    ensures forall p :: p in r <==> p in m || p in syms
    ensures forall p :: p in m ==> r[p] == m[p]
    decreases |syms|
  {
    if syms == [] then m
    else
      var init := syms[..|syms| - 1];
      assert forall p :: p in syms <==> p in init || p == syms[|syms| - 1];
      WithSymbol(WithSymbols(m, init), syms[|syms| - 1])
  }

  /** Ids that are exactly `0 .. |m| - 1`, each used once, as this program writes them. */
  predicate Dense(m: PhonemeMap) {
    && (forall p :: p in m ==> 0 <= m[p] < |m|)
    && (forall p, q :: p in m && q in m && p != q ==> m[p] != m[q])
  }

  lemma WithSymbolDense(m: PhonemeMap, s: string)
    requires Dense(m)
    ensures Dense(WithSymbol(m, s))
  {
  }

  /** Adding symbols keeps the ids dense, so no two phonemes share an id. */
  lemma {:induction false} WithSymbolsDense(m: PhonemeMap, syms: seq<string>)
    requires Dense(m)
    ensures Dense(WithSymbols(m, syms))
    decreases |syms|
  {
    if syms != [] {
      var init := syms[..|syms| - 1];
      WithSymbolsDense(m, init);
      WithSymbolDense(WithSymbols(m, init), syms[|syms| - 1]);
    }
  }

  /** The map only grows, and every symbol it did not have gets an id at or past its old size. */
  lemma {:induction false} WithSymbolsFresh(m: PhonemeMap, syms: seq<string>)
    ensures |m| <= |WithSymbols(m, syms)|
    ensures forall p :: p in WithSymbols(m, syms) && p !in m ==> |m| <= WithSymbols(m, syms)[p] < |WithSymbols(m, syms)|
    decreases |syms|
  {
    if syms != [] {
      WithSymbolsFresh(m, syms[..|syms| - 1]);
    }
  }

  /** Symbols seen for the first time get increasing ids in the order they are added. */
  lemma {:induction false} WithSymbolsInOrder(m: PhonemeMap, syms: seq<string>)
    requires forall i, j :: 0 <= i < j < |syms| ==> syms[i] != syms[j]
    ensures forall i, j :: 0 <= i < j < |syms| && syms[i] !in m && syms[j] !in m
                           ==> WithSymbols(m, syms)[syms[i]] < WithSymbols(m, syms)[syms[j]]
    decreases |syms|
  {
    if syms != [] {
      var n := |syms| - 1;
      var init := syms[..n];
      var before := WithSymbols(m, init);
      var after := WithSymbols(m, syms);
      assert after == WithSymbol(before, syms[n]);
      WithSymbolsInOrder(m, init);
      WithSymbolsFresh(m, init);
      if syms[n] !in m {
        assert syms[n] !in before by {
          assert forall i :: 0 <= i < n ==> init[i] != syms[n];
        }
      }
      forall i, j | 0 <= i < j <= n && syms[i] !in m && syms[j] !in m
        ensures after[syms[i]] < after[syms[j]]
      {
        assert syms[i] == init[i];
        assert after[syms[i]] == before[syms[i]] < |before|;
        if j < n {
          assert syms[j] == init[j];
        }
      }
    }
  }

  lemma {:induction false} WithSymbolsAppend(m: PhonemeMap, a: seq<string>, b: seq<string>)
    ensures WithSymbols(m, a + b) == WithSymbols(WithSymbols(m, a), b)
    decreases |b|
  {
    if b == [] {
      assert a + b == a;
    } else {
      assert (a + b)[..|a + b| - 1] == a + b[..|b| - 1];
      WithSymbolsAppend(m, a, b[..|b| - 1]);
    }
  }

  /** `sorted(_STRESS)`: primary stress, then secondary stress. */
  const StressSymbols: seq<string> := [[PrimaryStress], [SecondaryStress]]

  lemma StressSymbolsSorted()
    ensures StrictlySorted(StressSymbols)
    ensures forall s :: s in StressSymbols <==> |s| == 1 && IsStress(s[0])
  {
    assert Less(StressSymbols[0], StressSymbols[1]);
    forall s: string | |s| == 1 ensures s == [s[0]] { }
  }

  function Optional(s: string): seq<string> {
    if s != [] then [s] else []
  }

  /**
   * The symbols that get ids before any input is read: the pad, BOS and EOS
   * symbols when given, the word separator with `--add-blank`, and both
   * stress marks with `--separate-stress`.
   */
  function ReservedSymbols(opts: Options): seq<string> {
    Optional(opts.pad) + Optional(opts.bos) + Optional(opts.eos)
    + (if opts.addBlank then [opts.wordSeparator] else [])
    + (if opts.separateStress then StressSymbols else [])
  }

  /** The string between the ids of two words: the blank's id between spaces, or the word separator. */
  function WordSepText(m: PhonemeMap, opts: Options): string
    requires opts.addBlank ==> opts.wordSeparator in m
  {
    if opts.addBlank then " " + IntToString(m[opts.wordSeparator]) + " " else opts.wordSeparator
  }

  /** The pad symbol is phoneme 0 when no id file is read. */
  lemma PadIsZero(opts: Options)
    requires opts.pad != []
    ensures WithSymbols(map[], ReservedSymbols(opts))[opts.pad] == 0
  {
    var rest := ReservedSymbols(opts)[1..];
    assert ReservedSymbols(opts) == [opts.pad] + rest;
    WithSymbolsAppend(map[], [opts.pad], rest);
    assert WithSymbols(map[], [opts.pad]) == map[opts.pad := 0] by {
      assert [opts.pad][..0] == [];
    }
  }

  /** `if s not in phoneme_to_id: phoneme_to_id[s] = len(phoneme_to_id)` */
  method AddSymbol(m: PhonemeMap, s: string) returns (r: PhonemeMap)
    ensures r == WithSymbol(m, s)
  {
    r := m;
    if s !in r {
      r := r[s := |r|];
    }
  }

  /** The same for each symbol of `syms` in turn. */
  method AddSymbols(m: PhonemeMap, syms: seq<string>) returns (r: PhonemeMap)
    ensures r == WithSymbols(m, syms)
  {
    r := m;
    for i := 0 to |syms|
      invariant r == WithSymbols(m, syms[..i])
    {
      assert syms[..i + 1][..i] == syms[..i];
      r := AddSymbol(r, syms[i]);
    }
    assert syms[..|syms|] == syms;
  }

  lemma OptionalStep(m: PhonemeMap, s: string)
    ensures WithSymbols(m, Optional(s)) == if s != [] then WithSymbol(m, s) else m
  {
    if s != [] {
      assert Optional(s)[..0] == [];
    }
  }

  /** The reserved symbols as the five steps in which they are added. */
  lemma ReservedSteps(m0: PhonemeMap, opts: Options)
    ensures var blank := if opts.addBlank then [opts.wordSeparator] else [];
            var stress := if opts.separateStress then StressSymbols else [];
            WithSymbols(m0, ReservedSymbols(opts))
            == WithSymbols(WithSymbols(WithSymbols(WithSymbols(WithSymbols(m0,
                 Optional(opts.pad)), Optional(opts.bos)), Optional(opts.eos)), blank), stress)
  {
    var blank := if opts.addBlank then [opts.wordSeparator] else [];
    var stress := if opts.separateStress then StressSymbols else [];
    var a := Optional(opts.pad);
    var b := Optional(opts.bos);
    var c := Optional(opts.eos);
    WithSymbolsAppend(m0, a + b + c + blank, stress);
    WithSymbolsAppend(m0, a + b + c, blank);
    WithSymbolsAppend(m0, a + b, c);
    WithSymbolsAppend(m0, a, b);
  }

  /** The reserved symbols, one `if` at a time. */
  method AddReserved(m0: PhonemeMap, opts: Options) returns (m: PhonemeMap, wordSepStr: string)
    ensures m == WithSymbols(m0, ReservedSymbols(opts))
    ensures opts.addBlank ==> opts.wordSeparator in m
    ensures wordSepStr == WordSepText(m, opts)
  {
    ReservedSteps(m0, opts);
    m := AddOptional(m0, opts.pad);
    m := AddOptional(m, opts.bos);
    m := AddOptional(m, opts.eos);
    ghost var withEnds := m;
    if opts.addBlank {
      m := AddSymbols(m, [opts.wordSeparator]);
      var wordSepId := m[opts.wordSeparator];
      wordSepStr := " " + IntToString(wordSepId) + " ";
    } else {
      wordSepStr := opts.wordSeparator;
    }
    assert m == WithSymbols(withEnds, if opts.addBlank then [opts.wordSeparator] else []);
    ghost var withBlank := m;
    if opts.separateStress {
      m := AddSymbols(m, StressSymbols);
    }
    assert m == WithSymbols(withBlank, if opts.separateStress then StressSymbols else []);
  }

  /** Lines 84-94: a pad, BOS or EOS symbol gets the next id when it is given. */
  method AddOptional(m: PhonemeMap, s: string) returns (m': PhonemeMap)
    ensures m' == WithSymbols(m, Optional(s))
  {
    OptionalStep(m, s);
    m' := m;
    if s != [] {
      m' := AddSymbol(m, s);
    }
  }

  // ---------------------------------------------------------------------------
  // the phonemes of a line

  /** `list(word)`: each character as a string of its own. */
  function Chars(word: string): (r: seq<string>)
    ensures |r| == |word| && forall i :: 0 <= i < |word| ==> r[i] == [word[i]]
  {
    seq(|word|, i requires 0 <= i < |word| => [word[i]])
  }

  lemma {:induction false} JoinChars(word: string)
    ensures Join("", Chars(word)) == word
    decreases |word|
  {
    if |word| > 1 {
      assert Chars(word)[1..] == Chars(word[1..]);
      JoinCons("", Chars(word));
      JoinChars(word[1..]);
      assert word == [word[0]] + word[1..];
    }
  }

  /** A word's phonemes: split at the phoneme separator, or one per character without one. */
  function WordPhonemes(word: string, opts: Options): (r: seq<string>)
    ensures Join(opts.phonemeSeparator, r) == word
  {
    if opts.phonemeSeparator != [] then Split(word, opts.phonemeSeparator)
    else
      JoinChars(word);
      Chars(word)
  }

  /**
   * A stripped input line as words of phonemes: split at the word
   * separator, which `str.split` refuses when it is empty.
   */
  function SplitLine(line: string, opts: Options): (r: Result<seq<seq<string>>, Error>)
    ensures r.Failure? <==> opts.wordSeparator == []
    ensures r.Success? ==> |r.value| >= 1
  {
    if opts.wordSeparator == [] then Failure(EmptySeparator)
    else
      var words := Split(line, opts.wordSeparator);
      Success(seq(|words|, i requires 0 <= i < |words| => WordPhonemes(words[i], opts)))
  }

  /** Joining each word's phonemes and then the words gives the line back. */
  lemma SplitLineRoundTrip(line: string, opts: Options)
    requires opts.wordSeparator != []
    ensures var words := SplitLine(line, opts).value;
            Join(opts.wordSeparator, seq(|words|, i requires 0 <= i < |words| => Join(opts.phonemeSeparator, words[i])))
            == line
  {
    var words := SplitLine(line, opts).value;
    var joined := seq(|words|, i requires 0 <= i < |words| => Join(opts.phonemeSeparator, words[i]));
    assert joined == Split(line, opts.wordSeparator);
  }

  /** The number of stress marks at the start of a phoneme. */
  function StressRun(p: string): (k: nat)
    ensures k <= |p|
    ensures forall i :: 0 <= i < k ==> IsStress(p[i])
    ensures k < |p| ==> !IsStress(p[k])
  {
    if p != [] && IsStress(p[0]) then 1 + StressRun(p[1..]) else 0
  }

  /** `_PUNCTUATION_MAP.get(p, p)`: clause punctuation folded into `,` and `.`. */
  function SimplePunctuation(p: string): (r: string)
    ensures r != ";" && r != ":" && r != "?" && r != "!"
    ensures r != p ==> (r == "," && (p == ";" || p == ":")) || (r == "." && (p == "?" || p == "!"))
    ensures |r| == |p|
  {
    if p == ";" || p == ":" then ","
    else if p == "?" || p == "!" then "."
    else p
  }

  lemma SimplePunctuationIdempotent(p: string)
    ensures SimplePunctuation(SimplePunctuation(p)) == SimplePunctuation(p)
  {
  }

  /**
   * What a phoneme stands for in the vocabulary: without its leading stress
   * marks when they are separate phonemes, with its punctuation folded when
   * asked to; empty when nothing is left.
   */
  function Canonical(p: string, opts: Options): (r: string)
    ensures r == [] <==> (if opts.separateStress then StressRun(p) == |p| else p == [])
    ensures opts.separateStress && r != [] ==> !IsStress(r[0])
    ensures !opts.simplePunctuation && !opts.separateStress ==> r == p
  {
    var rest := if opts.separateStress then p[StressRun(p)..] else p;
    if rest != [] && opts.simplePunctuation then SimplePunctuation(rest) else rest
  }

  // ---------------------------------------------------------------------------
  // first pass: the vocabulary

  /** The phonemes a word adds to `all_phonemes`. */
  function WordVocabulary(word: seq<string>, opts: Options): set<string>
  {
    if word == [] then {}
    else
      var c := Canonical(word[|word| - 1], opts);
      WordVocabulary(word[..|word| - 1], opts) + (if c != [] then {c} else {})
  }

  function LineVocabulary(words: seq<seq<string>>, opts: Options): set<string>
  {
    if words == [] then {} else LineVocabulary(words[..|words| - 1], opts) + WordVocabulary(words[|words| - 1], opts)
  }

  function Vocabulary(lines: seq<seq<seq<string>>>, opts: Options): set<string>
  {
    if lines == [] then {} else Vocabulary(lines[..|lines| - 1], opts) + LineVocabulary(lines[|lines| - 1], opts)
  }

  /** Some phoneme of `word` has canonical form `c`. */
  predicate InWord(word: seq<string>, opts: Options, c: string) {
    exists k :: 0 <= k < |word| && Canonical(word[k], opts) == c
  }

  /** Some phoneme of some word of the line has canonical form `c`. */
  predicate InLine(words: seq<seq<string>>, opts: Options, c: string) {
    exists w :: 0 <= w < |words| && InWord(words[w], opts, c)
  }

  /** Some phoneme of some line has canonical form `c`. */
  predicate InLines(lines: seq<seq<seq<string>>>, opts: Options, c: string) {
    exists l :: 0 <= l < |lines| && InLine(lines[l], opts, c)
  }

  /** The vocabulary is the non-empty canonical forms of the phonemes of every line, and nothing else. */
  lemma {:induction false} VocabularyMembers(lines: seq<seq<seq<string>>>, opts: Options, c: string)
    ensures c in Vocabulary(lines, opts) <==> c != [] && InLines(lines, opts, c)
    decreases |lines|
  {
    if lines != [] {
      var n := |lines| - 1;
      VocabularyMembers(lines[..n], opts, c);
      LineVocabularyMembers(lines[n], opts, c);
      if c in Vocabulary(lines[..n], opts) {
        var l :| 0 <= l < n && InLine(lines[..n][l], opts, c);
        assert lines[l] == lines[..n][l];
      }
      if InLines(lines, opts, c) {
        var l :| 0 <= l < |lines| && InLine(lines[l], opts, c);
        if l < n {
          assert lines[..n][l] == lines[l];
        }
      }
    }
  }

  lemma {:induction false} LineVocabularyMembers(words: seq<seq<string>>, opts: Options, c: string)
    ensures c in LineVocabulary(words, opts) <==> c != [] && InLine(words, opts, c)
    decreases |words|
  {
    if words != [] {
      var n := |words| - 1;
      LineVocabularyMembers(words[..n], opts, c);
      WordVocabularyMembers(words[n], opts, c);
      if c in LineVocabulary(words[..n], opts) {
        var w :| 0 <= w < n && InWord(words[..n][w], opts, c);
        assert words[w] == words[..n][w];
      }
      if InLine(words, opts, c) {
        var w :| 0 <= w < |words| && InWord(words[w], opts, c);
        if w < n {
          assert words[..n][w] == words[w];
        }
      }
    }
  }

  lemma {:induction false} WordVocabularyMembers(word: seq<string>, opts: Options, c: string)
    ensures c in WordVocabulary(word, opts) <==> c != [] && InWord(word, opts, c)
    decreases |word|
  {
    if word != [] {
      var n := |word| - 1;
      WordVocabularyMembers(word[..n], opts, c);
      if c in WordVocabulary(word[..n], opts) {
        var k :| 0 <= k < n && Canonical(word[..n][k], opts) == c;
        assert word[k] == word[..n][k];
      }
      if InWord(word, opts, c) {
        var k :| 0 <= k < |word| && Canonical(word[k], opts) == c;
        if k < n {
          assert word[..n][k] == word[k];
        }
      }
    }
  }

  /** The stress-peeling `while` loop of either pass, without the ids. */
  method PeelStress(phoneme: string) returns (rest: string)
    ensures rest == phoneme[StressRun(phoneme)..]
  {
    rest := phoneme;
    while rest != [] && IsStress(rest[0])
      invariant |rest| <= |phoneme| && rest == phoneme[|phoneme| - |rest|..]
      invariant StressRun(phoneme) == |phoneme| - |rest| + StressRun(rest)
    {
      rest := rest[1..];
    }
  }

  /** Lines 157-163: the form of a phoneme that goes into `all_phonemes`. */
  method CanonicalOf(phoneme: string, opts: Options) returns (c: string)
    ensures c == Canonical(phoneme, opts)
  {
    c := phoneme;
    if opts.separateStress {
      c := PeelStress(c);
    }
    if c != [] && opts.simplePunctuation {
      c := SimplePunctuation(c);
    }
  }

  lemma WordVocabularyStep(word: seq<string>, k: int, opts: Options)
    requires 0 <= k < |word|
    ensures var c := Canonical(word[k], opts);
            WordVocabulary(word[..k + 1], opts) == WordVocabulary(word[..k], opts) + (if c != [] then {c} else {})
  {
    assert word[..k + 1][..k] == word[..k];
  }

  /** Lines 156-165: the canonical form of each phoneme of a word, added unless it is empty. */
  method CollectWord(all: set<string>, word: seq<string>, opts: Options) returns (all': set<string>)
    ensures all' == all + WordVocabulary(word, opts)
  {
    all' := all;
    for k := 0 to |word|
      invariant all' == all + WordVocabulary(word[..k], opts)
    {
      WordVocabularyStep(word, k, opts);
      var phoneme := CanonicalOf(word[k], opts);
      if phoneme != [] {
        all' := all' + {phoneme};
      }
    }
    assert word[..|word|] == word;
  }

  /** Lines 154-165: the phonemes of one line added to `all_phonemes`. */
  method CollectLine(all: set<string>, words: seq<seq<string>>, opts: Options) returns (all': set<string>)
    ensures all' == all + LineVocabulary(words, opts)
  {
    all' := all;
    for w := 0 to |words|
      invariant all' == all + LineVocabulary(words[..w], opts)
    {
      assert words[..w + 1][..w] == words[..w];
      all' := CollectWord(all', words[w], opts);
    }
    assert words[..|words|] == words;
  }

  // ---------------------------------------------------------------------------
  // second pass: the ids

  /**
   * The symbols a phoneme is written as: each leading stress mark as a
   * symbol of its own when they are separate, then its canonical form
   * unless nothing is left.
   */
  function PhonemeSymbols(p: string, opts: Options): (r: seq<string>)
    ensures forall i :: 0 <= i < |r| ==> r[i] != []
    ensures opts.separateStress ==> forall i :: 0 <= i < |r| - 1 ==> r[i] in StressSymbols
    ensures r == [] <==> p == []
  {
    var marks := if opts.separateStress then StressRun(p) else 0;
    var c := Canonical(p, opts);
    StressSymbolsSorted();
    seq(marks, i requires 0 <= i < marks => [p[i]]) + (if c != [] then [c] else [])
  }

  /** The symbols of a word's phonemes, in order. */
  function WordSymbols(word: seq<string>, opts: Options): seq<string>
  {
    if word == [] then [] else WordSymbols(word[..|word| - 1], opts) + PhonemeSymbols(word[|word| - 1], opts)
  }

  /** The words that have symbols, each as its symbols. */
  function WordsSymbols(words: seq<seq<string>>, opts: Options): (r: seq<seq<string>>)
    ensures forall i :: 0 <= i < |r| ==> r[i] != []
  {
    if words == [] then []
    else
      var last := WordSymbols(words[|words| - 1], opts);
      WordsSymbols(words[..|words| - 1], opts) + (if last != [] then [last] else [])
  }

  /** A line's symbols word by word: BOS and EOS as words of their own, words without phonemes dropped. */
  function LineSymbols(words: seq<seq<string>>, opts: Options): (r: seq<seq<string>>)
    ensures forall i :: 0 <= i < |r| ==> r[i] != []
  {
    Optional1(opts.bos) + WordsSymbols(words, opts) + Optional1(opts.eos)
  }

  function Optional1(s: string): (r: seq<seq<string>>)
    ensures forall i :: 0 <= i < |r| ==> r[i] != []
  {
    if s != [] then [[s]] else []
  }

  /** `phoneme_to_id[s]` for each symbol. */
  function Lookup(m: PhonemeMap, syms: seq<string>): (r: seq<int>)
    requires forall i :: 0 <= i < |syms| ==> syms[i] in m
    ensures |r| == |syms| && forall i :: 0 <= i < |syms| ==> r[i] == m[syms[i]]
  {
    seq(|syms|, i requires 0 <= i < |syms| => m[syms[i]])
  }

  /** With dense ids, the ids give the symbols back: no two symbols share an id. */
  lemma LookupInjective(m: PhonemeMap, a: seq<string>, b: seq<string>)
    requires Dense(m)
    requires forall i :: 0 <= i < |a| ==> a[i] in m
    requires forall i :: 0 <= i < |b| ==> b[i] in m
    ensures Lookup(m, a) == Lookup(m, b) <==> a == b
  {
    if Lookup(m, a) == Lookup(m, b) {
      forall i | 0 <= i < |a| ensures a[i] == b[i] {
        assert m[a[i]] == Lookup(m, a)[i] == Lookup(m, b)[i] == m[b[i]];
      }
    }
  }

  /** The map has an id for every symbol a line can be written with. */
  predicate Knows(m: PhonemeMap, words: seq<seq<string>>, opts: Options) {
    && (opts.bos != [] ==> opts.bos in m)
    && (opts.eos != [] ==> opts.eos in m)
    && (opts.separateStress ==> StressSymbols[0] in m && StressSymbols[1] in m)
    && LineVocabulary(words, opts) <= m.Keys
  }

  lemma {:induction false} KnowsWordSymbols(m: PhonemeMap, word: seq<string>, opts: Options)
    requires (opts.separateStress ==> StressSymbols[0] in m && StressSymbols[1] in m)
    requires WordVocabulary(word, opts) <= m.Keys
    ensures forall i :: 0 <= i < |WordSymbols(word, opts)| ==> WordSymbols(word, opts)[i] in m
    decreases |word|
  {
    if word != [] {
      var n := |word| - 1;
      KnowsWordSymbols(m, word[..n], opts);
      var ps := PhonemeSymbols(word[n], opts);
      var c := Canonical(word[n], opts);
      assert c != [] ==> c in WordVocabulary(word, opts);
      forall i | 0 <= i < |ps| ensures ps[i] in m {
        if i < |ps| - 1 || c == [] {
          StressSymbolsSorted();
          assert ps[i] in StressSymbols;
        }
      }
    }
  }

  lemma {:induction false} KnowsWordsSymbols(m: PhonemeMap, words: seq<seq<string>>, opts: Options)
    requires (opts.separateStress ==> StressSymbols[0] in m && StressSymbols[1] in m)
    requires LineVocabulary(words, opts) <= m.Keys
    ensures forall i, j :: 0 <= i < |WordsSymbols(words, opts)| && 0 <= j < |WordsSymbols(words, opts)[i]|
                           ==> WordsSymbols(words, opts)[i][j] in m
    decreases |words|
  {
    if words != [] {
      var n := |words| - 1;
      KnowsWordsSymbols(m, words[..n], opts);
      KnowsWordSymbols(m, words[n], opts);
    }
  }

  lemma KnowsLineSymbols(m: PhonemeMap, words: seq<seq<string>>, opts: Options)
    requires Knows(m, words, opts)
    ensures forall i, j :: 0 <= i < |LineSymbols(words, opts)| && 0 <= j < |LineSymbols(words, opts)[i]|
                           ==> LineSymbols(words, opts)[i][j] in m
  {
    KnowsWordsSymbols(m, words, opts);
  }

  /** `Lookup` for each word. */
  function LookupAll(m: PhonemeMap, words: seq<seq<string>>): (r: seq<seq<int>>)
    requires forall i, j :: 0 <= i < |words| && 0 <= j < |words[i]| ==> words[i][j] in m
    ensures |r| == |words| && forall i :: 0 <= i < |words| ==> r[i] == Lookup(m, words[i])
  {
    seq(|words|, i requires 0 <= i < |words| => Lookup(m, words[i]))
  }

  /** The ids of a line, word by word; every lookup finds its symbol. */
  function LineIds(words: seq<seq<string>>, m: PhonemeMap, opts: Options): (r: seq<seq<int>>)
    requires Knows(m, words, opts)
    ensures forall i, j :: 0 <= i < |LineSymbols(words, opts)| && 0 <= j < |LineSymbols(words, opts)[i]|
                           ==> LineSymbols(words, opts)[i][j] in m
    ensures |r| == |LineSymbols(words, opts)|
    ensures forall i :: 0 <= i < |r| ==> r[i] != [] && r[i] == Lookup(m, LineSymbols(words, opts)[i])
  {
    KnowsLineSymbols(m, words, opts);
    LookupAll(m, LineSymbols(words, opts))
  }

  lemma LookupAppend(m: PhonemeMap, a: seq<string>, b: seq<string>)
    requires forall i :: 0 <= i < |a| ==> a[i] in m
    requires forall i :: 0 <= i < |b| ==> b[i] in m
    ensures forall i :: 0 <= i < |a + b| ==> (a + b)[i] in m
    ensures Lookup(m, a + b) == Lookup(m, a) + Lookup(m, b)
  {
  }

  lemma WordInLine(words: seq<seq<string>>, w: int, opts: Options)
    requires 0 <= w < |words|
    ensures WordVocabulary(words[w], opts) <= LineVocabulary(words, opts)
  {
    forall c | c in WordVocabulary(words[w], opts) ensures c in LineVocabulary(words, opts) {
      WordVocabularyMembers(words[w], opts, c);
      LineVocabularyMembers(words, opts, c);
    }
  }

  /** `PhonemeSymbols` position by position. */
  lemma PhonemeSymbolsAt(p: string, opts: Options)
    ensures var marks := if opts.separateStress then StressRun(p) else 0;
            var ps := PhonemeSymbols(p, opts);
            && |ps| == marks + (if Canonical(p, opts) != [] then 1 else 0)
            && (forall i :: 0 <= i < marks ==> ps[i] == [p[i]])
            && (Canonical(p, opts) != [] ==> ps[marks] == Canonical(p, opts))
  {
  }

  /** Lines 193-199: the id of each leading stress mark, and what follows them. */
  method StressIdsOf(phoneme: string, m: PhonemeMap) returns (ids: seq<int>, rest: string)
    requires StressSymbols[0] in m && StressSymbols[1] in m
    ensures |ids| == StressRun(phoneme) && rest == phoneme[StressRun(phoneme)..]
    ensures forall i :: 0 <= i < |ids| ==> [phoneme[i]] in m && ids[i] == m[[phoneme[i]]]
  {
    ids := [];
    rest := phoneme;
    while rest != [] && IsStress(rest[0])
      invariant |rest| <= |phoneme| && rest == phoneme[|phoneme| - |rest|..]
      invariant StressRun(phoneme) == |phoneme| - |rest| + StressRun(rest)
      invariant |ids| == |phoneme| - |rest|
      invariant forall i :: 0 <= i < |ids| ==> [phoneme[i]] in m && ids[i] == m[[phoneme[i]]]
    {
      var stress := rest[0];
      assert [stress] == StressSymbols[0] || [stress] == StressSymbols[1];
      ids := ids + [m[[stress]]];
      rest := rest[1..];
    }
  }

  /** Lines 191-202: the ids of one phoneme, stress marks first. */
  method PhonemeIdsOf(phoneme: string, m: PhonemeMap, opts: Options) returns (ids: seq<int>)
    requires opts.separateStress ==> StressSymbols[0] in m && StressSymbols[1] in m
    requires Canonical(phoneme, opts) != [] ==> Canonical(phoneme, opts) in m
    ensures forall i :: 0 <= i < |PhonemeSymbols(phoneme, opts)| ==> PhonemeSymbols(phoneme, opts)[i] in m
    ensures ids == Lookup(m, PhonemeSymbols(phoneme, opts))
  {
    ids := [];
    var rest := phoneme;
    if opts.separateStress {
      ids, rest := StressIdsOf(phoneme, m);
    }
    ghost var marks := |ids|;
    assert Canonical(phoneme, opts) == if rest != [] && opts.simplePunctuation then SimplePunctuation(rest) else rest;
    if rest != [] {
      if opts.simplePunctuation {
        rest := SimplePunctuation(rest);
      }
      ids := ids + [m[rest]];
    }
    PhonemeSymbolsAt(phoneme, opts);
    ghost var ps := PhonemeSymbols(phoneme, opts);
    assert |ids| == |ps|;
    assert forall i :: 0 <= i < |ps| ==> ids[i] == m[ps[i]];
  }

  /** Lines 189-203: the ids of one word. */
  method WordIdsOf(word: seq<string>, m: PhonemeMap, opts: Options) returns (ids: seq<int>)
    requires opts.separateStress ==> StressSymbols[0] in m && StressSymbols[1] in m
    requires WordVocabulary(word, opts) <= m.Keys
    ensures forall i :: 0 <= i < |WordSymbols(word, opts)| ==> WordSymbols(word, opts)[i] in m
    ensures ids == Lookup(m, WordSymbols(word, opts))
  {
    ids := [];
    for k := 0 to |word|
      invariant forall i :: 0 <= i < |WordSymbols(word[..k], opts)| ==> WordSymbols(word[..k], opts)[i] in m
      invariant ids == Lookup(m, WordSymbols(word[..k], opts))
    {
      assert word[..k + 1][..k] == word[..k];
      var c := Canonical(word[k], opts);
      if c != [] {
        WordVocabularyMembers(word, opts, c);
      }
      var phonemeIds := PhonemeIdsOf(word[k], m, opts);
      LookupAppend(m, WordSymbols(word[..k], opts), PhonemeSymbols(word[k], opts));
      ids := ids + phonemeIds;
    }
    assert word[..|word|] == word;
  }

  lemma LookupAllAppend(m: PhonemeMap, a: seq<seq<string>>, b: seq<seq<string>>)
    requires forall i, j :: 0 <= i < |a| && 0 <= j < |a[i]| ==> a[i][j] in m
    requires forall i, j :: 0 <= i < |b| && 0 <= j < |b[i]| ==> b[i][j] in m
    ensures forall i, j :: 0 <= i < |a + b| && 0 <= j < |(a + b)[i]| ==> (a + b)[i][j] in m
    ensures LookupAll(m, a + b) == LookupAll(m, a) + LookupAll(m, b)
  {
  }

  lemma OptionalIds(m: PhonemeMap, s: string)
    requires s != [] ==> s in m
    ensures LookupAll(m, Optional1(s)) == if s != [] then [[m[s]]] else []
  {
    if s != [] {
      assert Lookup(m, [s]) == [m[s]];
    }
  }

  lemma LineIdsParts(words: seq<seq<string>>, m: PhonemeMap, opts: Options)
    requires Knows(m, words, opts)
    ensures forall i, j :: 0 <= i < |WordsSymbols(words, opts)| && 0 <= j < |WordsSymbols(words, opts)[i]|
                           ==> WordsSymbols(words, opts)[i][j] in m
    ensures LineIds(words, m, opts)
            == (if opts.bos != [] then [[m[opts.bos]]] else [])
               + LookupAll(m, WordsSymbols(words, opts))
               + (if opts.eos != [] then [[m[opts.eos]]] else [])
  {
    KnowsWordsSymbols(m, words, opts);
    OptionalIds(m, opts.bos);
    OptionalIds(m, opts.eos);
    LookupAllAppend(m, Optional1(opts.bos), WordsSymbols(words, opts));
    LookupAllAppend(m, Optional1(opts.bos) + WordsSymbols(words, opts), Optional1(opts.eos));
  }

  /** Lines 188-205: the ids of the words that have any, in order. */
  lemma WordsSymbolsStep(words: seq<seq<string>>, w: int, opts: Options)
    requires 0 <= w < |words|
    ensures var last := WordSymbols(words[w], opts);
            WordsSymbols(words[..w + 1], opts) == WordsSymbols(words[..w], opts) + (if last != [] then [last] else [])
  {
    assert words[..w + 1][..w] == words[..w];
  }

  method WordsIdsOf(words: seq<seq<string>>, m: PhonemeMap, opts: Options) returns (ids: seq<seq<int>>)
    requires opts.separateStress ==> StressSymbols[0] in m && StressSymbols[1] in m
    requires LineVocabulary(words, opts) <= m.Keys
    ensures forall i, j :: 0 <= i < |WordsSymbols(words, opts)| && 0 <= j < |WordsSymbols(words, opts)[i]|
                           ==> WordsSymbols(words, opts)[i][j] in m
    ensures ids == LookupAll(m, WordsSymbols(words, opts))
  {
    ids := [];
    for w := 0 to |words|
      invariant forall i, j :: 0 <= i < |WordsSymbols(words[..w], opts)| && 0 <= j < |WordsSymbols(words[..w], opts)[i]|
                               ==> WordsSymbols(words[..w], opts)[i][j] in m
      invariant ids == LookupAll(m, WordsSymbols(words[..w], opts))
    {
      ghost var before := WordsSymbols(words[..w], opts);
      WordInLine(words, w, opts);
      var wordIds := WordIdsOf(words[w], m, opts);
      ghost var last := WordSymbols(words[w], opts);
      ghost var added := if last != [] then [last] else [];
      WordsSymbolsStep(words, w, opts);
      LookupAllAppend(m, before, added);
      assert LookupAll(m, added) == if wordIds != [] then [wordIds] else [];
      if wordIds != [] {
        ids := ids + [wordIds];
      }
    }
    assert words[..|words|] == words;
  }

  /** Lines 182-209: the ids of one line, BOS and EOS included. */
  method LineIdsOf(words: seq<seq<string>>, m: PhonemeMap, opts: Options) returns (ids: seq<seq<int>>)
    requires Knows(m, words, opts)
    ensures ids == LineIds(words, m, opts)
  {
    ids := [];
    if opts.bos != [] {
      ids := ids + [[m[opts.bos]]];
    }
    var wordsIds := WordsIdsOf(words, m, opts);
    ids := ids + wordsIds;
    if opts.eos != [] {
      ids := ids + [[m[opts.eos]]];
    }
    LineIdsParts(words, m, opts);
  }

  // ---------------------------------------------------------------------------
  // the output line

  /** `str(p_id)` for each id. */
  function Texts(ids: seq<int>): (r: seq<string>)
    ensures |r| == |ids| && forall i :: 0 <= i < |ids| ==> r[i] == IntToString(ids[i])
  {
    seq(|ids|, i requires 0 <= i < |ids| => IntToString(ids[i]))
  }

  lemma TextsAppend(a: seq<int>, b: seq<int>)
    ensures Texts(a + b) == Texts(a) + Texts(b)
  {
  }

  /** Each word's ids joined by the id separator. */
  function WordTexts(ids: seq<seq<int>>, idSeparator: string): (r: seq<string>)
    ensures |r| == |ids|
  {
    if ids == [] then [] else [Join(idSeparator, Texts(ids[0]))] + WordTexts(ids[1..], idSeparator)
  }

  /** Lines 211-216: the ids of each word joined by the id separator, the words by the word separator text. */
  function IdsText(ids: seq<seq<int>>, wordSepStr: string, idSeparator: string): string
  {
    Join(wordSepStr, WordTexts(ids, idSeparator))
  }

  function Flatten(ids: seq<seq<int>>): (r: seq<int>)
    ensures (forall i :: 0 <= i < |ids| ==> ids[i] != []) && ids != [] ==> r != []
  {
    if ids == [] then [] else ids[0] + Flatten(ids[1..])
  }

  /** With a single space between ids and between words, the text is the ids one after the other. */
  lemma {:induction false} SpacedTextFlattens(ids: seq<seq<int>>)
    requires forall i :: 0 <= i < |ids| ==> ids[i] != []
    ensures IdsText(ids, " ", " ") == Join(" ", Texts(Flatten(ids)))
    decreases |ids|
  {
    if |ids| > 1 {
      var rest := ids[1..];
      var parts := WordTexts(ids, " ");
      assert parts[1..] == WordTexts(rest, " ");
      JoinCons(" ", parts);
      SpacedTextFlattens(rest);
      TextsAppend(ids[0], Flatten(rest));
      JoinAppend(" ", Texts(ids[0]), Texts(Flatten(rest)));
    } else if |ids| == 1 {
      assert Flatten(ids) == ids[0] + Flatten([]);
      assert Flatten(ids) == ids[0];
    }
  }
  /**
   * With the default separators a line of ids reads back: its
   * whitespace-separated words are the ids, each parsing to its number.
   */
  lemma SpacedTextRoundTrip(ids: seq<seq<int>>)
    requires forall i :: 0 <= i < |ids| ==> ids[i] != []
    ensures var words := Words(IdsText(ids, " ", " "));
            |words| == |Flatten(ids)|
            && forall k :: 0 <= k < |words| ==> ParseInt(words[k]) == Some(Flatten(ids)[k])
  {
    SpacedTextFlattens(ids);
    var texts := Texts(Flatten(ids));
    WordsOfJoin(texts);
    forall k | 0 <= k < |texts| ensures ParseInt(texts[k]) == Some(Flatten(ids)[k]) {
      IntRoundTrip(Flatten(ids)[k]);
    }
  }

  /** Lines 223-228: the ids, after the stripped input line and the output separator with `--print-input`. */
  function OutputLine(line: string, idsText: string, opts: Options): string
  {
    if opts.printInput then line + opts.outputSeparator + idsText else idsText
  }

  // ---------------------------------------------------------------------------
  // the whole program

  /** `line.strip()` of each input line. */
  function StripEach(input: seq<string>): (r: seq<string>)
    ensures |r| == |input| && forall i :: 0 <= i < |input| ==> r[i] == Strip(input[i])
  {
    seq(|input|, i requires 0 <= i < |input| => Strip(input[i]))
  }

  /**
   * The stripped lines that are not empty, in order (`NonBlankAppend`); it
   * keeps exactly those lines (`NonBlankKeeps`).
   */
  function NonBlank(stripped: seq<string>): (r: seq<string>)
    ensures |r| <= |stripped|
    ensures forall i :: 0 <= i < |r| ==> r[i] != []
  {
    if stripped == [] then []
    else
      var s := stripped[|stripped| - 1];
      NonBlank(stripped[..|stripped| - 1]) + (if s != [] then [s] else [])
  }

  lemma {:induction false} NonBlankGrows(stripped: seq<string>, i: nat)
    requires i <= |stripped|
    ensures |NonBlank(stripped[..i])| <= |NonBlank(stripped)|
    decreases |stripped|
  {
    if i < |stripped| {
      var n := |stripped| - 1;
      assert stripped[..i] == stripped[..n][..i];
      NonBlankGrows(stripped[..n], i);
    } else {
      assert stripped[..i] == stripped;
    }
  }

  /** The kept lines are exactly the non-empty ones. */
  lemma {:induction false} NonBlankKeeps(stripped: seq<string>)
    ensures forall s :: s in NonBlank(stripped) <==> s in stripped && s != []
  {
    if stripped != [] {
      var n := |stripped| - 1;
      NonBlankKeeps(stripped[..n]);
      assert stripped == stripped[..n] + [stripped[n]];
    }
  }

  /** Filtering a concatenation is concatenating the filtered parts: the order is kept. */
  lemma {:induction false} NonBlankAppend(a: seq<string>, b: seq<string>)
    ensures NonBlank(a + b) == NonBlank(a) + NonBlank(b)
    decreases |b|
  {
    if b == [] {
      assert a + b == a;
    } else {
      var n := |b| - 1;
      assert (a + b)[..|a + b| - 1] == a + b[..n];
      assert (a + b)[|a + b| - 1] == b[n];
      NonBlankAppend(a, b[..n]);
    }
  }

  lemma NonBlankStep(stripped: seq<string>, i: int)
    requires 0 <= i < |stripped|
    ensures NonBlank(stripped[..i + 1]) == NonBlank(stripped[..i]) + (if stripped[i] != [] then [stripped[i]] else [])
  {
    assert stripped[..i + 1][..i] == stripped[..i];
  }

  /** Each line split into words of phonemes. */
  function SplitAll(lines: seq<string>, opts: Options): (r: seq<seq<seq<string>>>)
    requires opts.wordSeparator != [] || lines == []
    ensures |r| == |lines|
    ensures forall i :: 0 <= i < |r| ==> r[i] == SplitLine(lines[i], opts).value
  {
    if lines == [] then [] else SplitAll(lines[..|lines| - 1], opts) + [SplitLine(lines[|lines| - 1], opts).value]
  }

  /** `all_phonemes` after the first pass: the symbols with ids, `,` and `.` when punctuation is folded, and the vocabulary. */
  function AllPhonemes(reserved: PhonemeMap, vocab: set<string>, opts: Options): set<string>
  {
    reserved.Keys + (if opts.simplePunctuation then {",", "."} else {}) + vocab
  }

  /** The map at the end: the reserved symbols, then every phoneme of the first pass in sorted order. */
  ghost function FinalMap(m0: PhonemeMap, vocab: set<string>, opts: Options): PhonemeMap
  {
    var reserved := WithSymbols(m0, ReservedSymbols(opts));
    WithSymbols(reserved, SortedSeq(AllPhonemes(reserved, vocab, opts)))
  }

  lemma LineInVocabulary(split: seq<seq<seq<string>>>, i: int, opts: Options)
    requires 0 <= i < |split|
    ensures LineVocabulary(split[i], opts) <= Vocabulary(split, opts)
  {
    forall c | c in LineVocabulary(split[i], opts) ensures c in Vocabulary(split, opts) {
      LineVocabularyMembers(split[i], opts, c);
      VocabularyMembers(split, opts, c);
    }
  }

  /** The final map has an id for every symbol any line is written with. */
  lemma FinalMapKnows(m0: PhonemeMap, split: seq<seq<seq<string>>>, opts: Options)
    ensures opts.addBlank ==> opts.wordSeparator in FinalMap(m0, Vocabulary(split, opts), opts)
    ensures forall i :: 0 <= i < |split| ==> Knows(FinalMap(m0, Vocabulary(split, opts), opts), split[i], opts)
  {
    var reserved := WithSymbols(m0, ReservedSymbols(opts));
    var m := FinalMap(m0, Vocabulary(split, opts), opts);
    assert opts.bos != [] ==> opts.bos in ReservedSymbols(opts);
    assert opts.eos != [] ==> opts.eos in ReservedSymbols(opts);
    assert opts.addBlank ==> opts.wordSeparator in ReservedSymbols(opts);
    assert opts.separateStress ==> StressSymbols[0] in ReservedSymbols(opts) && StressSymbols[1] in ReservedSymbols(opts);
    forall i | 0 <= i < |split| ensures Knows(m, split[i], opts) {
      LineInVocabulary(split, i, opts);
    }
  }

  /** An id file with dense ids gives a final map with dense ids: no two phonemes share an id. */
  lemma FinalMapDense(m0: PhonemeMap, vocab: set<string>, opts: Options)
    requires Dense(m0)
    ensures Dense(FinalMap(m0, vocab, opts))
  {
    var reserved := WithSymbols(m0, ReservedSymbols(opts));
    WithSymbolsDense(m0, ReservedSymbols(opts));
    WithSymbolsDense(reserved, SortedSeq(AllPhonemes(reserved, vocab, opts)));
  }

  /**
   * The final map holds the id file's phonemes with their ids unchanged, the
   * reserved symbols, `,` and `.` when punctuation is folded, and the
   * vocabulary, and nothing else.
   */
  lemma FinalMapContents(m0: PhonemeMap, vocab: set<string>, opts: Options, p: string)
    ensures p in FinalMap(m0, vocab, opts) <==>
      p in m0 || p in ReservedSymbols(opts) || (opts.simplePunctuation && (p == "," || p == "."))
      || p in vocab
    ensures p in m0 ==> FinalMap(m0, vocab, opts)[p] == m0[p]
  {
    var reserved := WithSymbols(m0, ReservedSymbols(opts));
    var all := AllPhonemes(reserved, vocab, opts);
    var sorted := SortedSeq(all);
    var m := FinalMap(m0, vocab, opts);
    assert m == WithSymbols(reserved, sorted);
    assert p in m <==> p in reserved || p in sorted;
    assert p in reserved <==> p in m0 || p in ReservedSymbols(opts);
    assert p in sorted <==> p in all;
  }

  /** Symbols added from a strictly sorted list get increasing ids in that order. */
  lemma WithSortedIds(base: PhonemeMap, sorted: seq<string>, a: string, b: string)
    requires StrictlySorted(sorted) && a in sorted && b in sorted
    requires a !in base && b !in base && Less(a, b)
    ensures WithSymbols(base, sorted)[a] < WithSymbols(base, sorted)[b]
  {
    var i :| 0 <= i < |sorted| && sorted[i] == a;
    var j :| 0 <= j < |sorted| && sorted[j] == b;
    LessIrreflexive(a);
    if j < i {
      LessAsymmetric(a, b);
    }
    forall x, y | 0 <= x < y < |sorted| ensures sorted[x] != sorted[y] {
      LessIrreflexive(sorted[x]);
    }
    WithSymbolsInOrder(base, sorted);
  }

  /** Lines 167-170: phonemes that had no id before get theirs in sorted order. */
  lemma FinalMapSortedIds(m0: PhonemeMap, vocab: set<string>, opts: Options, a: string, b: string)
    requires a in FinalMap(m0, vocab, opts) && b in FinalMap(m0, vocab, opts)
    requires a !in WithSymbols(m0, ReservedSymbols(opts)) && b !in WithSymbols(m0, ReservedSymbols(opts))
    requires Less(a, b)
    ensures FinalMap(m0, vocab, opts)[a] < FinalMap(m0, vocab, opts)[b]
  {
    var reserved := WithSymbols(m0, ReservedSymbols(opts));
    var sorted := SortedSeq(AllPhonemes(reserved, vocab, opts));
    FinalMapNew(m0, vocab, opts, a);
    FinalMapNew(m0, vocab, opts, b);
    WithSortedIds(reserved, sorted, a, b);
  }

  lemma FinalMapNew(m0: PhonemeMap, vocab: set<string>, opts: Options, a: string)
    requires a in FinalMap(m0, vocab, opts) && a !in WithSymbols(m0, ReservedSymbols(opts))
    ensures var reserved := WithSymbols(m0, ReservedSymbols(opts));
            a in SortedSeq(AllPhonemes(reserved, vocab, opts))
            && FinalMap(m0, vocab, opts) == WithSymbols(reserved, SortedSeq(AllPhonemes(reserved, vocab, opts)))
  {
  }

  /**
   * With dense ids every id printed for a line names exactly one symbol of
   * the final map: it lies in `0 .. |m| - 1`, and two symbols of the line
   * get the same id only when they are the same symbol.
   */
  lemma LineIdsDense(m: PhonemeMap, words: seq<seq<string>>, opts: Options)
    requires Dense(m) && Knows(m, words, opts)
    ensures var ids := LineIds(words, m, opts);
            var syms := LineSymbols(words, opts);
            && (forall w, k :: 0 <= w < |ids| && 0 <= k < |ids[w]| ==> 0 <= ids[w][k] < |m|)
            && (forall w, k, v, l :: 0 <= w < |ids| && 0 <= k < |ids[w]| && 0 <= v < |ids| && 0 <= l < |ids[v]|
                  ==> (ids[w][k] == ids[v][l] <==> syms[w][k] == syms[v][l]))
  {
    var ids := LineIds(words, m, opts);
    var syms := LineSymbols(words, opts);
    forall w, k | 0 <= w < |ids| && 0 <= k < |ids[w]| ensures 0 <= ids[w][k] < |m| && ids[w][k] == m[syms[w][k]] {
      assert ids[w] == Lookup(m, syms[w]);
    }
  }

  /** What the program prints, and the map it ends with. */
  datatype Output = Output(lines: seq<string>, phonemeToId: PhonemeMap)

  /** The printed line for each kept line, written with the ids of `m`. */
  function OutputLines(lines: seq<string>, split: seq<seq<seq<string>>>, m: PhonemeMap, opts: Options): (r: seq<string>)
    requires |split| == |lines| && forall i :: 0 <= i < |split| ==> Knows(m, split[i], opts)
    requires opts.addBlank ==> opts.wordSeparator in m
    ensures |r| == |lines|
  {
    seq(|lines|, i requires 0 <= i < |lines| =>
      OutputLine(lines[i], IdsText(LineIds(split[i], m, opts), WordSepText(m, opts), opts.idSeparator), opts))
  }

  /** The program's result for an id map `m0` read from the id file (empty without one). */
  ghost function Expected(m0: PhonemeMap, input: seq<string>, opts: Options): Output
    requires opts.wordSeparator != [] || NonBlank(StripEach(input)) == []
  {
    var lines := NonBlank(StripEach(input));
    var split := SplitAll(lines, opts);
    var m := FinalMap(m0, Vocabulary(split, opts), opts);
    FinalMapKnows(m0, split, opts);
    Output(OutputLines(lines, split, m, opts), m)
  }

  /**
   * Lines 142-166 for one stripped line: a blank line is passed over, any
   * other is kept with its words of phonemes, which are added to
   * `all_phonemes`.
   */
  method ReadLine(ghost stripped: seq<string>, i: nat, s: string, opts: Options,
                  lines: seq<string>, split: seq<seq<seq<string>>>, ghost all0: set<string>, all: set<string>)
    returns (lines': seq<string>, split': seq<seq<seq<string>>>, all': set<string>)
    requires i < |stripped| && s == stripped[i] && opts.wordSeparator != []
    requires lines == NonBlank(stripped[..i]) && split == SplitAll(lines, opts) && all == all0 + Vocabulary(split, opts)
    ensures lines' == NonBlank(stripped[..i + 1])
    ensures split' == SplitAll(lines', opts)
    ensures all' == all0 + Vocabulary(split', opts)
  {
    NonBlankStep(stripped, i);
    if s == [] {
      return lines, split, all;
    }
    var words := SplitLine(s, opts).value;
    assert (lines + [s])[..|lines|] == lines;
    assert (split + [words])[..|split|] == split;
    lines' := lines + [s];
    split' := split + [words];
    all' := CollectLine(all, words, opts);
  }

  /** Lines 132-166: the first pass, which keeps the stripped lines and their phonemes. */
  method FirstPass(stripped: seq<string>, opts: Options, all0: set<string>)
    returns (err: Option<Error>, lines: seq<string>, split: seq<seq<seq<string>>>, all: set<string>)
    ensures opts.wordSeparator == [] && NonBlank(stripped) != [] <==> err.Some?
    ensures err.Some? ==> err.value == EmptySeparator
    ensures err.None? ==> lines == NonBlank(stripped) && split == SplitAll(lines, opts)
                          && all == all0 + Vocabulary(split, opts)
  {
    lines := [];
    split := [];
    all := all0;
    for i := 0 to |stripped|
      invariant lines == NonBlank(stripped[..i])
      invariant opts.wordSeparator != [] || lines == []
      invariant split == SplitAll(lines, opts)
      invariant all == all0 + Vocabulary(split, opts)
    {
      var s := stripped[i];
      if s != [] && opts.wordSeparator == [] {
        // `str.split` with an empty separator raises
        NonBlankStep(stripped, i);
        NonBlankGrows(stripped, i + 1);
        return Some(EmptySeparator), lines, split, all;
      }
      if opts.wordSeparator == [] {
        NonBlankStep(stripped, i);
      } else {
        lines, split, all := ReadLine(stripped, i, s, opts, lines, split, all0, all);
      }
    }
    assert stripped[..|stripped|] == stripped;
    return None, lines, split, all;
  }

  /** Lines 175-228: the second pass, which prints one line of ids per kept line. */
  method SecondPass(lines: seq<string>, split: seq<seq<seq<string>>>, m: PhonemeMap, wordSepStr: string, opts: Options)
    returns (out: seq<string>)
    requires |split| == |lines| && forall i :: 0 <= i < |split| ==> Knows(m, split[i], opts)
    requires opts.addBlank ==> opts.wordSeparator in m
    requires wordSepStr == WordSepText(m, opts)
    ensures out == OutputLines(lines, split, m, opts)
  {
    out := [];
    for i := 0 to |lines|
      invariant |out| == i
      invariant forall j :: 0 <= j < i ==> out[j] == OutputLines(lines, split, m, opts)[j]
    {
      var ids := LineIdsOf(split[i], m, opts);
      var idsText := IdsText(ids, wordSepStr, opts.idSeparator);
      out := out + [OutputLine(lines[i], idsText, opts)];
    }
  }

  /**
   * The program without its streams: the id file's lines when one is
   * read, the input lines, and the options in; the printed lines and the
   * final map out.
   */
  method Run(idLines: Option<seq<string>>, input: seq<string>, opts: Options) returns (r: Result<Output, Error>)
    ensures idLines.Some? && IdFile(idLines.value).Failure? ==> r == Failure(IdFile(idLines.value).error)
    ensures idLines.None? || IdFile(idLines.value).Success? ==>
      if opts.wordSeparator == [] && NonBlank(StripEach(input)) != [] then r == Failure(EmptySeparator)
      else r == Success(Expected(if idLines.Some? then IdFile(idLines.value).value else map[], input, opts))
  {
    var m: PhonemeMap := map[];
    if idLines.Some? {
      var loaded := LoadIdFile(idLines.value);
      if loaded.Failure? {
        return Failure(loaded.error);
      }
      m := loaded.value;
    }
    ghost var m0 := m;
    var wordSepStr;
    m, wordSepStr := AddReserved(m, opts);
    ghost var reserved := m;
    var all := m.Keys;
    if opts.simplePunctuation {
      all := all + {",", "."};
    }
    var err, lines, split;
    err, lines, split, all := FirstPass(StripEach(input), opts, all);
    if err.Some? {
      return Failure(err.value);
    }
    assert all == AllPhonemes(reserved, Vocabulary(split, opts), opts);
    var sorted := Sorted(all);
    m := AddSymbols(m, sorted);
    assert m == WithSymbols(reserved, SortedSeq(AllPhonemes(reserved, Vocabulary(split, opts), opts)));
    FinalMapKnows(m0, split, opts);
    var out := SecondPass(lines, split, m, wordSepStr, opts);
    return Success(Output(out, m));
  }
}
