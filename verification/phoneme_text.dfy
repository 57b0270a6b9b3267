/**
 * The regular-expression rewrites both phonemizers apply to the engine's
 * phoneme text: dropping language-switch flags such as `(en)`, dropping the
 * stress marks, and squeezing runs of the phoneme separator.
 */
module PhonemeText {
  import opened Wrappers
  import PyStrings

  /** `ˈ` (U+02C8) and `ˌ` (U+02CC), the IPA primary and secondary stress marks. */
  const PrimaryStress: char := '\U{02C8}'
  const SecondaryStress: char := '\U{02CC}'

  predicate IsStress(c: char) {
    c == PrimaryStress || c == SecondaryStress
  }

  predicate NoStress(s: string) {
    forall i :: 0 <= i < |s| ==> !IsStress(s[i])
  }

  // ---------------------------------------------------------------------------
  // LANG_SWITCH_FLAG = \([^)]*\)

  /** Index of the first `)` in `s`. */
  function CloseParen(s: string): (r: Option<nat>)
    ensures r.Some? ==> r.value < |s| && s[r.value] == ')' && ')' !in s[..r.value]
    ensures r.None? ==> ')' !in s
  {
    if s == [] then None
    else if s[0] == ')' then Some(0)
    else match CloseParen(s[1..])
      case None => None
      case Some(k) =>
        assert s[..k + 1] == [s[0]] + s[1..][..k];
        Some(k + 1)
  }

  /**
   * The pattern `\([^)]*\)` matches nowhere in `s`: no `(` has a `)` anywhere
   * after it (the first `)` after a `(` would close a match).
   */
  predicate NoLangFlag(s: string) {
    forall i, j :: 0 <= i < j < |s| && s[i] == '(' ==> s[j] != ')'
  }

  lemma {:induction false} NoLangFlagCons(c: char, r: string)
    requires NoLangFlag(r)
    requires c == '(' ==> ')' !in r
    ensures NoLangFlag([c] + r)
  {
    var s := [c] + r;
    forall i, j | 0 <= i < j < |s| && s[i] == '(' ensures s[j] != ')' {
      if i > 0 {
        assert s[i] == r[i - 1] && s[j] == r[j - 1];
      } else {
        assert s[j] == r[j - 1];
      }
    }
  }

  /**
   * `LANG_SWITCH_FLAG.sub("", s)`: scanning left to right, a `(` that has a
   * `)` after it is deleted together with everything up to and including the
   * first such `)`; every other character is kept. The result has no flag
   * left, and is built only from characters of `s`.
   */
  function RemoveLangFlags(s: string): (r: string)
    ensures NoLangFlag(r)
    ensures |r| <= |s|
    ensures forall c :: c in r ==> c in s
    decreases |s|
  {
    if s == [] then []
    else if s[0] == '(' && CloseParen(s[1..]).Some? then
      var k := CloseParen(s[1..]).value;
      RemoveLangFlags(s[k + 2..])
    else
      var rest := RemoveLangFlags(s[1..]);
      NoLangFlagCons(s[0], rest);
      [s[0]] + rest
  }

  /** Text without a flag is left alone, and only such text is. */
  lemma {:induction false} LangFlagFixedPoints(s: string)
    ensures RemoveLangFlags(s) == s <==> NoLangFlag(s)
    decreases |s|
  {
    if NoLangFlag(s) && s != [] {
      assert NoLangFlag(s[1..]) by {
        forall i, j | 0 <= i < j < |s[1..]| && s[1..][i] == '(' ensures s[1..][j] != ')' {
          assert s[i + 1] == '(';
        }
      }
      if s[0] == '(' {
        assert ')' !in s[1..] by {
          forall j | 0 <= j < |s[1..]| ensures s[1..][j] != ')' {
            assert s[j + 1] == s[1..][j];
          }
        }
      }
      LangFlagFixedPoints(s[1..]);
      assert s == [s[0]] + s[1..];
    }
  }

  lemma RemoveLangFlagsIdempotent(s: string)
    ensures RemoveLangFlags(RemoveLangFlags(s)) == RemoveLangFlags(s)
  {
    LangFlagFixedPoints(RemoveLangFlags(s));
  }

  /** The first `)` of `f + ")" + b` is the one after `f` when `f` has none. */
  lemma CloseParenAfter(f: string, b: string)
    requires ')' !in f
    ensures CloseParen(f + ")" + b) == Some(|f|)
  {
    var t := f + ")" + b;
    assert t[|f|] == ')';
    assert t[..|f|] == f;
  }

  /**
   * Where a flag goes: text before the first `(` is kept as it is, and a flag
   * `(f)` right after it is deleted whole, with the rest of the text rewritten
   * on its own.
   */
  lemma {:induction false} RemoveLangFlagsSkip(a: string, f: string, b: string)
    requires '(' !in a && ')' !in f
    ensures RemoveLangFlags(a + "(" + f + ")" + b) == a + RemoveLangFlags(b)
    decreases |a|
  {
    var s := a + "(" + f + ")" + b;
    if a == [] {
      assert s[1..] == f + ")" + b;
      CloseParenAfter(f, b);
      assert s[|f| + 2..] == b;
    } else {
      assert s[0] == a[0];
      assert s[1..] == a[1..] + "(" + f + ")" + b;
      RemoveLangFlagsSkip(a[1..], f, b);
      assert a == [a[0]] + a[1..];
    }
  }

  /**
   * The flags the engine puts around a word on a language switch, such as
   * `(en)` before it and `(fr)` after it, disappear and leave the word.
   */
  lemma {:induction false} FlaggedWord(f: string, w: string, g: string)
    requires ')' !in f && '(' !in w && ')' !in g
    ensures RemoveLangFlags("(" + f + ")" + w + "(" + g + ")") == w
  {
    var tail := w + "(" + g + ")";
    RemoveLangFlagsSkip(w, g, "");
    assert tail + "" == tail;
    RemoveLangFlagsSkip("", f, tail);
    var s := "(" + f + ")" + w + "(" + g + ")";
    assert "" + "(" + f + ")" + tail == s by {
      assert "" + "(" + f + ")" == "(" + f + ")";
      assert s == ("(" + f + ")") + tail;
    }
  }

  // ---------------------------------------------------------------------------
  // STRESS_PATTERN = [ˈˌ]

  /**
   * `STRESS_PATTERN.sub("", s)`: no stress mark is left (every other
   * character is kept as often as it occurs, `RemoveStressCounts`, and in
   * order, `RemoveStressAppend`).
   */
  function RemoveStress(s: string): (r: string)
    ensures NoStress(r)
  {
    if s == [] then []
    else (if IsStress(s[0]) then [] else [s[0]]) + RemoveStress(s[1..])
  }

  /** Stress removal keeps every other character exactly as often as it occurs. */
  lemma {:induction false} RemoveStressCounts(s: string)
    ensures forall c :: !IsStress(c) ==> multiset(RemoveStress(s))[c] == multiset(s)[c]
  {
    if s != [] {
      RemoveStressCounts(s[1..]);
      assert s == [s[0]] + s[1..];
      var kept := if IsStress(s[0]) then [] else [s[0]];
      assert multiset(RemoveStress(s)) == multiset(kept) + multiset(RemoveStress(s[1..]));
      assert multiset(s) == multiset([s[0]]) + multiset(s[1..]);
    }
  }

  /** Stress-free text is left alone, and only such text is. */
  lemma {:induction false} StressFixedPoints(s: string)
    ensures RemoveStress(s) == s <==> NoStress(s)
  {
    if NoStress(s) && s != [] {
      StressFixedPoints(s[1..]);
      assert s == [s[0]] + s[1..];
    }
  }

  lemma RemoveStressIdempotent(s: string)
    ensures RemoveStress(RemoveStress(s)) == RemoveStress(s)
  {
    StressFixedPoints(RemoveStress(s));
  }

  /**
   * Stress removal works character by character, in order: on a
   * concatenation it is the concatenation of the parts' removals (a single
   * mark becomes empty and any other character stays, by the contract and
   * `StressFixedPoints`).
   */
  lemma {:induction false} RemoveStressAppend(a: string, b: string)
    ensures RemoveStress(a + b) == RemoveStress(a) + RemoveStress(b)
    decreases |a|
  {
    if a == [] {
      assert a + b == b;
    } else {
      var ab := a + b;
      assert ab[0] == a[0] && ab[1..] == a[1..] + b;
      RemoveStressAppend(a[1..], b);
      RemoveStressCons(ab);
      RemoveStressCons(a);
      var kept := if IsStress(a[0]) then [] else [a[0]];
      assert kept + (RemoveStress(a[1..]) + RemoveStress(b)) == (kept + RemoveStress(a[1..])) + RemoveStress(b);
    }
  }

  /** The first character goes when it is a stress mark and stays otherwise. */
  lemma RemoveStressCons(s: string)
    requires s != []
    ensures RemoveStress(s) == (if IsStress(s[0]) then [] else [s[0]]) + RemoveStress(s[1..])
  {
  }

  // ---------------------------------------------------------------------------
  // "[" + re.escape(sep) + "]+" -> sep

  /** No two adjacent characters of `s` are both `c` (by index: `NoDoubledAt`). */
  predicate NoDoubled(s: string, c: char) {
    |s| < 2 || (!(s[0] == c && s[1] == c) && NoDoubled(s[1..], c))
  }

  /** `NoDoubled` read by index: no position holds `c` with `c` right after it. */
  lemma {:induction false} NoDoubledAt(s: string, c: char)
    ensures NoDoubled(s, c) <==> forall i :: 0 <= i < |s| - 1 ==> !(s[i] == c && s[i + 1] == c)
    decreases |s|
  {
    if |s| >= 2 {
      var t := s[1..];
      NoDoubledAt(t, c);
      assert forall i :: 0 <= i < |t| ==> t[i] == s[i + 1];
    }
  }

  /** `s` without its leading run of `c`: the suffix after every leading `c`. */
  function DropRun(s: string, c: char): (r: string)
    ensures |r| <= |s| && r == s[|s| - |r|..]
    ensures forall i :: 0 <= i < |s| - |r| ==> s[i] == c
    ensures r != [] ==> r[0] != c
  {
    if s != [] && s[0] == c then DropRun(s[1..], c) else s
  }

  /** Dropping the leading run keeps every other character as often as it occurs. */
  lemma {:induction false} DropRunCounts(s: string, c: char)
    ensures forall x :: x != c ==> multiset(DropRun(s, c))[x] == multiset(s)[x]
  {
    if s != [] && s[0] == c {
      DropRunCounts(s[1..], c);
      assert s == [s[0]] + s[1..];
      assert multiset(s) == multiset([c]) + multiset(s[1..]);
    }
  }

  /**
   * The separator clean-up: every maximal run of `c` becomes a single `c`.
   * No two adjacent `c` remain, and the first character is unchanged.
   */
  function CollapseRuns(s: string, c: char): (r: string)
    ensures NoDoubled(r, c)
    ensures (r == []) == (s == []) && (r != [] ==> r[0] == s[0])
    decreases |s|
  {
    if s == [] then []
    else if s[0] == c then
      var rest := CollapseRuns(DropRun(s, c), c);
      assert ([c] + rest)[1..] == rest;
      [c] + rest
    else
      var rest := CollapseRuns(s[1..], c);
      assert s == [s[0]] + s[1..];
      assert ([s[0]] + rest)[1..] == rest;
      [s[0]] + rest
  }

  /** Squeezing runs of `c` keeps every other character as often as it was. */
  lemma {:induction false} CollapseKeepsOthers(s: string, c: char)
    ensures forall x :: x != c ==> multiset(CollapseRuns(s, c))[x] == multiset(s)[x]
    decreases |s|
  {
    if s != [] {
      if s[0] == c {
        var d := DropRun(s, c);
        DropRunCounts(s, c);
        CollapseKeepsOthers(d, c);
        forall x | x != c ensures multiset(CollapseRuns(s, c))[x] == multiset(s)[x] {
          MultisetCons(c, CollapseRuns(d, c), x);
        }
      } else {
        CollapseKeepsOthers(s[1..], c);
        assert s == [s[0]] + s[1..];
        forall x | x != c ensures multiset(CollapseRuns(s, c))[x] == multiset(s)[x] {
          MultisetCons(s[0], CollapseRuns(s[1..], c), x);
          MultisetCons(s[0], s[1..], x);
        }
      }
    }
  }

  lemma MultisetCons(a: char, t: string, x: char)
    ensures multiset([a] + t)[x] == multiset(t)[x] + (if a == x then 1 else 0)
  {
    assert multiset([a] + t) == multiset{a} + multiset(t);
  }

  /** Squeezing runs of `c` leaves a `c` exactly where there was one to squeeze. */
  lemma {:induction false} CollapseKeepsSeparator(s: string, c: char)
    ensures c in CollapseRuns(s, c) <==> c in s
    decreases |s|
  {
    if s != [] && s[0] != c {
      var rest := CollapseRuns(s[1..], c);
      CollapseKeepsSeparator(s[1..], c);
      assert CollapseRuns(s, c) == [s[0]] + rest;
      assert c in s <==> c in s[1..] by {
        assert s == [s[0]] + s[1..];
      }
    } else if s != [] {
      assert CollapseRuns(s, c)[0] == c;
    }
  }

  /** Text with no doubled `c` is left alone, and only such text is. */
  lemma {:induction false} CollapseFixedPoints(s: string, c: char)
    ensures CollapseRuns(s, c) == s <==> NoDoubled(s, c)
    decreases |s|
  {
    if NoDoubled(s, c) && s != [] {
      assert NoDoubled(s[1..], c);
      CollapseFixedPoints(s[1..], c);
      if s[0] == c {
        assert DropRun(s, c) == DropRun(s[1..], c);
        assert |s| > 1 ==> s[1] != c;
        assert DropRun(s[1..], c) == s[1..];
      }
      assert s == [s[0]] + s[1..];
    }
  }

  lemma CollapseRunsIdempotent(s: string, c: char)
    ensures CollapseRuns(CollapseRuns(s, c), c) == CollapseRuns(s, c)
  {
    CollapseFixedPoints(CollapseRuns(s, c), c);
  }

  /** Dropping the leading run of `a + b` stops inside `a` unless `a` is all `c`. */
  lemma {:induction false} DropRunAppend(a: string, b: string, c: char)
    ensures DropRun(a + b, c) == if DropRun(a, c) == [] then DropRun(b, c) else DropRun(a, c) + b
    decreases |a|
  {
    if a == [] {
      assert a + b == b;
    } else if a[0] == c {
      assert (a + b)[0] == c;
      assert (a + b)[1..] == a[1..] + b;
      DropRunAppend(a[1..], b, c);
    } else {
      assert (a + b)[0] == a[0];
    }
  }

  /** A whole run of `c` becomes one `c`. */
  lemma CollapseRun(s: string, c: char)
    requires s != [] && forall i :: 0 <= i < |s| ==> s[i] == c
    ensures CollapseRuns(s, c) == [c]
  {
    assert DropRun(s, c) == [];
  }

  /**
   * Squeezing works piece by piece wherever the cut does not fall inside a
   * run of `c`: with a single character left alone (`CollapseFixedPoints`)
   * and a run becoming one `c` (`CollapseRun`), this fixes the result.
   */
  lemma {:induction false} CollapseAppend(a: string, b: string, c: char)
    requires a == [] || b == [] || a[|a| - 1] != c || b[0] != c
    ensures CollapseRuns(a + b, c) == CollapseRuns(a, c) + CollapseRuns(b, c)
    decreases |a|
  {
    if a == [] {
      assert a + b == b;
    } else if a[0] != c {
      CollapseAppend(a[1..], b, c);
      CollapseCons(a, b, c);
      PyStrings.ConsAppend(a[0], CollapseRuns(a[1..], c), CollapseRuns(b, c));
    } else if DropRun(a, c) == [] {
      CollapseAppendRun(a, b, c);
    } else {
      var d := DropRun(a, c);
      assert |d| < |a| by {
        assert DropRun(a, c) == DropRun(a[1..], c);
      }
      assert d[|d| - 1] == a[|a| - 1];
      CollapseAppend(d, b, c);
      CollapsePastRun(a, b, c);
      PyStrings.ConsAppend(c, CollapseRuns(d, c), CollapseRuns(b, c));
    }
  }

  /** A first character other than `c` is kept, on `a` and on `a + b` alike. */
  lemma CollapseCons(a: string, b: string, c: char)
    requires a != [] && a[0] != c
    ensures CollapseRuns(a + b, c) == [a[0]] + CollapseRuns(a[1..] + b, c)
    ensures CollapseRuns(a, c) == [a[0]] + CollapseRuns(a[1..], c)
  {
    var ab := a + b;
    assert ab[0] == a[0] && ab[1..] == a[1..] + b;
  }

  lemma CollapseAppendRun(a: string, b: string, c: char)
    requires a != [] && a[0] == c && DropRun(a, c) == []
    requires b == [] || b[0] != c
    ensures CollapseRuns(a + b, c) == CollapseRuns(a, c) + CollapseRuns(b, c)
  {
    var ab := a + b;
    assert ab[0] == c;
    DropRunAppend(a, b, c);
    assert DropRun(b, c) == b;
    CollapseLeadingRun(ab, c);
    CollapseLeadingRun(a, c);
  }

  /** A leading run of `c` becomes one `c`. */
  lemma CollapseLeadingRun(s: string, c: char)
    requires s != [] && s[0] == c
    ensures CollapseRuns(s, c) == [c] + CollapseRuns(DropRun(s, c), c)
  {
  }

  /** A leading run that stops inside `a` becomes one `c`, on `a` and on `a + b` alike. */
  lemma CollapsePastRun(a: string, b: string, c: char)
    requires a != [] && a[0] == c && DropRun(a, c) != []
    ensures CollapseRuns(a + b, c) == [c] + CollapseRuns(DropRun(a, c) + b, c)
    ensures CollapseRuns(a, c) == [c] + CollapseRuns(DropRun(a, c), c)
  {
    var ab := a + b;
    assert ab[0] == c;
    DropRunAppend(a, b, c);
  }

  // ---------------------------------------------------------------------------
  // the two closing rewrites both phonemizers share

  /** Squeezing runs of a character brings in no character the text lacked. */
  lemma CollapseKeepsStressFree(s: string, c: char)
    requires NoStress(s)
    ensures NoStress(CollapseRuns(s, c))
  {
    var r := CollapseRuns(s, c);
    CollapseKeepsOthers(s, c);
    CollapseKeepsSeparator(s, c);
    forall i | 0 <= i < |r| ensures !IsStress(r[i]) {
      if r[i] != c {
        assert multiset(r)[r[i]] > 0;
      }
      assert r[i] in s;
    }
  }

  /**
   * Stress removal when `noStress` is set, then, when there is a phoneme
   * separator `sep`, squeezing every run of `sep` to one. The result is
   * stress-free when asked, never has `sep` twice in a row, and is `s` itself
   * when neither rewrite is asked for.
   */
  function Tidy(s: string, noStress: bool, separator: Option<char>): (r: string)
    ensures noStress ==> NoStress(r)
    ensures separator.Some? ==> NoDoubled(r, separator.value)
    ensures !noStress && separator.None? ==> r == s
  {
    var unstressed := if noStress then RemoveStress(s) else s;
    match separator
    case None => unstressed
    case Some(c) =>
      if noStress then
        CollapseKeepsStressFree(unstressed, c);
        CollapseRuns(unstressed, c)
      else CollapseRuns(unstressed, c)
  }
}
