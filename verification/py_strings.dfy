/** The Python `str` operations the phonemizers rely on, with CPython's semantics. */
module PyStrings {
  import opened Wrappers

  /** `c.isspace()`: the characters CPython's `str.split()` and `str.strip()` treat as whitespace. */
  predicate IsSpace(c: char) {
    || '\t' <= c <= '\r'
    || '\U{1c}' <= c <= ' '
    || c == '\U{85}' || c == '\U{a0}' || c == '\U{1680}'
    || '\U{2000}' <= c <= '\U{200a}'
    || c == '\U{2028}' || c == '\U{2029}' || c == '\U{202f}' || c == '\U{205f}' || c == '\U{3000}'
  }

  predicate NoSpace(s: string) {
    forall i :: 0 <= i < |s| ==> !IsSpace(s[i])
  }

  // ---------------------------------------------------------------------------
  // strip

  /** Prepending an element and appending a sequence can be done in either order. */
  lemma ConsAppend<T>(h: T, x: seq<T>, y: seq<T>)
    ensures [h] + (x + y) == ([h] + x) + y
  {
  }

  /** `s.lstrip()`: the suffix of `s` left after its leading whitespace. */
  function LStrip(s: string): (r: string)
    ensures |r| <= |s| && r == s[|s| - |r|..]
    ensures forall i :: 0 <= i < |s| - |r| ==> IsSpace(s[i])
    ensures r != [] ==> !IsSpace(r[0])
  {
    if s != [] && IsSpace(s[0]) then LStrip(s[1..]) else s
  }

  /** `s.rstrip()`: the prefix of `s` left before its trailing whitespace. */
  function RStrip(s: string): (r: string)
    ensures |r| <= |s| && r == s[..|r|]
    ensures forall i :: |r| <= i < |s| ==> IsSpace(s[i])
    ensures r != [] ==> !IsSpace(r[|r| - 1])
  {
    if s != [] && IsSpace(s[|s| - 1]) then RStrip(s[..|s| - 1]) else s
  }

  /** Where `s.strip()` starts inside `s`. */
  function StripStart(s: string): nat
  {
    |s| - |LStrip(s)|
  }

  /**
   * `s.strip()`: the slice of `s` that remains once only whitespace has been
   * taken off both ends, and that neither starts nor ends with whitespace.
   */
  function Strip(s: string): (r: string)
    ensures StripStart(s) + |r| <= |s| && r == s[StripStart(s)..StripStart(s) + |r|]
    ensures forall i :: 0 <= i < StripStart(s) ==> IsSpace(s[i])
    ensures forall i :: StripStart(s) + |r| <= i < |s| ==> IsSpace(s[i])
    ensures r != [] ==> !IsSpace(r[0]) && !IsSpace(r[|r| - 1])
  {
    RStrip(LStrip(s))
  }

  lemma {:induction false} StripIdempotent(s: string)
    ensures Strip(Strip(s)) == Strip(s)
  {
    var r := Strip(s);
    assert LStrip(r) == r;
  }

  // ---------------------------------------------------------------------------
  // split() on whitespace runs

  /** Length of the leading run of non-whitespace characters of `s`. */
  function WordEnd(s: string): (k: nat)
    ensures k <= |s|
    ensures forall i :: 0 <= i < k ==> !IsSpace(s[i])
    ensures k < |s| ==> IsSpace(s[k])
  {
    if s == [] || IsSpace(s[0]) then 0 else 1 + WordEnd(s[1..])
  }

  /** `s.split()`: the maximal runs of non-whitespace characters of `s`, in order. */
  function Words(s: string): (ws: seq<string>)
    ensures forall i :: 0 <= i < |ws| ==> ws[i] != [] && NoSpace(ws[i])
    decreases |s|
  {
    if s == [] then []
    else if IsSpace(s[0]) then Words(s[1..])
    else
      var k := WordEnd(s);
      [s[..k]] + Words(s[k..])
  }

  /** Every character of every word is a character of the text. */
  lemma {:induction false} WordsChars(s: string)
    ensures forall i, j :: 0 <= i < |Words(s)| && 0 <= j < |Words(s)[i]| ==> Words(s)[i][j] in s
    decreases |s|
  {
    if s != [] {
      var ws := Words(s);
      if IsSpace(s[0]) {
        WordsChars(s[1..]);
        forall i, j | 0 <= i < |ws| && 0 <= j < |ws[i]| ensures ws[i][j] in s {
          assert ws[i][j] in s[1..];
        }
      } else {
        var k := WordEnd(s);
        var rest := Words(s[k..]);
        WordsChars(s[k..]);
        forall i, j | 0 <= i < |ws| && 0 <= j < |ws[i]| ensures ws[i][j] in s {
          if i == 0 {
            assert ws[0] == s[..k];
            assert ws[i][j] == s[j];
          } else {
            assert ws[i] == rest[i - 1];
            assert ws[i][j] in s[k..];
          }
        }
      }
    }
  }

  /** A text of whitespace only has no words. */
  lemma {:induction false} WordsOfSpaces(s: string)
    requires forall i :: 0 <= i < |s| ==> IsSpace(s[i])
    ensures Words(s) == []
    decreases |s|
  {
    if s != [] {
      WordsOfSpaces(s[1..]);
    }
  }

  /** A word of `a` ends where `a` does at the latest when whitespace follows `a`. */
  lemma WordEndBeforeSpace(a: string, t: string)
    requires a != [] && !IsSpace(a[0])
    requires t != [] && IsSpace(t[0])
    ensures WordEnd(a + t) == WordEnd(a)
  {
    var k := WordEnd(a);
    var s := a + t;
    assert s[..k] == a[..k];
    assert NoSpace(a[..k]) by {
      forall i | 0 <= i < k ensures !IsSpace(a[..k][i]) {
        assert a[..k][i] == a[i];
      }
    }
    if k < |a| {
      assert s[k] == a[k];
    } else {
      assert s[k] == t[0];
    }
    WordEndOfWord(s, a[..k]);
  }

  /**
   * Whitespace separates words: the words of `a`, a whitespace character and
   * `b` are the words of `a` followed by the words of `b`. With `WordsOfSpaces`
   * and `WordsOfOneWord` this fixes `Words` on every text.
   */
  lemma {:induction false} WordsAcrossSpace(a: string, x: char, b: string)
    requires IsSpace(x)
    ensures Words(a + [x] + b) == Words(a) + Words(b)
    decreases |a|
  {
    var s := a + [x] + b;
    if a == [] {
      assert s[0] == x && s[1..] == b;
    } else if IsSpace(a[0]) {
      assert s[0] == a[0] && s[1..] == a[1..] + [x] + b;
      WordsAcrossSpace(a[1..], x, b);
      assert Words(s) == Words(a[1..] + [x] + b);
    } else {
      var k := WordEnd(a);
      WordsAcrossSpace(a[k..], x, b);
      WordsLeadingWord(a, x, b);
      ConsAppend(a[..k], Words(a[k..]), Words(b));
    }
  }

  /** A leading word of `a` is the first word of `a` and of `a`, whitespace and `b` alike. */
  lemma WordsLeadingWord(a: string, x: char, b: string)
    requires IsSpace(x) && a != [] && !IsSpace(a[0])
    ensures Words(a + [x] + b) == [a[..WordEnd(a)]] + Words(a[WordEnd(a)..] + [x] + b)
    ensures Words(a) == [a[..WordEnd(a)]] + Words(a[WordEnd(a)..])
  {
    var s := a + [x] + b;
    var k := WordEnd(a);
    assert s == a + ([x] + b);
    WordEndBeforeSpace(a, [x] + b);
    assert s[..k] == a[..k];
    assert s[k..] == a[k..] + [x] + b;
  }

  // ---------------------------------------------------------------------------
  // join

  /** `sep.join(parts)`. */
  function Join(sep: string, parts: seq<string>): string
  {
    if |parts| == 0 then ""
    else if |parts| == 1 then parts[0]
    else parts[0] + sep + Join(sep, parts[1..])
  }

  lemma {:induction false} JoinStartsWithFirst(sep: string, parts: seq<string>)
    requires |parts| > 0
    ensures |Join(sep, parts)| >= |parts[0]| && Join(sep, parts)[..|parts[0]|] == parts[0]
  {
    if |parts| > 1 {
      var rest := Join(sep, parts[1..]);
      assert Join(sep, parts) == parts[0] + (sep + rest);
    }
  }

  /** A word followed by whitespace or by nothing is what `WordEnd` measures. */
  lemma {:induction false} WordEndOfWord(s: string, w: string)
    requires NoSpace(w) && |w| <= |s| && s[..|w|] == w
    requires |w| < |s| ==> IsSpace(s[|w|])
    ensures WordEnd(s) == |w|
  {
    assert forall i :: 0 <= i < |w| ==> s[i] == w[i];
  }

  lemma {:induction false} WordsAfterSpace(j: string)
    requires j != [] && !IsSpace(j[0])
    ensures Words(" " + j) == Words(j)
  {
    assert (" " + j)[1..] == j;
  }

  /** The first word of `w + " " + j` is `w`, and the rest are the words of `j`. */
  lemma {:induction false} WordsOfWordSpace(w: string, j: string)
    requires w != [] && NoSpace(w)
    requires j != [] && !IsSpace(j[0])
    ensures Words(w + " " + j) == [w] + Words(j)
  {
    var s := w + " " + j;
    assert s[..|w|] == w && s[|w|] == ' ';
    WordEndOfWord(s, w);
    assert s[|w|..] == " " + j;
    WordsAfterSpace(j);
  }

  lemma {:induction false} JoinCons(sep: string, parts: seq<string>)
    requires |parts| > 1
    ensures Join(sep, parts) == parts[0] + sep + Join(sep, parts[1..])
  {
  }

  /** Joining two non-empty lists is joining each and putting the separator between. */
  lemma {:induction false} JoinAppend(sep: string, a: seq<string>, b: seq<string>)
    requires a != [] && b != []
    ensures Join(sep, a + b) == Join(sep, a) + sep + Join(sep, b)
    decreases |a|
  {
    if |a| > 1 {
      assert (a + b)[1..] == a[1..] + b;
      JoinAppend(sep, a[1..], b);
    } else {
      assert (a + b)[1..] == b;
    }
  }

  lemma {:induction false} JoinOfWordsStartsWithWord(ws: seq<string>)
    requires |ws| > 0 && ws[0] != [] && NoSpace(ws[0])
    ensures Join(" ", ws) != [] && !IsSpace(Join(" ", ws)[0])
  {
    JoinStartsWithFirst(" ", ws);
    assert Join(" ", ws)[0] == ws[0][0];
  }

  lemma {:induction false} WordsOfOneWord(w: string)
    requires w != [] && NoSpace(w)
    ensures Words(w) == [w]
  {
    WordEndOfWord(w, w);
    assert w[|w|..] == [];
  }

  lemma WordsOfJoinStep(ws: seq<string>)
    requires |ws| > 1
    requires forall i :: 0 <= i < |ws| ==> ws[i] != [] && NoSpace(ws[i])
    requires Words(Join(" ", ws[1..])) == ws[1..]
    ensures Words(Join(" ", ws)) == ws
  {
    JoinCons(" ", ws);
    JoinOfWordsStartsWithWord(ws[1..]);
    WordsOfWordSpace(ws[0], Join(" ", ws[1..]));
    assert Words(Join(" ", ws)) == [ws[0]] + Words(Join(" ", ws[1..]));
  }

  /** Splitting on whitespace undoes joining words with one space. */
  lemma {:induction false} WordsOfJoin(ws: seq<string>)
    requires forall i :: 0 <= i < |ws| ==> ws[i] != [] && NoSpace(ws[i])
    ensures Words(Join(" ", ws)) == ws
  {
    if |ws| == 1 {
      WordsOfOneWord(ws[0]);
    } else if |ws| > 1 {
      WordsOfJoin(ws[1..]);
      WordsOfJoinStep(ws);
    }
  }

  // ---------------------------------------------------------------------------
  // split(sep)

  /** `sep` occurs in `s` starting at index `i`. */
  predicate OccursAt(s: string, sep: string, i: int) {
    0 <= i && i + |sep| <= |s| && s[i..i + |sep|] == sep
  }

  lemma {:induction false} OccursAtTail(s: string, sep: string, j: int)
    requires s != [] && 0 <= j
    ensures OccursAt(s[1..], sep, j) <==> OccursAt(s, sep, j + 1)
  {
    if j + |sep| <= |s| - 1 {
      assert s[1..][j..j + |sep|] == s[j + 1..j + 1 + |sep|];
    }
  }

  /** An occurrence that ends by index `n` is one of the prefix `s[..n]` too. */
  lemma OccursInPrefix(s: string, sep: string, n: nat, j: int)
    requires n <= |s| && 0 <= j && j + |sep| <= n
    ensures OccursAt(s, sep, j) ==> OccursAt(s[..n], sep, j)
  {
    if OccursAt(s, sep, j) {
      assert s[..n][j..j + |sep|] == s[j..j + |sep|];
    }
  }

  lemma {:induction false} OccursAtPrefix(s: string, sep: string, n: nat, j: int)
    requires n <= |s|
    ensures OccursAt(s[..n], sep, j) ==> OccursAt(s, sep, j)
  {
    if OccursAt(s[..n], sep, j) {
      assert s[..n][j..j + |sep|] == s[j..j + |sep|];
    }
  }

  /** `s.find(sep)` for a non-empty `sep`: the first index where `sep` occurs. */
  function Find(s: string, sep: string): (r: Option<nat>)
    requires sep != []
    ensures r.Some? ==> OccursAt(s, sep, r.value)
    ensures r.Some? ==> forall j :: 0 <= j < r.value ==> !OccursAt(s, sep, j)
    ensures r.None? ==> forall j :: !OccursAt(s, sep, j)
    decreases |s|
  {
    if |s| < |sep| then None
    else if s[..|sep|] == sep then Some(0)
    else
      var rest := Find(s[1..], sep);
      assert !OccursAt(s, sep, 0);
      assert forall j :: 1 <= j ==> (OccursAt(s, sep, j) <==> OccursAt(s[1..], sep, j - 1)) by {
        forall j | 1 <= j ensures OccursAt(s, sep, j) <==> OccursAt(s[1..], sep, j - 1) {
          OccursAtTail(s, sep, j - 1);
        }
      }
      match rest
      case None => None
      case Some(i) => Some(i + 1)
  }

  /** `Find` answers `i` when `sep` occurs at `i` and nowhere before. */
  lemma FindAt(s: string, sep: string, i: nat)
    requires sep != [] && OccursAt(s, sep, i)
    requires forall j :: 0 <= j < i ==> !OccursAt(s, sep, j)
    ensures Find(s, sep) == Some(i)
  {
  }

  /**
   * `s.split(sep)` for a non-empty `sep` (CPython rejects an empty one): the
   * pieces between the non-overlapping occurrences of `sep`, left to right.
   * Joining them with `sep` gives `s` back, no piece contains `sep`, and each
   * separator between two pieces is the leftmost occurrence after the piece
   * before it.
   */
  function Split(s: string, sep: string): (parts: seq<string>)
    requires sep != []
    ensures |parts| >= 1
    ensures Join(sep, parts) == s
    ensures forall k, j :: 0 <= k < |parts| ==> !OccursAt(parts[k], sep, j)
    decreases |s|
  {
    match Find(s, sep)
    case None => [s]
    case Some(i) =>
      var rest := Split(s[i + |sep|..], sep);
      assert s == s[..i] + sep + s[i + |sep|..] by {
        assert s[i..i + |sep|] == sep;
      }
      assert forall j :: !OccursAt(s[..i], sep, j) by {
        forall j {
          OccursAtPrefix(s, sep, i, j);
        }
      }
      [s[..i]] + rest
  }

  /** Each separator `Split` cuts at is the leftmost occurrence after the piece before it. */
  lemma {:induction false} SplitLeftmost(s: string, sep: string)
    requires sep != []
    ensures forall k :: 0 <= k < |Split(s, sep)| - 1 ==> Find(Split(s, sep)[k] + sep, sep) == Some(|Split(s, sep)[k]|)
    decreases |s|
  {
    match Find(s, sep)
    case None =>
    case Some(i) =>
      var parts := Split(s, sep);
      var rest := Split(s[i + |sep|..], sep);
      assert parts == [s[..i]] + rest;
      SplitLeftmost(s[i + |sep|..], sep);
      LeftmostPiece(s, sep, i);
      forall k | 0 <= k < |parts| - 1 ensures Find(parts[k] + sep, sep) == Some(|parts[k]|) {
        if k == 0 {
          assert parts[0] == s[..i] && |s[..i]| == i;
        } else {
          assert parts[k] == rest[k - 1];
          assert Find(rest[k - 1] + sep, sep) == Some(|rest[k - 1]|);
        }
      }
  }

  /** The piece before the first separator, followed by it, first meets the separator right after the piece. */
  lemma LeftmostPiece(s: string, sep: string, i: nat)
    requires sep != [] && Find(s, sep) == Some(i)
    ensures Find(s[..i] + sep, sep) == Some(i)
  {
    var t := s[..i + |sep|];
    assert t == s[..i] + sep by {
      assert s[i..i + |sep|] == sep;
    }
    forall j | 0 <= j < i ensures !OccursAt(t, sep, j) {
      OccursAtPrefix(s, sep, i + |sep|, j);
    }
    assert t[i..i + |sep|] == sep;
    FindAt(t, sep, i);
  }

  /**
   * The pieces of `Split` are the only ones that join back to `s`, contain no
   * `sep`, and have each separator as the leftmost occurrence after the piece
   * before it.
   */
  lemma {:induction false} SplitUnique(s: string, sep: string, parts: seq<string>)
    requires sep != [] && |parts| >= 1 && Join(sep, parts) == s
    requires forall k :: 0 <= k < |parts| - 1 ==> Find(parts[k] + sep, sep) == Some(|parts[k]|)
    requires forall k, j :: 0 <= k < |parts| ==> !OccursAt(parts[k], sep, j)
    ensures Split(s, sep) == parts
    decreases |parts|
  {
    if |parts| == 1 {
      assert Find(s, sep).None?;
    } else {
      var p := parts[0];
      var rest := Join(sep, parts[1..]);
      JoinCons(sep, parts);
      assert s[..|p| + |sep|] == p + sep;
      assert s[|p|..|p| + |sep|] == sep;
      forall j | 0 <= j < |p| ensures !OccursAt(s, sep, j) {
        OccursInPrefix(s, sep, |p| + |sep|, j);
      }
      FindAt(s, sep, |p|);
      assert s[..|p|] == p;
      assert s[|p| + |sep|..] == rest;
      SplitUnique(rest, sep, parts[1..]);
    }
  }

  /** When `sep` cannot start inside `w`, it occurs nowhere in `w`, and first right after `w` in `w + sep`. */
  lemma SeparatorAfter(w: string, sep: string)
    requires sep != [] && sep[0] !in w
    ensures forall j :: !OccursAt(w, sep, j)
    ensures Find(w + sep, sep) == Some(|w|)
  {
    forall j | 0 <= j < |w| ensures !OccursAt(w + sep, sep, j) && !OccursAt(w, sep, j) {
      assert (w + sep)[j] == w[j];
      if j + |sep| <= |w| {
        assert w[j..j + |sep|][0] == w[j];
      }
      if j + |sep| <= |w + sep| {
        assert (w + sep)[j..j + |sep|][0] == w[j];
      }
    }
    assert (w + sep)[|w|..|w| + |sep|] == sep;
    FindAt(w + sep, sep, |w|);
  }

  // ---------------------------------------------------------------------------
  // replacing one character

  /** `s` with every occurrence of the character `c` replaced by the string `t`. */
  function Replace(s: string, c: char, t: string): string
  {
    if s == [] then [] else (if s[0] == c then t else [s[0]]) + Replace(s[1..], c, t)
  }

  lemma {:induction false} ReplaceAppend(a: string, b: string, c: char, t: string)
    ensures Replace(a + b, c, t) == Replace(a, c, t) + Replace(b, c, t)
  {
    if a != [] {
      assert (a + b)[1..] == a[1..] + b;
      ReplaceAppend(a[1..], b, c, t);
    } else {
      assert a + b == b;
    }
  }

  lemma {:induction false} ReplaceHead(c: char, tail: string, t: string)
    ensures Replace([c] + tail, c, t) == t + Replace(tail, c, t)
  {
    assert ([c] + tail)[1..] == tail;
  }

  lemma {:induction false} ReplaceAbsent(s: string, c: char, t: string)
    requires c !in s
    ensures Replace(s, c, t) == s
  {
    if s != [] {
      ReplaceAbsent(s[1..], c, t);
    }
  }

  /** Replacing `c` by `t` leaves the count of every other character not in `t` alone. */
  lemma {:induction false} ReplaceKeepsOthers(s: string, c: char, t: string, x: char)
    requires x != c && x !in t
    ensures multiset(Replace(s, c, t))[x] == multiset(s)[x]
  {
    if s != [] {
      ReplaceKeepsOthers(s[1..], c, t, x);
      assert s == [s[0]] + s[1..];
      assert multiset(if s[0] == c then t else [s[0]])[x] == multiset([s[0]])[x];
    }
  }

  /** Where `Find` puts the first occurrence of a one-character separator. */
  lemma {:induction false} FindChar(s: string, c: char)
    ensures Find(s, [c]).None? ==> c !in s
    ensures Find(s, [c]).Some? ==> var i := Find(s, [c]).value; i < |s| && s[i] == c && c !in s[..i]
  {
    forall j | 0 <= j < |s| && s[j] == c ensures OccursAt(s, [c], j) {
      assert s[j..j + 1] == [c];
    }
    if Find(s, [c]).Some? {
      var i := Find(s, [c]).value;
      assert s[i..i + 1] == [c];
    }
  }

  /** One step of `JoinSplitIsReplace`: the text up to the first `c`, then the rest. */
  lemma {:induction false} JoinReplaceStep(head: string, tail: string, rest: seq<string>, c: char, t: string)
    requires c !in head && |rest| >= 1
    requires Join(t, rest) == Replace(tail, c, t)
    ensures Join(t, [head] + rest) == Replace(head + [c] + tail, c, t)
  {
    calc {
      Join(t, [head] + rest);
      { JoinCons(t, [head] + rest); assert ([head] + rest)[1..] == rest; }
      head + t + Replace(tail, c, t);
      { ReplaceAbsent(head, c, t); ReplaceHead(c, tail, t); }
      Replace(head, c, t) + Replace([c] + tail, c, t);
      { ReplaceAppend(head, [c] + tail, c, t); assert head + [c] + tail == head + ([c] + tail); }
      Replace(head + [c] + tail, c, t);
    }
  }

  /**
   * `t.join(s.split(c))` for a single character `c` replaces each `c` by `t`
   * and leaves every other character where it was.
   */
  lemma {:induction false} JoinSplitIsReplace(s: string, c: char, t: string)
    ensures Join(t, Split(s, [c])) == Replace(s, c, t)
    decreases |s|
  {
    FindChar(s, c);
    match Find(s, [c])
    case None =>
      ReplaceAbsent(s, c, t);
    case Some(i) =>
      var head, tail := s[..i], s[i + 1..];
      assert Split(s, [c]) == [head] + Split(tail, [c]);
      JoinSplitIsReplace(tail, c, t);
      JoinReplaceStep(head, tail, Split(tail, [c]), c, t);
      assert s == head + [c] + tail;
  }
}
