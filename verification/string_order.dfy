/**
 * Python's ordering of `str` values (code point by code point, a proper
 * prefix first) and `sorted` of a set of strings.
 */
module StringOrder {

  /** `a < b` on Python strings. */
  predicate Less(a: string, b: string)
  {
    if a == [] then b != []
    else b != [] && (a[0] < b[0] || (a[0] == b[0] && Less(a[1..], b[1..])))
  }

  lemma {:induction false} LessIrreflexive(a: string)
    ensures !Less(a, a)
  {
    if a != [] {
      LessIrreflexive(a[1..]);
    }
  }

  lemma {:induction false} LessTransitive(a: string, b: string, c: string)
    requires Less(a, b) && Less(b, c)
    ensures Less(a, c)
  {
    if a != [] && a[0] == b[0] && b[0] == c[0] {
      LessTransitive(a[1..], b[1..], c[1..]);
    }
  }

  /** Two different strings are ordered one way or the other. */
  lemma {:induction false} LessTotal(a: string, b: string)
    requires a != b
    ensures Less(a, b) || Less(b, a)
  {
    if a != [] && b != [] && a[0] == b[0] {
      assert a == [a[0]] + a[1..] && b == [b[0]] + b[1..];
      LessTotal(a[1..], b[1..]);
    }
  }

  lemma {:induction false} LessAsymmetric(a: string, b: string)
    ensures !(Less(a, b) && Less(b, a))
  {
    if Less(a, b) && Less(b, a) {
      LessTransitive(a, b, a);
      LessIrreflexive(a);
    }
  }

  predicate StrictlySorted(s: seq<string>) {
    forall i, j :: 0 <= i < j < |s| ==> Less(s[i], s[j])
  }

  /** `x` put into its place in a strictly sorted sequence that lacks it. */
  function Insert(s: seq<string>, x: string): (r: seq<string>)
    requires StrictlySorted(s) && x !in s
    ensures StrictlySorted(r)
    ensures forall y :: y in r <==> y in s || y == x
    ensures |r| == |s| + 1
  {
    if s == [] then [x]
    else if Less(x, s[0]) then
      forall j | 0 <= j < |s| ensures Less(x, s[j]) {
        if j > 0 {
          LessTransitive(x, s[0], s[j]);
        }
      }
      [x] + s
    else
      LessTotal(x, s[0]);
      var rest := Insert(s[1..], x);
      assert forall y :: y in rest ==> Less(s[0], y) by {
        forall y | y in rest ensures Less(s[0], y) {
          if y != x {
            var j :| 1 <= j < |s| && s[j] == y;
          }
        }
      }
      [s[0]] + rest
  }

  /** Every non-empty set of strings has a least element. */
  lemma {:induction false} MinimumExists(s: set<string>)
    requires s != {}
    ensures exists x :: x in s && forall y :: y in s && y != x ==> Less(x, y)
    decreases |s|
  {
    var z :| z in s;
    if s != {z} {
      MinimumExists(s - {z});
      var x :| x in s - {z} && forall y :: y in s - {z} && y != x ==> Less(x, y);
      LessTotal(x, z);
      if !Less(x, z) {
        forall y | y in s && y != z ensures Less(z, y) {
          if y != x {
            LessTransitive(z, x, y);
          }
        }
      }
    }
  }

  /** The one strictly increasing sequence of the strings of `s`, least first. */
  ghost function SortedSeq(s: set<string>): (r: seq<string>)
    ensures StrictlySorted(r)
    ensures forall y :: y in r <==> y in s
    ensures |r| == |s|
    decreases |s|
  {
    if s == {} then []
    else
      MinimumExists(s);
      var x :| x in s && forall y :: y in s && y != x ==> Less(x, y);
      var rest := SortedSeq(s - {x});
      assert forall j :: 0 <= j < |rest| ==> rest[j] in s - {x};
      [x] + rest
  }

  /** Two strictly sorted sequences of the same strings are equal. */
  lemma {:induction false} SortedUnique(a: seq<string>, b: seq<string>)
    requires StrictlySorted(a) && StrictlySorted(b)
    requires forall y :: y in a <==> y in b
    ensures a == b
    decreases |a|
  {
    if a != [] {
      assert a[0] in b;
    }
    if b != [] {
      assert b[0] in a;
    }
    if a != [] {
      if a[0] != b[0] {
        var i :| 0 <= i < |b| && b[i] == a[0];
        var j :| 0 <= j < |a| && a[j] == b[0];
        LessAsymmetric(a[0], b[0]);
        assert false;
      }
      forall y ensures y in a[1..] <==> y in b[1..] {
        if y in a[1..] {
          var j :| 1 <= j < |a| && a[j] == y;
          LessIrreflexive(a[0]);
          assert y in a && y in b;
          var k :| 0 <= k < |b| && b[k] == y;
          assert b[1..][k - 1] == y;
        }
        if y in b[1..] {
          var j :| 1 <= j < |b| && b[j] == y;
          LessIrreflexive(b[0]);
          assert y in b && y in a;
          var k :| 0 <= k < |a| && a[k] == y;
          assert a[1..][k - 1] == y;
        }
      }
      SortedUnique(a[1..], b[1..]);
    }
  }

  /**
   * `sorted(strings)`: every string exactly once, in increasing order (so
   * without repeats).
   */
  method Sorted(strings: set<string>) returns (r: seq<string>)
    ensures StrictlySorted(r)
    ensures forall y :: y in r <==> y in strings
    ensures |r| == |strings|
    ensures r == SortedSeq(strings)
  {
    r := [];
    var rest := strings;
    while rest != {}
      invariant StrictlySorted(r)
      invariant forall y :: y in r <==> y in strings && y !in rest
      invariant rest <= strings
      invariant |r| + |rest| == |strings|
      decreases |rest|
    {
      var x :| x in rest;
      r := Insert(r, x);
      rest := rest - {x};
    }
    SortedUnique(r, SortedSeq(strings));
  }
}
