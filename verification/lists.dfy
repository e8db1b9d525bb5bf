/**
 Sequence facts the detectors need: duplicate-freedom, keeping first
 occurrences, order-preserving selection, and Python's ordering and sorting
 of strings.
 */
module Lists {

  predicate NoDup<T(==)>(s: seq<T>) {
    forall i, j :: 0 <= i < j < |s| ==> s[i] != s[j]
  }

  /** The elements of `s` that satisfy `keep`, in their original order. */
  function Select<T(!new)>(s: seq<T>, keep: T -> bool): (r: seq<T>)
    ensures forall x :: x in r <==> x in s && keep(x)
    decreases |s|
  {
    if |s| == 0 then []
    else Select(s[..|s| - 1], keep) + (if keep(s[|s| - 1]) then [s[|s| - 1]] else [])
  }

  /** Reference definition of "keep the first occurrence of each element",
      built from the back: the last element survives only if it is new. */
  function Dedupe<T(==,!new)>(s: seq<T>): (r: seq<T>)
    ensures NoDup(r)
    ensures forall x :: x in r <==> x in s
    decreases |s|
  {
    if |s| == 0 then []
    else
      var d := Dedupe(s[..|s| - 1]);
      if s[|s| - 1] in d then d else d + [s[|s| - 1]]
  }

  /** One more element extends the first occurrences of the selected elements
      exactly when it is selected and new. */
  lemma DedupeSelectSnoc<T(!new)>(prefix: seq<T>, x: T, keep: T -> bool)
    ensures var d := Dedupe(Select(prefix, keep));
            Dedupe(Select(prefix + [x], keep)) == if keep(x) && x !in d then d + [x] else d
  {
    var s := prefix + [x];
    assert s[..|s| - 1] == prefix;
    assert Select(s, keep) == Select(prefix, keep) + (if keep(x) then [x] else []);
    var t := Select(s, keep);
    if keep(x) {
      assert t[..|t| - 1] == Select(prefix, keep);
      assert t[|t| - 1] == x;
    } else {
      assert t == Select(prefix, keep);
    }
  }

  /* ----- order-preserving embeddings ----- */

  /** `idx` picks the elements of `a` out of `b` at strictly increasing positions. */
  ghost predicate EmbedsBy<T>(a: seq<T>, b: seq<T>, idx: seq<int>) {
    && |idx| == |a|
    && (forall i :: 0 <= i < |idx| ==> 0 <= idx[i] < |b| && a[i] == b[idx[i]])
    && (forall i, j :: 0 <= i < j < |idx| ==> idx[i] < idx[j])
  }

  ghost predicate IsSubsequence<T>(a: seq<T>, b: seq<T>) {
    exists idx :: EmbedsBy(a, b, idx)
  }

  lemma {:induction false} SelectEmbeds<T(!new)>(s: seq<T>, keep: T -> bool) returns (idx: seq<int>)
    ensures EmbedsBy(Select(s, keep), s, idx)
    decreases |s|
  {
    if |s| == 0 {
      idx := [];
    } else {
      var front := s[..|s| - 1];
      var idx0 := SelectEmbeds(front, keep);
      if keep(s[|s| - 1]) {
        idx := idx0 + [|s| - 1];
      } else {
        idx := idx0;
      }
    }
  }

  lemma {:induction false} DedupeEmbeds<T(!new)>(s: seq<T>) returns (idx: seq<int>)
    ensures EmbedsBy(Dedupe(s), s, idx)
    decreases |s|
  {
    if |s| == 0 {
      idx := [];
    } else {
      var front := s[..|s| - 1];
      var idx0 := DedupeEmbeds(front);
      if s[|s| - 1] in Dedupe(front) {
        idx := idx0;
      } else {
        idx := idx0 + [|s| - 1];
      }
    }
  }

  /** Embeddings compose, so "is a subsequence of" is transitive. */
  lemma ComposeEmbeds<T>(a: seq<T>, b: seq<T>, c: seq<T>, ab: seq<int>, bc: seq<int>) returns (ac: seq<int>)
    requires EmbedsBy(a, b, ab) && EmbedsBy(b, c, bc)
    ensures EmbedsBy(a, c, ac)
  {
    ac := seq(|ab|, k requires 0 <= k < |ab| => bc[ab[k]]);
  }

  /* ----- Python's ordering of strings ----- */

  /** Python `a < b` on strings: lexicographic by code point, a proper prefix first. */
  predicate Less(a: string, b: string)
    decreases |a|
  {
    if |b| == 0 then false
    else if |a| == 0 then true
    else if a[0] != b[0] then a[0] < b[0]
    else Less(a[1..], b[1..])
  }

  lemma {:induction false} LessIrreflexive(a: string)
    ensures !Less(a, a)
    decreases |a|
  {
    if |a| > 0 {
      LessIrreflexive(a[1..]);
    }
  }

  lemma {:induction false} LessTransitive(a: string, b: string, c: string)
    requires Less(a, b) && Less(b, c)
    ensures Less(a, c)
    decreases |a|
  {
    if |a| > 0 && a[0] == b[0] && b[0] == c[0] {
      LessTransitive(a[1..], b[1..], c[1..]);
    }
  }

  lemma {:induction false} LessTotal(a: string, b: string)
    requires a != b
    ensures Less(a, b) || Less(b, a)
    decreases |a|
  {
    if |a| > 0 && |b| > 0 && a[0] == b[0] {
      assert a == [a[0]] + a[1..] && b == [b[0]] + b[1..];
      LessTotal(a[1..], b[1..]);
    }
  }

  lemma {:induction false} LessAsymmetric(a: string, b: string)
    requires Less(a, b)
    ensures !Less(b, a)
    decreases |a|
  {
    if |a| > 0 && a[0] == b[0] {
      LessAsymmetric(a[1..], b[1..]);
    }
  }

  predicate StrictlyAscending(s: seq<string>) {
    forall i, j :: 0 <= i < j < |s| ==> Less(s[i], s[j])
  }

  lemma AscendingNoDup(s: seq<string>)
    requires StrictlyAscending(s)
    ensures NoDup(s)
  {
    forall i, j | 0 <= i < j < |s| ensures s[i] != s[j] {
      LessIrreflexive(s[i]);
    }
  }

  /** Insert one string into a strictly ascending sequence, unless already present. */
  function Insert(x: string, s: seq<string>): (r: seq<string>)
    requires StrictlyAscending(s)
    ensures StrictlyAscending(r)
    ensures forall y :: y in r <==> y == x || y in s
    decreases |s|
  {
    if |s| == 0 then [x]
    else if x == s[0] then s
    else if Less(x, s[0]) then
      assert forall k :: 0 <= k < |s| ==> Less(x, s[k]) by {
        forall k | 0 <= k < |s| ensures Less(x, s[k]) {
          if k > 0 {
            LessTransitive(x, s[0], s[k]);
          }
        }
      }
      [x] + s
    else
      LessTotal(x, s[0]);
      var t := Insert(x, s[1..]);
      assert forall y :: y in s[1..] ==> Less(s[0], y);
      [s[0]] + t
  }

  /** Python `sorted(set(s))`: the distinct elements of `s` in ascending order. */
  function SortUnique(s: seq<string>): (r: seq<string>)
    ensures StrictlyAscending(r)
    ensures forall y :: y in r <==> y in s
    decreases |s|
  {
    if |s| == 0 then [] else Insert(s[|s| - 1], SortUnique(s[..|s| - 1]))
  }

  /** There is only one strictly ascending arrangement of a set of strings,
      so the result of sorting does not depend on the order of the input. */
  lemma {:induction false} AscendingUnique(a: seq<string>, b: seq<string>)
    requires StrictlyAscending(a) && StrictlyAscending(b)
    requires forall y :: y in a <==> y in b
    ensures a == b
    decreases |a|
  {
    assert |b| > 0 ==> b[0] in a;
    if |a| > 0 {
      assert a[0] in b;
      assert b[0] in a;
      if a[0] != b[0] {
        var i :| 0 <= i < |a| && a[i] == b[0];
        var j :| 0 <= j < |b| && b[j] == a[0];
        assert Less(a[0], b[0]) by {
          assert i > 0;
        }
        assert Less(b[0], a[0]) by {
          assert j > 0;
        }
        LessAsymmetric(a[0], b[0]);
      } else {
        forall y ensures y in a[1..] <==> y in b[1..] {
          if y in a[1..] {
            var i :| 1 <= i < |a| && a[i] == y;
            assert Less(a[0], y);
            LessIrreflexive(y);
            assert y in b;
          }
          if y in b[1..] {
            var j :| 1 <= j < |b| && b[j] == y;
            assert Less(b[0], y);
            LessIrreflexive(y);
            assert y in a;
          }
        }
        AscendingUnique(a[1..], b[1..]);
        assert a == [a[0]] + a[1..] && b == [b[0]] + b[1..];
      }
    }
  }
}
