/**
 The first two steps both question generators apply to a raw label:
 `label.replace('_', ' ').replace('-', ' ')`, then
 `re.sub(r'([a-z])([A-Z])', r'\1 \2', ...)`, which puts a space at every
 lower-to-upper transition.
 */
module Readable {
  import opened Text

  predicate IsSeparator(c: char) { c == '_' || c == '-' }

  /** Underscores and dashes become spaces; nothing else changes. */
  function SeparatorsToSpaces(s: string): (r: string)
    ensures |r| == |s|
    ensures '_' !in r && '-' !in r
    ensures forall i :: 0 <= i < |s| ==> r[i] == s[i] || (r[i] == ' ' && IsSeparator(s[i]))
  {
    seq(|s|, i requires 0 <= i < |s| => if IsSeparator(s[i]) then ' ' else s[i])
  }

  /** A string without separators is left as it is. */
  lemma SeparatorsToSpacesNoSeparator(s: string)
    requires '_' !in s && '-' !in s
    ensures SeparatorsToSpaces(s) == s
  {
  }

  /** A lower-case letter directly followed by an upper-case one. */
  predicate HumpAt(s: string, i: int) {
    0 <= i < |s| - 1 && IsLowerChar(s[i]) && IsUpperChar(s[i + 1])
  }

  predicate NoHump(s: string) {
    forall i :: 0 <= i < |s| ==> !HumpAt(s, i)
  }

  /** `s` with its spaces removed; what camel-case splitting must preserve. */
  function Squeeze(s: string): string {
    if |s| == 0 then "" else (if s[0] == ' ' then "" else [s[0]]) + Squeeze(s[1..])
  }

  /** The regex substitution scans left to right; a match consumes both letters,
      and the upper-case letter cannot start the next match. */
  function SplitCamelCase(s: string): (r: string)
    ensures NoHump(r)
    ensures Squeeze(r) == Squeeze(s)
    ensures |s| > 0 ==> |r| > 0 && r[0] == s[0]
    ensures forall c :: c in r && c != ' ' ==> c in s
    decreases |s|
  {
    if |s| < 2 then s
    else if IsLowerChar(s[0]) && IsUpperChar(s[1]) then
      var rest := SplitCamelCase(s[2..]);
      var r := [s[0], ' ', s[1]] + rest;
      assert forall i :: !HumpAt(r, i) by {
        forall i | 0 <= i < |r| - 1 ensures !HumpAt(r, i) {
          if i >= 3 {
            assert r[i] == rest[i - 3] && r[i + 1] == rest[i - 2];
            assert !HumpAt(rest, i - 3);
          }
        }
      }
      assert Squeeze(r) == [s[0]] + Squeeze([' ', s[1]] + rest) by {
        assert r[1..] == [' ', s[1]] + rest;
      }
      assert Squeeze([' ', s[1]] + rest) == Squeeze([s[1]] + rest) by {
        assert ([' ', s[1]] + rest)[1..] == [s[1]] + rest;
      }
      assert Squeeze([s[1]] + rest) == [s[1]] + Squeeze(rest) by {
        assert ([s[1]] + rest)[1..] == rest;
      }
      assert Squeeze(s) == [s[0]] + ([s[1]] + Squeeze(s[2..])) by {
        assert s[1..][1..] == s[2..];
      }
      assert forall c :: c in rest ==> c == ' ' || c in s[2..];
      r
    else
      var rest := SplitCamelCase(s[1..]);
      var r := [s[0]] + rest;
      assert forall i :: !HumpAt(r, i) by {
        forall i | 0 <= i < |r| - 1 ensures !HumpAt(r, i) {
          if i >= 1 {
            assert r[i] == rest[i - 1] && r[i + 1] == rest[i];
            assert !HumpAt(rest, i - 1);
          } else {
            assert r[1] == s[1];
          }
        }
      }
      assert r[1..] == rest;
      assert forall c :: c in rest ==> c == ' ' || c in s[1..];
      r
  }

  /** The intended result, position by position: every character of `s`,
      followed by one space where a lower-case letter meets an upper-case one. */
  function SpaceAfterHumps(s: string): string
    decreases |s|
  {
    if |s| == 0 then "" else [s[0]] + (if HumpAt(s, 0) then " " else "") + SpaceAfterHumps(s[1..])
  }

  /** The scan misses no transition: matches never overlap, because the
      upper-case letter a match consumes cannot start another match. */
  lemma {:induction false} SplitCamelCaseSpacesHumps(s: string)
    ensures SplitCamelCase(s) == SpaceAfterHumps(s)
    decreases |s|
  {
    if |s| == 1 {
      assert s[1..] == "";
    } else if |s| >= 2 {
      if HumpAt(s, 0) {
        SplitCamelCaseSpacesHumps(s[2..]);
        assert s[1..][1..] == s[2..];
        assert !HumpAt(s[1..], 0);
        assert SpaceAfterHumps(s[1..]) == [s[1]] + SpaceAfterHumps(s[2..]);
      } else {
        SplitCamelCaseSpacesHumps(s[1..]);
      }
    }
  }

  /** Inserting the spaces keeps every other character, in order. */
  lemma {:induction false} NonBlankSpaceAfterHumps(s: string)
    ensures NonBlank(SpaceAfterHumps(s)) == NonBlank(s)
    decreases |s|
  {
    if |s| > 0 {
      var gap := if HumpAt(s, 0) then " " else "";
      NonBlankSpaceAfterHumps(s[1..]);
      NonBlankConcat([s[0]] + gap, SpaceAfterHumps(s[1..]));
      NonBlankConcat([s[0]], gap);
      assert NonBlank(gap) == "" by {
        if HumpAt(s, 0) {
          assert gap[1..] == "";
        }
      }
      assert [s[0]][1..] == "";
    }
  }

  /** Camel-case splitting adds spaces and nothing else. */
  lemma NonBlankSplitCamelCase(s: string)
    ensures NonBlank(SplitCamelCase(s)) == NonBlank(s)
  {
    SplitCamelCaseSpacesHumps(s);
    NonBlankSpaceAfterHumps(s);
  }

  /** Separators become spaces: blanks stay blanks, the rest is kept. */
  lemma NonBlankSeparatorsToSpaces(s: string)
    ensures NonBlank(SeparatorsToSpaces(s)) == NonBlank(s)
  {
    NonBlankPointwise(SeparatorsToSpaces(s), s);
  }

  /** A string without a lower-to-upper transition is left as it is. */
  lemma {:induction false} SplitCamelCaseFixpoint(s: string)
    requires NoHump(s)
    ensures SplitCamelCase(s) == s
    decreases |s|
  {
    if |s| >= 2 {
      assert !HumpAt(s, 0);
      assert NoHump(s[1..]) by {
        forall i ensures !HumpAt(s[1..], i) {
          if 0 <= i < |s| - 2 {
            assert !HumpAt(s, i + 1);
          }
        }
      }
      SplitCamelCaseFixpoint(s[1..]);
      assert s == [s[0]] + s[1..];
    }
  }

  /** Splitting twice is the same as splitting once. */
  lemma SplitCamelCaseIdempotent(s: string)
    ensures SplitCamelCase(SplitCamelCase(s)) == SplitCamelCase(s)
  {
    SplitCamelCaseFixpoint(SplitCamelCase(s));
  }

  /** The two steps together keep everything except separators, and add only spaces. */
  lemma SplitAfterSeparatorsChars(s: string)
    ensures '_' !in SplitCamelCase(SeparatorsToSpaces(s))
    ensures '-' !in SplitCamelCase(SeparatorsToSpaces(s))
  {
  }

  lemma SplitPCode()
    ensures SplitCamelCase("pCode") == "p Code"
  {
    assert NoHump("ode") by {
      forall i | 0 <= i < 3 ensures !HumpAt("ode", i) {
        assert !IsUpperChar("ode"[i]) || i == 2;
      }
    }
    SplitCamelCaseFixpoint("ode");
    assert "pCode"[2..] == "ode";
    assert IsLowerChar('p') && IsUpperChar('C');
    assert SplitCamelCase("pCode") == "p C" + "ode";
  }

  /** A lower-to-upper transition gets a space; nothing else changes. */
  lemma SplitZipCode()
    ensures SplitCamelCase("zipCode") == "zip Code"
  {
    var s := "zipCode";
    SplitPCode();
    assert "ipCode"[1..] == "pCode";
    assert !IsUpperChar('p');
    assert SplitCamelCase("ipCode") == "i" + "p Code";
    assert s[1..] == "ipCode";
    assert !IsUpperChar('i');
    assert SplitCamelCase(s) == "z" + "ip Code";
  }
}
