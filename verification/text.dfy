/**
 The string primitives the placeholder engine relies on, with the meaning
 Python 3's `str` methods and `re` character classes give them, restricted to
 ASCII: a character outside ASCII is neither a letter, a digit nor whitespace.
 */
module Text {

  datatype Option<T> = None | Some(value: T)

  /* ----- character classes ----- */

  /** Python `str.isspace` / regex `\s` on ASCII: the six C whitespace
      characters and the four information separators U+001C..U+001F. */
  predicate IsSpace(c: char) {
    c == ' ' || c == '\t' || c == '\n' || c == '\r' || c == '\U{0B}' || c == '\U{0C}'
    || ('\U{1C}' <= c <= '\U{1F}')
  }

  predicate IsLowerChar(c: char) { 'a' <= c <= 'z' }

  predicate IsUpperChar(c: char) { 'A' <= c <= 'Z' }

  predicate IsLetter(c: char) { IsLowerChar(c) || IsUpperChar(c) }

  predicate IsDigitChar(c: char) { '0' <= c <= '9' }

  /** The class `[_\s\-]`: what a fill-in blank is drawn with. */
  predicate BlankChar(c: char) { c == '_' || IsSpace(c) || c == '-' }

  /** Regex `\w`: letters, digits and underscore. */
  predicate IsWordChar(c: char) { IsLetter(c) || IsDigitChar(c) || c == '_' }

  function ToLowerChar(c: char): (d: char)
    ensures !IsUpperChar(d)
    ensures IsLetter(c) <==> IsLetter(d)
  {
    if IsUpperChar(c) then (c as int + 32) as char else c
  }

  function ToUpperChar(c: char): (d: char)
    ensures !IsLowerChar(d)
    ensures IsLetter(c) <==> IsLetter(d)
    ensures ToLowerChar(d) == ToLowerChar(c)
  {
    if IsLowerChar(c) then (c as int - 32) as char else c
  }

  /* ----- case mapping ----- */

  /** Python `str.lower`. */
  function Lower(s: string): (r: string)
    ensures |r| == |s|
    ensures forall i :: 0 <= i < |s| ==> r[i] == ToLowerChar(s[i])
  {
    seq(|s|, i requires 0 <= i < |s| => ToLowerChar(s[i]))
  }

  /** Two strings that differ at most in the case of their letters. */
  predicate SameUpToCase(a: string, b: string) {
    Lower(a) == Lower(b)
  }

  /** Changing only the case of letters leaves every other character where it was. */
  lemma SameUpToCaseKeepsNonLetters(a: string, b: string, i: int)
    requires SameUpToCase(a, b) && 0 <= i < |a|
    ensures IsLetter(a[i]) <==> IsLetter(b[i])
    ensures !IsLetter(a[i]) ==> a[i] == b[i]
  {
    assert Lower(a)[i] == Lower(b)[i];
  }

  /** Python `str.islower`: some letter, and no upper-case letter. */
  predicate IsLowerStr(s: string) {
    (exists i :: 0 <= i < |s| && IsLetter(s[i])) && forall i :: 0 <= i < |s| ==> !IsUpperChar(s[i])
  }

  /** Python `str.isupper`: some letter, and no lower-case letter. */
  predicate IsUpperStr(s: string) {
    (exists i :: 0 <= i < |s| && IsLetter(s[i])) && forall i :: 0 <= i < |s| ==> !IsLowerChar(s[i])
  }

  /** Python `str.capitalize`: the first character upper-cased, the rest lower-cased. */
  function Capitalize(s: string): (r: string)
    ensures SameUpToCase(r, s)
    ensures |r| > 0 ==> !IsLowerChar(r[0])
    ensures forall i :: 1 <= i < |r| ==> !IsUpperChar(r[i])
  {
    if |s| == 0 then "" else [ToUpperChar(s[0])] + Lower(s[1..])
  }

  /** Python `str.title`: a letter is upper-cased when it starts a run of
      letters and lower-cased otherwise; other characters are kept. */
  function Title(s: string): (r: string)
    ensures SameUpToCase(r, s)
    ensures forall i :: 0 <= i < |r| && IsLetter(r[i]) ==>
              (IsUpperChar(r[i]) <==> (i == 0 || !IsLetter(s[i - 1])))
  {
    seq(|s|, i requires 0 <= i < |s| =>
      if IsLetter(s[i]) && i > 0 && IsLetter(s[i - 1]) then ToLowerChar(s[i])
      else if IsLetter(s[i]) then ToUpperChar(s[i])
      else s[i])
  }

  /* ----- digits and counting ----- */

  /** Python `str.isdigit` on ASCII: non-empty and all digits. */
  predicate IsDigits(s: string) {
    |s| > 0 && forall i :: 0 <= i < |s| ==> IsDigitChar(s[i])
  }

  /** Python `str.count` with a one-character argument. */
  function Count(s: string, c: char): (n: nat)
    ensures n <= |s|
    ensures n == 0 <==> c !in s
  {
    if |s| == 0 then 0 else (if s[0] == c then 1 else 0) + Count(s[1..], c)
  }

  /* ----- substrings ----- */

  predicate OccursAt(s: string, t: string, i: int) {
    0 <= i && i + |t| <= |s| && s[i..i + |t|] == t
  }

  /** Python `t in s`. */
  predicate Contains(s: string, t: string) {
    exists i :: 0 <= i <= |s| && OccursAt(s, t, i)
  }

  /** Python `any(w in s for w in words)`. */
  predicate ContainsAny(s: string, words: seq<string>) {
    exists k :: 0 <= k < |words| && Contains(s, words[k])
  }

  /** Python `s[-n:]` for n > 0: the last `n` characters, or all of `s` when it is shorter. */
  function Last(s: string, n: nat): (r: string)
    ensures |r| == (if |s| < n then |s| else n)
    ensures r == s[|s| - |r|..]
  {
    if |s| <= n then s else s[|s| - n..]
  }

  /** Neither a longer string nor one whose first character is absent can occur. */
  lemma NotContains(s: string, t: string)
    requires |t| > |s| || (|t| > 0 && t[0] !in s)
    ensures !Contains(s, t)
  {
    if |t| <= |s| {
      forall i | 0 <= i <= |s|
        ensures !OccursAt(s, t, i)
      {
        if i + |t| <= |s| {
          assert s[i..i + |t|][0] == s[i];
        }
      }
    }
  }

  /** A substring of a part is a substring of the whole. */
  lemma ContainsInConcat(a: string, b: string, t: string)
    ensures Contains(a, t) ==> Contains(a + b, t)
    ensures Contains(b, t) ==> Contains(a + b, t)
  {
    if Contains(a, t) {
      var i :| 0 <= i <= |a| && OccursAt(a, t, i);
      assert (a + b)[i..i + |t|] == a[i..i + |t|];
      assert OccursAt(a + b, t, i);
    }
    if Contains(b, t) {
      var i :| 0 <= i <= |b| && OccursAt(b, t, i);
      assert (a + b)[|a| + i..|a| + i + |t|] == b[i..i + |t|];
      assert OccursAt(a + b, t, |a| + i);
    }
  }

  /* ----- stripping ----- */

  /** Every character of `s` from `lo` up to `hi` is whitespace. */
  predicate SpaceBetween(s: string, lo: int, hi: int) {
    forall k :: lo <= k < hi && 0 <= k < |s| ==> IsSpace(s[k])
  }

  /** No whitespace at either end. */
  predicate IsStripped(s: string) {
    |s| == 0 || (!IsSpace(s[0]) && !IsSpace(s[|s| - 1]))
  }

  /** The first position at or after `k` that does not hold whitespace. */
  function SkipSpaces(s: string, k: nat): (n: nat)
    requires k <= |s|
    ensures k <= n <= |s| && SpaceBetween(s, k, n)
    ensures n == |s| || !IsSpace(s[n])
    decreases |s| - k
  {
    if k < |s| && IsSpace(s[k]) then SkipSpaces(s, k + 1) else k
  }

  /** The end of `s[lo..hi]` once its trailing whitespace is cut. */
  function TrimEnd(s: string, lo: nat, hi: nat): (e: nat)
    requires lo <= hi <= |s|
    ensures lo <= e <= hi && SpaceBetween(s, e, hi)
    ensures e == lo || !IsSpace(s[e - 1])
    decreases hi - lo
  {
    if lo < hi && IsSpace(s[hi - 1]) then TrimEnd(s, lo, hi - 1) else hi
  }

  /** Python `str.strip()`: the infix left after removing the whitespace at
      both ends; it has none at either end. */
  function Strip(s: string): (r: string)
    ensures IsStripped(r)
    ensures var i := SkipSpaces(s, 0);
            i + |r| <= |s| && s[i..i + |r|] == r && SpaceBetween(s, i + |r|, |s|)
  {
    var i := SkipSpaces(s, 0);
    var e := TrimEnd(s, i, |s|);
    s[i..e]
  }

  /** Each string stripped, as `[c.strip() for c in caps]`. */
  function StripAll(caps: seq<string>): (r: seq<string>)
    ensures |r| == |caps|
    ensures forall i :: 0 <= i < |caps| ==> r[i] == Strip(caps[i])
  {
    seq(|caps|, i requires 0 <= i < |caps| => Strip(caps[i]))
  }

  /** Stripping a stripped string changes nothing. */
  lemma StripStripped(s: string)
    requires IsStripped(s)
    ensures Strip(s) == s
  {
  }

  /* ----- joining and splitting ----- */

  /** Python `sep.join(parts)`. */
  function Join(parts: seq<string>, sep: string): (r: string)
    ensures |parts| == 1 ==> r == parts[0]
  {
    if |parts| == 0 then ""
    else if |parts| == 1 then parts[0]
    else parts[0] + sep + Join(parts[1..], sep)
  }

  /** Each part is a substring of the joined text. */
  lemma {:induction false} JoinContainsPart(parts: seq<string>, sep: string, k: int, t: string)
    requires 0 <= k < |parts| && Contains(parts[k], t)
    ensures Contains(Join(parts, sep), t)
  {
    if |parts| > 1 {
      if k == 0 {
        ContainsInConcat(parts[0], sep + Join(parts[1..], sep), t);
        assert parts[0] + sep + Join(parts[1..], sep) == parts[0] + (sep + Join(parts[1..], sep));
      } else {
        JoinContainsPart(parts[1..], sep, k - 1, t);
        ContainsInConcat(parts[0] + sep, Join(parts[1..], sep), t);
      }
    }
  }

  /** A word in the sense of `str.split()`: non-empty, no whitespace. */
  predicate IsWord(w: string) {
    |w| > 0 && forall i :: 0 <= i < |w| ==> !IsSpace(w[i])
  }

  /** Length of the leading run of non-whitespace characters. */
  function SpanNonSpace(s: string): (n: nat)
    ensures n <= |s|
    ensures forall i :: 0 <= i < n ==> !IsSpace(s[i])
    ensures n == |s| || IsSpace(s[n])
  {
    if |s| == 0 || IsSpace(s[0]) then 0 else 1 + SpanNonSpace(s[1..])
  }

  /** Python `str.split()` with no argument: the maximal whitespace-free runs. */
  function Words(s: string): (ws: seq<string>)
    ensures forall k :: 0 <= k < |ws| ==> IsWord(ws[k])
    decreases |s|
  {
    if |s| == 0 then []
    else if IsSpace(s[0]) then Words(s[1..])
    else
      var n := SpanNonSpace(s);
      [s[..n]] + Words(s[n..])
  }

  /** A label in normal form: whitespace is single spaces between non-space characters. */
  predicate IsNormalized(s: string) {
    (forall i :: 0 <= i < |s| && IsSpace(s[i]) ==> s[i] == ' ' && 0 < i < |s| - 1 && !IsSpace(s[i + 1]))
  }

  /** `' '.join(s.split())`. */
  function NormalizeSpaces(s: string): string {
    Join(Words(s), " ")
  }

  lemma {:induction false} JoinWordsNormalized(ws: seq<string>)
    requires forall k :: 0 <= k < |ws| ==> IsWord(ws[k])
    ensures IsNormalized(Join(ws, " "))
    ensures |ws| > 0 ==> |Join(ws, " ")| > 0 && !IsSpace(Join(ws, " ")[0])
    ensures |ws| > 0 ==> !IsSpace(Join(ws, " ")[|Join(ws, " ")| - 1])
  {
    if |ws| > 1 {
      JoinWordsNormalized(ws[1..]);
      var rest := Join(ws[1..], " ");
      var r := ws[0] + " " + rest;
      assert Join(ws, " ") == r;
      assert forall j :: 0 <= j < |ws[0]| ==> r[j] == ws[0][j];
      forall i | 0 <= i < |r| && IsSpace(r[i])
        ensures r[i] == ' ' && 0 < i < |r| - 1 && !IsSpace(r[i + 1])
      {
        if i > |ws[0]| {
          assert r[i] == rest[i - |ws[0]| - 1];
          if i + 1 < |r| {
            assert r[i + 1] == rest[i + 1 - |ws[0]| - 1];
          }
        }
      }
      assert r[0] == ws[0][0];
      assert r[|r| - 1] == rest[|rest| - 1];
    }
  }

  /** The normal form has no leading, trailing or doubled spaces and no other whitespace. */
  lemma NormalizeSpacesIsNormalized(s: string)
    ensures IsNormalized(NormalizeSpaces(s))
  {
    JoinWordsNormalized(Words(s));
  }

  /** Every character of a word list comes from the text it was split from. */
  lemma {:induction false} WordsChars(s: string)
    ensures forall k, c :: 0 <= k < |Words(s)| && c in Words(s)[k] ==> c in s
    decreases |s|
  {
    if |s| > 0 {
      if IsSpace(s[0]) {
        WordsChars(s[1..]);
        assert forall c :: c in s[1..] ==> c in s;
      } else {
        var n := SpanNonSpace(s);
        WordsChars(s[n..]);
        assert Words(s) == [s[..n]] + Words(s[n..]);
        assert forall c :: c in s[n..] ==> c in s;
        assert forall c :: c in s[..n] ==> c in s;
        forall k, c | 0 <= k < |Words(s)| && c in Words(s)[k] ensures c in s {
          if k > 0 {
            assert Words(s)[k] == Words(s[n..])[k - 1];
          }
        }
      }
    }
  }

  lemma {:induction false} JoinChars(ws: seq<string>, sep: string, c: char)
    requires c in Join(ws, sep)
    ensures c in sep || exists k :: 0 <= k < |ws| && c in ws[k]
  {
    if |ws| > 1 {
      assert Join(ws, sep) == ws[0] + sep + Join(ws[1..], sep);
      if c !in ws[0] && c !in sep {
        JoinChars(ws[1..], sep, c);
        var k :| 0 <= k < |ws[1..]| && c in ws[1..][k];
        assert c in ws[k + 1];
      }
    }
  }

  /** Normalising whitespace introduces no character other than the space. */
  lemma NormalizeSpacesChars(s: string, c: char)
    requires c in NormalizeSpaces(s) && c != ' '
    ensures c in s
  {
    JoinChars(Words(s), " ", c);
    WordsChars(s);
  }

  /** Splitting a normalised string gives back the words it was joined from. */
  lemma {:induction false} WordsOfJoin(ws: seq<string>)
    requires forall k :: 0 <= k < |ws| ==> IsWord(ws[k])
    ensures Words(Join(ws, " ")) == ws
  {
    if |ws| == 1 {
      WordsOfWord(ws[0]);
    } else if |ws| > 1 {
      var rest := Join(ws[1..], " ");
      assert Join(ws, " ") == ws[0] + (" " + rest);
      WordsFront(ws[0], " " + rest);
      WordsAfterSpace(rest);
      WordsOfJoin(ws[1..]);
      assert ws == [ws[0]] + ws[1..];
    }
  }

  /** A word followed by whitespace or nothing is split off as the first word. */
  lemma WordsFront(w: string, tail: string)
    requires IsWord(w) && (|tail| == 0 || IsSpace(tail[0]))
    ensures Words(w + tail) == [w] + Words(tail)
  {
    var s := w + tail;
    SpanOfWord(w, tail);
    assert s[0] == w[0];
    assert s[..|w|] == w;
    assert s[|w|..] == tail;
  }

  /** A leading space is skipped. */
  lemma WordsAfterSpace(rest: string)
    ensures Words(" " + rest) == Words(rest)
  {
    assert (" " + rest)[1..] == rest;
  }

  lemma {:induction false} SpanOfWord(w: string, tail: string)
    requires IsWord(w) && (|tail| == 0 || IsSpace(tail[0]))
    ensures SpanNonSpace(w + tail) == |w|
    decreases |w|
  {
    if |w| > 1 {
      assert (w + tail)[1..] == w[1..] + tail;
      SpanOfWord(w[1..], tail);
    } else {
      assert (w + tail)[1..] == tail;
    }
  }

  lemma WordsOfWord(w: string)
    requires IsWord(w)
    ensures Words(w) == [w]
  {
    WordsFront(w, "");
    assert w + "" == w;
  }

  /** A string already in normal form is its own normal form. */
  lemma {:induction false} NormalizedIsFixpoint(s: string)
    requires IsNormalized(s)
    ensures NormalizeSpaces(s) == s
    decreases |s|
  {
    if |s| > 0 {
      var n := SpanNonSpace(s);
      assert n > 0;
      if n == |s| {
        assert s[..n] == s;
        assert s[n..] == "";
        assert Words(s) == [s];
      } else {
        assert s[n] == ' ';
        var rest := s[n + 1..];
        assert IsNormalized(rest) by {
          forall i | 0 <= i < |rest| && IsSpace(rest[i])
            ensures rest[i] == ' ' && 0 < i < |rest| - 1 && !IsSpace(rest[i + 1])
          {
            assert rest[i] == s[n + 1 + i];
          }
        }
        assert !IsSpace(rest[0]);
        NormalizedIsFixpoint(rest);
        assert s[n..][1..] == rest;
        assert Words(s[n..]) == Words(rest);
        assert Words(s) == [s[..n]] + Words(rest);
        var ws := Words(rest);
        assert |ws| > 0;
        assert Join([s[..n]] + ws, " ") == s[..n] + " " + Join(ws, " ");
        assert s == s[..n] + " " + rest;
      }
    }
  }

  /* ----- what a label says, apart from blanks ----- */

  /** The characters of `s` that are not whitespace, `_` or `-`, in order:
      what turning a raw label into readable text must keep. */
  function NonBlank(s: string): (r: string)
    ensures |r| <= |s|
    decreases |s|
  {
    if |s| == 0 then "" else (if BlankChar(s[0]) then "" else [s[0]]) + NonBlank(s[1..])
  }

  lemma {:induction false} NonBlankConcat(a: string, b: string)
    ensures NonBlank(a + b) == NonBlank(a) + NonBlank(b)
    decreases |a|
  {
    if |a| == 0 {
      assert a + b == b;
    } else {
      assert (a + b)[1..] == a[1..] + b;
      NonBlankConcat(a[1..], b);
    }
  }

  /** Two strings with blanks at the same places and the same other characters. */
  lemma {:induction false} NonBlankPointwise(a: string, b: string)
    requires |a| == |b|
    requires forall i :: 0 <= i < |a| ==> BlankChar(a[i]) == BlankChar(b[i])
    requires forall i :: 0 <= i < |a| && !BlankChar(a[i]) ==> a[i] == b[i]
    ensures NonBlank(a) == NonBlank(b)
    decreases |a|
  {
    if |a| > 0 {
      NonBlankPointwise(a[1..], b[1..]);
    }
  }

  /** A string of whitespace says nothing. */
  lemma {:induction false} NonBlankOfSpaces(s: string)
    requires SpaceBetween(s, 0, |s|)
    ensures NonBlank(s) == ""
    decreases |s|
  {
    if |s| > 0 {
      assert SpaceBetween(s[1..], 0, |s| - 1) by {
        forall k | 0 <= k < |s| - 1 ensures IsSpace(s[1..][k]) {
          assert s[1..][k] == s[k + 1];
        }
      }
      NonBlankOfSpaces(s[1..]);
    }
  }

  /** Stripping removes whitespace only. */
  lemma NonBlankStrip(s: string)
    ensures NonBlank(Strip(s)) == NonBlank(s)
  {
    var r := Strip(s);
    var i := SkipSpaces(s, 0);
    var a, b := s[..i], s[i + |r|..];
    assert s == a + r + b;
    NonBlankConcat(a + r, b);
    NonBlankConcat(a, r);
    assert SpaceBetween(a, 0, |a|) by {
      forall k | 0 <= k < |a| ensures IsSpace(a[k]) {
        assert a[k] == s[k];
      }
    }
    assert SpaceBetween(b, 0, |b|) by {
      forall k | 0 <= k < |b| ensures IsSpace(b[k]) {
        assert b[k] == s[i + |r| + k];
      }
    }
    NonBlankOfSpaces(a);
    NonBlankOfSpaces(b);
  }

  /** The words' characters, run together. */
  function NonBlankAll(ws: seq<string>): string
    decreases |ws|
  {
    if |ws| == 0 then "" else NonBlank(ws[0]) + NonBlankAll(ws[1..])
  }

  /** Splitting on whitespace drops whitespace only. */
  lemma {:induction false} NonBlankWords(s: string)
    ensures NonBlankAll(Words(s)) == NonBlank(s)
    decreases |s|
  {
    if |s| > 0 {
      if IsSpace(s[0]) {
        NonBlankWords(s[1..]);
      } else {
        var n := SpanNonSpace(s);
        NonBlankWords(s[n..]);
        assert Words(s)[1..] == Words(s[n..]);
        assert s == s[..n] + s[n..];
        NonBlankConcat(s[..n], s[n..]);
      }
    }
  }

  /** Joining with single spaces adds whitespace only. */
  lemma {:induction false} NonBlankJoin(ws: seq<string>)
    ensures NonBlank(Join(ws, " ")) == NonBlankAll(ws)
    decreases |ws|
  {
    if |ws| == 1 {
      assert NonBlankAll(ws[1..]) == "";
      assert NonBlankAll(ws) == NonBlank(ws[0]) + "";
    } else if |ws| > 1 {
      NonBlankJoin(ws[1..]);
      var rest := Join(ws[1..], " ");
      assert Join(ws, " ") == ws[0] + (" " + rest);
      NonBlankConcat(ws[0], " " + rest);
      NonBlankAfterSpace(rest);
    }
  }

  lemma NonBlankAfterSpace(rest: string)
    ensures NonBlank(" " + rest) == NonBlank(rest)
  {
    assert (" " + rest)[1..] == rest;
  }

  /** `' '.join(s.split())` keeps every non-blank character, in order. */
  lemma NonBlankNormalize(s: string)
    ensures NonBlank(NormalizeSpaces(s)) == NonBlank(s)
  {
    NonBlankJoin(Words(s));
    NonBlankWords(s);
  }

  lemma LowerConcat(a: string, b: string)
    ensures Lower(a + b) == Lower(a) + Lower(b)
  {
  }

  /** Case mapping and dropping blanks commute: only letters change case,
      and no letter is a blank. */
  lemma {:induction false} NonBlankLower(s: string)
    ensures NonBlank(Lower(s)) == Lower(NonBlank(s))
    decreases |s|
  {
    if |s| > 0 {
      NonBlankLower(s[1..]);
      assert Lower(s)[1..] == Lower(s[1..]);
      var head := if BlankChar(s[0]) then "" else [s[0]];
      LowerConcat(head, NonBlank(s[1..]));
    }
  }

  /** Changing case keeps what a label says, up to case. */
  lemma NonBlankUpToCase(a: string, b: string)
    requires SameUpToCase(a, b)
    ensures Lower(NonBlank(a)) == Lower(NonBlank(b))
  {
    NonBlankLower(a);
    NonBlankLower(b);
  }

  /* ----- Python str.replace ----- */

  /** Python `s.replace(pat, rep)` for a non-empty pattern: occurrences are
      replaced left to right and never overlap. */
  function Replace(s: string, pat: string, rep: string): string
    requires |pat| > 0
    decreases |s|
  {
    if |s| < |pat| then s
    else if s[..|pat|] == pat then rep + Replace(s[|pat|..], pat, rep)
    else [s[0]] + Replace(s[1..], pat, rep)
  }

  /** A string without the pattern is returned unchanged. */
  lemma {:induction false} ReplaceAbsent(s: string, pat: string, rep: string)
    requires |pat| > 0 && !Contains(s, pat)
    ensures Replace(s, pat, rep) == s
    decreases |s|
  {
    if |s| >= |pat| {
      assert !OccursAt(s, pat, 0);
      assert !Contains(s[1..], pat) by {
        if Contains(s[1..], pat) {
          var i :| 0 <= i <= |s[1..]| && OccursAt(s[1..], pat, i);
          assert s[1..][i..i + |pat|] == s[i + 1..i + 1 + |pat|];
          assert OccursAt(s, pat, i + 1);
        }
      }
      ReplaceAbsent(s[1..], pat, rep);
    }
  }

  /** A prefix in which the pattern's first character never appears is copied unchanged. */
  lemma {:induction false} ReplaceSkipsPrefix(a: string, b: string, pat: string, rep: string)
    requires |pat| > 0 && pat[0] !in a
    ensures Replace(a + b, pat, rep) == a + Replace(b, pat, rep)
    decreases |a|
  {
    if |a| > 0 {
      var s := a + b;
      assert s[0] == a[0];
      if |s| >= |pat| {
        assert s[..|pat|] != pat by {
          assert s[..|pat|][0] == a[0];
        }
        assert s[1..] == a[1..] + b;
        ReplaceSkipsPrefix(a[1..], b, pat, rep);
        assert a == [a[0]] + a[1..];
      } else {
        assert |b| < |pat|;
        assert b == b[..|b|];
        assert Replace(b, pat, rep) == b;
      }
    } else {
      assert a + b == b;
    }
  }

  /** A prefix at none of whose positions the pattern starts is copied unchanged. */
  lemma {:induction false} ReplaceSkipsNoMatch(a: string, b: string, pat: string, rep: string)
    requires |pat| > 0
    requires forall p :: 0 <= p < |a| ==> !OccursAt(a + b, pat, p)
    ensures Replace(a + b, pat, rep) == a + Replace(b, pat, rep)
    decreases |a|
  {
    if |a| == 0 {
      assert a + b == b;
    } else {
      var s := a + b;
      assert s == [a[0]] + (a[1..] + b);
      assert !OccursAt(s, pat, 0);
      ReplaceNoMatchAtFront(a[0], a[1..] + b, pat, rep);
      forall p | 0 <= p < |a[1..]| ensures !OccursAt(a[1..] + b, pat, p) {
        assert !OccursAt(s, pat, p + 1);
        if p + |pat| <= |a[1..] + b| {
          assert (a[1..] + b)[p..p + |pat|] == s[p + 1..p + 1 + |pat|];
        }
      }
      ReplaceSkipsNoMatch(a[1..], b, pat, rep);
      assert a == [a[0]] + a[1..];
    }
  }

  /** An occurrence at the front is replaced and scanning resumes after it. */
  lemma ReplaceAtFront(pat: string, b: string, rep: string)
    requires |pat| > 0
    ensures Replace(pat + b, pat, rep) == rep + Replace(b, pat, rep)
  {
    var s := pat + b;
    assert s[..|pat|] == pat;
    assert s[|pat|..] == b;
  }

  /** When the text does not start with the pattern, its first character is copied. */
  lemma ReplaceNoMatchAtFront(c: char, b: string, pat: string, rep: string)
    requires |pat| > 0
    requires |[c] + b| < |pat| || ([c] + b)[..|pat|] != pat
    ensures Replace([c] + b, pat, rep) == [c] + Replace(b, pat, rep)
  {
    assert ([c] + b)[1..] == b;
    if |[c] + b| < |pat| {
      assert |b| < |pat|;
      assert Replace(b, pat, rep) == b;
    }
  }
}
