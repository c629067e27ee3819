/** String helpers with the meaning of the Python `str` operations the system uses. */
module Strings {

  /** `s.startswith(prefix)` */
  predicate StartsWith(s: string, prefix: string) {
    |prefix| <= |s| && s[..|prefix|] == prefix
  }

  /** `s.endswith(suffix)` */
  predicate EndsWith(s: string, suffix: string) {
    |suffix| <= |s| && s[|s| - |suffix|..] == suffix
  }

  /** `p in s` for strings: `p` occurs somewhere in `s`. */
  predicate Contains(s: string, p: string)
    decreases |s|
  {
    StartsWith(s, p) || (|s| > 0 && Contains(s[1..], p))
  }

  /** `sep.join(parts)` */
  function Join(sep: string, parts: seq<string>): string
    decreases |parts|
  {
    if |parts| == 0 then ""
    else if |parts| == 1 then parts[0]
    else parts[0] + sep + Join(sep, parts[1..])
  }

  /** `s.replace(from, to)` for single characters: every occurrence of `from` becomes `to`. */
  function ReplaceChar(s: string, from: char, to: char): (r: string)
    ensures |r| == |s|
    ensures forall i :: 0 <= i < |s| ==> r[i] == (if s[i] == from then to else s[i])
    ensures from != to ==> from !in r
    decreases |s|
  {
    if |s| == 0 then ""
    else [if s[0] == from then to else s[0]] + ReplaceChar(s[1..], from, to)
  }

  lemma {:induction false} ContainsInSuffix(a: string, b: string, p: string)
    requires Contains(b, p)
    ensures Contains(a + b, p)
    decreases |a|
  {
    if |a| > 0 {
      assert (a + b)[1..] == a[1..] + b;
      ContainsInSuffix(a[1..], b, p);
    } else {
      assert a + b == b;
    }
  }

  lemma {:induction false} ContainsInPrefix(a: string, b: string, p: string)
    requires Contains(a, p)
    ensures Contains(a + b, p)
    decreases |a|
  {
    if StartsWith(a, p) {
      assert (a + b)[..|p|] == a[..|p|];
    } else {
      assert (a + b)[1..] == a[1..] + b;
      ContainsInPrefix(a[1..], b, p);
    }
  }

  lemma {:induction false} StartsWithContains(s: string, p: string)
    requires StartsWith(s, p)
    ensures Contains(s, p)
  {
  }

  /** A non-empty join begins with its first part. */
  lemma {:induction false} JoinStartsWithFirst(sep: string, parts: seq<string>)
    requires |parts| > 0
    ensures StartsWith(Join(sep, parts), parts[0])
  {
    if |parts| > 1 {
      assert Join(sep, parts) == parts[0] + (sep + Join(sep, parts[1..]));
    }
  }

  /** Every part of a join occurs in it. */
  lemma {:induction false} JoinContainsEachPart(sep: string, parts: seq<string>, i: int)
    requires 0 <= i < |parts|
    ensures Contains(Join(sep, parts), parts[i])
    decreases |parts|
  {
    if |parts| == 1 {
      StartsWithContains(parts[0], parts[0]);
    } else {
      var rest := sep + Join(sep, parts[1..]);
      assert Join(sep, parts) == parts[0] + rest;
      if i == 0 {
        StartsWithContains(parts[0], parts[0]);
        ContainsInPrefix(parts[0], rest, parts[0]);
      } else {
        JoinContainsEachPart(sep, parts[1..], i - 1);
        ContainsInSuffix(sep, Join(sep, parts[1..]), parts[i]);
        ContainsInSuffix(parts[0], rest, parts[i]);
      }
    }
  }

  // ---------------------------------------------------------------------
  // Python's argument-less `str.split()`: runs of whitespace separate words.
  // ---------------------------------------------------------------------

  /** `c.isspace()`: the characters Python's `str.split()` treats as separators. */
  predicate IsSpace(c: char) {
    || c == ' '
    || ('\t' <= c <= '\r')
    || ('\U{1C}' <= c <= '\U{1F}')
    || c == '\U{85}' || c == '\U{A0}' || c == '\U{1680}'
    || ('\U{2000}' <= c <= '\U{200A}')
    || c == '\U{2028}' || c == '\U{2029}' || c == '\U{202F}' || c == '\U{205F}' || c == '\U{3000}'
  }

  /** A word of `split()`'s result: non-empty, with no whitespace in it. */
  predicate IsWord(w: string) {
    |w| > 0 && NoSpace(w)
  }

  /** No character of `s` is whitespace. */
  predicate NoSpace(s: string) {
    forall i :: 0 <= i < |s| ==> !IsSpace(s[i])
  }

  /** Every element of `ws` is a word. */
  predicate AllWords(ws: seq<string>)
    decreases |ws|
  {
    |ws| == 0 || (IsWord(ws[0]) && AllWords(ws[1..]))
  }

  /** `s` with its leading whitespace removed. */
  function TrimStart(s: string): (r: string)
    ensures |r| <= |s|
    ensures r == [] || !IsSpace(r[0])
    decreases |s|
  {
    if |s| == 0 || !IsSpace(s[0]) then s else TrimStart(s[1..])
  }

  /** The longest prefix of `s` without whitespace. */
  function LeadingWord(s: string): (w: string)
    ensures |w| <= |s|
    ensures |s| > 0 && !IsSpace(s[0]) ==> |w| > 0
    decreases |s|
  {
    if |s| == 0 || IsSpace(s[0]) then "" else [s[0]] + LeadingWord(s[1..])
  }

  /** `s.split()` */
  function Words(s: string): seq<string>
    decreases |s|
  {
    var t := TrimStart(s);
    if |t| == 0 then []
    else
      var w := LeadingWord(t);
      [w] + Words(t[|w|..])
  }

  /** The leading word has no whitespace in it. */
  lemma {:induction false} LeadingWordNoSpace(s: string)
    ensures NoSpace(LeadingWord(s))
    decreases |s|
  {
    if |s| > 0 && !IsSpace(s[0]) {
      LeadingWordNoSpace(s[1..]);
      var w := LeadingWord(s[1..]);
      assert forall i :: 1 <= i < |w| + 1 ==> ([s[0]] + w)[i] == w[i - 1];
    }
  }

  /** `split()` produces only non-empty words without whitespace. */
  lemma {:induction false} WordsAreWords(s: string)
    ensures AllWords(Words(s))
    decreases |s|
  {
    var t := TrimStart(s);
    if |t| > 0 {
      var w := LeadingWord(t);
      LeadingWordNoSpace(t);
      WordsAreWords(t[|w|..]);
      assert ([w] + Words(t[|w|..]))[1..] == Words(t[|w|..]);
    }
  }

  lemma {:induction false} LeadingWordOfWord(w: string, rest: string)
    requires NoSpace(w)
    requires |rest| == 0 || IsSpace(rest[0])
    ensures LeadingWord(w + rest) == w
    decreases |w|
  {
    if |w| > 0 {
      assert (w + rest)[0] == w[0];
      assert (w + rest)[1..] == w[1..] + rest;
      LeadingWordOfWord(w[1..], rest);
    } else {
      assert w + rest == rest;
    }
  }

  /** Splitting `w + rest` with `w` a word and `rest` empty or starting with whitespace
      gives `w` followed by the words of `rest`. */
  lemma {:induction false} WordsOfWordThen(w: string, rest: string)
    requires IsWord(w)
    requires |rest| == 0 || IsSpace(rest[0])
    ensures Words(w + rest) == [w] + Words(rest)
  {
    var s := w + rest;
    assert s[0] == w[0];
    assert TrimStart(s) == s;
    LeadingWordOfWord(w, rest);
    assert s[|w|..] == rest;
  }

  /** Leading whitespace does not change the words. */
  lemma {:induction false} WordsSkipSpace(s: string)
    requires |s| > 0 && IsSpace(s[0])
    ensures Words(s) == Words(s[1..])
  {
    assert TrimStart(s) == TrimStart(s[1..]);
  }

  /** Joining words with single spaces and splitting again gives the words back. */
  lemma {:induction false} WordsOfJoin(ws: seq<string>)
    requires AllWords(ws)
    ensures Words(Join(" ", ws)) == ws
    decreases |ws|
  {
    if |ws| == 1 {
      WordsOfWord(ws[0]);
    } else if |ws| > 1 {
      JoinCons(ws);
      WordsOfWordThenSpace(ws[0], Join(" ", ws[1..]));
      WordsOfJoin(ws[1..]);
      assert [ws[0]] + ws[1..] == ws;
    }
  }

  /** A single word splits into itself. */
  lemma {:induction false} WordsOfWord(w: string)
    requires IsWord(w)
    ensures Words(w) == [w]
  {
    assert w + "" == w;
    WordsOfWordThen(w, "");
    assert Words(w) == [w] + Words("");
  }

  /** A word, a space and more text split into the word and the words of the rest. */
  lemma {:induction false} WordsOfWordThenSpace(w: string, rest: string)
    requires IsWord(w)
    ensures Words(w + (" " + rest)) == [w] + Words(rest)
  {
    var spaced := " " + rest;
    WordsOfWordThen(w, spaced);
    WordsSkipSpace(spaced);
    assert spaced[1..] == rest;
  }

  lemma {:induction false} JoinCons(ws: seq<string>)
    requires |ws| > 1
    ensures Join(" ", ws) == ws[0] + (" " + Join(" ", ws[1..]))
  {
  }

  /** No leading or trailing whitespace, no whitespace other than single spaces. */
  predicate SingleSpaced(s: string) {
    && (|s| > 0 ==> !IsSpace(s[0]) && !IsSpace(s[|s| - 1]))
    && (forall i :: 0 <= i < |s| && IsSpace(s[i]) ==> s[i] == ' ')
    && (forall i :: 0 <= i < |s| - 1 ==> !(s[i] == ' ' && s[i + 1] == ' '))
  }

  /** Words joined by single spaces are single-spaced. */
  lemma {:induction false} JoinOfWordsSingleSpaced(ws: seq<string>)
    requires AllWords(ws)
    ensures SingleSpaced(Join(" ", ws))
    ensures |ws| > 0 ==> |Join(" ", ws)| > 0
    decreases |ws|
  {
    if |ws| == 1 {
      var w := ws[0];
    } else if |ws| > 1 {
      var w := ws[0];
      var tail := Join(" ", ws[1..]);
      JoinOfWordsSingleSpaced(ws[1..]);
      JoinStartsWithFirst(" ", ws[1..]);
      assert tail[0] == ws[1][0];
      var s := w + " " + tail;
      assert Join(" ", ws) == s;
      assert forall i :: 0 <= i < |w| ==> s[i] == w[i];
      assert forall i :: |w| < i < |s| ==> s[i] == tail[i - |w| - 1];
    }
  }
}
