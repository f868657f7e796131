/** The string operations of Python's `str` and `os.path` that the scripts use. */
module Strings {
  import opened Seqs


  /** Python's `str.isspace()` for one character (the whitespace `split()` and `strip()` use). */
  predicate IsSpace(c: char)
  {
    || ('\t' <= c <= '\r')
    || ('\U{1C}' <= c <= '\U{1F}')
    || c == ' ' || c == '\U{85}' || c == '\U{A0}' || c == '\U{1680}'
    || ('\U{2000}' <= c <= '\U{200A}')
    || c == '\U{2028}' || c == '\U{2029}' || c == '\U{202F}' || c == '\U{205F}' || c == '\U{3000}'
  }

  predicate AllSpace(s: string)
  {
    forall k :: 0 <= k < |s| ==> IsSpace(s[k])
  }

  /** A non-empty string without whitespace: what `split()` yields. */
  predicate IsWord(w: string)
  {
    w != [] && forall k :: 0 <= k < |w| ==> !IsSpace(w[k])
  }

  /** Length of the longest whitespace prefix of `s`. */
  function SpanSpaces(s: string): (n: nat)
    ensures n <= |s|
  {
    if s == [] || !IsSpace(s[0]) then 0 else 1 + SpanSpaces(s[1..])
  }

  /** The whitespace prefix is all whitespace and is followed by a non-whitespace character, if any. */
  lemma {:induction false} SpanSpacesSpans(s: string)
    ensures AllSpace(s[..SpanSpaces(s)])
    ensures SpanSpaces(s) < |s| ==> !IsSpace(s[SpanSpaces(s)])
    decreases |s|
  {
    if s != [] && IsSpace(s[0]) {
      var n := SpanSpaces(s);
      SpanSpacesSpans(s[1..]);
      assert s[..n] == [s[0]] + s[1..][..n - 1];
    }
  }

  /** Length of the longest whitespace-free prefix of `s`. */
  function SpanWord(s: string): (n: nat)
    ensures n <= |s|
  {
    if s == [] || IsSpace(s[0]) then 0 else 1 + SpanWord(s[1..])
  }

  /** The whitespace-free prefix is followed by a whitespace character, if any. */
  lemma {:induction false} SpanWordSpans(s: string)
    ensures forall k :: 0 <= k < SpanWord(s) ==> !IsSpace(s[k])
    ensures SpanWord(s) < |s| ==> IsSpace(s[SpanWord(s)])
    decreases |s|
  {
    if s != [] && !IsSpace(s[0]) {
      SpanWordSpans(s[1..]);
      forall k | 0 <= k < SpanWord(s)
        ensures !IsSpace(s[k])
      {
        if k > 0 {
          assert s[k] == s[1..][k - 1];
        }
      }
    }
  }

  /** Python's `s.split()`: the maximal runs of non-whitespace characters, in order. */
  function Words(s: string): seq<string>
    decreases |s|
  {
    var a := SpanSpaces(s);
    if a == |s| then []
    else
      var b := a + SpanWord(s[a..]);
      [s[a..b]] + Words(s[b..])
  }

  /** The first item of `split()` is a word. */
  lemma FirstWordIsWord(s: string, a: nat, b: nat)
    requires a == SpanSpaces(s) && a < |s| && b == a + SpanWord(s[a..])
    ensures IsWord(s[a..b])
  {
    SpanSpacesSpans(s);
    SpanWordSpans(s[a..]);
    assert s[a..][0] == s[a];
    assert forall k :: 0 <= k < b - a ==> s[a..b][k] == s[a..][k];
  }

  /** Every item of `split()` is a word: non-empty and free of whitespace. */
  lemma {:induction false} WordsAreWords(s: string)
    ensures forall i :: 0 <= i < |Words(s)| ==> IsWord(Words(s)[i])
    decreases |s|
  {
    var a := SpanSpaces(s);
    if a < |s| {
      var b := a + SpanWord(s[a..]);
      FirstWordIsWord(s, a, b);
      WordsAreWords(s[b..]);
      WordsUnfold(s, a, b);
      var ws := Words(s);
      forall i | 0 <= i < |ws|
        ensures IsWord(ws[i])
      {
        if i > 0 {
          assert ws[i] == Words(s[b..])[i - 1];
        }
      }
    }
  }

  /** `" ".join(ws)`. */
  function JoinSpaced(ws: seq<string>): string
  {
    if ws == [] then "" else if |ws| == 1 then ws[0] else ws[0] + " " + JoinSpaced(ws[1..])
  }

  /** The whitespace prefix is characterised by its two defining properties. */
  lemma {:induction false} SpanSpacesIs(s: string, n: nat)
    requires n <= |s| && AllSpace(s[..n])
    requires n < |s| ==> !IsSpace(s[n])
    ensures SpanSpaces(s) == n
    decreases n
  {
    if n > 0 {
      assert IsSpace(s[..n][0]);
      assert s[1..][..n - 1] == s[..n][1..];
      SpanSpacesIs(s[1..], n - 1);
    }
  }

  /** `Words(s)` in terms of the first word of `s`, at `a..b`. */
  lemma WordsUnfold(s: string, a: nat, b: nat)
    requires a == SpanSpaces(s) && a < |s| && b == a + SpanWord(s[a..])
    ensures Words(s) == [s[a..b]] + Words(s[b..])
  {
  }

  /** Two strings whose first words and remainders agree have the same words. */
  lemma WordsAgree(s: string, a: nat, b: nat, u: string, c: nat, d: nat)
    requires a == SpanSpaces(s) && a < |s| && b == a + SpanWord(s[a..])
    requires c == SpanSpaces(u) && c < |u| && d == c + SpanWord(u[c..])
    requires s[a..b] == u[c..d] && s[b..] == u[d..]
    ensures Words(s) == Words(u)
  {
    WordsUnfold(s, a, b);
    WordsUnfold(u, c, d);
  }

  /** Slices of `[c] + t` shifted by one are slices of `t`. */
  lemma ConsSlices<T>(c: T, t: seq<T>, i: nat, j: nat)
    requires i <= j <= |t|
    ensures ([c] + t)[1..] == t
    ensures ([c] + t)[i + 1..] == t[i..] && ([c] + t)[i + 1..j + 1] == t[i..j]
  {
  }

  /** A leading whitespace character adds one to the whitespace prefix. */
  lemma SpanSpacesCons(c: char, t: string)
    requires IsSpace(c)
    ensures SpanSpaces([c] + t) == SpanSpaces(t) + 1
  {
    ConsSlices(c, t, 0, 0);
  }

  /** A leading whitespace character does not change the words. */
  lemma WordsSkipsLeadingSpace(c: char, t: string)
    requires IsSpace(c)
    ensures Words([c] + t) == Words(t)
  {
    var u := [c] + t;
    assert u[1..] == t;
    WordsSkipsFirst(u, t);
  }

  /** Words of a string that starts with whitespace are those of its tail. */
  lemma WordsSkipsFirst(u: string, t: string)
    requires |u| > 0 && IsSpace(u[0]) && u[1..] == t
    ensures Words(u) == Words(t)
  {
    var a := SpanSpaces(t);
    assert SpanSpaces(u) == a + 1;
    if a < |t| {
      var b := a + SpanWord(t[a..]);
      TailSlices(u, t, a, b);
      WordsAgree(u, a + 1, b + 1, t, a, b);
    }
  }

  /** Slices of `u` shifted by one are slices of its tail `t`. */
  lemma TailSlices<T>(u: seq<T>, t: seq<T>, i: nat, j: nat)
    requires |u| > 0 && u[1..] == t && i <= j <= |t|
    ensures u[i + 1..] == t[i..] && u[i + 1..j + 1] == t[i..j] && u[j + 1..] == t[j..]
  {
  }

  lemma {:induction false} WordsOfWordThenRest(w: string, t: string)
    requires IsWord(w)
    requires t == [] || IsSpace(t[0])
    ensures Words(w + t) == [w] + Words(t)
  {
    var s := w + t;
    assert SpanSpaces(s) == 0;
    assert s[0..] == s;
    SpanWordOfWord(w, t);
    assert s[..|w|] == w;
    assert s[|w|..] == t;
  }

  lemma {:induction false} SpanWordOfWord(w: string, t: string)
    requires forall k :: 0 <= k < |w| ==> !IsSpace(w[k])
    requires t == [] || IsSpace(t[0])
    ensures SpanWord(w + t) == |w|
    decreases |w|
  {
    if w != [] {
      assert (w + t)[1..] == w[1..] + t;
      SpanWordOfWord(w[1..], t);
    }
  }

  /** Splitting the space-joined words gives the words back. */
  lemma {:induction false} WordsOfJoinSpaced(ws: seq<string>)
    requires forall i :: 0 <= i < |ws| ==> IsWord(ws[i])
    ensures Words(JoinSpaced(ws)) == ws
    decreases |ws|
  {
    if ws == [] {
    } else if |ws| == 1 {
      WordsOfWordThenRest(ws[0], "");
      assert ws[0] + "" == ws[0];
    } else {
      WordsOfWordSpaceRest(ws[0], JoinSpaced(ws[1..]));
      WordsOfJoinSpaced(ws[1..]);
      assert ws == [ws[0]] + ws[1..];
    }
  }

  /** A word, a space and a rest split into the word and the words of the rest. */
  lemma WordsOfWordSpaceRest(w: string, rest: string)
    requires IsWord(w)
    ensures Words(w + " " + rest) == [w] + Words(rest)
  {
    assert w + " " + rest == w + (" " + rest);
    WordsOfWordThenRest(w, " " + rest);
    WordsSkipsLeadingSpace(' ', rest);
  }

  /** The characters of `s` that are not whitespace, in order. */
  function NonSpace(s: string): string
  {
    if s == [] then [] else (if IsSpace(s[0]) then [] else [s[0]]) + NonSpace(s[1..])
  }

  function Concat(ws: seq<string>): string
  {
    if ws == [] then [] else ws[0] + Concat(ws[1..])
  }

  lemma {:induction false} NonSpaceAppend(a: string, b: string)
    ensures NonSpace(a + b) == NonSpace(a) + NonSpace(b)
    decreases |a|
  {
    if a != [] {
      var head: string := if IsSpace(a[0]) then [] else [a[0]];
      assert NonSpace(a + b) == head + NonSpace(a[1..] + b) by {
        assert (a + b)[0] == a[0];
        assert (a + b)[1..] == a[1..] + b;
      }
      NonSpaceAppend(a[1..], b);
      assert NonSpace(a) == head + NonSpace(a[1..]);
      assert head + (NonSpace(a[1..]) + NonSpace(b)) == (head + NonSpace(a[1..])) + NonSpace(b);
    } else {
      assert a + b == b;
    }
  }

  lemma {:induction false} NonSpaceOfSpaces(s: string)
    requires AllSpace(s)
    ensures NonSpace(s) == []
    decreases |s|
  {
    if s != [] { NonSpaceOfSpaces(s[1..]); }
  }

  lemma {:induction false} NonSpaceOfWord(s: string)
    requires forall k :: 0 <= k < |s| ==> !IsSpace(s[k])
    ensures NonSpace(s) == s
    decreases |s|
  {
    if s != [] { NonSpaceOfWord(s[1..]); }
  }

  /** Leading whitespace adds nothing to the non-whitespace characters. */
  lemma NonSpaceAfterSpaces(s: string, a: nat)
    requires a <= |s| && AllSpace(s[..a])
    ensures NonSpace(s) == NonSpace(s[a..])
  {
    assert s == s[..a] + s[a..];
    NonSpaceAppend(s[..a], s[a..]);
    NonSpaceOfSpaces(s[..a]);
  }

  /** A whitespace-free run at the front is kept as it is. */
  lemma NonSpaceAfterWord(s: string, a: nat, b: nat)
    requires a <= b <= |s| && forall k :: a <= k < b ==> !IsSpace(s[k])
    ensures NonSpace(s[a..]) == s[a..b] + NonSpace(s[b..])
  {
    assert s[a..] == s[a..b] + s[b..];
    NonSpaceAppend(s[a..b], s[b..]);
    NonSpaceOfWord(s[a..b]);
  }

  lemma ConcatCons(w: string, ws: seq<string>)
    ensures Concat([w] + ws) == w + Concat(ws)
  {
    assert ([w] + ws)[1..] == ws;
  }

  /** `split()` loses nothing but whitespace: its words hold every other character, in order. */
  lemma {:induction false} WordsCoverText(s: string)
    ensures Concat(Words(s)) == NonSpace(s)
    decreases |s|
  {
    var a := SpanSpaces(s);
    SpanSpacesSpans(s);
    NonSpaceAfterSpaces(s, a);
    if a < |s| {
      var b := a + SpanWord(s[a..]);
      SpanWordSpans(s[a..]);
      forall k | a <= k < b
        ensures !IsSpace(s[k])
      {
        assert s[k] == s[a..][k - a];
      }
      NonSpaceAfterWord(s, a, b);
      WordsUnfold(s, a, b);
      WordsCoverText(s[b..]);
      ConcatCons(s[a..b], Words(s[b..]));
    } else {
      assert s[a..] == [];
    }
  }

  predicate StartsWith(s: string, prefix: string)
  {
    |prefix| <= |s| && s[..|prefix|] == prefix
  }

  predicate EndsWith(s: string, suffix: string)
  {
    |suffix| <= |s| && s[|s| - |suffix|..] == suffix
  }

  lemma EndsWithAppended(s: string, suffix: string)
    ensures EndsWith(s + suffix, suffix)
  {
    assert (s + suffix)[|s|..] == suffix;
  }

  /** Index one past the last non-whitespace character of `s`, or 0 if there is none. */
  function TrailingStart(s: string): (n: nat)
    ensures n <= |s|
  {
    if s == [] || !IsSpace(s[|s| - 1]) then |s| else TrailingStart(s[..|s| - 1])
  }

  /** Everything from `TrailingStart(s)` on is whitespace, and the character before it is not. */
  lemma {:induction false} TrailingStartSpans(s: string)
    ensures forall k :: TrailingStart(s) <= k < |s| ==> IsSpace(s[k])
    ensures TrailingStart(s) > 0 ==> !IsSpace(s[TrailingStart(s) - 1])
    decreases |s|
  {
    if s != [] && IsSpace(s[|s| - 1]) {
      var init := s[..|s| - 1];
      TrailingStartSpans(init);
      assert forall k :: 0 <= k < |init| ==> init[k] == s[k];
    }
  }

  /** The first non-whitespace character comes before the trailing whitespace. */
  lemma LeadBeforeTrail(s: string)
    requires SpanSpaces(s) < |s|
    ensures SpanSpaces(s) < TrailingStart(s)
  {
    SpanSpacesSpans(s);
    TrailingStartSpans(s);
    assert !IsSpace(s[SpanSpaces(s)]);
  }

  /** Python's `s.strip()`: `s` without its leading and trailing whitespace. */
  function Strip(s: string): (r: string)
    ensures |r| <= |s|
  {
    var lo := SpanSpaces(s);
    if lo == |s| then []
    else
      var hi := TrailingStart(s);
      LeadBeforeTrail(s);
      s[lo..hi]
  }

  /** `strip()` gives an empty string exactly for all-whitespace input, and otherwise neither starts nor ends with whitespace. */
  lemma StripShape(s: string)
    ensures Strip(s) == [] || (!IsSpace(Strip(s)[0]) && !IsSpace(Strip(s)[|Strip(s)| - 1]))
    ensures Strip(s) == [] <==> AllSpace(s)
  {
    SpanSpacesSpans(s);
    var lo := SpanSpaces(s);
    if lo == |s| {
      assert s[..lo] == s;
    } else {
      var hi := TrailingStart(s);
      LeadBeforeTrail(s);
      TrailingStartSpans(s);
      var r := s[lo..hi];
      assert r == Strip(s);
      assert r[0] == s[lo] && r[|r| - 1] == s[hi - 1];
      assert !AllSpace(s) by { assert !IsSpace(s[lo]); }
    }
  }

  /** What `strip()` keeps is a middle slice of `s`, with only whitespace cut away on either side. */
  lemma StripIsMiddle(s: string)
    ensures Strip(s) != [] ==> s == s[..SpanSpaces(s)] + Strip(s) + s[TrailingStart(s)..]
    ensures Strip(s) != [] ==> TrailingStart(s) == SpanSpaces(s) + |Strip(s)|
  {
    var lo := SpanSpaces(s);
    if lo < |s| {
      var hi := TrailingStart(s);
      LeadBeforeTrail(s);
      assert Strip(s) == s[lo..hi];
      SplitThree(s, lo, hi);
    }
  }

  /** A string is its three consecutive slices put together. */
  lemma SplitThree<T>(s: seq<T>, lo: nat, hi: nat)
    requires lo <= hi <= |s|
    ensures s == s[..lo] + s[lo..hi] + s[hi..]
  {
  }

  /** Python's `str.lower()` on one character, for the ASCII letters. */
  function LowerChar(c: char): (r: char)
    ensures 'A' <= c <= 'Z' ==> r as int == c as int + 32
    ensures !('A' <= c <= 'Z') ==> r == c
  {
    if 'A' <= c <= 'Z' then (c as int + 32) as char else c
  }

  function Lower(s: string): (r: string)
    ensures |r| == |s| && forall k :: 0 <= k < |s| ==> r[k] == LowerChar(s[k])
  {
    seq(|s|, k requires 0 <= k < |s| => LowerChar(s[k]))
  }

  /** Lower-casing works character by character, so it distributes over concatenation. */
  lemma LowerAppend(a: string, b: string)
    ensures Lower(a + b) == Lower(a) + Lower(b)
  {
    var l, r := Lower(a + b), Lower(a) + Lower(b);
    forall k | 0 <= k < |l|
      ensures l[k] == r[k]
    {
      if k < |a| {
        assert (a + b)[k] == a[k];
      } else {
        assert (a + b)[k] == b[k - |a|];
      }
    }
  }

  predicate IsDigit(c: char)
  {
    '0' <= c <= '9'
  }

  predicate IsAsciiAlnum(c: char)
  {
    IsDigit(c) || ('a' <= c <= 'z') || ('A' <= c <= 'Z')
  }

  predicate AllDigits(s: string)
  {
    forall k :: 0 <= k < |s| ==> IsDigit(s[k])
  }

  function DigitChar(d: nat): (c: char)
    requires d < 10
    ensures IsDigit(c)
  {
    ('0' as int + d) as char
  }

  /** Python's `str(n)` for a non-negative integer: its decimal digits. */
  function NatToString(n: nat): (s: string)
    ensures s != [] && AllDigits(s)
    ensures s[0] == '0' ==> n == 0
  {
    if n < 10 then [DigitChar(n)] else NatToString(n / 10) + [DigitChar(n % 10)]
  }

  /** The value of a string of decimal digits. */
  function DigitsValue(s: string): nat
    requires AllDigits(s)
  {
    if s == [] then 0 else DigitsValue(s[..|s| - 1]) * 10 + (s[|s| - 1] as int - '0' as int)
  }

  /** Reading back the digits of `str(n)` gives `n`. */
  lemma {:induction false} DigitsValueOfNatToString(n: nat)
    ensures DigitsValue(NatToString(n)) == n
    decreases n
  {
    if n >= 10 {
      var s := NatToString(n);
      assert s[..|s| - 1] == NatToString(n / 10);
      DigitsValueOfNatToString(n / 10);
    }
  }

  lemma NatToStringInjective(i: nat, j: nat)
    requires NatToString(i) == NatToString(j)
    ensures i == j
  {
    DigitsValueOfNatToString(i);
    DigitsValueOfNatToString(j);
  }

  /** A leading zero does not change the value of a digit string. */
  lemma {:induction false} DigitsValueLeadingZero(s: string)
    requires AllDigits(s)
    ensures DigitsValue("0" + s) == DigitsValue(s)
    decreases |s|
  {
    if s != [] {
      var t := "0" + s;
      assert t[..|t| - 1] == "0" + s[..|s| - 1];
      DigitsValueLeadingZero(s[..|s| - 1]);
    }
  }

  /** Python's `f"{n:03d}"`: the decimal digits of `n`, left-padded with zeros to at least three. */
  function ZeroPad3(n: nat): string
  {
    var d := NatToString(n);
    if |d| >= 3 then d else if |d| == 2 then "0" + d else "00" + d
  }

  /** The padded number is all digits, three of them unless `n` needs more, and reads back as `n`. */
  lemma ZeroPad3Pads(n: nat)
    ensures AllDigits(ZeroPad3(n)) && |ZeroPad3(n)| >= 3
    ensures |NatToString(n)| <= 3 ==> |ZeroPad3(n)| == 3
    ensures |NatToString(n)| > 3 ==> ZeroPad3(n) == NatToString(n)
    ensures DigitsValue(ZeroPad3(n)) == n
  {
    var d := NatToString(n);
    DigitsValueOfNatToString(n);
    if |d| == 2 {
      DigitsValueLeadingZero(d);
    } else if |d| < 2 {
      DigitsValueLeadingZero(d);
      DigitsValueLeadingZero("0" + d);
      assert "00" + d == "0" + ("0" + d);
    }
  }

  /** Length of the longest prefix of `s` made of digits. */
  function SpanDigits(s: string): nat
  {
    if s == [] || !IsDigit(s[0]) then 0 else 1 + SpanDigits(s[1..])
  }

  lemma {:induction false} SpanDigitsOfRun(a: string, s: string)
    requires AllDigits(a)
    requires s == [] || !IsDigit(s[0])
    ensures SpanDigits(a + s) == |a|
    decreases |a|
  {
    if a == [] {
      assert a + s == s;
    } else {
      assert (a + s)[1..] == a[1..] + s;
      SpanDigitsOfRun(a[1..], s);
    }
  }

  /** Two strings made of a digit run followed by a part that does not start with a digit
      can only be equal if their digit runs are. */
  lemma DigitRunsEqual(a: string, s: string, b: string, t: string)
    requires AllDigits(a) && AllDigits(b)
    requires s == [] || !IsDigit(s[0])
    requires t == [] || !IsDigit(t[0])
    requires a + s == b + t
    ensures a == b && s == t
  {
    SpanDigitsOfRun(a, s);
    SpanDigitsOfRun(b, t);
    assert a == (a + s)[..|a|];
    assert b == (b + t)[..|b|];
    assert s == (a + s)[|a|..];
    assert t == (b + t)[|b|..];
  }

  /** File names `pre + str(i) + suf` differ for different `i` whenever `suf` does not start with a digit. */
  lemma NumberedNamesDistinct(pre: string, i: nat, s: string, j: nat, t: string)
    requires s == [] || !IsDigit(s[0])
    requires t == [] || !IsDigit(t[0])
    requires pre + NatToString(i) + s == pre + NatToString(j) + t
    ensures i == j && s == t
  {
    DropPrefix(pre, NatToString(i), s);
    DropPrefix(pre, NatToString(j), t);
    DigitRunsEqual(NatToString(i), s, NatToString(j), t);
    NatToStringInjective(i, j);
  }

  /** `sep.join(parts)` for a one-character separator. */
  function JoinWith(parts: seq<string>, sep: char): string
  {
    if parts == [] then "" else if |parts| == 1 then parts[0] else parts[0] + [sep] + JoinWith(parts[1..], sep)
  }

  /** Python's `s.split(sep)` for a one-character separator (never an empty list). */
  function SplitOn(s: string, sep: char): (r: seq<string>)
    ensures |r| >= 1
  {
    if s == [] then [""]
    else
      var rest := SplitOn(s[1..], sep);
      if s[0] == sep then [""] + rest else [[s[0]] + rest[0]] + rest[1..]
  }

  lemma {:induction false} SplitOnFreePrefix(p: string, t: string, sep: char)
    requires sep !in p
    ensures SplitOn(p + t, sep) == [p + SplitOn(t, sep)[0]] + SplitOn(t, sep)[1..]
    decreases |p|
  {
    if p != [] {
      var s := p + t;
      assert s[0] == p[0] && s[0] != sep;
      assert s[1..] == p[1..] + t;
      SplitOnFreePrefix(p[1..], t, sep);
      var rest := SplitOn(s[1..], sep);
      assert SplitOn(s, sep) == [[s[0]] + rest[0]] + rest[1..];
      assert rest == [p[1..] + SplitOn(t, sep)[0]] + SplitOn(t, sep)[1..];
      assert rest[0] == p[1..] + SplitOn(t, sep)[0];
      assert rest[1..] == SplitOn(t, sep)[1..];
      assert [s[0]] + rest[0] == p + SplitOn(t, sep)[0];
    } else {
      assert p + t == t;
      assert p + SplitOn(t, sep)[0] == SplitOn(t, sep)[0];
    }
  }

  /** Splitting the joined parts on the separator gives the parts back, when no part holds it. */
  lemma {:induction false} SplitOnJoinWith(parts: seq<string>, sep: char)
    requires parts != []
    requires forall i :: 0 <= i < |parts| ==> sep !in parts[i]
    ensures SplitOn(JoinWith(parts, sep), sep) == parts
    decreases |parts|
  {
    if |parts| == 1 {
      SplitOnFreePrefix(parts[0], "", sep);
      assert parts[0] + "" == parts[0];
    } else {
      var rest := JoinWith(parts[1..], sep);
      assert JoinWith(parts, sep) == parts[0] + ([sep] + rest);
      SplitOnFreePrefix(parts[0], [sep] + rest, sep);
      assert ([sep] + rest)[1..] == rest;
      SplitOnJoinWith(parts[1..], sep);
      assert SplitOn([sep] + rest, sep) == [""] + parts[1..];
      assert parts[0] + "" == parts[0];
      assert parts == [parts[0]] + parts[1..];
    }
  }

  /** The joined text ends with the last part; nothing follows it. */
  lemma {:induction false} JoinWithEndsWithLast(parts: seq<string>, sep: char)
    requires parts != []
    ensures EndsWith(JoinWith(parts, sep), parts[|parts| - 1])
    decreases |parts|
  {
    if |parts| == 1 {
      assert parts[0][0..] == parts[0];
    } else {
      JoinWithEndsWithLast(parts[1..], sep);
      var j := JoinWith(parts[1..], sep);
      var l := parts[|parts| - 1];
      assert (parts[0] + [sep] + j)[|parts[0] + [sep] + j| - |l|..] == j[|j| - |l|..];
    }
  }

  /** Python's `os.path.join(a, b)` on POSIX. */
  function PathJoin(a: string, b: string): string
  {
    if StartsWith(b, "/") then b
    else if a == [] || EndsWith(a, "/") then a + b
    else a + "/" + b
  }

  /** Joining one directory with two file names is injective when the names agree on being absolute. */
  lemma PathJoinInjective(a: string, b: string, c: string)
    requires StartsWith(b, "/") == StartsWith(c, "/")
    requires PathJoin(a, b) == PathJoin(a, c)
    ensures b == c
  {
    if !StartsWith(b, "/") {
      var dir := if a == [] || EndsWith(a, "/") then a else a + "/";
      assert PathJoin(a, b) == dir + b && PathJoin(a, c) == dir + c;
      assert b == (dir + b)[|dir|..];
      assert c == (dir + c)[|dir|..];
    }
  }

  /** The index of the last `c` in `s`, or -1 (Python's `rfind`). */
  function RFind(s: string, c: char): (i: int)
    ensures -1 <= i < |s|
    ensures i >= 0 ==> s[i] == c
    ensures forall k :: i < k < |s| ==> s[k] != c
  {
    if s == [] then -1 else if s[|s| - 1] == c then |s| - 1 else RFind(s[..|s| - 1], c)
  }

  /** Python's `os.path.splitext(p)[0]` on POSIX: `p` without its last extension, where a dot
      that only leading dots of the file name precede does not start an extension. */
  function SplitExtRoot(p: string): (root: string)
    ensures StartsWith(p, root)
  {
    var sepIndex := RFind(p, '/');
    var dotIndex := RFind(p, '.');
    if dotIndex > sepIndex && exists k :: sepIndex < k < dotIndex && p[k] != '.' then p[..dotIndex]
    else p
  }
}
