/**
 * The Python string operations the pipeline leans on: whitespace as
 * `str.split()` and `str.strip()` understand it, `str.split()` itself,
 * `sep.join(parts)`, `strip()`, and the decimal rendering of integers used
 * by f-strings.
 */
module PyText {

  /** The characters Python's `str.isspace` accepts, which is what the
      argument-less `split()` and `strip()` cut on. */
  predicate IsSpace(c: char) {
    c == ' ' || c == '\t' || c == '\n' || c == '\r' ||
    c == '\U{000B}' || c == '\U{000C}' ||
    ('\U{001C}' <= c <= '\U{001F}') ||
    c == '\U{0085}' || c == '\U{00A0}' || c == '\U{1680}' ||
    ('\U{2000}' <= c <= '\U{200A}') ||
    c == '\U{2028}' || c == '\U{2029}' || c == '\U{202F}' ||
    c == '\U{205F}' || c == '\U{3000}'
  }

  predicate AllSpace(s: string) {
    forall i :: 0 <= i < |s| ==> IsSpace(s[i])
  }

  /** A word as `split()` yields it: non-empty, without whitespace. */
  predicate IsWord(w: string) {
    w != [] && forall i :: 0 <= i < |w| ==> !IsSpace(w[i])
  }

  /** How many characters of whitespace `s` starts with. */
  function LeadingSpaces(s: string): (n: nat)
    ensures n <= |s|
    ensures forall i :: 0 <= i < n ==> IsSpace(s[i])
    ensures n == |s| || !IsSpace(s[n])
  {
    if s != [] && IsSpace(s[0]) then 1 + LeadingSpaces(s[1..]) else 0
  }

  /** How many characters of whitespace `s` ends with. */
  function TrailingSpaces(s: string): (n: nat)
    ensures n <= |s|
    ensures forall i :: |s| - n <= i < |s| ==> IsSpace(s[i])
    ensures n == |s| || !IsSpace(s[|s| - n - 1])
  {
    if s != [] && IsSpace(s[|s| - 1]) then 1 + TrailingSpaces(s[..|s| - 1]) else 0
  }

  /** `s.lstrip()`: drops the leading whitespace and nothing else. */
  function StripLeft(s: string): (r: string)
    ensures |r| <= |s| && r == s[|s| - |r|..]
    ensures AllSpace(s[..|s| - |r|])
    ensures r == [] || !IsSpace(r[0])
  {
    s[LeadingSpaces(s)..]
  }

  /** `s.rstrip()`: drops the trailing whitespace and nothing else. */
  function StripRight(s: string): (r: string)
    ensures |r| <= |s| && r == s[..|r|]
    ensures AllSpace(s[|r|..])
    ensures r == [] || !IsSpace(r[|r| - 1])
  {
    s[..|s| - TrailingSpaces(s)]
  }

  /** `s.strip()`. */
  function Strip(s: string): (r: string)
    ensures r == [] || (!IsSpace(r[0]) && !IsSpace(r[|r| - 1]))
    ensures |r| <= |s|
  {
    StripRight(StripLeft(s))
  }

  /** The longest prefix of `s` free of whitespace. */
  function WordPrefix(s: string): (w: string)
    ensures |w| <= |s| && w == s[..|w|]
    ensures forall i :: 0 <= i < |w| ==> !IsSpace(w[i])
    ensures |w| == |s| || IsSpace(s[|w|])
  {
    if s == [] || IsSpace(s[0]) then [] else [s[0]] + WordPrefix(s[1..])
  }

  /** `s.split()` with no separator: the maximal runs of non-whitespace, in order. */
  function Words(s: string): seq<string>
    decreases |s|
  {
    var t := StripLeft(s);
    if t == [] then []
    else
      var w := WordPrefix(t);
      [w] + Words(t[|w|..])
  }

  /** Every piece `split()` returns is a word. */
  lemma {:induction false} WordsAreWords(s: string)
    ensures forall i :: 0 <= i < |Words(s)| ==> IsWord(Words(s)[i])
    decreases |s|
  {
    var t := StripLeft(s);
    if t != [] {
      var w := WordPrefix(t);
      assert w != [] by { assert !IsSpace(t[0]); }
      var rest := t[|w|..];
      WordsAreWords(rest);
      assert Words(s) == [w] + Words(rest);
      forall i | 0 <= i < |Words(s)|
        ensures IsWord(Words(s)[i])
      {
        if i > 0 {
          assert Words(s)[i] == Words(rest)[i - 1];
        }
      }
    }
  }

  /** `sep.join(parts)`. */
  function JoinWith(sep: string, parts: seq<string>): string
  {
    if |parts| == 0 then ""
    else if |parts| == 1 then parts[0]
    else parts[0] + sep + JoinWith(sep, parts[1..])
  }

  /** `s.split(sep)` for a one-character separator: the pieces between
      separators, empty ones included. */
  function SplitOn(s: string, sep: char): (r: seq<string>)
    ensures |r| >= 1
  {
    if s == [] then [[]]
    else
      var rest := SplitOn(s[1..], sep);
      if s[0] == sep then [[]] + rest else [[s[0]] + rest[0]] + rest[1..]
  }

  lemma {:induction false} SplitOnFree(a: string, sep: char)
    requires sep !in a
    ensures SplitOn(a, sep) == [a]
  {
    if a != [] {
      SplitOnFree(a[1..], sep);
      assert [a[0]] + a[1..] == a;
    }
  }

  lemma {:induction false} SplitOnCons(a: string, sep: char, b: string)
    requires sep !in a
    ensures SplitOn(a + [sep] + b, sep) == [a] + SplitOn(b, sep)
  {
    if a == [] {
      assert a + [sep] + b == [sep] + b;
      assert ([sep] + b)[1..] == b;
    } else {
      assert (a + [sep] + b)[1..] == a[1..] + [sep] + b;
      SplitOnCons(a[1..], sep, b);
      assert [a[0]] + a[1..] == a;
    }
  }

  /** Joining pieces that hold no separator and splitting again gives the
      pieces back: `sep.join(ps).split(sep) == ps` for a non-empty list. */
  lemma {:induction false} SplitOnJoinRoundTrip(parts: seq<string>, sep: char)
    requires parts != []
    requires forall i :: 0 <= i < |parts| ==> sep !in parts[i]
    ensures SplitOn(JoinWith([sep], parts), sep) == parts
  {
    if |parts| == 1 {
      SplitOnFree(parts[0], sep);
    } else {
      SplitOnJoinRoundTrip(parts[1..], sep);
      SplitOnCons(parts[0], sep, JoinWith([sep], parts[1..]));
    }
  }

  function Flatten<T>(xss: seq<seq<T>>): seq<T>
  {
    if xss == [] then [] else xss[0] + Flatten(xss[1..])
  }

  lemma {:induction false} FlattenAppend<T>(a: seq<seq<T>>, b: seq<seq<T>>)
    ensures Flatten(a + b) == Flatten(a) + Flatten(b)
  {
    if a == [] {
      assert a + b == b;
    } else {
      assert (a + b)[1..] == a[1..] + b;
      FlattenAppend(a[1..], b);
    }
  }

  lemma FlattenSnoc<T>(a: seq<seq<T>>, x: seq<T>)
    ensures Flatten(a + [x]) == Flatten(a) + x
  {
    FlattenAppend(a, [x]);
    assert Flatten([x]) == x + Flatten([x][1..]);
    assert [x][1..] == [];
  }

  /** The whitespace runs and the word they precede: `s.split()` is empty exactly
      when `s` is all whitespace. */
  lemma WordsEmptyIff(s: string)
    ensures Words(s) == [] <==> AllSpace(s)
  {
    var t := StripLeft(s);
    if t != [] {
      assert s[|s| - |t|] == t[0];
    } else {
      assert s[..|s|] == s;
    }
  }

  /** A word followed by nothing or by whitespace is exactly what `WordPrefix` cuts off. */
  lemma {:induction false} WordPrefixOfWord(w: string, rest: string)
    requires forall i :: 0 <= i < |w| ==> !IsSpace(w[i])
    requires rest == [] || IsSpace(rest[0])
    ensures WordPrefix(w + rest) == w
  {
    if w != [] {
      assert (w + rest)[1..] == w[1..] + rest;
      WordPrefixOfWord(w[1..], rest);
    }
  }

  /** Splitting the space-joined words gives the words back: `" ".join(ws).split() == ws`. */
  lemma {:induction false} SplitJoinRoundTrip(ws: seq<string>)
    requires forall i :: 0 <= i < |ws| ==> IsWord(ws[i])
    ensures Words(JoinWith(" ", ws)) == ws
  {
    if |ws| == 1 {
      WordsOfWord(ws[0]);
    } else if |ws| > 1 {
      var tail := ws[1..];
      forall i | 0 <= i < |tail|
        ensures IsWord(tail[i])
      {
        assert tail[i] == ws[i + 1];
      }
      SplitJoinRoundTrip(tail);
      WordsOfJoinCons(ws);
    }
  }

  lemma WordsOfJoinCons(ws: seq<string>)
    requires |ws| > 1 && IsWord(ws[0])
    requires Words(JoinWith(" ", ws[1..])) == ws[1..]
    ensures Words(JoinWith(" ", ws)) == ws
  {
    var j := JoinWith(" ", ws[1..]);
    assert JoinWith(" ", ws) == ws[0] + " " + j;
    WordsOfWordThenSpace(ws[0], j);
    assert [ws[0]] + ws[1..] == ws;
  }

  lemma WordsOfWord(w: string)
    requires IsWord(w)
    ensures Words(w) == [w]
  {
    assert w + [] == w;
    WordPrefixOfWord(w, []);
    assert w[|w|..] == [];
  }

  lemma WordsOfWordThenSpace(w: string, j: string)
    requires IsWord(w)
    ensures Words(w + " " + j) == [w] + Words(j)
  {
    var s := w + " " + j;
    assert s == w + (" " + j);
    WordPrefixOfWord(w, " " + j);
    assert s[|w|..] == " " + j;
    WordsAfterSpace(j);
  }

  lemma WordsAfterSpace(j: string)
    ensures Words(" " + j) == Words(j)
  {
    assert (" " + j)[1..] == j;
    assert LeadingSpaces(" " + j) == 1 + LeadingSpaces(j);
    assert StripLeft(" " + j) == StripLeft(j);
  }

  /** `strip()` removes exactly the surrounding whitespace: whitespace, then a
      core that neither starts nor ends with whitespace, then whitespace, strips
      to that core. */
  lemma {:induction false} StripExact(pre: string, core: string, post: string)
    requires AllSpace(pre) && AllSpace(post)
    requires core == [] || (!IsSpace(core[0]) && !IsSpace(core[|core| - 1]))
    ensures Strip(pre + core + post) == core
  {
    assert pre + core + post == pre + (core + post);
    if core == [] {
      assert pre + (core + post) == (pre + post) + [];
      StripLeftExact(pre + post, []);
    } else {
      StripLeftExact(pre, core + post);
      StripRightExact(core, post);
    }
  }

  lemma StripLeftExact(pre: string, s: string)
    requires AllSpace(pre)
    requires s == [] || !IsSpace(s[0])
    ensures StripLeft(pre + s) == s
  {
    LeadingSpacesExact(pre, s);
    assert (pre + s)[|pre|..] == s;
  }

  lemma {:induction false} LeadingSpacesExact(pre: string, s: string)
    requires AllSpace(pre)
    requires s == [] || !IsSpace(s[0])
    ensures LeadingSpaces(pre + s) == |pre|
  {
    if pre != [] {
      assert (pre + s)[1..] == pre[1..] + s;
      LeadingSpacesExact(pre[1..], s);
    } else {
      assert pre + s == s;
    }
  }

  lemma StripRightExact(s: string, post: string)
    requires AllSpace(post)
    requires s == [] || !IsSpace(s[|s| - 1])
    ensures StripRight(s + post) == s
  {
    TrailingSpacesExact(s, post);
    assert (s + post)[..|s|] == s;
  }

  lemma {:induction false} TrailingSpacesExact(s: string, post: string)
    requires AllSpace(post)
    requires s == [] || !IsSpace(s[|s| - 1])
    ensures TrailingSpaces(s + post) == |post|
  {
    if post != [] {
      var n := |post|;
      assert (s + post)[..|s + post| - 1] == s + post[..n - 1];
      TrailingSpacesExact(s, post[..n - 1]);
    } else {
      assert s + post == s;
    }
  }

  function Digit(n: nat): char
    requires n < 10
  {
    "0123456789"[n]
  }

  /** `str(n)` for a natural number. */
  function NatToString(n: nat): (s: string)
    ensures 1 <= |s|
    ensures n >= 10 ==> |s| >= 2
    decreases n
  {
    if n < 10 then [Digit(n)] else NatToString(n / 10) + [Digit(n % 10)]
  }

  /** `str(i)` for any integer. */
  function IntToString(i: int): string
  {
    if i < 0 then "-" + NatToString(-i) else NatToString(i)
  }

  /** Distinct numbers render differently. */
  lemma {:induction false} NatToStringInjective(a: nat, b: nat)
    requires NatToString(a) == NatToString(b)
    ensures a == b
    decreases a
  {
    var sa, sb := NatToString(a), NatToString(b);
    assert Digit(a % 10) == sa[|sa| - 1] == sb[|sb| - 1] == Digit(b % 10);
    if a >= 10 && b >= 10 {
      assert NatToString(a / 10) == sa[..|sa| - 1] == sb[..|sb| - 1] == NatToString(b / 10);
      NatToStringInjective(a / 10, b / 10);
    }
  }
}
