/** The slice of the Java platform the core depends on: null references,
 *  bytes, exceptions, and the java.lang.String operations the code calls
 *  (trim, startsWith, endsWith, contains, indexOf, substring, split with a
 *  one-character separator, replaceAll with a literal pattern), together with
 *  the ASCII-only case folding of Pattern.CASE_INSENSITIVE and the
 *  per-character folding of String.equalsIgnoreCase.
 *  Strings are sequences of Unicode code points. */
module JavaLang {

  /** A Java reference that may be null. */
  datatype Option<+T> = None | Some(value: T)

  /** The exceptions the modelled code can raise or catch. */
  datatype JavaException =
    | NullPointer
    | StringIndexOutOfBounds
    | NoSuchAlgorithm
    | IllegalArgument
    | Runtime(cause: JavaException)

  /** A value, or the exception thrown instead of returning one. */
  datatype Result<+T> = Ok(value: T) | Thrown(exception: JavaException)

  newtype byte = x: int | 0 <= x < 256

  // ---------------------------------------------------------------------
  // startsWith, endsWith, contains

  predicate StartsWith(s: string, prefix: string) { prefix <= s }

  predicate EndsWith(s: string, suffix: string)
  {
    |suffix| <= |s| && s[|s| - |suffix|..] == suffix
  }

  /** String.contains: some position of s begins an occurrence of w. */
  predicate Contains(s: string, w: string)
    decreases |s|
  {
    if |s| < |w| then false else w <= s || Contains(s[1..], w)
  }

  /** An occurrence at a known position is found by Contains. */
  lemma {:induction false} ContainsAt(s: string, w: string, i: nat)
    requires i + |w| <= |s| && s[i..i + |w|] == w
    ensures Contains(s, w)
    decreases i
  {
    if i > 0 {
      assert s[1..][i - 1..i - 1 + |w|] == s[i..i + |w|];
      ContainsAt(s[1..], w, i - 1);
    }
  }

  /** Contains yields the position of an occurrence. */
  lemma {:induction false} ContainsWitness(s: string, w: string) returns (i: nat)
    requires Contains(s, w)
    ensures i + |w| <= |s| && s[i..i + |w|] == w
    decreases |s|
  {
    if w <= s {
      i := 0;
    } else {
      var j := ContainsWitness(s[1..], w);
      assert s[1..][j..j + |w|] == s[j + 1..j + 1 + |w|];
      i := j + 1;
    }
  }

  /** An occurrence inside a slice is an occurrence in the whole string. */
  lemma ContainsInSlice(s: string, lo: nat, hi: nat, w: string)
    requires lo <= hi <= |s|
    ensures Contains(s[lo..hi], w) ==> Contains(s, w)
  {
    if Contains(s[lo..hi], w) {
      var t := s[lo..hi];
      var k := ContainsWitness(t, w);
      assert forall j :: k <= j < k + |w| ==> t[j] == s[lo + j];
      assert s[lo + k..lo + k + |w|] == t[k..k + |w|];
      ContainsAt(s, w, lo + k);
    }
  }

  /** Containment is transitive. */
  lemma ContainsTrans(s: string, u: string, w: string)
    requires Contains(u, w)
    ensures Contains(s, u) ==> Contains(s, w)
  {
    if Contains(s, u) {
      var i := ContainsWitness(s, u);
      ContainsInSlice(s, i, i + |u|, w);
    }
  }

  /** Containment of a one-character string is membership. */
  lemma {:induction false} ContainsChar(s: string, c: char)
    ensures Contains(s, [c]) <==> c in s
    decreases |s|
  {
    if |s| > 0 {
      ContainsChar(s[1..], c);
      assert s == [s[0]] + s[1..];
    }
  }

  /** An occurrence cannot begin inside a prefix lacking w's first character. */
  lemma {:induction false} ContainsSkipPrefix(r: string, x: string, w: string)
    requires |w| > 0 && w[0] !in r
    ensures Contains(r + x, w) ==> Contains(x, w)
    decreases |r|
  {
    if |r| == 0 {
      assert r + x == x;
    } else {
      assert (r + x)[1..] == r[1..] + x;
      assert (r + x)[0] == r[0];
      ContainsSkipPrefix(r[1..], x, w);
    }
  }

  /** Some entry of a deny-list occurs in s. */
  predicate ContainsAny(s: string, words: seq<string>)
  {
    exists k :: 0 <= k < |words| && Contains(s, words[k])
  }

  // ---------------------------------------------------------------------
  // Case folding

  /** The folding of Pattern.CASE_INSENSITIVE without UNICODE_CASE:
   *  only the ASCII letters A-Z are folded. */
  function LowerAscii(c: char): (d: char)
    ensures 'A' <= c <= 'Z' ==> 'a' <= d <= 'z'
    ensures !('A' <= c <= 'Z') ==> d == c
  {
    if 'A' <= c <= 'Z' then (c as int + 32) as char else c
  }

  function Lower(s: string): (r: string)
    ensures |r| == |s|
  {
    seq(|s|, i requires 0 <= i < |s| => LowerAscii(s[i]))
  }

  /** A case-insensitive find of a literal pattern. */
  predicate ContainsIgnoreCase(s: string, w: string)
  {
    Contains(Lower(s), Lower(w))
  }

  /** A case-sensitive occurrence is also a case-insensitive one. */
  lemma ContainsLower(s: string, w: string)
    ensures Contains(s, w) ==> Contains(Lower(s), Lower(w))
  {
    if Contains(s, w) {
      var i := ContainsWitness(s, w);
      assert Lower(s)[i..i + |w|] == Lower(w);
      ContainsAt(Lower(s), Lower(w), i);
    }
  }

  /** Character.toUpperCase then Character.toLowerCase, as String.equalsIgnoreCase
   *  compares characters, on the code points that fold onto an ASCII letter:
   *  besides A-Z these are U+0130 and U+0131 (onto i), U+017F (onto s) and
   *  U+212A (onto k). */
  function FoldChar(c: char): char
  {
    if 'A' <= c <= 'Z' then LowerAscii(c)
    else if c == '\U{130}' || c == '\U{131}' then 'i'
    else if c == '\U{17F}' then 's'
    else if c == '\U{212A}' then 'k'
    else c
  }

  /** s.equalsIgnoreCase(t) for a lower-case ASCII constant t. */
  predicate EqualsIgnoreCase(s: string, t: string)
  {
    |s| == |t| && forall i :: 0 <= i < |s| ==> FoldChar(s[i]) == t[i]
  }

  // ---------------------------------------------------------------------
  // trim

  /** String.trim removes code points up to U+0020 from both ends. */
  predicate IsSpace(c: char) { c <= ' ' }

  predicate IsTrimmed(s: string)
  {
    |s| == 0 || (!IsSpace(s[0]) && !IsSpace(s[|s| - 1]))
  }

  function TrimStart(s: string): (r: string)
    ensures |r| <= |s| && r == s[|s| - |r|..]
    ensures |r| > 0 ==> !IsSpace(r[0])
    ensures forall k :: 0 <= k < |s| - |r| ==> IsSpace(s[k])
    decreases |s|
  {
    if |s| > 0 && IsSpace(s[0]) then TrimStart(s[1..]) else s
  }

  function TrimEnd(s: string): (r: string)
    ensures |r| <= |s| && r == s[..|r|]
    ensures |r| > 0 ==> !IsSpace(r[|r| - 1])
    ensures forall k :: |r| <= k < |s| ==> IsSpace(s[k])
    decreases |s|
  {
    if |s| > 0 && IsSpace(s[|s| - 1]) then TrimEnd(s[..|s| - 1]) else s
  }

  function Trim(s: string): (r: string)
    ensures IsTrimmed(r) && |r| <= |s|
  {
    var t := TrimStart(s);
    var r := TrimEnd(t);
    assert |r| > 0 ==> r[0] == t[0];
    r
  }

  /** trim() is the identity on a string with no space at either end. */
  lemma TrimOfTrimmed(s: string)
    requires IsTrimmed(s)
    ensures Trim(s) == s
  {
  }

  /** trim() only deletes characters, so it creates no new occurrence. */
  lemma TrimContains(s: string, w: string)
    ensures Contains(Trim(s), w) ==> Contains(s, w)
  {
    var t := TrimStart(s);
    assert t[0..|Trim(s)|] == Trim(s);
    assert s[|s| - |t|..|s|] == t;
    ContainsInSlice(t, 0, |Trim(s)|, w);
    ContainsInSlice(s, |s| - |t|, |s|, w);
  }

  /** s.trim().isEmpty(): every character of s is a space. */
  predicate IsBlank(s: string) { Trim(s) == [] }

  lemma {:induction false} BlankIffAllSpace(s: string)
    ensures IsBlank(s) <==> forall k :: 0 <= k < |s| ==> IsSpace(s[k])
  {
    var t := TrimStart(s);
    if |t| > 0 {
      assert !IsSpace(s[|s| - |t|]);
      assert |TrimEnd(t)| > 0;
    }
  }

  // ---------------------------------------------------------------------
  // indexOf, substring

  /** String.indexOf(int ch): the first position of c, or -1. */
  function IndexOf(s: string, c: char): (i: int)
    ensures -1 <= i < |s|
    ensures i == -1 <==> c !in s
    ensures 0 <= i ==> s[i] == c && c !in s[..i]
    decreases |s|
  {
    if |s| == 0 then -1
    else if s[0] == c then 0
    else
      var j := IndexOf(s[1..], c);
      assert s[1..] == s[1..];
      if j == -1 then -1
      else
        assert s[..j + 1] == [s[0]] + s[1..][..j];
        j + 1
  }

  /** String.substring(begin, end), which throws when the bounds are out of order. */
  function Substring(s: string, begin: int, end: int): (r: Result<string>)
    ensures r.Ok? <==> 0 <= begin <= end <= |s|
    ensures r.Ok? ==> |r.value| == end - begin
  {
    if 0 <= begin <= end <= |s| then Ok(s[begin..end]) else Thrown(StringIndexOutOfBounds)
  }

  // ---------------------------------------------------------------------
  // split with a one-character separator

  /** The pieces of s between separators, every one kept (String.split with
   *  limit -1). */
  function SplitAll(s: string, sep: char): (parts: seq<string>)
    ensures |parts| >= 1
    ensures forall k :: 0 <= k < |parts| ==> sep !in parts[k]
    ensures Join(parts, sep) == s
    decreases |s|
  {
    if |s| == 0 then [[]]
    else
      var rest := SplitAll(s[1..], sep);
      if s[0] == sep then
        assert Join([[]] + rest, sep) == [sep] + Join(rest, sep);
        [[]] + rest
      else
        var parts := [[s[0]] + rest[0]] + rest[1..];
        assert Join(parts, sep) == [s[0]] + Join(rest, sep) by {
          if |rest| > 1 {
            assert parts[1..] == rest[1..];
          }
        }
        assert s == [s[0]] + s[1..];
        parts
  }

  /** The inverse of splitting: the pieces rejoined with the separator. */
  function Join(parts: seq<string>, sep: char): string
    decreases |parts|
  {
    if |parts| == 0 then []
    else if |parts| == 1 then parts[0]
    else parts[0] + [sep] + Join(parts[1..], sep)
  }

  /** Removes the trailing empty strings, as String.split(regex) does. */
  function DropTrailingEmpty(parts: seq<string>): (r: seq<string>)
    ensures r <= parts
    ensures |r| > 0 ==> r[|r| - 1] != []
    ensures forall k :: |r| <= k < |parts| ==> parts[k] == []
    decreases |parts|
  {
    if |parts| > 0 && parts[|parts| - 1] == [] then DropTrailingEmpty(parts[..|parts| - 1])
    else parts
  }

  /** String.split(String.valueOf(sep)): when no separator occurs the result
   *  is the string itself; otherwise the pieces with trailing empty strings
   *  removed. */
  function Split(s: string, sep: char): (parts: seq<string>)
    ensures forall k :: 0 <= k < |parts| ==> sep !in parts[k]
    ensures sep !in s ==> parts == [s]
    ensures sep in s ==> |parts| == 0 || parts[|parts| - 1] != []
  {
    if sep !in s then [s] else DropTrailingEmpty(SplitAll(s, sep))
  }

  /** Appending an empty piece appends one separator. */
  lemma {:induction false} JoinAppendEmpty(parts: seq<string>, sep: char)
    requires |parts| >= 1
    ensures Join(parts + [[]], sep) == Join(parts, sep) + [sep]
    decreases |parts|
  {
    if |parts| > 1 {
      assert (parts + [[]])[1..] == parts[1..] + [[]];
      JoinAppendEmpty(parts[1..], sep);
    }
  }

  /** Dropping trailing empty pieces removes only separators from the end of
   *  the joined text. */
  lemma {:induction false} DropTrailingEmptyJoin(parts: seq<string>, sep: char)
    ensures var j := Join(parts, sep); var d := Join(DropTrailingEmpty(parts), sep);
      d <= j && forall k :: |d| <= k < |j| ==> j[k] == sep
    decreases |parts|
  {
    if |parts| > 0 && parts[|parts| - 1] == [] {
      var init := parts[..|parts| - 1];
      DropTrailingEmptyJoin(init, sep);
      assert DropTrailingEmpty(parts) == DropTrailingEmpty(init);
      assert parts == init + [[]];
      if |init| >= 1 {
        JoinAppendEmpty(init, sep);
        assert Join(parts, sep) == Join(init, sep) + [sep];
      } else {
        assert Join(parts, sep) == [];
      }
    }
  }

  /** The result of Split is determined by the text: the pieces, rejoined,
   *  give s up to a run of trailing separators. */
  lemma SplitJoin(s: string, sep: char)
    ensures var j := Join(Split(s, sep), sep);
      j <= s && forall k :: |j| <= k < |s| ==> s[k] == sep
  {
    if sep in s {
      DropTrailingEmptyJoin(SplitAll(s, sep), sep);
    }
  }

  /** Splitting a separator-free piece followed by more text. */
  lemma {:induction false} SplitAllFreePrefix(x: string, z: string, sep: char)
    requires sep !in x
    ensures var p := SplitAll(z, sep);
      SplitAll(x + z, sep) == [x + p[0]] + p[1..]
    decreases |x|
  {
    if |x| > 0 {
      var p := SplitAll(z, sep);
      assert (x + z)[1..] == x[1..] + z;
      assert (x + z)[0] == x[0] && x[0] != sep;
      assert sep !in x[1..];
      SplitAllFreePrefix(x[1..], z, sep);
      var rest := SplitAll(x[1..] + z, sep);
      assert rest == [x[1..] + p[0]] + p[1..];
      assert SplitAll(x + z, sep) == [[x[0]] + rest[0]] + rest[1..];
      assert [x[0]] + (x[1..] + p[0]) == x + p[0];
    } else {
      var p := SplitAll(z, sep);
      assert x + z == z && x + p[0] == p[0];
      assert [p[0]] + p[1..] == p;
    }
  }

  /** "x:y" splits into x and y when both are non-empty and separator-free. */
  lemma SplitTwo(x: string, y: string, sep: char)
    requires sep !in x && sep !in y && |y| > 0
    ensures Split(x + [sep] + y, sep) == [x, y]
  {
    var s := x + [sep] + y;
    assert s[|x|] == sep;
    assert x + [sep] + y == x + ([sep] + y);
    SplitAllFreePrefix(y, [], sep);
    assert y + [] == y;
    assert SplitAll(y, sep) == [y];
    assert SplitAll([sep] + y, sep) == [[], y] by {
      assert ([sep] + y)[1..] == y;
    }
    SplitAllFreePrefix(x, [sep] + y, sep);
    assert x + [] == x;
    assert SplitAll(s, sep) == [x, y];
    assert DropTrailingEmpty([x, y]) == [x, y];
  }

  /** "x:" (trailing separator) splits into x alone. */
  lemma SplitTrailing(x: string, sep: char)
    requires sep !in x && |x| > 0
    ensures Split(x + [sep], sep) == [x]
  {
    var s := x + [sep];
    assert s[|x|] == sep;
    assert SplitAll([sep], sep) == [[], []] by {
      assert [sep][1..] == [];
    }
    SplitAllFreePrefix(x, [sep], sep);
    assert x + [] == x;
    assert SplitAll(s, sep) == [x, []];
    assert DropTrailingEmpty([x, []]) == [x] by {
      assert [x, []][..1] == [x];
    }
  }

  /** "x:y:" splits into x and y: the trailing empty piece is dropped. */
  lemma SplitTwoTrailing(x: string, y: string, sep: char)
    requires sep !in x && sep !in y && |y| > 0
    ensures Split(x + [sep] + y + [sep], sep) == [x, y]
  {
    var s := x + [sep] + y + [sep];
    assert s[|x|] == sep;
    assert SplitAll([sep], sep) == [[], []] by {
      assert [sep][1..] == [];
    }
    SplitAllFreePrefix(y, [sep], sep);
    assert y + [] == y;
    assert SplitAll(y + [sep], sep) == [y, []];
    assert SplitAll([sep] + (y + [sep]), sep) == [[], y, []] by {
      assert ([sep] + (y + [sep]))[1..] == y + [sep];
    }
    SplitAllFreePrefix(x, [sep] + (y + [sep]), sep);
    assert x + [] == x;
    assert s == x + ([sep] + (y + [sep]));
    assert SplitAll(s, sep) == [x, y, []];
    assert DropTrailingEmpty([x, y, []]) == [x, y] by {
      assert [x, y, []][..2] == [x, y];
    }
  }

  /** ":y" (leading separator) splits into an empty piece and y. */
  lemma SplitLeading(y: string, sep: char)
    requires sep !in y && |y| > 0
    ensures Split([sep] + y, sep) == [[], y]
  {
    SplitTwo([], y, sep);
    assert [] + [sep] + y == [sep] + y;
  }

  // ---------------------------------------------------------------------
  // replaceAll with a literal pattern

  /** String.replaceAll(pat, rep) where pat has no regex metacharacters and
   *  rep no '$' or '\': the leftmost occurrences of pat, taken left to right
   *  without overlap, are replaced by rep. */
  function ReplaceAll(s: string, pat: string, rep: string): string
    requires |pat| > 0
    decreases |s|
  {
    if |s| < |pat| then s
    else if pat <= s then rep + ReplaceAll(s[|pat|..], pat, rep)
    else [s[0]] + ReplaceAll(s[1..], pat, rep)
  }

  /** Replacing every c by a text without c leaves no c. */
  lemma {:induction false} ReplaceAllRemovesChar(s: string, c: char, rep: string)
    requires c !in rep
    ensures c !in ReplaceAll(s, [c], rep)
    decreases |s|
  {
    if |s| > 0 {
      ReplaceAllRemovesChar(s[1..], c, rep);
    }
  }

  /** replaceAll of a character that does not occur changes nothing. */
  lemma {:induction false} ReplaceAllAbsentChar(s: string, c: char, rep: string)
    requires c !in s
    ensures ReplaceAll(s, [c], rep) == s
    decreases |s|
  {
    if |s| > 0 {
      ReplaceAllAbsentChar(s[1..], c, rep);
      assert s == [s[0]] + s[1..];
    }
  }

  /** replaceAll of a pattern that does not occur changes nothing. */
  lemma {:induction false} ReplaceAllAbsent(s: string, pat: string, rep: string)
    requires |pat| > 0 && !Contains(s, pat)
    ensures ReplaceAll(s, pat, rep) == s
    decreases |s|
  {
    if |s| >= |pat| {
      ReplaceAllAbsent(s[1..], pat, rep);
      assert s == [s[0]] + s[1..];
    }
  }

  /** Every character of w occurs in any string containing w. */
  lemma ContainsChars(s: string, w: string, c: char)
    requires c in w
    ensures Contains(s, w) ==> c in s
  {
    if Contains(s, w) {
      var i := ContainsWitness(s, w);
      var j :| 0 <= j < |w| && w[j] == c;
      assert s[i + j] == c;
    }
  }

  /** replaceAll introduces no character that neither s nor rep has. */
  lemma {:induction false} ReplaceAllKeepsAbsent(s: string, pat: string, rep: string, d: char)
    requires |pat| > 0 && d !in s && d !in rep
    ensures d !in ReplaceAll(s, pat, rep)
    decreases |s|
  {
    if |s| >= |pat| {
      if pat <= s {
        assert forall k :: |pat| <= k < |s| ==> s[k] != d;
        ReplaceAllKeepsAbsent(s[|pat|..], pat, rep, d);
      } else {
        ReplaceAllKeepsAbsent(s[1..], pat, rep, d);
      }
    }
  }

  /** When rep cannot begin u, an output starting with u comes from an input
   *  starting with u. */
  lemma {:induction false} ReplaceAllPrefix(s: string, pat: string, rep: string, u: string)
    requires |pat| > 0 && |rep| > 0 && rep[0] !in u
    ensures u <= ReplaceAll(s, pat, rep) ==> u <= s
    decreases |s|
  {
    if |u| > 0 && |s| >= |pat| {
      var out := ReplaceAll(s, pat, rep);
      if pat <= s {
        assert out[0] == rep[0];
      } else {
        assert rep[0] !in u[1..] by {
          assert forall k :: 1 <= k < |u| ==> u[1..][k - 1] == u[k];
        }
        ReplaceAllPrefix(s[1..], pat, rep, u[1..]);
        assert out == [s[0]] + ReplaceAll(s[1..], pat, rep);
        assert u == [u[0]] + u[1..];
        assert s == [s[0]] + s[1..];
      }
    }
  }

  /** After replaceAll, w does not occur, provided the pattern is w itself or
   *  w did not occur before, and rep can neither contain the first character
   *  of w nor continue a partial w. */
  lemma {:induction false} ReplaceAllExcludes(s: string, pat: string, rep: string, w: string)
    requires |pat| > 0 && |rep| > 0 && |w| > 0
    requires w[0] !in rep && rep[0] !in w[1..]
    requires pat == w || !Contains(s, w)
    ensures !Contains(ReplaceAll(s, pat, rep), w)
    decreases |s|
  {
    if |s| >= |pat| {
      if pat <= s {
        var rest := s[|pat|..];
        ContainsInSlice(s, |pat|, |s|, w);
        assert s[|pat|..|s|] == rest;
        ReplaceAllExcludes(rest, pat, rep, w);
        ContainsSkipPrefix(rep, ReplaceAll(rest, pat, rep), w);
      } else {
        var out := ReplaceAll(s, pat, rep);
        var tail := ReplaceAll(s[1..], pat, rep);
        assert out == [s[0]] + tail;
        assert (w <= out) == (w[0] == s[0] && w[1..] <= tail);
        assert (w <= s) == (w[0] == s[0] && w[1..] <= s[1..]);
        ReplaceAllExcludes(s[1..], pat, rep, w);
        ReplaceAllPrefix(s[1..], pat, rep, w[1..]);
        assert w <= s ==> Contains(s, w);
        assert !(w <= s);
      }
    } else if pat == w {
      assert |s| < |w|;
    }
  }

  // ---------------------------------------------------------------------
  // Integer.toString

  function DigitChar(d: nat): char
    requires d < 10
  {
    (d + '0' as int) as char
  }

  predicate IsAsciiDigit(c: char) { '0' <= c <= '9' }

  predicate AllDigits(s: string)
  {
    forall k :: 0 <= k < |s| ==> IsAsciiDigit(s[k])
  }

  /** The decimal digits of n, most significant first, without leading zeros. */
  function Digits(n: nat): (s: string)
    ensures |s| >= 1 && AllDigits(s)
    decreases n
  {
    if n < 10 then [DigitChar(n)] else Digits(n / 10) + [DigitChar(n % 10)]
  }

  /** The value of a string of decimal digits. */
  function DigitsValue(s: string): nat
    requires AllDigits(s)
  {
    if |s| == 0 then 0
    else DigitsValue(s[..|s| - 1]) * 10 + (s[|s| - 1] as int - '0' as int)
  }

  /** Reading back the decimal digits gives the number. */
  lemma {:induction false} DigitsRoundTrip(n: nat)
    ensures DigitsValue(Digits(n)) == n
    decreases n
  {
    if n >= 10 {
      DigitsRoundTrip(n / 10);
      var s := Digits(n);
      assert s[..|s| - 1] == Digits(n / 10);
    }
  }

  /** Integer.toString. */
  function IntToString(n: int): string
  {
    if n < 0 then "-" + Digits(-n) else Digits(n)
  }
}
