/** The Foundation string operations the command parser relies on:
    splitting at the characters of a `CharacterSet`, joining with a
    separator, and decimal rendering of a count. Strings are sequences of
    Unicode scalars.
 */
module Text {

  /** `CharacterSet.newlines`: U+000A to U+000D, U+0085, U+2028 and U+2029. */
  const Newlines: set<char> :=
    {'\n', '\U{000B}', '\U{000C}', '\r', '\U{0085}', '\U{2028}', '\U{2029}'}

  /** `CharacterSet.whitespaces`: the tab and the space separators of
      general category Zs. */
  const Whitespaces: set<char> :=
    {'\t', ' ', '\U{00A0}', '\U{1680}', '\U{2000}', '\U{2001}', '\U{2002}', '\U{2003}',
     '\U{2004}', '\U{2005}', '\U{2006}', '\U{2007}', '\U{2008}', '\U{2009}', '\U{200A}',
     '\U{202F}', '\U{205F}', '\U{3000}'}

  predicate NoneIn(s: string, chars: set<char>)
  {
    forall i :: 0 <= i < |s| ==> s[i] !in chars
  }

  /** The position of the first character of `s` in `chars`, or `|s|`. */
  function FirstIn(s: string, chars: set<char>): (i: nat)
    ensures i <= |s|
    ensures NoneIn(s[..i], chars)
    ensures i < |s| ==> s[i] in chars
    decreases |s|
  {
    if |s| == 0 then 0
    else if s[0] in chars then 0
    else 1 + FirstIn(s[1..], chars)
  }

  /** `components(separatedBy:)` with a character set: the pieces between
      separator characters, empty pieces included. */
  function Split(s: string, separators: set<char>): (parts: seq<string>)
    ensures |parts| >= 1
    ensures forall k :: 0 <= k < |parts| ==> NoneIn(parts[k], separators)
    decreases |s|
  {
    var i := FirstIn(s, separators);
    if i == |s| then [s] else [s[..i]] + Split(s[i + 1..], separators)
  }

  /** `joined(separator:)`. */
  function Join(parts: seq<string>, separator: string): string
  {
    if |parts| == 0 then ""
    else if |parts| == 1 then parts[0]
    else parts[0] + separator + Join(parts[1..], separator)
  }

  /** When every separator character in `s` is `c`, joining the pieces with
      `c` gives `s` back. */
  lemma {:induction false} SplitJoin(s: string, separators: set<char>, c: char)
    requires c in separators
    requires forall i :: 0 <= i < |s| && s[i] in separators ==> s[i] == c
    ensures Join(Split(s, separators), [c]) == s
    decreases |s|
  {
    var i := FirstIn(s, separators);
    if i < |s| {
      var rest := s[i + 1..];
      SplitJoin(rest, separators, c);
      assert s == s[..i] + [c] + rest;
    }
  }

  /** There is one more piece than there are separator characters. */
  lemma {:induction false} SplitCount(s: string, separators: set<char>)
    ensures |Split(s, separators)| == 1 + CountIn(s, separators)
    decreases |s|
  {
    var i := FirstIn(s, separators);
    CountInNone(s[..i], separators);
    if i < |s| {
      SplitCount(s[i + 1..], separators);
      CountInAppend(s[..i], s[i..], separators);
      assert s == s[..i] + s[i..];
      assert s[i..] == [s[i]] + s[i + 1..];
    } else {
      assert s[..i] == s;
    }
  }

  /** The number of characters of `s` in `chars`. */
  function CountIn(s: string, chars: set<char>): nat
  {
    if |s| == 0 then 0 else (if s[0] in chars then 1 else 0) + CountIn(s[1..], chars)
  }

  lemma {:induction false} CountInNone(s: string, chars: set<char>)
    requires NoneIn(s, chars)
    ensures CountIn(s, chars) == 0
  {
    if |s| > 0 {
      CountInNone(s[1..], chars);
    }
  }

  lemma {:induction false} CountInAppend(a: string, b: string, chars: set<char>)
    ensures CountIn(a + b, chars) == CountIn(a, chars) + CountIn(b, chars)
  {
    if |a| > 0 {
      CountInAppend(a[1..], b, chars);
      assert (a + b)[1..] == a[1..] + b;
    } else {
      assert a + b == b;
    }
  }

  /** The pieces that are not empty, in order. */
  function NonEmpty(parts: seq<string>): (r: seq<string>)
    ensures forall k :: 0 <= k < |r| ==> r[k] != [] && r[k] in parts
    ensures forall k :: 0 <= k < |parts| && parts[k] != [] ==> parts[k] in r
    ensures |r| <= |parts|
  {
    if |parts| == 0 then []
    else if parts[0] == [] then NonEmpty(parts[1..])
    else [parts[0]] + NonEmpty(parts[1..])
  }

  /** A single piece survives exactly when it is not empty. */
  lemma NonEmptySingleton(x: string)
    ensures NonEmpty([x]) == if x == [] then [] else [x]
  {
    assert [x][1..] == [];
  }

  /** Filtering distributes over concatenation, so order and repetitions
      of the non-empty pieces are kept. */
  lemma {:induction false} NonEmptyAppend(a: seq<string>, b: seq<string>)
    ensures NonEmpty(a + b) == NonEmpty(a) + NonEmpty(b)
  {
    if |a| == 0 {
      assert a + b == b;
    } else {
      assert (a + b)[0] == a[0];
      assert (a + b)[1..] == a[1..] + b;
      NonEmptyAppend(a[1..], b);
    }
  }

  function DigitChar(d: nat): char
    requires d < 10
  {
    ('0' as int + d) as char
  }

  /** `String(n)`: the decimal digits of `n`, most significant first. */
  function NatToString(n: nat): (s: string)
    ensures |s| >= 1
    ensures forall i :: 0 <= i < |s| ==> '0' <= s[i] <= '9'
    ensures |s| > 1 ==> s[0] != '0'
    ensures DigitsValue(s) == n
    decreases n
  {
    if n < 10 then [DigitChar(n)]
    else
      var front := NatToString(n / 10);
      var s := front + [DigitChar(n % 10)];
      assert s[..|s| - 1] == front;
      s
  }

  /** The number a string of decimal digits denotes. */
  function DigitsValue(s: string): int
  {
    if |s| == 0 then 0
    else 10 * DigitsValue(s[..|s| - 1]) + (s[|s| - 1] as int - '0' as int)
  }
}
