/**
 * The string library calls the load-testing tools rely on, written out over
 * `seq<char>`: Go's `unicode.IsSpace`, `strings.TrimSpace`, `strings.Split`,
 * `strings.Join` and `%d` formatting, and Python's `str.isspace`/`str.strip`.
 * Trimming is defined once, for any notion of white space.
 */
module Text {

  /** Go's `unicode.IsSpace`: the Latin-1 spaces and the Unicode White_Space property. */
  predicate IsSpace(c: char) {
    c == ' ' || c == '\t' || c == '\n' || c == '\U{0B}' || c == '\U{0C}' || c == '\r'
    || c == '\U{85}' || c == '\U{A0}' || c == '\U{1680}'
    || ('\U{2000}' <= c <= '\U{200A}')
    || c == '\U{2028}' || c == '\U{2029}' || c == '\U{202F}' || c == '\U{205F}' || c == '\U{3000}'
  }

  /** Python's `str.isspace` for one character: Go's set plus the separators U+001C..U+001F. */
  predicate IsPySpace(c: char) {
    IsSpace(c) || ('\U{1C}' <= c <= '\U{1F}')
  }

  predicate AllOf(s: string, p: char -> bool) {
    forall i :: 0 <= i < |s| ==> p(s[i])
  }

  /** Neither end of `s` is white space in the sense of `p`. */
  predicate Trimmed(s: string, p: char -> bool) {
    s == [] || (!p(s[0]) && !p(s[|s| - 1]))
  }

  /** Length of the longest prefix of `p`-characters. */
  function LeadingRun(s: string, p: char -> bool): (n: nat)
    ensures n <= |s| && AllOf(s[..n], p)
    ensures n == |s| || !p(s[n])
    decreases |s|
  {
    if s != [] && p(s[0]) then
      var k := LeadingRun(s[1..], p);
      assert s[..k + 1] == [s[0]] + s[1..][..k];
      k + 1
    else 0
  }

  /** Where the longest suffix of `p`-characters starts. */
  function TrailingStart(s: string, p: char -> bool): (n: nat)
    ensures n <= |s| && AllOf(s[n..], p)
    ensures n == 0 || !p(s[n - 1])
    decreases |s|
  {
    if s != [] && p(s[|s| - 1]) then
      var k := TrailingStart(s[..|s| - 1], p);
      assert s[k..] == s[..|s| - 1][k..] + [s[|s| - 1]];
      k
    else |s|
  }

  /** `s` with white space (in the sense of `p`) removed from both ends. */
  function Trim(s: string, p: char -> bool): (r: string)
    ensures Trimmed(r, p)
    ensures |r| <= |s|
  {
    var rest := s[LeadingRun(s, p)..];
    rest[..TrailingStart(rest, p)]
  }

  /**
   * What trimming keeps is the contiguous piece of `s` that starts after the
   * leading white space, and all it drops on either side is white space.
   */
  lemma TrimIsWindow(s: string, p: char -> bool)
    ensures LeadingRun(s, p) + |Trim(s, p)| <= |s|
    ensures s[LeadingRun(s, p)..LeadingRun(s, p) + |Trim(s, p)|] == Trim(s, p)
    ensures AllOf(s[..LeadingRun(s, p)], p) && AllOf(s[LeadingRun(s, p) + |Trim(s, p)|..], p)
  {
    var i := LeadingRun(s, p);
    var e := TrailingStart(s[i..], p);
    WindowOf(s, p, i, e);
  }

  /** Cutting `e` characters after position `i` leaves a piece of `s`; a suffix of the rest is a suffix of `s`. */
  lemma WindowOf(s: string, p: char -> bool, i: nat, e: nat)
    requires i + e <= |s| && AllOf(s[i..][e..], p)
    ensures s[i..][..e] == s[i..i + e]
    ensures AllOf(s[i + e..], p)
  {
    assert s[i..][e..] == s[i + e..];
  }

  /** Go's `strings.TrimSpace`. */
  function TrimSpace(s: string): string {
    Trim(s, IsSpace)
  }

  /** `TrimSpace` applied to every element, order kept. */
  function TrimSpaceAll(parts: seq<string>): (r: seq<string>)
    ensures |r| == |parts|
    ensures forall i :: 0 <= i < |r| ==> r[i] == TrimSpace(parts[i])
  {
    seq(|parts|, i requires 0 <= i < |parts| => TrimSpace(parts[i]))
  }

  /** Every element trims to nothing exactly when every element is all white space. */
  lemma TrimSpaceAllBlank(parts: seq<string>)
    ensures (forall k :: 0 <= k < |parts| ==> TrimSpaceAll(parts)[k] == "")
        <==> (forall k :: 0 <= k < |parts| ==> AllOf(parts[k], IsSpace))
  {
    var trimmed := TrimSpaceAll(parts);
    if forall k :: 0 <= k < |parts| ==> trimmed[k] == "" {
      forall k | 0 <= k < |parts|
        ensures AllOf(parts[k], IsSpace)
      {
        TrimEmptyIff(parts[k], IsSpace);
      }
    }
    if forall k :: 0 <= k < |parts| ==> AllOf(parts[k], IsSpace) {
      forall k | 0 <= k < |parts|
        ensures trimmed[k] == ""
      {
        TrimEmptyIff(parts[k], IsSpace);
      }
    }
  }

  /** Python's `str.strip()` with no argument. */
  function Strip(s: string): string {
    Trim(s, IsPySpace)
  }

  /** Trimming a string that is already trimmed changes nothing, so trimming is idempotent. */
  lemma TrimOfTrimmed(s: string, p: char -> bool)
    requires Trimmed(s, p)
    ensures Trim(s, p) == s
  {
    assert LeadingRun(s, p) == 0;
    assert s[0..] == s;
    assert TrailingStart(s, p) == |s|;
  }

  /** A string made only of `p`-characters trims to the empty string, and only such a string does. */
  lemma TrimEmptyIff(s: string, p: char -> bool)
    ensures Trim(s, p) == [] <==> AllOf(s, p)
  {
    var i := LeadingRun(s, p);
    var rest := s[i..];
    if Trim(s, p) == [] {
      assert TrailingStart(rest, p) == 0;
      assert rest[0..] == rest;
      assert s == s[..i] + rest;
    }
    if AllOf(s, p) {
      assert i == |s|;
    }
  }

  /** Index of the first `c` in `s`. */
  function IndexOf(s: string, c: char): (i: nat)
    requires c in s
    ensures i < |s| && s[i] == c && c !in s[..i]
  {
    if s[0] == c then 0 else IndexOf(s[1..], c) + 1
  }

  /**
   * Go's `strings.Split(s, string(sep))`: the pieces between separators, in
   * order; the empty string gives one empty piece.
   */
  function Split(s: string, sep: char): (parts: seq<string>)
    ensures |parts| >= 1
    ensures forall k :: 0 <= k < |parts| ==> sep !in parts[k]
    decreases |s|
  {
    if sep in s then
      var i := IndexOf(s, sep);
      [s[..i]] + Split(s[i + 1..], sep)
    else [s]
  }

  /** Go's `strings.Join(parts, string(sep))`. */
  function Join(parts: seq<string>, sep: char): string
  {
    if |parts| == 0 then ""
    else if |parts| == 1 then parts[0]
    else parts[0] + [sep] + Join(parts[1..], sep)
  }

  /** Appending one part to a join adds the separator and the part at the end. */
  lemma {:induction false} JoinSnoc(parts: seq<string>, x: string, sep: char)
    requires |parts| >= 1
    ensures Join(parts + [x], sep) == Join(parts, sep) + [sep] + x
  {
    if |parts| > 1 {
      assert (parts + [x])[1..] == parts[1..] + [x];
      JoinSnoc(parts[1..], x, sep);
    } else {
      assert (parts + [x])[1..] == [x];
    }
  }

  /** Splitting then joining gives the input back. */
  lemma {:induction false} JoinSplit(s: string, sep: char)
    ensures Join(Split(s, sep), sep) == s
    decreases |s|
  {
    if sep in s {
      var i := IndexOf(s, sep);
      var rest := Split(s[i + 1..], sep);
      var parts := Split(s, sep);
      assert parts == [s[..i]] + rest;
      assert parts[1..] == rest;
      JoinSplit(s[i + 1..], sep);
      calc {
        Join(parts, sep);
        parts[0] + [sep] + Join(rest, sep);
        s[..i] + [sep] + s[i + 1..];
        { assert s == s[..i] + [sep] + s[i + 1..]; }
        s;
      }
    } else {
      assert Split(s, sep) == [s];
    }
  }

  /** Splitting at a first separator that follows a separator-free prefix. */
  lemma SplitFirst(a: string, sep: char, b: string)
    requires sep !in a
    ensures Split(a + [sep] + b, sep) == [a] + Split(b, sep)
  {
    var s := a + [sep] + b;
    assert s[|a|] == sep;
    var i := IndexOf(s, sep);
    assert i == |a| by {
      assert s[..|a|] == a;
    }
    assert s[..i] == a;
    assert s[i + 1..] == b;
  }

  /** Joining parts that do not contain the separator, then splitting, gives the parts back. */
  lemma {:induction false} SplitJoin(parts: seq<string>, sep: char)
    requires |parts| >= 1
    requires forall k :: 0 <= k < |parts| ==> sep !in parts[k]
    ensures Split(Join(parts, sep), sep) == parts
  {
    if |parts| > 1 {
      var tail := Join(parts[1..], sep);
      SplitJoin(parts[1..], sep);
      SplitFirst(parts[0], sep, tail);
      assert parts == [parts[0]] + parts[1..];
    } else {
      assert Join(parts, sep) == parts[0];
      assert sep !in parts[0];
    }
  }

  /** Every character of `s` other than the separator lies in some piece of `Split(s, sep)`. */
  lemma {:induction false} SplitCovers(s: string, sep: char, j: nat)
    requires j < |s| && s[j] != sep
    ensures exists k :: 0 <= k < |Split(s, sep)| && s[j] in Split(s, sep)[k]
    decreases |s|
  {
    if sep in s {
      var i := IndexOf(s, sep);
      if j < i {
        assert s[..i][j] == s[j];
        assert s[j] in Split(s, sep)[0];
      } else {
        assert j != i;
        SplitCovers(s[i + 1..], sep, j - i - 1);
        var k :| 0 <= k < |Split(s[i + 1..], sep)| && s[i + 1..][j - i - 1] in Split(s[i + 1..], sep)[k];
        assert Split(s, sep)[k + 1] == Split(s[i + 1..], sep)[k];
      }
    } else {
      assert Split(s, sep)[0] == s;
    }
  }

  /** Every character of every piece of `Split(s, sep)` is a character of `s`. */
  lemma {:induction false} SplitChars(s: string, sep: char, k: nat, j: nat)
    requires k < |Split(s, sep)| && j < |Split(s, sep)[k]|
    ensures Split(s, sep)[k][j] in s
    decreases |s|
  {
    if sep in s {
      var i := IndexOf(s, sep);
      if k == 0 {
        assert s[..i][j] == s[j];
      } else {
        SplitChars(s[i + 1..], sep, k - 1, j);
      }
    }
  }

  /** The decimal digits of a natural number, most significant first. */
  function NatDigits(n: nat): (r: string)
    ensures |r| >= 1
    ensures forall i :: 0 <= i < |r| ==> '0' <= r[i] <= '9'
  {
    if n < 10 then [(n + 48) as char] else NatDigits(n / 10) + [(n % 10 + 48) as char]
  }

  /** Go's `fmt.Sprintf("%d", n)`. */
  function Decimal(n: int): (r: string)
    ensures |r| >= 1
    ensures r[0] == '-' <==> n < 0
  {
    if n < 0 then "-" + NatDigits(-n) else NatDigits(n)
  }
}
