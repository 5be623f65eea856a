/** String operations of Go's standard library that the downloader relies on,
    restated over `string` = `seq<char>` (one element per Unicode code point). */
module Text {

  /** White space as Go's unicode.IsSpace classifies it: the Latin-1 spaces plus
      the other code points with the Unicode White_Space property. */
  predicate IsSpace(c: char) {
    || c == ' ' || c == '\t' || c == '\n' || c == '\U{000B}' || c == '\U{000C}' || c == '\r'
    || c == '\U{0085}' || c == '\U{00A0}' || c == '\U{1680}'
    || ('\U{2000}' <= c <= '\U{200A}')
    || c == '\U{2028}' || c == '\U{2029}' || c == '\U{202F}' || c == '\U{205F}' || c == '\U{3000}'
  }

  /** Drops leading white space (the first half of strings.TrimSpace). */
  function TrimLeft(s: string): (r: string)
    ensures |r| <= |s|
    ensures r != [] ==> !IsSpace(r[0])
    decreases |s|
  {
    if |s| > 0 && IsSpace(s[0]) then TrimLeft(s[1..]) else s
  }

  /** Drops trailing white space (the second half of strings.TrimSpace). */
  function TrimRight(s: string): (r: string)
    ensures r <= s
    ensures r != [] ==> !IsSpace(r[|r| - 1])
    decreases |s|
  {
    if |s| > 0 && IsSpace(s[|s| - 1]) then TrimRight(s[..|s| - 1]) else s
  }

  /** Go's strings.TrimSpace: the longest slice of `s` that neither starts nor
      ends with white space, obtained by cutting white space off both ends. */
  function TrimSpace(s: string): (r: string)
    ensures |r| <= |s|
    ensures r != [] ==> !IsSpace(r[0]) && !IsSpace(r[|r| - 1])
  {
    TrimRight(TrimLeft(s))
  }

  /** TrimLeft keeps a suffix. */
  lemma {:induction false} TrimLeftSuffix(s: string)
    ensures TrimLeft(s) == s[|s| - |TrimLeft(s)|..]
    decreases |s|
  {
    if |s| > 0 && IsSpace(s[0]) {
      TrimLeftSuffix(s[1..]);
      assert s[1..][|s| - 1 - |TrimLeft(s)|..] == s[|s| - |TrimLeft(s)|..];
    }
  }

  /** TrimLeft drops only white space. */
  lemma {:induction false} TrimLeftDropsSpace(s: string)
    ensures forall i :: 0 <= i < |s| - |TrimLeft(s)| ==> IsSpace(s[i])
    decreases |s|
  {
    if |s| > 0 && IsSpace(s[0]) {
      TrimLeftDropsSpace(s[1..]);
      forall i | 1 <= i < |s| - |TrimLeft(s)| ensures IsSpace(s[i]) {
        assert s[i] == s[1..][i - 1];
      }
    }
  }

  /** TrimRight drops only white space. */
  lemma {:induction false} TrimRightDropsSpace(s: string)
    ensures forall i :: |TrimRight(s)| <= i < |s| ==> IsSpace(s[i])
    decreases |s|
  {
    if |s| > 0 && IsSpace(s[|s| - 1]) {
      TrimRightDropsSpace(s[..|s| - 1]);
      forall i | |TrimRight(s)| <= i < |s| - 1 ensures IsSpace(s[i]) {
        assert s[i] == s[..|s| - 1][i];
      }
    }
  }

  /** What TrimSpace keeps is one contiguous slice of its input, and everything
      it cuts off on either side is white space. Together with the ends of the
      result not being white space, this pins TrimSpace down. */
  lemma TrimSpaceSlice(s: string)
    ensures var off := |s| - |TrimLeft(s)|;
      && off + |TrimSpace(s)| <= |s| && TrimSpace(s) == s[off..off + |TrimSpace(s)|]
      && (forall i :: 0 <= i < off ==> IsSpace(s[i]))
      && (forall i :: off + |TrimSpace(s)| <= i < |s| ==> IsSpace(s[i]))
  {
    TrimLeftSuffix(s);
    TrimLeftDropsSpace(s);
    var l := TrimLeft(s);
    var r := TrimSpace(s);
    var off := |s| - |l|;
    TrimRightDropsSpace(l);
    assert r == l[..|r|];
    forall i | off + |r| <= i < |s| ensures IsSpace(s[i]) {
      assert s[i] == l[i - off];
    }
  }

  /** A string that neither starts nor ends with white space is its own trim. */
  lemma TrimSpaceFixed(s: string)
    requires s != [] ==> !IsSpace(s[0]) && !IsSpace(s[|s| - 1])
    ensures TrimSpace(s) == s
  {
  }

  /** Trimming twice is trimming once. */
  lemma TrimSpaceIdempotent(s: string)
    ensures TrimSpace(TrimSpace(s)) == TrimSpace(s)
  {
    TrimSpaceFixed(TrimSpace(s));
  }

  /** ASCII lower-casing of one code point. */
  function LowerChar(c: char): char {
    if 'A' <= c <= 'Z' then (c as int + 32) as char else c
  }

  /** strings.ToLower, restricted to the ASCII letters. */
  function Lower(s: string): (r: string)
    ensures |r| == |s|
    ensures forall i :: 0 <= i < |s| ==> r[i] == LowerChar(s[i])
    ensures forall i :: 0 <= i < |r| ==> !('A' <= r[i] <= 'Z')
  {
    seq(|s|, i requires 0 <= i < |s| => LowerChar(s[i]))
  }

  /** The character of a decimal digit. */
  function Digit(d: nat): (c: char)
    requires d < 10
    ensures '0' <= c <= '9' && c as int - '0' as int == d
  {
    ('0' as int + d) as char
  }

  /** How fmt's %d writes a non-negative number: decimal digits, most
      significant first, with no leading zero. */
  function Decimal(n: nat): (r: string)
    ensures |r| >= 1 && forall i :: 0 <= i < |r| ==> '0' <= r[i] <= '9'
    ensures r[0] == '0' ==> n == 0
    decreases n
  {
    if n < 10 then [Digit(n)] else Decimal(n / 10) + [Digit(n % 10)]
  }

  /** The number a string of decimal digits denotes. */
  function DigitsValue(r: string): nat
    requires forall i :: 0 <= i < |r| ==> '0' <= r[i] <= '9'
    decreases |r|
  {
    if |r| == 0 then 0 else DigitsValue(r[..|r| - 1]) * 10 + (r[|r| - 1] as int - '0' as int)
  }

  /** Reading the digits back gives the number: Decimal loses nothing. */
  lemma {:induction false} DecimalValue(n: nat)
    ensures DigitsValue(Decimal(n)) == n
    decreases n
  {
    if n >= 10 {
      DecimalValue(n / 10);
      var r := Decimal(n);
      assert r[..|r| - 1] == Decimal(n / 10);
    }
  }

  lemma DecimalInjective(a: nat, b: nat)
    ensures Decimal(a) == Decimal(b) <==> a == b
  {
    DecimalValue(a);
    DecimalValue(b);
  }

  /** `needle` occurs in `hay` starting at position `i`. */
  predicate OccursAt(hay: string, needle: string, i: nat) {
    i + |needle| <= |hay| && hay[i..i + |needle|] == needle
  }

  lemma OccursAtShift(hay: string, needle: string, i: nat)
    requires |hay| > 0
    ensures OccursAt(hay[1..], needle, i) <==> OccursAt(hay, needle, i + 1)
  {
    if i + |needle| <= |hay[1..]| {
      assert hay[1..][i..i + |needle|] == hay[i + 1..i + 1 + |needle|];
    }
  }

  /** Go's strings.Index: the position of the first occurrence of `needle` in
      `hay`, or -1 when there is none. */
  function Index(hay: string, needle: string): (r: int)
    ensures -1 <= r && (r >= 0 ==> r <= |hay| - |needle|)
    ensures r >= 0 ==> OccursAt(hay, needle, r)
    ensures r >= 0 ==> forall j: nat :: j < r ==> !OccursAt(hay, needle, j)
    ensures r < 0 ==> forall j: nat :: !OccursAt(hay, needle, j)
    decreases |hay|
  {
    if needle <= hay then
      assert OccursAt(hay, needle, 0);
      0
    else if |hay| == 0 then
      -1
    else
      var k := Index(hay[1..], needle);
      assert !OccursAt(hay, needle, 0);
      assert forall j: nat :: OccursAt(hay[1..], needle, j) <==> OccursAt(hay, needle, j + 1) by {
        forall j: nat ensures OccursAt(hay[1..], needle, j) <==> OccursAt(hay, needle, j + 1) {
          OccursAtShift(hay, needle, j);
        }
      }
      assert forall j: nat :: 0 < j ==> (OccursAt(hay, needle, j) <==> OccursAt(hay[1..], needle, j - 1));
      if k < 0 then -1 else k + 1
  }

  /** The first occurrence pins down Index. */
  lemma IndexIsFirst(hay: string, needle: string, m: nat)
    requires OccursAt(hay, needle, m)
    requires forall j: nat :: j < m ==> !OccursAt(hay, needle, j)
    ensures Index(hay, needle) == m
  {
  }

  /** Go's strings.Contains. */
  predicate Contains(hay: string, needle: string) {
    Index(hay, needle) >= 0
  }

  lemma ContainsAt(hay: string, needle: string, i: nat)
    requires OccursAt(hay, needle, i)
    ensures Contains(hay, needle)
  {
  }

  /** Go's strings.ReplaceAll for a one-character pattern and replacement. */
  function ReplaceChar(s: string, from: char, to: char): (r: string)
    ensures |r| == |s|
    ensures forall i :: 0 <= i < |s| ==> r[i] == (if s[i] == from then to else s[i])
  {
    seq(|s|, i requires 0 <= i < |s| => if s[i] == from then to else s[i])
  }

  /** Nothing before the first occurrence contains the separator. */
  lemma NoneBeforeFirst(s: string, sep: string, m: nat)
    requires |sep| > 0 && m <= |s|
    requires forall j: nat :: j < m ==> !OccursAt(s, sep, j)
    ensures !Contains(s[..m], sep)
  {
    forall j: nat | j + |sep| <= m ensures !OccursAt(s[..m], sep, j) {
      assert !OccursAt(s, sep, j);
      assert s[..m][j..j + |sep|] == s[j..j + |sep|];
    }
  }

  /** Go's strings.Split for a non-empty separator: cut at the first occurrence,
      then split the rest in the same way. No part contains the separator;
      JoinSplit shows that the parts put back together give the string. */
  function Split(s: string, sep: string): (parts: seq<string>)
    requires |sep| > 0
    ensures |parts| >= 1
    ensures forall k :: 0 <= k < |parts| ==> !Contains(parts[k], sep)
    decreases |s|
  {
    var m := Index(s, sep);
    if m < 0 then [s]
    else
      NoneBeforeFirst(s, sep, m);
      [s[..m]] + Split(s[m + |sep|..], sep)
  }

  /** Go's strings.Join. */
  function Join(parts: seq<string>, sep: string): string
    decreases |parts|
  {
    if |parts| == 0 then ""
    else if |parts| == 1 then parts[0]
    else parts[0] + sep + Join(parts[1..], sep)
  }

  /** One unfolding of Split when the separator occurs. */
  lemma SplitCut(s: string, sep: string, m: int)
    requires |sep| > 0 && m == Index(s, sep) && m >= 0
    ensures s == s[..m] + sep + s[m + |sep|..]
    ensures Split(s, sep) == [s[..m]] + Split(s[m + |sep|..], sep)
  {
    assert s[m..m + |sep|] == sep;
    assert s == s[..m] + s[m..m + |sep|] + s[m + |sep|..];
  }

  /** Splitting and re-joining with the same separator gives the string back. */
  lemma {:induction false} JoinSplit(s: string, sep: string)
    requires |sep| > 0
    ensures Join(Split(s, sep), sep) == s
    decreases |s|
  {
    var m := Index(s, sep);
    if m >= 0 {
      var rest := s[m + |sep|..];
      SplitCut(s, sep, m);
      JoinSplit(rest, sep);
      var tail := Split(rest, sep);
      var parts := [s[..m]] + tail;
      assert parts[1..] == tail;
      assert Join(parts, sep) == s[..m] + sep + Join(tail, sep);
    }
  }

  /** Split yields at least two parts exactly when the separator occurs; the
      first part is what precedes the first occurrence, and re-joining the other
      parts gives back everything after it. */
  lemma SplitAtFirst(s: string, sep: string)
    requires |sep| > 0
    ensures |Split(s, sep)| >= 2 <==> Index(s, sep) >= 0
    ensures Index(s, sep) >= 0 ==>
      var m := Index(s, sep);
      Split(s, sep)[0] == s[..m] && Join(Split(s, sep)[1..], sep) == s[m + |sep|..]
  {
    var m := Index(s, sep);
    if m >= 0 {
      SplitCut(s, sep, m);
      JoinSplit(s[m + |sep|..], sep);
      assert Split(s, sep)[1..] == Split(s[m + |sep|..], sep);
    }
  }
}
