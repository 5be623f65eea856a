/** sanitizeFilename: turns "<artist> - <title>" into a safe base file name. */
module Sanitizer {
  import opened Text

  /** Characters that may not appear in a file name, in the order they are replaced. */
  const InvalidChars: seq<char> := ['/', '\\', ':', '*', '?', '"', '<', '>', '|', '\n', '\r', '\t']

  /** What every invalid character becomes. */
  const Replacement: char := '_'

  /** Longest name kept, counted in code points (Go runes). */
  const MaxRunes: nat := 100

  /** One strings.ReplaceAll pass per listed character, in list order. Since
      every pass writes the same replacement, the passes in sequence act like
      one simultaneous substitution of the listed characters. */
  function ReplaceEach(s: string, chars: seq<char>): (r: string)
    ensures |r| == |s|
    ensures forall i :: 0 <= i < |s| ==> r[i] == (if s[i] in chars then Replacement else s[i])
    decreases |chars|
  {
    if |chars| == 0 then s
    else
      var s' := ReplaceChar(s, chars[0], Replacement);
      assert forall i :: 0 <= i < |s| ==> (s[i] in chars <==> s[i] == chars[0] || s[i] in chars[1..]);
      ReplaceEach(s', chars[1..])
  }

  /** Reference definition: every invalid character replaced, all others kept. */
  function Scrub(s: string): (r: string)
    ensures |r| == |s|
    ensures forall i :: 0 <= i < |s| ==> r[i] == (if s[i] in InvalidChars then Replacement else s[i])
  {
    seq(|s|, i requires 0 <= i < |s| => if s[i] in InvalidChars then Replacement else s[i])
  }

  /** The replacement loop of sanitizeFilename computes Scrub. */
  lemma ReplaceLoopIsScrub(s: string)
    ensures ReplaceEach(s, InvalidChars) == Scrub(s)
  {
    var r, q := ReplaceEach(s, InvalidChars), Scrub(s);
    forall i | 0 <= i < |s| ensures r[i] == q[i] {
    }
  }

  /** No invalid character occurs in `s`. */
  predicate NoInvalid(s: string) {
    forall i :: 0 <= i < |s| ==> s[i] !in InvalidChars
  }

  lemma ScrubbedNoInvalid(s: string)
    ensures NoInvalid(Scrub(s))
  {
    assert Replacement !in InvalidChars;
  }

  lemma TrimmedNoInvalid(s: string)
    requires NoInvalid(s)
    ensures NoInvalid(TrimSpace(s))
  {
    var r := TrimSpace(s);
    var off := |s| - |TrimLeft(s)|;
    TrimSpaceSlice(s);
    forall i | 0 <= i < |r| ensures r[i] !in InvalidChars {
      assert r[i] == s[off + i];
    }
  }

  /** The first MaxRunes code points of `t` (all of it when it is short enough). */
  function Truncate(t: string): (r: string)
    ensures r <= t && |r| <= MaxRunes
    ensures |t| <= MaxRunes ==> r == t
    ensures |t| > MaxRunes ==> |r| == MaxRunes
  {
    if |t| > MaxRunes then t[..MaxRunes] else t
  }

  lemma PrefixNoInvalid(r: string, t: string)
    requires r <= t && NoInvalid(t)
    ensures NoInvalid(r)
  {
    assert forall i :: 0 <= i < |r| ==> r[i] == t[i];
  }

  /** sanitizeFilename: replace, trim, then keep at most MaxRunes code points. */
  function Sanitize(name: string): (r: string)
    ensures |r| <= MaxRunes
    ensures NoInvalid(r)
    ensures var t := TrimSpace(Scrub(name));
      && r <= t
      && (|t| <= MaxRunes ==> r == t)
      && (|t| > MaxRunes ==> |r| == MaxRunes)
    ensures r != [] ==> !IsSpace(r[0])
  {
    ReplaceLoopIsScrub(name);
    ScrubbedNoInvalid(name);
    TrimmedNoInvalid(Scrub(name));
    var t := TrimSpace(ReplaceEach(name, InvalidChars));
    PrefixNoInvalid(Truncate(t), t);
    Truncate(t)
  }

  /** Sanitizing a sanitized name only trims it again; when the original name
      fitted in MaxRunes it changes nothing. */
  lemma SanitizeAgain(name: string)
    ensures Sanitize(Sanitize(name)) == TrimSpace(Sanitize(name))
    ensures |TrimSpace(Scrub(name))| <= MaxRunes ==> Sanitize(Sanitize(name)) == Sanitize(name)
  {
    var r := Sanitize(name);
    assert Scrub(r) == r by {
      assert forall i :: 0 <= i < |r| ==> r[i] !in InvalidChars;
    }
    if |TrimSpace(Scrub(name))| <= MaxRunes {
      TrimSpaceFixed(r);
    }
  }
}
