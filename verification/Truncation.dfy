/** Error messages as stored in the database: at most 4000 bytes, never cut inside a UTF-8 sequence. */
module Truncation {
  const MAX_LENGTH := 4000
  const SUFFIX := "... (truncated)"

  function Byte(s: string, i: nat): int
    requires i < |s|
  {
    s[i] as int
  }

  predicate Continuation(b: int) { 0x80 <= b <= 0xBF }

  /**
   Length of the UTF-8 sequence at the start of `s`, or 0 if there is none, by the syntax of section 4 of RFC 3629:
   no overlong forms, no surrogates, nothing above U+10FFFF.
   */
  function FirstLength(s: string): (n: nat)
    ensures n <= |s| && n <= 4
  {
    if |s| == 0 then 0
    else
      var b := Byte(s, 0);
      if b <= 0x7F then 1
      else if 0xC2 <= b <= 0xDF then
        if |s| >= 2 && Continuation(Byte(s, 1)) then 2 else 0
      else if 0xE0 <= b <= 0xEF then
        var low := if b == 0xE0 then 0xA0 else 0x80;
        var high := if b == 0xED then 0x9F else 0xBF;
        if |s| >= 3 && low <= Byte(s, 1) <= high && Continuation(Byte(s, 2)) then 3 else 0
      else if 0xF0 <= b <= 0xF4 then
        var low := if b == 0xF0 then 0x90 else 0x80;
        var high := if b == 0xF4 then 0x8F else 0xBF;
        if |s| >= 4 && low <= Byte(s, 1) <= high && Continuation(Byte(s, 2)) && Continuation(Byte(s, 3)) then 4 else 0
      else 0
  }

  predicate ValidUtf8(s: string)
  {
    s == [] || (FirstLength(s) > 0 && ValidUtf8(s[FirstLength(s)..]))
  }

  /** The longest prefix of `s` that is valid UTF-8. */
  function LongestValid(s: string): (p: string)
    ensures p <= s && ValidUtf8(p)
    ensures forall k :: 0 <= k <= |s| && ValidUtf8(s[..k]) ==> k <= |p|
  {
    if ValidUtf8(s) then
      s
    else
      var front := s[..|s| - 1];
      assert forall k :: 0 <= k < |s| ==> front[..k] == s[..k];
      assert s[..|s|] == s;
      LongestValid(front)
  }

  function Truncated(msg: string): (r: string)
    ensures |r| <= MAX_LENGTH
  {
    if |msg| <= MAX_LENGTH then msg
    else LongestValid(msg[..MAX_LENGTH - |SUFFIX|]) + SUFFIX
  }

  /** The input is the message after redaction. The loop gives up bytes from the end until the rest is valid. */
  method TruncateErrorMessage(msg: string) returns (r: string)
    ensures r == Truncated(msg)
    ensures |msg| <= 4000 ==> r == msg
    ensures |msg| > 4000 ==> r == LongestValid(msg[..3985]) + "... (truncated)"
  {
    if |msg| <= MAX_LENGTH {
      return msg;
    }
    var cut := msg[..MAX_LENGTH - |SUFFIX|];
    var truncated := cut;
    while truncated != "" && !ValidUtf8(truncated)
      invariant truncated <= cut
      invariant LongestValid(cut) == LongestValid(truncated)
      decreases |truncated|
    {
      truncated := truncated[..|truncated| - 1];
    }
    return truncated + SUFFIX;
  }

  /** FirstLength looks at no more bytes than it reports. */
  lemma {:induction false} FirstLengthIsLocal(s: string, k: nat)
    requires k <= |s| && 0 < FirstLength(s) <= k
    ensures FirstLength(s[..k]) == FirstLength(s)
  {
  }

  /** In valid text some character boundary lies at most 3 bytes before any cut. */
  lemma {:induction false} BoundaryNearCut(s: string, k: nat) returns (j: nat)
    requires ValidUtf8(s) && k <= |s|
    ensures j <= k <= j + 3 && ValidUtf8(s[..j])
    decreases |s|
  {
    if k == |s| {
      j := k;
      assert s[..k] == s;
    } else if FirstLength(s) > k {
      j := 0;
    } else {
      var n := FirstLength(s);
      var j' := BoundaryNearCut(s[n..], k - n);
      j := n + j';
      FirstLengthIsLocal(s, j);
      assert s[..j][n..] == s[n..][..j'];
    }
  }

  /** Valid text loses at most 3 bytes to the boundary: an over-long message keeps at least 3982 of its bytes. */
  lemma {:induction false} ValidTextLosesAtMostThreeBytes(msg: string)
    requires ValidUtf8(msg) && |msg| > MAX_LENGTH
    ensures exists p :: p <= msg && ValidUtf8(p) && 3982 <= |p| <= 3985 && Truncated(msg) == p + SUFFIX
  {
    var cut := msg[..MAX_LENGTH - |SUFFIX|];
    var j := BoundaryNearCut(msg, MAX_LENGTH - |SUFFIX|);
    assert cut[..j] == msg[..j];
    assert Truncated(msg) == LongestValid(cut) + SUFFIX;
  }

  lemma {:induction false} FirstLengthExtends(a: string, b: string)
    requires FirstLength(a) > 0
    ensures FirstLength(a + b) == FirstLength(a)
  {
  }

  lemma {:induction false} FirstCharacterStays(a: string, b: string, n: nat)
    requires 0 < n == FirstLength(a) && ValidUtf8(a[n..] + b)
    ensures ValidUtf8(a + b)
  {
    FirstLengthExtends(a, b);
    assert (a + b)[n..] == a[n..] + b;
  }

  lemma {:induction false} ValidConcat(a: string, b: string)
    requires ValidUtf8(a) && ValidUtf8(b)
    ensures ValidUtf8(a + b)
    decreases |a|
  {
    if a == [] {
      assert a + b == b;
    } else {
      ValidConcat(a[FirstLength(a)..], b);
      FirstCharacterStays(a, b, FirstLength(a));
    }
  }

  predicate Ascii(s: string) { forall i :: 0 <= i < |s| ==> s[i] as int <= 0x7F }

  lemma {:induction false} AsciiIsValid(s: string)
    requires Ascii(s)
    ensures ValidUtf8(s)
    decreases |s|
  {
    if s == [] {
    } else {
      AsciiIsValid(s[1..]);
    }
  }

  lemma {:induction false} ValidWithSuffix(p: string, suffix: string)
    requires ValidUtf8(p) && Ascii(suffix)
    ensures ValidUtf8(p + suffix)
  {
    AsciiIsValid(suffix);
    ValidConcat(p, suffix);
  }

  /** Whatever bytes come in, an over-long message is stored as valid UTF-8. */
  lemma {:induction false} TruncatedIsValid(msg: string)
    requires |msg| > MAX_LENGTH
    ensures ValidUtf8(Truncated(msg))
  {
    ValidWithSuffix(LongestValid(msg[..MAX_LENGTH - |SUFFIX|]), SUFFIX);
  }
}
