/**
 * Go strings as byte sequences, and the few operations on them that the
 * reminder code relies on: `int(c - '0')` digit decoding, `%02d`
 * formatting, strings.TrimSpace and strings.ToLower.
 */
module GoStrings {

  /** A Go byte (uint8). */
  newtype byte = b: int | 0 <= b < 256

  /** A Go string: an immutable sequence of bytes, UTF-8 by convention. */
  type Bytes = seq<byte>

  const Colon: byte := 0x3A

  /**
   * `int(c - '0')`: the subtraction is on uint8 and wraps modulo 256 before
   * the conversion, so ':' decodes to 10 and 'A' to 17.
   */
  function DigitValue(c: byte): (v: int)
    ensures 0 <= v < 256
    ensures (v + 0x30) % 256 == c as int
    ensures 0x30 <= c <= 0x39 ==> v == c as int - 0x30
  {
    (c as int - 0x30) % 256
  }

  /** The two-digit field `int(hi-'0')*10 + int(lo-'0')`, with no range check. */
  function TwoDigits(hi: byte, lo: byte): (n: int)
    ensures 0 <= n <= 2805
    ensures 0x30 <= hi <= 0x39 && 0x30 <= lo <= 0x39 ==> n < 100
  {
    DigitValue(hi) * 10 + DigitValue(lo)
  }

  /** `fmt.Sprintf("%02d", n)` for 0 <= n < 100: two ASCII digits. */
  function Pad2(n: int): (s: Bytes)
    requires 0 <= n < 100
    ensures |s| == 2
    ensures 0x30 <= s[0] <= 0x39 && 0x30 <= s[1] <= 0x39
    ensures TwoDigits(s[0], s[1]) == n
  {
    [(0x30 + n / 10) as byte, (0x30 + n % 10) as byte]
  }

  // ---- strings.TrimSpace ----

  /** The one-byte white-space runes of unicode.IsSpace: \t \n \v \f \r and space. */
  predicate IsAsciiSpace(b: byte) {
    b == 0x09 || b == 0x0A || b == 0x0B || b == 0x0C || b == 0x0D || b == 0x20
  }

  /** UTF-8 of U+0085 and U+00A0, the two-byte white-space runes. */
  predicate IsSpace2(a: byte, b: byte) {
    a == 0xC2 && (b == 0x85 || b == 0xA0)
  }

  /** UTF-8 of U+1680, U+2000-U+200A, U+2028, U+2029, U+202F, U+205F and U+3000. */
  predicate IsSpace3(a: byte, b: byte, c: byte) {
    || (a == 0xE1 && b == 0x9A && c == 0x80)
    || (a == 0xE2 && b == 0x80 && (0x80 <= c <= 0x8A || c == 0xA8 || c == 0xA9 || c == 0xAF))
    || (a == 0xE2 && b == 0x81 && c == 0x9F)
    || (a == 0xE3 && b == 0x80 && c == 0x80)
  }

  /** The byte length of the white-space rune that s starts with, or 0 if none. */
  function LeadingSpace(s: Bytes): (n: nat)
    ensures n <= 3 && n <= |s|
  {
    if |s| >= 1 && IsAsciiSpace(s[0]) then 1
    else if |s| >= 2 && IsSpace2(s[0], s[1]) then 2
    else if |s| >= 3 && IsSpace3(s[0], s[1], s[2]) then 3
    else 0
  }

  /** The byte length of the white-space rune that s ends with, or 0 if none. */
  function TrailingSpace(s: Bytes): (n: nat)
    ensures n <= 3 && n <= |s|
  {
    var k := |s|;
    if k >= 1 && IsAsciiSpace(s[k - 1]) then 1
    else if k >= 2 && IsSpace2(s[k - 2], s[k - 1]) then 2
    else if k >= 3 && IsSpace3(s[k - 3], s[k - 2], s[k - 1]) then 3
    else 0
  }

  /** u is a whole number of white-space runes, read from the front. */
  predicate AllSpace(u: Bytes)
    decreases |u|
  {
    u == [] || (LeadingSpace(u) > 0 && AllSpace(u[LeadingSpace(u)..]))
  }

  /** A white-space rune at the front is recognised from its own bytes, whatever follows. */
  lemma LeadingSpaceExtends(x: Bytes, y: Bytes)
    requires LeadingSpace(x) > 0
    ensures LeadingSpace(x + y) == LeadingSpace(x)
  {
    var xy := x + y;
    assert xy[0] == x[0];
    if |x| >= 2 { assert xy[1] == x[1]; }
    if |x| >= 3 { assert xy[2] == x[2]; }
  }

  /** The white-space rune s starts with, cut out on its own, is that one rune. */
  lemma LeadingRune(s: Bytes)
    requires LeadingSpace(s) > 0
    ensures LeadingSpace(s[..LeadingSpace(s)]) == LeadingSpace(s)
  {
    var n := LeadingSpace(s);
    var r := s[..n];
    assert r[0] == s[0];
    if n >= 2 { assert r[1] == s[1]; }
    if n >= 3 { assert r[2] == s[2]; }
  }

  /** The white-space rune s ends with, cut out on its own, is that one rune. */
  lemma TrailingRune(s: Bytes)
    requires TrailingSpace(s) > 0
    ensures LeadingSpace(s[|s| - TrailingSpace(s)..]) == TrailingSpace(s)
  {
    var n := TrailingSpace(s);
    var r := s[|s| - n..];
    assert r[0] == s[|s| - n];
    if n >= 2 { assert r[1] == s[|s| - n + 1]; }
    if n >= 3 { assert r[2] == s[|s| - n + 2]; }
  }

  /** A white-space rune followed by a white-space run is a white-space run. */
  lemma AllSpaceCons(r: Bytes, w: Bytes)
    requires LeadingSpace(r) == |r| > 0 && AllSpace(w)
    ensures AllSpace(r + w)
  {
    LeadingSpaceExtends(r, w);
    assert (r + w)[|r|..] == w;
  }

  /** A white-space run followed by one more white-space rune is a white-space run. */
  lemma {:induction false} AllSpaceSnoc(w: Bytes, r: Bytes)
    requires AllSpace(w) && LeadingSpace(r) == |r| > 0
    ensures AllSpace(w + r)
    decreases |w|
  {
    if w == [] {
      assert w + r == r && r[|r|..] == [];
    } else {
      var k := LeadingSpace(w);
      LeadingSpaceExtends(w, r);
      assert (w + r)[k..] == w[k..] + r;
      AllSpaceSnoc(w[k..], r);
    }
  }

  /** strings.TrimLeftFunc(s, unicode.IsSpace): a suffix of s with no leading white space. */
  function TrimLeft(s: Bytes): (t: Bytes)
    ensures |t| <= |s|
    ensures LeadingSpace(t) == 0
    decreases |s|
  {
    var n := LeadingSpace(s);
    if n == 0 then s
    else TrimLeft(s[n..])
  }

  /** strings.TrimRightFunc(s, unicode.IsSpace): a prefix of s with no trailing white space. */
  function TrimRight(s: Bytes): (t: Bytes)
    ensures |t| <= |s| && t == s[..|t|]
    ensures TrailingSpace(t) == 0
    decreases |s|
  {
    var n := TrailingSpace(s);
    if n == 0 then s else TrimRight(s[..|s| - n])
  }

  /** If s[n..] is gap + t, then s is s[..n] + gap followed by t. */
  lemma JoinFront(s: Bytes, n: nat, gap: Bytes, t: Bytes)
    requires n <= |s| && s[n..] == gap + t
    ensures s[..|s| - |t|] == s[..n] + gap && s == s[..|s| - |t|] + t
  {
    assert s == s[..n] + s[n..];
  }

  /** If s[..m] is t + gap, then s from |t| on is gap followed by s[m..]. */
  lemma JoinBack(s: Bytes, m: nat, t: Bytes, gap: Bytes)
    requires m <= |s| && s[..m] == t + gap
    ensures s[|t|..] == gap + s[m..] && s == t + s[|t|..]
  {
    assert s == s[..m] + s[m..];
  }

  /**
   * TrimLeft removes exactly a run of white-space runes from the front: s is
   * that run followed by the result.
   */
  lemma {:induction false} TrimLeftRemovesSpace(s: Bytes)
    ensures var cut := |s| - |TrimLeft(s)|;
      s == s[..cut] + TrimLeft(s) && AllSpace(s[..cut])
    decreases |s|
  {
    var n := LeadingSpace(s);
    var t := TrimLeft(s);
    if n == 0 {
      assert s[..0] == [] && s == s[..0] + t;
    } else {
      var rest := s[n..];
      TrimLeftRemovesSpace(rest);
      var gap := rest[..|rest| - |t|];
      JoinFront(s, n, gap, t);
      LeadingRune(s);
      AllSpaceCons(s[..n], gap);
    }
  }

  /**
   * TrimRight removes exactly a run of white-space runes from the end: s is
   * the result followed by that run.
   */
  lemma {:induction false} TrimRightRemovesSpace(s: Bytes)
    ensures s == TrimRight(s) + s[|TrimRight(s)|..] && AllSpace(s[|TrimRight(s)|..])
    decreases |s|
  {
    var n := TrailingSpace(s);
    var t := TrimRight(s);
    if n == 0 {
      assert s[|s|..] == [];
    } else {
      var init := s[..|s| - n];
      TrimRightRemovesSpace(init);
      var gap := init[|t|..];
      JoinBack(s, |s| - n, t, gap);
      TrailingRune(s);
      AllSpaceSnoc(gap, s[|s| - n..]);
    }
  }

  /** Cutting the end off a string keeps it free of leading white space. */
  lemma PrefixKeepsNoLeadingSpace(s: Bytes, k: nat)
    requires k <= |s| && LeadingSpace(s) == 0
    ensures LeadingSpace(s[..k]) == 0
  {
    var t := s[..k];
    if |t| >= 1 { assert t[0] == s[0]; }
    if |t| >= 2 { assert t[1] == s[1]; }
    if |t| >= 3 { assert t[2] == s[2]; }
  }

  /**
   * strings.TrimSpace: white space removed from both ends. The result neither
   * starts nor ends with a white-space rune, and a string that already does
   * neither is returned unchanged.
   */
  function TrimSpace(s: Bytes): (t: Bytes)
    ensures |t| <= |s|
    ensures LeadingSpace(t) == 0 && TrailingSpace(t) == 0
    ensures LeadingSpace(s) == 0 && TrailingSpace(s) == 0 ==> t == s
  {
    var l := TrimLeft(s);
    var t := TrimRight(l);
    PrefixKeepsNoLeadingSpace(l, |t|);
    t
  }

  /**
   * TrimSpace keeps a contiguous part of s and removes only white space:
   * s is a white-space run, then the result, then a white-space run.
   */
  lemma TrimSpaceRemovesSpace(s: Bytes)
    ensures var i := |s| - |TrimLeft(s)|; var t := TrimSpace(s);
      && i + |t| <= |s|
      && s == s[..i] + t + s[i + |t|..]
      && AllSpace(s[..i]) && AllSpace(s[i + |t|..])
  {
    var l := TrimLeft(s);
    var t := TrimSpace(s);
    assert t == TrimRight(l);
    TrimLeftRemovesSpace(s);
    TrimRightRemovesSpace(l);
    JoinMiddle(s, |s| - |l|, l, t, l[|t|..]);
  }

  /** If s is a prefix then l, and l is t then tail, s is that prefix, then t, then tail. */
  lemma JoinMiddle(s: Bytes, i: nat, l: Bytes, t: Bytes, tail: Bytes)
    requires i <= |s| && s == s[..i] + l && l == t + tail
    ensures i + |t| <= |s| && s == s[..i] + t + s[i + |t|..] && s[i + |t|..] == tail
  {
    assert s[..i] + t + tail == s;
    assert s[i + |t|..] == tail;
  }

  /** Every byte of w is ASCII white space. */
  predicate AsciiSpaces(w: Bytes) {
    forall i :: 0 <= i < |w| ==> IsAsciiSpace(w[i])
  }

  /** ASCII white space in front is trimmed away, whatever follows. */
  lemma {:induction false} TrimLeftSkipsSpaces(w: Bytes, x: Bytes)
    requires AsciiSpaces(w)
    ensures TrimLeft(w + x) == TrimLeft(x)
    decreases |w|
  {
    if w == [] {
      assert w + x == x;
    } else {
      assert (w + x)[0] == w[0];
      assert (w + x)[1..] == w[1..] + x;
      TrimLeftSkipsSpaces(w[1..], x);
    }
  }

  /** ASCII white space at the end is trimmed away, whatever precedes it. */
  lemma {:induction false} TrimRightSkipsSpaces(x: Bytes, w: Bytes)
    requires AsciiSpaces(w)
    ensures TrimRight(x + w) == TrimRight(x)
    decreases |w|
  {
    if w == [] {
      assert x + w == x;
    } else {
      var xw := x + w;
      assert xw[|xw| - 1] == w[|w| - 1];
      assert xw[..|xw| - 1] == x + w[..|w| - 1];
      TrimRightSkipsSpaces(x, w[..|w| - 1]);
    }
  }

  /** ASCII white space cannot complete a multi-byte white-space rune begun at the end of s. */
  lemma NoLeadingSpaceBeforeSpaces(s: Bytes, w: Bytes)
    requires s != [] && LeadingSpace(s) == 0 && AsciiSpaces(w)
    ensures LeadingSpace(s + w) == 0
  {
    var sw := s + w;
    assert sw[0] == s[0];
    if |s| >= 2 { assert sw[1] == s[1]; } else if |w| >= 1 { assert sw[1] == w[0]; }
    if |s| >= 3 { assert sw[2] == s[2]; } else if |s| == 2 && |w| >= 1 { assert sw[2] == w[0]; }
  }

  /** Left-trimming s followed by ASCII white space: the white space stays unless s trims to nothing. */
  lemma {:induction false} TrimLeftBeforeSpaces(s: Bytes, w: Bytes)
    requires AsciiSpaces(w)
    ensures TrimLeft(s) != [] ==> TrimLeft(s + w) == TrimLeft(s) + w
    ensures TrimLeft(s) == [] ==> TrimLeft(s + w) == []
    decreases |s|
  {
    var n := LeadingSpace(s);
    if n == 0 {
      if s == [] {
        TrimLeftSkipsSpaces(w, []);
        assert s + w == w + [];
      } else {
        NoLeadingSpaceBeforeSpaces(s, w);
      }
    } else {
      LeadingSpaceExtends(s, w);
      assert (s + w)[n..] == s[n..] + w;
      TrimLeftBeforeSpaces(s[n..], w);
    }
  }

  /** ASCII white space on either side does not change what TrimSpace keeps. */
  lemma TrimSpaceIgnoresSpaces(w1: Bytes, s: Bytes, w2: Bytes)
    requires AsciiSpaces(w1) && AsciiSpaces(w2)
    ensures TrimSpace(w1 + s + w2) == TrimSpace(s)
  {
    assert w1 + s + w2 == w1 + (s + w2);
    TrimLeftSkipsSpaces(w1, s + w2);
    TrimLeftBeforeSpaces(s, w2);
    if TrimLeft(s) != [] {
      TrimRightSkipsSpaces(TrimLeft(s), w2);
    }
  }

  // ---- strings.ToLower ----

  predicate IsAsciiUpper(b: byte) {
    0x41 <= b <= 0x5A
  }

  /**
   * strings.ToLower as far as it decides equality with an ASCII word: ASCII
   * capitals become lower case, U+0130 (bytes C4 B0) becomes 'i' and the
   * Kelvin sign U+212A (E2 84 AA) becomes 'k', the only non-ASCII runes whose
   * lower case is ASCII. Every other byte is kept.
   */
  function ToLower(s: Bytes): (t: Bytes)
    ensures |t| <= |s|
    ensures forall i :: 0 <= i < |t| ==> !IsAsciiUpper(t[i])
  {
    if |s| == 0 then []
    else if |s| >= 2 && s[0] == 0xC4 && s[1] == 0xB0 then [0x69] + ToLower(s[2..])
    else if |s| >= 3 && s[0] == 0xE2 && s[1] == 0x84 && s[2] == 0xAA then [0x6B] + ToLower(s[3..])
    else if IsAsciiUpper(s[0]) then [s[0] + 0x20] + ToLower(s[1..])
    else [s[0]] + ToLower(s[1..])
  }

  /** The byte b with an ASCII capital turned into its lower-case letter. */
  function LowerByte(b: byte): byte {
    if IsAsciiUpper(b) then b + 0x20 else b
  }

  /** On ASCII input ToLower keeps the length and lower-cases byte by byte. */
  lemma {:induction false} ToLowerAscii(s: Bytes)
    requires forall i :: 0 <= i < |s| ==> s[i] < 0x80
    ensures |ToLower(s)| == |s|
    ensures forall i :: 0 <= i < |s| ==> ToLower(s)[i] == LowerByte(s[i])
    decreases |s|
  {
    if |s| > 0 {
      var rest := s[1..];
      ToLowerAscii(rest);
      var t := ToLower(s);
      assert t == [LowerByte(s[0])] + ToLower(rest);
      forall i | 0 <= i < |s| ensures t[i] == LowerByte(s[i]) {
        if i > 0 {
          assert rest[i - 1] == s[i];
        }
      }
    }
  }
}
