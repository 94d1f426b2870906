/** Shortening an error text for the status without breaking a character, over the bytes
    of its UTF-8 form (RFC 3629).  */
module Text {
  type Byte = n: int | 0 <= n < 256

  const MARKER: seq<Byte> := [0xE2, 0x80, 0xA6]

  const MAX_FAILURE_DETAIL: nat := 200

  predicate IsTail(b: Byte) { 0x80 <= b < 0xC0 }

  predicate RuneStart(b: Byte) { !IsTail(b) }

  /** The length of the well-formed character that `s` begins with, by the grammar of
      section 4 of RFC 3629, or 0 when it begins with none. */
  function CharLength(s: seq<Byte>): (n: nat)
    ensures n <= |s| && n <= 4
    ensures n > 0 ==> RuneStart(s[0])
    ensures forall k :: 1 <= k < n ==> IsTail(s[k])
  {
    if |s| >= 1 && s[0] < 0x80 then 1
    else if |s| >= 2 && 0xC2 <= s[0] <= 0xDF && IsTail(s[1]) then 2
    else if |s| >= 3 && 0xE0 <= s[0] <= 0xEF && IsTail(s[1]) && IsTail(s[2])
         && (s[0] == 0xE0 ==> 0xA0 <= s[1]) && (s[0] == 0xED ==> s[1] <= 0x9F) then 3
    else if |s| >= 4 && 0xF0 <= s[0] <= 0xF4 && IsTail(s[1]) && IsTail(s[2]) && IsTail(s[3])
         && (s[0] == 0xF0 ==> 0x90 <= s[1]) && (s[0] == 0xF4 ==> s[1] <= 0x8F) then 4
    else 0
  }

  predicate ValidUtf8(s: seq<Byte>)
    decreases |s|
  {
    s == [] || (CharLength(s) > 0 && ValidUtf8(s[CharLength(s)..]))
  }

  /** The characters of Unicode: code points that are not surrogates. */
  predicate Scalar(cp: int) { 0 <= cp < 0xD800 || 0xE000 <= cp < 0x11_0000 }

  /** The bytes of a character, by the table of section 3 of RFC 3629. */
  function Encode(cp: int): seq<Byte>
    requires Scalar(cp)
  {
    if cp < 0x80 then [cp]
    else if cp < 0x800 then [0xC0 + cp / 64, 0x80 + cp % 64]
    else if cp < 0x1_0000 then [0xE0 + cp / 4096, 0x80 + cp / 64 % 64, 0x80 + cp % 64]
    else [0xF0 + cp / 262144, 0x80 + cp / 4096 % 64, 0x80 + cp / 64 % 64, 0x80 + cp % 64]
  }

  function Decode(s: seq<Byte>): int
    requires 1 <= |s| <= 4
  {
    var head: int := s[0];
    if |s| == 1 then head
    else if |s| == 2 then (head - 0xC0) * 64 + Low(s[1])
    else if |s| == 3 then (head - 0xE0) * 4096 + Low(s[1]) * 64 + Low(s[2])
    else (head - 0xF0) * 262144 + Low(s[1]) * 4096 + Low(s[2]) * 64 + Low(s[3])
  }

  /** The six bits that a continuation byte carries. */
  function Low(b: Byte): int {
    var n: int := b;
    n - 0x80
  }

  /** The grammar accepts what encodes a character, and takes all of it. */
  lemma EncodedIsAccepted(cp: int, rest: seq<Byte>)
    requires Scalar(cp)
    ensures CharLength(Encode(cp) + rest) == |Encode(cp)|
  {
  }

  lemma TwoDigits(a: int, b: int, cp: int)
    requires 0 <= b < 64 && cp == a * 64 + b
    ensures cp / 64 == a && cp % 64 == b
  {
  }

  lemma ThreeDigits(a: int, b: int, c: int, cp: int)
    requires 0 <= b < 64 && 0 <= c < 64 && cp == a * 4096 + b * 64 + c
    ensures cp / 4096 == a && cp / 64 % 64 == b && cp % 64 == c
  {
    TwoDigits(a * 64 + b, c, cp);
  }

  lemma FourDigits(a: int, b: int, c: int, d: int, cp: int)
    requires 0 <= b < 64 && 0 <= c < 64 && 0 <= d < 64 && cp == a * 262144 + b * 4096 + c * 64 + d
    ensures cp / 262144 == a && cp / 4096 % 64 == b && cp / 64 % 64 == c && cp % 64 == d
  {
    TwoDigits(a * 4096 + b * 64 + c, d, cp);
    ThreeDigits(a * 64 + b, c, d, cp);
  }

  /** And nothing else: what it accepts encodes one character, in one way. */
  lemma AcceptedIsEncoded(s: seq<Byte>)
    requires CharLength(s) > 0
    ensures Scalar(Decode(s[..CharLength(s)])) && Encode(Decode(s[..CharLength(s)])) == s[..CharLength(s)]
  {
    var n := CharLength(s);
    var bytes := s[..n];
    var head: int := s[0];
    var cp := Decode(bytes);
    if n == 1 {
      assert bytes == [s[0]];
    } else if n == 2 {
      assert bytes == [s[0], s[1]];
      TwoDigits(head - 0xC0, Low(s[1]), cp);
    } else if n == 3 {
      assert bytes == [s[0], s[1], s[2]];
      ThreeDigits(head - 0xE0, Low(s[1]), Low(s[2]), cp);
    } else {
      assert bytes == [s[0], s[1], s[2], s[3]];
      FourDigits(head - 0xF0, Low(s[1]), Low(s[2]), Low(s[3]), cp);
    }
  }

  /** The last character boundary at or before `p`, looking only at the bytes. */
  function Boundary(text: seq<Byte>, p: nat): (cut: nat)
    requires p < |text|
    ensures cut <= p
    ensures cut == 0 || RuneStart(text[cut])
    ensures forall k :: cut < k <= p ==> IsTail(text[k])
  {
    if p == 0 || RuneStart(text[p]) then p else Boundary(text, p - 1)
  }

  function Truncated(text: seq<Byte>, limit: int): seq<Byte> {
    if limit <= 0 || |text| <= limit then text
    else if limit <= |MARKER| then MARKER
    else text[..Boundary(text, limit - |MARKER|)] + MARKER
  }

  method TruncateText(text: seq<Byte>, limit: int) returns (r: seq<Byte>)
    ensures r == Truncated(text, limit)
  {
    if limit <= 0 || |text| <= limit { return text; }
    if limit <= |MARKER| { return MARKER; }
    var cut := limit - |MARKER|;
    while cut > 0 && !RuneStart(text[cut])
      invariant 0 <= cut <= limit - |MARKER|
      invariant Boundary(text, cut) == Boundary(text, limit - |MARKER|)
    {
      cut := cut - 1;
    }
    r := text[..cut] + MARKER;
  }

  lemma {:induction false} ValidConcat(a: seq<Byte>, b: seq<Byte>)
    requires ValidUtf8(a) && ValidUtf8(b)
    ensures ValidUtf8(a + b)
    decreases |a|
  {
    if a == [] {
      assert a + b == b;
    } else {
      var n := CharLength(a);
      assert (a + b)[n..] == a[n..] + b;
      ValidConcat(a[n..], b);
    }
  }

  /** Valid text may be cut before any character. */
  lemma {:induction false} CutAtBoundary(s: seq<Byte>, p: nat)
    requires ValidUtf8(s) && p < |s| && RuneStart(s[p])
    ensures ValidUtf8(s[..p])
    decreases |s|
  {
    var n := CharLength(s);
    if p > 0 {
      assert n <= p;
      assert s[n..][p - n] == s[p];
      CutAtBoundary(s[n..], p - n);
      assert s[..p][n..] == s[n..][..p - n];
    }
  }

  /** In valid text a boundary is never more than three bytes back. */
  lemma {:induction false} BoundaryIsNear(s: seq<Byte>, p: nat)
    requires ValidUtf8(s) && p < |s|
    ensures RuneStart(s[Boundary(s, p)]) && p - Boundary(s, p) <= 3
    decreases |s|
  {
    var n := CharLength(s);
    if n <= p {
      assert s[n..][p - n] == s[p];
      BoundaryIsNear(s[n..], p - n);
      var cut := Boundary(s[n..], p - n);
      assert s[n..][cut] == s[n + cut];
      assert Boundary(s, p) >= n + cut;
    }
  }

  lemma MarkerIsValid()
    ensures ValidUtf8(MARKER)
  {
    assert MARKER[3..] == [];
  }

  /** Shortened valid text is valid text: a prefix and the marker, within the limit
      when the marker fits, having given up at most three bytes to reach a boundary. */
  lemma TruncationKeepsCharacters(text: seq<Byte>, limit: int)
    requires ValidUtf8(text)
    ensures ValidUtf8(Truncated(text, limit))
    ensures limit > |MARKER| && |text| > limit ==>
      var cut := |Truncated(text, limit)| - |MARKER|;
      limit - |MARKER| - 3 <= cut <= limit - |MARKER| && Truncated(text, limit) == text[..cut] + MARKER
  {
    MarkerIsValid();
    if limit > |MARKER| && |text| > limit {
      var cut := Boundary(text, limit - |MARKER|);
      BoundaryIsNear(text, limit - |MARKER|);
      CutAtBoundary(text, cut);
      ValidConcat(text[..cut], MARKER);
    }
  }

  /** For a positive limit, the result fits exactly when the text did or the marker does;
      for others nothing is cut. The text need not be valid. */
  lemma TruncationFitsIff(text: seq<Byte>, limit: int)
    ensures limit > 0 ==> (|Truncated(text, limit)| <= limit <==> |text| <= limit || limit >= |MARKER|)
    ensures limit <= 0 ==> Truncated(text, limit) == text
    ensures 0 < limit < |text| && limit <= 3 ==> Truncated(text, limit) == [0xE2, 0x80, 0xA6]
  {
  }

  /** No more is cut off than must be: from the cut to the limit no character starts. */
  lemma CutIsLast(text: seq<Byte>, limit: int)
    requires 3 < limit < |text|
    ensures var cut := |Truncated(text, limit)| - 3;
      && 0 <= cut <= limit - 3 && Truncated(text, limit) == text[..cut] + [0xE2, 0x80, 0xA6]
      && (forall p :: cut < p <= limit - 3 ==> 0x80 <= text[p] < 0xC0)
  {
  }

  /** A summary never repeats more than this of one file's error. */
  function FailureDetail(error: seq<Byte>): (detail: seq<Byte>)
    ensures |detail| <= MAX_FAILURE_DETAIL
    ensures |error| <= MAX_FAILURE_DETAIL ==> detail == error
    ensures |error| > 200 ==> |detail| >= 3 && detail == error[..|detail| - 3] + [0xE2, 0x80, 0xA6]
    ensures |error| > 200 ==> forall p :: |detail| - 3 < p <= 197 ==> IsTail(error[p])
  {
    if |error| <= MAX_FAILURE_DETAIL then error else Truncated(error, MAX_FAILURE_DETAIL)
  }
}
