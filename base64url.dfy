/**
 * The URL- and filename-safe base64 encoding of section 5 of RFC 4648, as the
 * service's injected `base64UrlEncoder` / `base64UrlDecoder` apply it: the
 * encoder writes groups of three bytes as four characters, with or without
 * the trailing '=' padding; the decoder accepts input with or without
 * padding, rejects characters outside the alphabet and a dangling single
 * character, and ignores the unused low bits of a final partial group.
 */
module Base64Url {
  import opened Wrappers

  type byte = x: int | 0 <= x < 256
  type sextet = x: int | 0 <= x < 64

  /** The alphabet character that writes the six-bit value `v`. */
  function CharOf(v: sextet): (c: char)
    ensures ValueOf(c) == Some(v)
    ensures c != '='
  {
    if v < 26 then ('A' as int + v) as char
    else if v < 52 then ('a' as int + (v - 26)) as char
    else if v < 62 then ('0' as int + (v - 52)) as char
    else if v == 62 then '-'
    else '_'
  }

  /** The six-bit value of an alphabet character; None for any other character, '=' included. */
  function ValueOf(c: char): Option<sextet>
  {
    if 'A' <= c <= 'Z' then Some(c as int - 'A' as int)
    else if 'a' <= c <= 'z' then Some(c as int - 'a' as int + 26)
    else if '0' <= c <= '9' then Some(c as int - '0' as int + 52)
    else if c == '-' then Some(62)
    else if c == '_' then Some(63)
    else None
  }

  /** Four characters for three bytes. */
  function EncodeGroup(b0: byte, b1: byte, b2: byte): string
  {
    [CharOf(b0 / 4), CharOf(b0 % 4 * 16 + b1 / 16), CharOf(b1 % 16 * 4 + b2 / 64), CharOf(b2 % 64)]
  }

  /** Three bytes for four six-bit values. */
  function DecodeGroup(v0: sextet, v1: sextet, v2: sextet, v3: sextet): seq<byte>
  {
    [v0 * 4 + v1 / 16, v1 % 16 * 16 + v2 / 4, v2 % 4 * 64 + v3]
  }

  /** Unpadded encoding (`withoutPadding()`): a final group of one or two bytes takes two or three characters. */
  function Encode(b: seq<byte>): (s: string)
    ensures 4 * |b| <= 3 * |s| <= 4 * |b| + 2
    decreases |b|
  {
    if |b| == 0 then []
    else if |b| == 1 then [CharOf(b[0] / 4), CharOf(b[0] % 4 * 16)]
    else if |b| == 2 then [CharOf(b[0] / 4), CharOf(b[0] % 4 * 16 + b[1] / 16), CharOf(b[1] % 16 * 4)]
    else EncodeGroup(b[0], b[1], b[2]) + Encode(b[3..])
  }

  /** The '=' characters that complete the last group of four. */
  function Padding(n: nat): string
  {
    if n % 3 == 1 then "==" else if n % 3 == 2 then "=" else ""
  }

  /** Padded encoding (`encodeToString` of the plain URL encoder). */
  function EncodePadded(b: seq<byte>): (s: string)
    ensures |s| == (|b| + 2) / 3 * 4
  {
    EncodedLength(|b|, |Encode(b)|);
    Encode(b) + Padding(|b|)
  }

  /** Decoding of text without padding; None for a character outside the alphabet or a single dangling character. */
  function DecodeUnpadded(s: string): Option<seq<byte>>
    decreases |s|
  {
    if |s| == 0 then Some([])
    else if |s| == 1 then None
    else
      var v0, v1 := ValueOf(s[0]), ValueOf(s[1]);
      if v0.None? || v1.None? then None
      else if |s| == 2 then Some([v0.value * 4 + v1.value / 16])
      else
        var v2 := ValueOf(s[2]);
        if v2.None? then None
        else if |s| == 3 then Some([v0.value * 4 + v1.value / 16, v1.value % 16 * 16 + v2.value / 4])
        else
          var v3 := ValueOf(s[3]);
          if v3.None? then None
          else
            match DecodeUnpadded(s[4..])
            case None => None
            case Some(rest) => Some(DecodeGroup(v0.value, v1.value, v2.value, v3.value) + rest)
  }

  /**
   * Decoding as the URL decoder does it: "==" may end a last group of two
   * characters and "=" a last group of three; any other '=' is an error.
   */
  function Decode(s: string): Option<seq<byte>>
  {
    if |s| >= 2 && s[|s| - 1] == '=' && s[|s| - 2] == '=' then
      if (|s| - 2) % 4 == 2 then DecodeUnpadded(s[..|s| - 2]) else None
    else if |s| >= 1 && s[|s| - 1] == '=' then
      if (|s| - 1) % 4 == 3 then DecodeUnpadded(s[..|s| - 1]) else None
    else DecodeUnpadded(s)
  }

  /**
   * Decode then re-encode without padding: the form in which a challenge is
   * looked up. It exists exactly for decodable text and denotes the same bytes.
   */
  function Canonicalize(s: string): (r: Option<string>)
    ensures r.Some? <==> Decode(s).Some?
    ensures r.Some? ==> Decode(r.value) == Decode(s)
  {
    match Decode(s)
    case None => None
    case Some(b) => DecodeEncode(b); Some(Encode(b))
  }

  /** A string is canonical when it is the unpadded encoding of some bytes. */
  ghost predicate IsCanonical(s: string)
  {
    exists b :: Encode(b) == s
  }

  lemma GroupArithmetic(b0: byte, b1: byte, b2: byte)
    ensures DecodeGroup(b0 / 4, b0 % 4 * 16 + b1 / 16, b1 % 16 * 4 + b2 / 64, b2 % 64) == [b0, b1, b2]
  {
    var v1 := b0 % 4 * 16 + b1 / 16;
    var v2 := b1 % 16 * 4 + b2 / 64;
    assert v1 / 16 == b0 % 4 && v1 % 16 == b1 / 16;
    assert v2 / 4 == b1 % 16 && v2 % 4 == b2 / 64;
  }

  lemma GroupRoundTrip(b0: byte, b1: byte, b2: byte, t: string)
    requires DecodeUnpadded(t).Some?
    ensures DecodeUnpadded(EncodeGroup(b0, b1, b2) + t) == Some([b0, b1, b2] + DecodeUnpadded(t).value)
  {
    var v0, v1, v2, v3 := b0 / 4, b0 % 4 * 16 + b1 / 16, b1 % 16 * 4 + b2 / 64, b2 % 64;
    var s := EncodeGroup(b0, b1, b2) + t;
    assert s[0] == CharOf(v0) && s[1] == CharOf(v1) && s[2] == CharOf(v2) && s[3] == CharOf(v3);
    assert s[4..] == t;
    GroupArithmetic(b0, b1, b2);
  }

  lemma OneByteRoundTrip(b0: byte)
    ensures DecodeUnpadded(Encode([b0])) == Some([b0])
  {
    var s := Encode([b0]);
    assert s[0] == CharOf(b0 / 4) && s[1] == CharOf(b0 % 4 * 16);
  }

  lemma TwoBytesRoundTrip(b0: byte, b1: byte)
    ensures DecodeUnpadded(Encode([b0, b1])) == Some([b0, b1])
  {
    var v1, v2 := b0 % 4 * 16 + b1 / 16, b1 % 16 * 4;
    var s := Encode([b0, b1]);
    assert s[0] == CharOf(b0 / 4) && s[1] == CharOf(v1) && s[2] == CharOf(v2);
    assert v1 / 16 == b0 % 4 && v1 % 16 == b1 / 16 && v2 / 4 == b1 % 16;
  }

  lemma ShortRoundTrip(b: seq<byte>)
    requires |b| <= 2
    ensures DecodeUnpadded(Encode(b)) == Some(b)
  {
    if |b| == 1 {
      assert b == [b[0]];
      OneByteRoundTrip(b[0]);
    } else if |b| == 2 {
      assert b == [b[0], b[1]];
      TwoBytesRoundTrip(b[0], b[1]);
    }
  }

  lemma EncodeStep(b: seq<byte>)
    requires |b| >= 3
    ensures Encode(b) == EncodeGroup(b[0], b[1], b[2]) + Encode(b[3..])
  {
  }

  /** Unpadded decoding inverts unpadded encoding. */
  lemma {:induction false} DecodeUnpaddedEncode(b: seq<byte>)
    ensures DecodeUnpadded(Encode(b)) == Some(b)
    decreases |b|
  {
    if |b| <= 2 {
      ShortRoundTrip(b);
    } else {
      var rest := b[3..];
      DecodeUnpaddedEncode(rest);
      EncodeStep(b);
      SplitFirstGroup(b);
      GroupRoundTrip(b[0], b[1], b[2], Encode(rest));
    }
  }

  /** No '=' anywhere in `s`. */
  predicate NoPadChar(s: string)
  {
    forall k :: 0 <= k < |s| ==> s[k] != '='
  }

  lemma GroupKeepsNoPadChar(b0: byte, b1: byte, b2: byte, t: string)
    requires NoPadChar(t)
    ensures NoPadChar(EncodeGroup(b0, b1, b2) + t)
  {
    var g := EncodeGroup(b0, b1, b2);
    forall k | 0 <= k < |g + t|
      ensures (g + t)[k] != '='
    {
      if k >= |g| {
        assert (g + t)[k] == t[k - |g|];
      }
    }
  }

  /** The unpadded encoding never writes '='. */
  lemma {:induction false} EncodeNoPadChar(b: seq<byte>)
    ensures NoPadChar(Encode(b))
    decreases |b|
  {
    if |b| == 1 {
      assert Encode(b) == [CharOf(b[0] / 4), CharOf(b[0] % 4 * 16)];
    } else if |b| == 2 {
      assert Encode(b) == [CharOf(b[0] / 4), CharOf(b[0] % 4 * 16 + b[1] / 16), CharOf(b[1] % 16 * 4)];
    } else if |b| >= 3 {
      EncodeNoPadChar(b[3..]);
      EncodeStep(b);
      GroupKeepsNoPadChar(b[0], b[1], b[2], Encode(b[3..]));
    }
  }

  /** The decoder takes back what the unpadded encoder wrote. */
  lemma DecodeEncode(b: seq<byte>)
    ensures Decode(Encode(b)) == Some(b)
  {
    DecodeUnpaddedEncode(b);
    EncodeNoPadChar(b);
  }

  lemma QuarterOf(q: nat, c: nat)
    requires c < 4
    ensures (4 * q + c) % 4 == c
  {
  }

  lemma ThirdOf(q: nat, c: nat)
    requires c < 3
    ensures (3 * q + c) / 3 == q
  {
  }

  /** The unpadded length of `n` bytes, by the residue of `n`: what the padding must add to reach a multiple of 4. */
  lemma EncodedLength(n: nat, len: nat)
    requires 4 * n <= 3 * len <= 4 * n + 2
    ensures n % 3 == 0 ==> len % 4 == 0 && len == (n + 2) / 3 * 4
    ensures n % 3 == 1 ==> len % 4 == 2 && len + 2 == (n + 2) / 3 * 4
    ensures n % 3 == 2 ==> len % 4 == 3 && len + 1 == (n + 2) / 3 * 4
  {
    var q, r := n / 3, n % 3;
    assert n == 3 * q + r;
    if r == 0 {
      assert len == 4 * q;
      QuarterOf(q, 0);
      ThirdOf(q, 2);
    } else if r == 1 {
      assert len == 4 * q + 2;
      QuarterOf(q, 2);
      ThirdOf(q + 1, 0);
    } else {
      assert len == 4 * q + 3;
      QuarterOf(q, 3);
      ThirdOf(q + 1, 1);
    }
  }

  lemma DecodeTwoPadChars(s: string)
    requires |s| % 4 == 2 && DecodeUnpadded(s).Some?
    ensures Decode(s + "==") == DecodeUnpadded(s)
  {
    var p := s + "==";
    assert p[..|p| - 2] == s;
  }

  lemma DecodeOnePadChar(s: string)
    requires |s| % 4 == 3 && DecodeUnpadded(s).Some?
    requires s[|s| - 1] != '='
    ensures Decode(s + "=") == DecodeUnpadded(s)
  {
    var p := s + "=";
    assert p[..|p| - 1] == s;
    assert p[|p| - 2] == s[|s| - 1];
  }

  lemma PadCase0(b: seq<byte>)
    requires |b| % 3 == 0
    ensures Decode(EncodePadded(b)) == Some(b)
  {
    assert EncodePadded(b) == Encode(b);
    DecodeEncode(b);
  }
  lemma PadCase1(b: seq<byte>)
    requires |b| % 3 == 1
    ensures Decode(EncodePadded(b)) == Some(b)
  {
    var s := Encode(b);
    assert |s| % 4 == 2 by { EncodedLength(|b|, |s|); }
    assert Padding(|b|) == "==";
    DecodeUnpaddedEncode(b);
    DecodeTwoPadChars(s);
  }
  lemma PadCase2(b: seq<byte>)
    requires |b| % 3 == 2
    ensures Decode(EncodePadded(b)) == Some(b)
  {
    var s := Encode(b);
    assert |s| % 4 == 3 by { EncodedLength(|b|, |s|); }
    assert Padding(|b|) == "=";
    DecodeUnpaddedEncode(b);
    EncodeNoPadChar(b);
    DecodeOnePadChar(s);
  }

  /** A single character left over after the groups of four is rejected. */
  lemma {:induction false} DecodeUnpaddedRejectsDangling(s: string)
    requires |s| % 4 == 1
    ensures DecodeUnpadded(s).None?
    decreases |s|
  {
    if |s| >= 5 {
      DecodeUnpaddedRejectsDangling(s[4..]);
    }
  }

  /** Unpadded decoding accepts no '=' at all. */
  lemma {:induction false} DecodeUnpaddedRejectsPadChar(s: string)
    requires DecodeUnpadded(s).Some?
    ensures NoPadChar(s)
    decreases |s|
  {
    assert ValueOf('=') == None;
    if |s| >= 4 {
      DecodeUnpaddedRejectsPadChar(s[4..]);
      forall k | 0 <= k < |s|
        ensures s[k] != '='
      {
        if k >= 4 {
          assert s[k] == s[4..][k - 4];
        }
      }
    }
  }

  lemma PrefixNoPadChar(s: string, n: nat)
    requires n <= |s| && NoPadChar(s[..n])
    ensures forall k :: 0 <= k < n ==> s[k] != '='
  {
    forall k | 0 <= k < n
      ensures s[k] != '='
    {
      assert s[k] == s[..n][k];
    }
  }

  /** What `DecodePaddingRules` states about accepted text. */
  ghost predicate PaddedCorrectly(s: string)
  {
    && |s| % 4 != 1
    && (forall k :: 0 <= k < |s| - 2 ==> s[k] != '=')
    && (|s| >= 2 && s[|s| - 2] == '=' ==> s[|s| - 1] == '=')
    && (|s| >= 1 && s[|s| - 1] == '=' ==> |s| % 4 == 0)
  }

  lemma PaddedLength(n: int, used: int)
    requires 1 <= used <= 2 && (n - used) % 4 == 4 - used
    ensures n % 4 == 0
  {
  }

  lemma TwoPadCharsRules(s: string)
    requires |s| >= 2 && s[|s| - 1] == '=' && s[|s| - 2] == '='
    requires (|s| - 2) % 4 == 2 && NoPadChar(s[..|s| - 2])
    ensures PaddedCorrectly(s)
  {
    PrefixNoPadChar(s, |s| - 2);
    PaddedLength(|s|, 2);
  }

  lemma OnePadCharRules(s: string)
    requires |s| >= 1 && s[|s| - 1] == '='
    requires (|s| - 1) % 4 == 3 && NoPadChar(s[..|s| - 1])
    ensures PaddedCorrectly(s)
  {
    PrefixNoPadChar(s, |s| - 1);
    PaddedLength(|s|, 1);
  }

  lemma NoPadCharRules(s: string)
    requires DecodeUnpadded(s).Some?
    ensures PaddedCorrectly(s)
  {
    DecodeUnpaddedRejectsPadChar(s);
    if |s| % 4 == 1 {
      DecodeUnpaddedRejectsDangling(s);
    }
  }

  /**
   * The padding rules of the URL decoder: no dangling single character, '='
   * only in the last two positions, and padding only to complete a group of
   * four ("==" after two characters of a group, "=" after three).
   */
  lemma DecodePaddingRules(s: string)
    requires Decode(s).Some?
    ensures PaddedCorrectly(s)
  {
    if |s| >= 2 && s[|s| - 1] == '=' && s[|s| - 2] == '=' {
      DecodeUnpaddedRejectsPadChar(s[..|s| - 2]);
      TwoPadCharsRules(s);
    } else if |s| >= 1 && s[|s| - 1] == '=' {
      DecodeUnpaddedRejectsPadChar(s[..|s| - 1]);
      OnePadCharRules(s);
    } else {
      NoPadCharRules(s);
    }
  }

  /** The decoder takes back what the padded encoder wrote. */
  lemma DecodeEncodePadded(b: seq<byte>)
    ensures Decode(EncodePadded(b)) == Some(b)
  {
    if |b| % 3 == 0 {
      PadCase0(b);
    } else if |b| % 3 == 1 {
      PadCase1(b);
    } else {
      PadCase2(b);
    }
  }

  /** Canonicalising canonical text, padded or not, gives the unpadded text back. */
  lemma CanonicalFixedPoint(b: seq<byte>)
    ensures Canonicalize(Encode(b)) == Some(Encode(b))
    ensures Canonicalize(EncodePadded(b)) == Some(Encode(b))
  {
    DecodeEncode(b);
    DecodeEncodePadded(b);
  }

  /** Canonicalisation leaves a string unchanged exactly when the string is canonical. */
  lemma CanonicalIff(s: string)
    ensures Canonicalize(s) == Some(s) <==> IsCanonical(s)
  {
    if IsCanonical(s) {
      var b :| Encode(b) == s;
      CanonicalFixedPoint(b);
    }
    if Canonicalize(s) == Some(s) {
      assert Encode(Decode(s).value) == s;
    }
  }

  /** Canonicalising twice is canonicalising once. */
  lemma CanonicalizeIdempotent(s: string)
    requires Canonicalize(s).Some?
    ensures Canonicalize(Canonicalize(s).value) == Canonicalize(s)
  {
    CanonicalFixedPoint(Decode(s).value);
  }

  /**
   * The unpadded encoding of `b` with the lowest unused bit of its final
   * partial group set: a different text that the decoder maps to `b` too
   * (for whole groups only, it is the encoding itself).
   */
  function WithTrailingBit(b: seq<byte>): string
    decreases |b|
  {
    if |b| == 0 then []
    else if |b| == 1 then [CharOf(b[0] / 4), CharOf(b[0] % 4 * 16 + 1)]
    else if |b| == 2 then [CharOf(b[0] / 4), CharOf(b[0] % 4 * 16 + b[1] / 16), CharOf(b[1] % 16 * 4 + 1)]
    else EncodeGroup(b[0], b[1], b[2]) + WithTrailingBit(b[3..])
  }

  /** What `TrailingBitDecodes` states, for a text `t` that stands in for the canonical text `u`. */
  ghost predicate DecodesAsAlternative(t: string, u: string, b: seq<byte>)
  {
    DecodeUnpadded(t) == Some(b) && t != u && |t| >= 2 && t[|t| - 1] != '='
  }

  lemma OneByteTrailingBit(b0: byte)
    ensures DecodesAsAlternative(WithTrailingBit([b0]), Encode([b0]), [b0])
  {
    var v1 := b0 % 4 * 16 + 1;
    var s := WithTrailingBit([b0]);
    assert s == [CharOf(b0 / 4), CharOf(v1)];
    assert v1 / 16 == b0 % 4;
    assert ValueOf(s[1]) != ValueOf(Encode([b0])[1]);
  }

  lemma TwoBytesTrailingBit(b0: byte, b1: byte)
    ensures DecodesAsAlternative(WithTrailingBit([b0, b1]), Encode([b0, b1]), [b0, b1])
  {
    var v1, v2 := b0 % 4 * 16 + b1 / 16, b1 % 16 * 4 + 1;
    var s := WithTrailingBit([b0, b1]);
    assert s == [CharOf(b0 / 4), CharOf(v1), CharOf(v2)];
    assert v1 / 16 == b0 % 4 && v1 % 16 == b1 / 16 && v2 / 4 == b1 % 16;
    assert ValueOf(s[2]) != ValueOf(Encode([b0, b1])[2]);
  }

  lemma ShortTrailingBit(b: seq<byte>)
    requires |b| == 1 || |b| == 2
    ensures DecodesAsAlternative(WithTrailingBit(b), Encode(b), b)
  {
    if |b| == 1 {
      assert b == [b[0]];
      OneByteTrailingBit(b[0]);
    } else {
      assert b == [b[0], b[1]];
      TwoBytesTrailingBit(b[0], b[1]);
    }
  }

  lemma TrailingBitStep(b: seq<byte>)
    requires |b| >= 3 && |b| % 3 != 0
    ensures |b[3..]| % 3 != 0
    ensures WithTrailingBit(b) == EncodeGroup(b[0], b[1], b[2]) + WithTrailingBit(b[3..])
  {
  }

  lemma SplitFirstGroup(b: seq<byte>)
    requires |b| >= 3
    ensures b == [b[0], b[1], b[2]] + b[3..]
  {
  }

  /** A full group in front keeps an alternative text an alternative. */
  lemma GroupKeepsAlternative(b0: byte, b1: byte, b2: byte, t: string, u: string, rest: seq<byte>)
    requires DecodesAsAlternative(t, u, rest)
    ensures DecodesAsAlternative(EncodeGroup(b0, b1, b2) + t, EncodeGroup(b0, b1, b2) + u, [b0, b1, b2] + rest)
  {
    var g := EncodeGroup(b0, b1, b2);
    GroupRoundTrip(b0, b1, b2, t);
    assert (g + t)[|g|..] == t;
    assert (g + u)[|g|..] == u;
    assert (g + t)[|g + t| - 1] == t[|t| - 1];
  }

  /** The text with the extra bit decodes to the same bytes and differs from the canonical text. */
  lemma {:induction false} TrailingBitDecodes(b: seq<byte>)
    requires |b| % 3 != 0
    ensures DecodesAsAlternative(WithTrailingBit(b), Encode(b), b)
    decreases |b|
  {
    if |b| <= 2 {
      ShortTrailingBit(b);
    } else {
      var rest := b[3..];
      TrailingBitStep(b);
      EncodeStep(b);
      SplitFirstGroup(b);
      TrailingBitDecodes(rest);
      GroupKeepsAlternative(b[0], b[1], b[2], WithTrailingBit(rest), Encode(rest), rest);
    }
  }

  /**
   * The lookup key is malleable: whenever the bytes end in a partial group,
   * a second unpadded text, other than the canonical one, canonicalises to
   * the same key.
   */
  lemma LookupKeyMalleable(b: seq<byte>)
    requires |b| % 3 != 0
    ensures exists s :: s != Encode(b) && Canonicalize(s) == Some(Encode(b))
  {
    var s := WithTrailingBit(b);
    TrailingBitDecodes(b);
    assert Decode(s) == DecodeUnpadded(s);
    assert Canonicalize(s) == Some(Encode(b));
  }

  /** The unused low bits of a final partial group are dropped: "AB" and "AA" look up the same key. */
  lemma TrailingBitsDropped()
    ensures Canonicalize("AB") == Some("AA")
    ensures Canonicalize("AA") == Some("AA")
  {
    assert ValueOf('A') == Some(0);
    assert ValueOf('B') == Some(1);
    assert Decode("AB") == Some([0]);
    assert Decode("AA") == Some([0]);
    assert CharOf(0) == 'A';
    assert Encode([0]) == "AA";
  }
}
