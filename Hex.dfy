/** Hexadecimal text: the reference decoding that both ToByteArray extension
    methods implement pair by pair, and the lowercase encoding that the
    plotter's ByteArrayToString produces. */
module Hex {
  import opened Bytes

  predicate IsHexDigit(c: char)
  {
    ('0' <= c <= '9') || ('a' <= c <= 'f') || ('A' <= c <= 'F')
  }

  function HexDigitValue(c: char): (v: nat)
    requires IsHexDigit(c)
    ensures v < 16
  {
    if '0' <= c <= '9' then (c as int) - ('0' as int)
    else if 'a' <= c <= 'f' then (c as int) - ('a' as int) + 10
    else (c as int) - ('A' as int) + 10
  }

  /** Convert.ToByte(s, 16) on a two-character string. Its parser accepts an
      optional leading '+' and otherwise only hexadecimal digits with nothing
      left over ("0x" leaves no digits), so a pair is either two hex digits or
      '+' followed by one. */
  function PairValue(c1: char, c2: char): (r: Option<byte>)
    ensures IsHexDigit(c1) && IsHexDigit(c2) ==> r == Some(16 * HexDigitValue(c1) + HexDigitValue(c2))
    ensures r.None? <==> !IsHexDigit(c2) || (!IsHexDigit(c1) && c1 != '+')
  {
    if IsHexDigit(c1) && IsHexDigit(c2) then Some(16 * HexDigitValue(c1) + HexDigitValue(c2))
    else if c1 == '+' && IsHexDigit(c2) then Some(HexDigitValue(c2))
    else None
  }

  /** The exception Convert.ToByte(s, 16) throws for a pair it refuses: a
      leading '-' is refused before any digit is read, with ArgumentException,
      because only base 10 admits a sign; any other refused pair is a
      FormatException. */
  function PairError(c1: char): string
  {
    if c1 == '-' then "ArgumentException" else "FormatException"
  }

  /** The decoding loop's outcome, pair by pair from the left: the first pair
      that Convert.ToByte refuses raises the exception PairError names, and a
      lone last character makes Substring(i, 2) raise
      ArgumentOutOfRangeException. */
  function Decode(s: string): (r: Result<seq<byte>>)
    decreases |s|
  {
    if s == [] then Success([])
    else if |s| == 1 then Failure("ArgumentOutOfRangeException")
    else match PairValue(s[0], s[1])
      case None => Failure(PairError(s[0]))
      case Some(b) =>
        match Decode(s[2..])
        case Success(rest) => Success([b] + rest)
        case Failure(e) => Failure(e)
  }

  /** A decoded prefix followed by the outcome of decoding the rest. */
  function Prepend(done: seq<byte>, rest: Result<seq<byte>>): Result<seq<byte>>
  {
    match rest
    case Success(bs) => Success(done + bs)
    case Failure(e) => Failure(e)
  }

  predicate AllPairsValid(s: string)
  {
    forall k :: 0 <= k < |s| / 2 ==> PairValue(s[2 * k], s[2 * k + 1]).Some?
  }

  /** Decoding succeeds exactly on even-length strings whose every pair is
      accepted, and then yields |s| / 2 bytes, byte k being the value of
      characters 2k and 2k + 1. */
  lemma {:induction false} DecodeMeaning(s: string)
    ensures Decode(s).Success? <==> |s| % 2 == 0 && AllPairsValid(s)
    ensures Decode(s).Success? ==> |Decode(s).value| == |s| / 2
    ensures Decode(s).Success? ==>
      forall k :: 0 <= k < |s| / 2 ==> Decode(s).value[k] == PairValue(s[2 * k], s[2 * k + 1]).value
    decreases |s|
  {
    if |s| >= 2 {
      var t := s[2..];
      DecodeMeaning(t);
      assert forall k :: 0 <= k < |t| / 2 ==> t[2 * k] == s[2 * (k + 1)] && t[2 * k + 1] == s[2 * (k + 1) + 1];
      if PairValue(s[0], s[1]).Some? && AllPairsValid(t) {
        assert AllPairsValid(s) by {
          forall k | 0 <= k < |s| / 2 ensures PairValue(s[2 * k], s[2 * k + 1]).Some? {
            if k > 0 {
              assert PairValue(t[2 * (k - 1)], t[2 * (k - 1) + 1]).Some?;
            }
          }
        }
      }
      if AllPairsValid(s) {
        assert PairValue(s[2 * 0], s[2 * 0 + 1]).Some?;
        assert AllPairsValid(t) by {
          forall k | 0 <= k < |t| / 2 ensures PairValue(t[2 * k], t[2 * k + 1]).Some? {
            assert PairValue(s[2 * (k + 1)], s[2 * (k + 1) + 1]).Some?;
          }
        }
      }
    }
  }

  /** When pair k is the first one refused, decoding fails with that pair's
      exception. */
  lemma {:induction false} FirstRefusedPair(s: string, k: nat)
    requires 2 * k + 1 < |s| && PairValue(s[2 * k], s[2 * k + 1]).None?
    requires forall j :: 0 <= j < k ==> PairValue(s[2 * j], s[2 * j + 1]).Some?
    ensures Decode(s) == Failure(PairError(s[2 * k]))
    decreases k
  {
    if k > 0 {
      var t := s[2..];
      assert PairValue(s[2 * 0], s[2 * 0 + 1]).Some?;
      forall j | 0 <= j < k - 1 ensures PairValue(t[2 * j], t[2 * j + 1]).Some? {
        assert t[2 * j] == s[2 * (j + 1)] && t[2 * j + 1] == s[2 * (j + 1) + 1];
      }
      assert t[2 * (k - 1)] == s[2 * k] && t[2 * (k - 1) + 1] == s[2 * k + 1];
      FirstRefusedPair(t, k - 1);
    }
  }

  /** When every whole pair is accepted and one character is left over,
      decoding fails in Substring with ArgumentOutOfRangeException. */
  lemma {:induction false} LoneLastChar(s: string)
    requires |s| % 2 == 1 && AllPairsValid(s)
    ensures Decode(s) == Failure("ArgumentOutOfRangeException")
    decreases |s|
  {
    if |s| > 1 {
      var t := s[2..];
      assert PairValue(s[2 * 0], s[2 * 0 + 1]).Some?;
      forall j | 0 <= j < |t| / 2 ensures PairValue(t[2 * j], t[2 * j + 1]).Some? {
        assert t[2 * j] == s[2 * (j + 1)] && t[2 * j + 1] == s[2 * (j + 1) + 1];
        assert PairValue(s[2 * (j + 1)], s[2 * (j + 1) + 1]).Some?;
      }
      LoneLastChar(t);
    }
  }

  /** An odd number of characters never decodes. */
  lemma {:induction false} OddLengthFails(s: string)
    requires |s| % 2 == 1
    ensures Decode(s).Failure?
  {
    DecodeMeaning(s);
  }

  /** Two lowercase hexadecimal digits for one byte: "{0:x2}". */
  function HexChar(d: nat): (c: char)
    requires d < 16
    ensures IsHexDigit(c) && HexDigitValue(c) == d
  {
    "0123456789abcdef"[d]
  }

  function ByteToHex(b: byte): (s: string)
    ensures |s| == 2
  {
    [HexChar(b / 16), HexChar(b % 16)]
  }

  /** The lowercase hexadecimal rendering of a byte string, two characters per
      byte in order. */
  function Encode(bs: seq<byte>): (s: string)
    ensures |s| == 2 * |bs|
  {
    if bs == [] then [] else Encode(bs[..|bs| - 1]) + ByteToHex(bs[|bs| - 1])
  }

  /** Characters 2k and 2k + 1 of the rendering are the high and low nibble of
      byte k, as lowercase hex digits. */
  lemma {:induction false} EncodeAt(bs: seq<byte>, k: nat)
    requires k < |bs|
    ensures Encode(bs)[2 * k] == HexChar(bs[k] / 16)
    ensures Encode(bs)[2 * k + 1] == HexChar(bs[k] % 16)
  {
    if k < |bs| - 1 {
      EncodeAt(bs[..|bs| - 1], k);
    }
  }

  /** The two digits of a byte read back as that byte. */
  lemma {:induction false} PairOfByte(b: byte)
    ensures PairValue(HexChar(b / 16), HexChar(b % 16)) == Some(b)
  {
    assert 16 * (b / 16) + b % 16 == b;
  }

  /** Decoding the rendering of any byte string yields that byte string. */
  lemma {:induction false} DecodeEncode(bs: seq<byte>)
    ensures Decode(Encode(bs)) == Success(bs)
  {
    var s := Encode(bs);
    forall k | 0 <= k < |s| / 2
      ensures PairValue(s[2 * k], s[2 * k + 1]) == Some(bs[k])
    {
      EncodeAt(bs, k);
      PairOfByte(bs[k]);
    }
    DecodeMeaning(s);
    assert Decode(s).value == bs;
  }

  lemma {:induction false} PrependAssoc(a: seq<byte>, b: seq<byte>, r: Result<seq<byte>>)
    ensures Prepend(a, Prepend(b, r)) == Prepend(a + b, r)
  {
    if r.Success? {
      assert a + (b + r.value) == (a + b) + r.value;
    }
  }

  /** The decoding loop that both ToByteArray extension methods contain: over
      a fresh array of half as many bytes as characters, each step from the
      left converts the next two characters as a base-16 byte and stores it
      at half the character index. */
  method DecodeLoop(hex: string) returns (r: Result<seq<byte>>)
    ensures r == Decode(hex)
  {
    var n := |hex|;
    var bytes := new byte[n / 2];
    var i := 0;
    assert Prepend([], Decode(hex)) == Decode(hex) by {
      if Decode(hex).Success? {
        assert [] + Decode(hex).value == Decode(hex).value;
      }
    }
    while i < n
      invariant 0 <= i <= n && i % 2 == 0
      invariant Decode(hex) == Prepend(bytes[..i / 2], Decode(hex[i..]))
      decreases n - i
    {
      if i + 2 > n {
        assert |hex[i..]| == 1;
        assert Decode(hex[i..]) == Failure("ArgumentOutOfRangeException");
        return Failure("ArgumentOutOfRangeException");
      }
      var t := hex[i..];
      var pv := PairValue(hex[i], hex[i + 1]);
      if pv.None? {
        assert Decode(t) == Failure(PairError(hex[i]));
        return Failure(PairError(hex[i]));
      }
      assert t[2..] == hex[i + 2..];
      assert Decode(t) == Prepend([pv.value], Decode(hex[i + 2..]));
      ghost var done := bytes[..i / 2];
      PrependAssoc(done, [pv.value], Decode(hex[i + 2..]));
      bytes[i / 2] := pv.value;
      assert bytes[..(i + 2) / 2] == done + [pv.value];
      i := i + 2;
    }
    assert hex[i..] == [];
    assert bytes[..i / 2] == bytes[..];
    assert bytes[..] + [] == bytes[..];
    r := Success(bytes[..]);
  }
}
