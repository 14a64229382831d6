/**
  Base32 as defined in section 6 of RFC 4648: the input is read as one
  big-endian bit string, cut into 5-bit groups (the last one filled up with
  zero bits), each group is written as one letter of the alphabet
  "ABCDEFGHIJKLMNOPQRSTUVWXYZ234567", and the text is padded with '=' up to
  a multiple of 8 characters. Registration uses it to put the TOTP secret
  into the provisioning URI.
 */
module Base32 {
  import opened Wrappers

  const PadChar: char := '='

  function Pow2(n: nat): (r: nat)
    ensures r >= 1
  {
    if n == 0 then 1 else 2 * Pow2(n - 1)
  }

  /** The `width` low bits of `x`, most significant first. */
  function ToBits(x: nat, width: nat): (r: seq<bool>)
    ensures |r| == width
  {
    if width == 0 then [] else ToBits(x / 2, width - 1) + [x % 2 == 1]
  }

  /** The number a big-endian bit string denotes. */
  function FromBits(bits: seq<bool>): (r: nat)
    ensures r < Pow2(|bits|)
  {
    if bits == [] then 0
    else 2 * FromBits(bits[..|bits| - 1]) + (if bits[|bits| - 1] then 1 else 0)
  }

  lemma {:induction false} FromBitsToBits(x: nat, width: nat)
    requires x < Pow2(width)
    ensures FromBits(ToBits(x, width)) == x
  {
    if width > 0 {
      FromBitsToBits(x / 2, width - 1);
      assert ToBits(x, width)[..width - 1] == ToBits(x / 2, width - 1);
    }
  }

  lemma {:induction false} ToBitsFromBits(bits: seq<bool>)
    ensures ToBits(FromBits(bits), |bits|) == bits
  {
    if bits != [] {
      var init := bits[..|bits| - 1];
      ToBitsFromBits(init);
      assert bits == init + [bits[|bits| - 1]];
    }
  }

  /** The bytes as one bit string, eight bits per byte, first byte first. */
  function BytesToBits(data: seq<byte>): (r: seq<bool>)
    ensures |r| == 8 * |data|
  {
    if data == [] then [] else ToBits(data[0] as nat, 8) + BytesToBits(data[1..])
  }

  /** The whole bytes of a bit string; fewer than eight trailing bits are dropped. */
  function BitsToBytes(bits: seq<bool>): (r: seq<byte>)
    ensures |r| == |bits| / 8
  {
    if |bits| < 8 then []
    else
      FromBitsToBits(0, 8);
      [FromBits(bits[..8]) as byte] + BitsToBytes(bits[8..])
  }

  lemma {:induction false} BitsToBytesOfBytes(data: seq<byte>, tail: seq<bool>)
    requires |tail| < 8
    ensures BitsToBytes(BytesToBits(data) + tail) == data
  {
    if data != [] {
      var head := ToBits(data[0] as nat, 8);
      var bits := BytesToBits(data) + tail;
      assert bits == head + (BytesToBits(data[1..]) + tail);
      assert bits[..8] == head;
      assert bits[8..] == BytesToBits(data[1..]) + tail;
      FromBitsToBits(data[0] as nat, 8);
      BitsToBytesOfBytes(data[1..], tail);
    }
  }

  /** The letter for a 5-bit value: 'A'..'Z' for 0..25, '2'..'7' for 26..31. */
  function Symbol(v: nat): (c: char)
    requires v < 32
  {
    if v < 26 then ('A' as int + v) as char else ('2' as int + (v - 26)) as char
  }

  /** The 5-bit value of a letter of the alphabet; None for any other character. */
  function SymbolValue(c: char): (r: Option<nat>)
    ensures r.Some? ==> r.value < 32 && Symbol(r.value) == c
  {
    if 'A' <= c <= 'Z' then Some(c as int - 'A' as int)
    else if '2' <= c <= '7' then Some(c as int - '2' as int + 26)
    else None
  }

  /** The i-th 5-bit group of `bits` is the (i-1)-th group of `bits` without its first group. */
  lemma GroupsOfTail(bits: seq<bool>)
    requires |bits| >= 5
    ensures forall i :: 0 < i && 5 * i + 5 <= |bits| ==>
              bits[5 * i..5 * i + 5] == bits[5..][5 * (i - 1)..5 * (i - 1) + 5]
  {
    forall i | 0 < i && 5 * i + 5 <= |bits|
      ensures bits[5 * i..5 * i + 5] == bits[5..][5 * (i - 1)..5 * (i - 1) + 5]
    {
      var j := 5 * (i - 1);
      assert j + 5 == 5 * i;
      assert bits[5..][j..j + 5] == bits[5 + j..5 + j + 5];
    }
  }

  /** One letter per 5-bit group. */
  function EncodeGroups(bits: seq<bool>): (r: string)
    requires |bits| % 5 == 0
    ensures |r| == |bits| / 5
    ensures forall i :: 0 <= i < |r| ==> SymbolValue(r[i]) == Some(FromBits(bits[5 * i..5 * i + 5]))
  {
    if bits == [] then []
    else
      var rest := EncodeGroups(bits[5..]);
      GroupsOfTail(bits);
      [Symbol(FromBits(bits[..5]))] + rest
  }

  /** The bit string a run of letters stands for; None if one is not in the alphabet. */
  function DecodeGroups(s: string): (r: Option<seq<bool>>)
  {
    if s == [] then Some([])
    else
      match SymbolValue(s[0])
      case None => None
      case Some(v) =>
        match DecodeGroups(s[1..])
        case None => None
        case Some(rest) => Some(ToBits(v, 5) + rest)
  }

  lemma {:induction false} DecodeEncodeGroups(bits: seq<bool>)
    requires |bits| % 5 == 0
    ensures DecodeGroups(EncodeGroups(bits)) == Some(bits)
  {
    if bits != [] {
      DecodeEncodeGroups(bits[5..]);
      ToBitsFromBits(bits[..5]);
      var s := EncodeGroups(bits);
      assert s[1..] == EncodeGroups(bits[5..]);
      assert bits == bits[..5] + bits[5..];
    }
  }

  /** The number of zero bits that complete the last 5-bit group of `n` bits. */
  function FillBits(n: nat): (r: nat)
    ensures r < 5 && (n + r) % 5 == 0
  {
    (5 - n % 5) % 5
  }

  /** The number of '=' that bring `n` characters up to a multiple of eight. */
  function PadLength(n: nat): (r: nat)
    ensures r < 8 && (n + r) % 8 == 0
  {
    (8 - n % 8) % 8
  }

  function Padding(n: nat): (r: string)
  {
    seq(n, _ => PadChar)
  }

  /** The text with its trailing padding characters removed. */
  function StripPadding(s: string): (r: string)
  {
    if s != [] && s[|s| - 1] == PadChar then StripPadding(s[..|s| - 1]) else s
  }

  lemma {:induction false} StripPaddingOfPadded(s: string, n: nat)
    requires s == [] || s[|s| - 1] != PadChar
    ensures StripPadding(s + Padding(n)) == s
  {
    if n > 0 {
      assert (s + Padding(n))[..|s| + n - 1] == s + Padding(n - 1);
      StripPaddingOfPadded(s, n - 1);
    }
  }

  /** Base32 text of `data`. */
  function Encode(data: seq<byte>): (s: string)
    ensures |s| % 8 == 0
  {
    var bits := BytesToBits(data);
    var symbols := EncodeGroups(bits + seq(FillBits(|bits|), _ => false));
    symbols + Padding(PadLength(|symbols|))
  }

  /**
    The bytes a Base32 text stands for: trailing '=' are dropped, every other
    character must be a letter of the alphabet, and bits left over after the
    last whole byte are ignored. None when a character is not in the alphabet.
   */
  function Decode(s: string): (r: Option<seq<byte>>)
  {
    match DecodeGroups(StripPadding(s))
    case None => None
    case Some(bits) => Some(BitsToBytes(bits))
  }

  /** Decoding the text Encode produces gives back the original bytes. */
  lemma DecodeEncode(data: seq<byte>)
    ensures Decode(Encode(data)) == Some(data)
  {
    var bits := BytesToBits(data);
    var fill := seq(FillBits(|bits|), _ => false);
    var symbols := EncodeGroups(bits + fill);
    if symbols != [] {
      assert SymbolValue(symbols[|symbols| - 1]).Some?;
    }
    StripPaddingOfPadded(symbols, PadLength(|symbols|));
    DecodeEncodeGroups(bits + fill);
    BitsToBytesOfBytes(data, fill);
  }

  /**
    The character count for `n` bytes: 8n bits make (8n + fill) / 5 letters,
    padded up to a multiple of eight.
   */
  lemma DivFive(x: int, k: int, r: int)
    requires x == 5 * k + r && 0 <= r < 5
    ensures x / 5 == k && x % 5 == r
  {
  }

  lemma DivEight(x: int, k: int, r: int)
    requires x == 8 * k + r && 0 <= r < 8
    ensures x / 8 == k && x % 8 == r
  {
  }

  /**
    One case of the character count: `n` bytes with `n % 5 == m`, where
    8m bits are `whole` full letters and `rest` bits over, need `fill` zero
    bits, give 8q + `letters` letters and `pad` padding characters.
   */
  lemma CharacterCountCase(n: nat, q: nat, m: nat, whole: nat, rest: nat, fill: nat, letters: nat, pad: nat)
    requires n == 5 * q + m && m < 5 && 8 * m == 5 * whole + rest && rest < 5
    requires fill == (5 - rest) % 5 && 5 * letters == 8 * m + fill
    requires letters + pad == (if m == 0 then 0 else 8) && pad < 8
    ensures var total := (8 * n + FillBits(8 * n)) / 5;
            total + PadLength(total) == (n + 4) / 5 * 8
  {
    DivFive(8 * n, 8 * q + whole, rest);
    DivFive(8 * n + fill, 8 * q + letters, 0);
    DivEight(8 * q + letters, q, letters);
    if m == 0 {
      DivFive(n + 4, q, 4);
    } else {
      DivFive(n + 4, q + 1, m - 1);
    }
  }

  /**
    The character count for `n` bytes: 8n bits make (8n + fill) / 5 letters,
    padded up to a multiple of eight.
   */
  lemma CharacterCount(n: nat)
    ensures var letters := (8 * n + FillBits(8 * n)) / 5;
            letters + PadLength(letters) == (n + 4) / 5 * 8
  {
    var q := n / 5;
    var m := n % 5;
    if m == 0 {
      CharacterCountCase(n, q, m, 0, 0, 0, 0, 0);
    } else if m == 1 {
      CharacterCountCase(n, q, m, 1, 3, 2, 2, 6);
    } else if m == 2 {
      CharacterCountCase(n, q, m, 3, 1, 4, 4, 4);
    } else if m == 3 {
      CharacterCountCase(n, q, m, 4, 4, 1, 5, 3);
    } else {
      CharacterCountCase(n, q, m, 6, 2, 3, 7, 1);
    }
  }

  /** Every five input bytes become eight characters; a partial group is padded to eight. */
  lemma EncodedLength(data: seq<byte>)
    ensures |Encode(data)| == (|data| + 4) / 5 * 8
  {
    CharacterCount(|data|);
  }
}
