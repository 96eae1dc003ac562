/** Hexadecimal digests: `bytes_to_hex`, `hex_to_bytes` and the comparison by `strcasecmp`. */
module Hex {
  import opened Prelude

  const ALPHABET: string := "0123456789abcdef"

  function HexNibble(c: char): (v: int)
    ensures -1 <= v < 16
  {
    if '0' <= c <= '9' then c as int - '0' as int
    else if 'a' <= c <= 'f' then c as int - 'a' as int + 10
    else if 'A' <= c <= 'F' then c as int - 'A' as int + 10
    else -1
  }

  /** `tolower` in the C locale. */
  function Lower(c: char): char {
    if 'A' <= c <= 'Z' then (c as int + 32) as char else c
  }

  /** What `strcasecmp(a, b) == 0` tests. */
  predicate EqualIgnoringCase(a: string, b: string) {
    |a| == |b| && forall i | 0 <= i < |a| :: Lower(a[i]) == Lower(b[i])
  }

  function ToHex(bytes: seq<byte>): (hex: string)
    ensures |hex| == 2 * |bytes|
  {
    if |bytes| == 0 then ""
    else ToHex(bytes[..|bytes| - 1]) + [ALPHABET[bytes[|bytes| - 1] / 16], ALPHABET[bytes[|bytes| - 1] % 16]]
  }

  predicate IsHex(hex: string) {
    forall i | 0 <= i < |hex| :: HexNibble(hex[i]) >= 0
  }

  /** The bytes that an even number of hexadecimal digits stands for. */
  function FromHex(hex: string): (bytes: seq<byte>)
    requires IsHex(hex)
    ensures |bytes| == |hex| / 2
  {
    if |hex| < 2 then []
    else
      [(HexNibble(hex[0]) * 16 + HexNibble(hex[1])) as byte] + FromHex(hex[2..])
  }

  method BytesToHex(bytes: seq<byte>) returns (hex: string)
    ensures hex == ToHex(bytes)
  {
    hex := "";
    for i := 0 to |bytes|
      invariant hex == ToHex(bytes[..i])
    {
      assert bytes[..i + 1][..i] == bytes[..i];
      hex := hex + [ALPHABET[bytes[i] / 16], ALPHABET[bytes[i] % 16]];
    }
    assert bytes[..|bytes|] == bytes;
  }

  lemma {:induction false} FromHexAt(hex: string, i: nat)
    requires IsHex(hex) && 2 * i + 1 < |hex|
    ensures FromHex(hex)[i] as int == HexNibble(hex[2 * i]) * 16 + HexNibble(hex[2 * i + 1])
  {
    if i > 0 {
      FromHexAt(hex[2..], i - 1);
    }
  }

  method HexToBytes(hex: string, outLen: nat) returns (bytes: Option<seq<byte>>)
    ensures bytes.Some? <==> |hex| == outLen * 2 && IsHex(hex)
    ensures bytes.Some? ==> bytes.value == FromHex(hex)
  {
    if |hex| != outLen * 2 {
      return None;
    }
    var out: seq<byte> := [];
    for i := 0 to outLen
      invariant |out| == i
      invariant forall j | 0 <= j < 2 * i :: HexNibble(hex[j]) >= 0
      invariant forall j: nat {:trigger out[j]} | j < i ::
        out[j] as int == HexNibble(hex[2 * j]) * 16 + HexNibble(hex[2 * j + 1])
    {
      var hi := HexNibble(hex[i * 2]);
      var lo := HexNibble(hex[i * 2 + 1]);
      if hi < 0 || lo < 0 {
        return None;
      }
      out := out + [(hi * 16 + lo) as byte];
    }
    assert IsHex(hex);
    assert out == FromHex(hex) by {
      forall j: nat | j < outLen ensures out[j] == FromHex(hex)[j] {
        FromHexAt(hex, j);
      }
    }
    bytes := Some(out);
  }

  lemma {:induction false} ToHexAt(bytes: seq<byte>, i: nat)
    requires i < |bytes|
    ensures ToHex(bytes)[2 * i] == ALPHABET[bytes[i] / 16] && ToHex(bytes)[2 * i + 1] == ALPHABET[bytes[i] % 16]
  {
    if i < |bytes| - 1 {
      ToHexAt(bytes[..|bytes| - 1], i);
    }
  }

  lemma NibbleOfAlphabet(v: nat)
    requires v < 16
    ensures HexNibble(ALPHABET[v]) == v
  {
  }

  /** Decoding undoes encoding. */
  lemma DecodeEncode(bytes: seq<byte>)
    ensures IsHex(ToHex(bytes)) && FromHex(ToHex(bytes)) == bytes
  {
    var hex := ToHex(bytes);
    forall i | 0 <= i < |hex| ensures HexNibble(hex[i]) >= 0 {
      ToHexAt(bytes, i / 2);
      assert i == 2 * (i / 2) || i == 2 * (i / 2) + 1;
      NibbleOfAlphabet((bytes[i / 2] / 16) as nat);
      NibbleOfAlphabet((bytes[i / 2] % 16) as nat);
    }
    forall i: nat | i < |bytes| ensures FromHex(hex)[i] == bytes[i] {
      ToHexAt(bytes, i);
      FromHexAt(hex, i);
      NibbleOfAlphabet((bytes[i] / 16) as nat);
      NibbleOfAlphabet((bytes[i] % 16) as nat);
    }
  }

  /** The sixteen digits, the high half of a byte first. */
  lemma DigitExample()
    ensures ToHex([0x01, 0x23, 0x45, 0x67, 0x89, 0xab, 0xcd, 0xef]) == "0123456789abcdef"
  {
    var bytes: seq<byte> := [0x01, 0x23, 0x45, 0x67, 0x89, 0xab, 0xcd, 0xef];
    ToHexAt(bytes, 0);
    ToHexAt(bytes, 1);
    ToHexAt(bytes, 2);
    ToHexAt(bytes, 3);
    ToHexAt(bytes, 4);
    ToHexAt(bytes, 5);
    ToHexAt(bytes, 6);
    ToHexAt(bytes, 7);
    hide ToHex;
    assert |ToHex(bytes)| == 16;
  }

  /** Among hexadecimal digits, `strcasecmp` identifies exactly the digits of the same value. */
  lemma SameNibble(c: char, d: char)
    requires HexNibble(c) >= 0 && HexNibble(d) >= 0
    ensures Lower(c) == Lower(d) <==> HexNibble(c) == HexNibble(d)
  {
  }

  lemma SameByte(a: string, b: string, k: nat)
    requires IsHex(a) && IsHex(b) && 2 * k + 1 < |a| && 2 * k + 1 < |b|
    ensures FromHex(a)[k] == FromHex(b)[k] <==>
      Lower(a[2 * k]) == Lower(b[2 * k]) && Lower(a[2 * k + 1]) == Lower(b[2 * k + 1])
  {
    FromHexAt(a, k);
    FromHexAt(b, k);
    SameNibble(a[2 * k], b[2 * k]);
    SameNibble(a[2 * k + 1], b[2 * k + 1]);
  }

  /** Two valid digests compare equal ignoring case exactly when they decode to the same bytes. */
  lemma EqualIffSameBytes(a: string, b: string)
    requires IsHex(a) && IsHex(b) && |a| % 2 == 0 && |b| % 2 == 0
    ensures EqualIgnoringCase(a, b) <==> FromHex(a) == FromHex(b)
  {
    hide FromHex, HexNibble, Lower;
    if EqualIgnoringCase(a, b) {
      forall k: nat | k < |a| / 2 ensures FromHex(a)[k] == FromHex(b)[k] {
        SameByte(a, b, k);
      }
    }
    if FromHex(a) == FromHex(b) {
      assert |a| == |b|;
      forall i | 0 <= i < |a| ensures Lower(a[i]) == Lower(b[i]) {
        SameByte(a, b, i / 2);
        assert i == 2 * (i / 2) || i == 2 * (i / 2) + 1;
      }
    }
  }
}
