/**
 * `atob`: the WHATWG "forgiving-base64 decode" over the standard alphabet of
 * section 4 of RFC 4648 (`A`-`Z`, `a`-`z`, `0`-`9`, `+`, `/`, padding `=`).
 * The base64url characters `-` and `_` of section 5 are not in it.
 * `Encode` is the matching encoder (what `btoa` produces) and serves as the
 * decoder's partner in the round-trip lemma.
 */
module Base64 {
  import opened Wrappers

  type Byte = b: int | 0 <= b < 256

  /** The six-bit value of one base64 character. */
  type Sextet = v: int | 0 <= v < 64

  /** ASCII whitespace as the forgiving decoder strips it: TAB, LF, FF, CR, SPACE. */
  predicate IsAsciiWhitespace(c: char) {
    c == '\t' || c == '\n' || c == '\U{000C}' || c == '\r' || c == ' '
  }

  /** The 64 characters of the standard alphabet. */
  predicate InAlphabet(c: char) {
    ('A' <= c <= 'Z') || ('a' <= c <= 'z') || ('0' <= c <= '9') || c == '+' || c == '/'
  }

  /** Value of an alphabet character. */
  function SextetOf(c: char): (v: Sextet)
    requires InAlphabet(c)
  {
    if 'A' <= c <= 'Z' then c as int - 'A' as int
    else if 'a' <= c <= 'z' then c as int - 'a' as int + 26
    else if '0' <= c <= '9' then c as int - '0' as int + 52
    else if c == '+' then 62
    else 63
  }

  /** The alphabet character of a value; the inverse of `SextetOf`. */
  function CharOf(v: Sextet): (c: char)
    ensures InAlphabet(c) && SextetOf(c) == v
  {
    if v < 26 then (v + 'A' as int) as char
    else if v < 52 then (v - 26 + 'a' as int) as char
    else if v < 62 then (v - 52 + '0' as int) as char
    else if v == 62 then '+'
    else '/'
  }

  /** Step 1: remove every ASCII whitespace character. */
  function RemoveWhitespace(s: string): (r: string)
    ensures forall i :: 0 <= i < |r| ==> !IsAsciiWhitespace(r[i])
    ensures forall c :: c in r ==> c in s
    ensures (forall i :: 0 <= i < |s| ==> !IsAsciiWhitespace(s[i])) ==> r == s
  {
    if s == [] then []
    else if IsAsciiWhitespace(s[0]) then RemoveWhitespace(s[1..])
    else [s[0]] + RemoveWhitespace(s[1..])
  }

  /** Step 2: when the length is a multiple of four, drop one or two trailing `=`. */
  function RemovePadding(s: string): (r: string)
    ensures |r| <= |s| && r == s[..|r|]
  {
    if |s| % 4 != 0 then s
    else if |s| >= 2 && s[|s| - 2] == '=' && s[|s| - 1] == '=' then s[..|s| - 2]
    else if |s| >= 1 && s[|s| - 1] == '=' then s[..|s| - 1]
    else s
  }

  /** Four sextets regrouped into three bytes. */
  function DecodeGroup(a: Sextet, b: Sextet, c: Sextet, d: Sextet): (r: seq<Byte>)
    ensures |r| == 3
  {
    [a * 4 + b / 16, (b % 16) * 16 + c / 4, (c % 4) * 64 + d]
  }

  /**
   * Steps 5 onwards: regroup sextets into bytes. A final group of two or three
   * sextets yields one or two bytes, and its leftover low bits are discarded;
   * a final group of one sextet was rejected earlier.
   */
  function DecodeSextets(s: seq<Sextet>): (r: seq<Byte>)
    requires |s| % 4 != 1
    decreases |s|
  {
    if |s| == 0 then []
    else if |s| == 2 then DecodeGroup(s[0], s[1], 0, 0)[..1]
    else if |s| == 3 then DecodeGroup(s[0], s[1], s[2], 0)[..2]
    else DecodeGroup(s[0], s[1], s[2], s[3]) + DecodeSextets(s[4..])
  }

  /** The forgiving-base64 decode; `None` is the failure that makes `atob` throw. */
  function ForgivingDecode(data: string): (r: Option<seq<Byte>>)
    ensures r.Some? ==> forall i :: 0 <= i < |data| ==>
      InAlphabet(data[i]) || IsAsciiWhitespace(data[i]) || data[i] == '='
  {
    var stripped := RemoveWhitespace(data);
    var d := RemovePadding(stripped);
    if |d| % 4 == 1 then None
    else if exists i :: 0 <= i < |d| && !InAlphabet(d[i]) then None
    else
      DecodeAccepted(data, stripped, d);
      Some(DecodeSextets(seq(|d|, i requires 0 <= i < |d| => SextetOf(d[i]))))
  }

  /** Characters that survive the decoder's checks are alphabet, whitespace or padding. */
  lemma DecodeAccepted(data: string, stripped: string, d: string)
    requires stripped == RemoveWhitespace(data) && d == RemovePadding(stripped)
    requires forall i :: 0 <= i < |d| ==> InAlphabet(d[i])
    ensures forall i :: 0 <= i < |data| ==> InAlphabet(data[i]) || IsAsciiWhitespace(data[i]) || data[i] == '='
  {
    PaddingRemovedIsPadding(stripped);
    forall i | 0 <= i < |data| && !IsAsciiWhitespace(data[i])
      ensures InAlphabet(data[i]) || data[i] == '='
    {
      WhitespaceKeeps(data, i);
      var j :| 0 <= j < |stripped| && stripped[j] == data[i];
      if j < |d| {
        assert d[j] == stripped[j];
      }
    }
  }

  /** What `RemovePadding` drops is `=` characters. */
  lemma PaddingRemovedIsPadding(s: string)
    ensures forall j :: |RemovePadding(s)| <= j < |s| ==> s[j] == '='
  {
  }

  /** Every non-whitespace character of the input reaches the stripped text. */
  lemma {:induction false} WhitespaceKeeps(s: string, i: int)
    requires 0 <= i < |s| && !IsAsciiWhitespace(s[i])
    ensures s[i] in RemoveWhitespace(s)
    decreases |s|
  {
    if i > 0 {
      WhitespaceKeeps(s[1..], i - 1);
    }
  }

  /** `atob`: the decoded bytes as a binary string (one character per byte). */
  function Atob(data: string): (r: Option<string>)
    ensures r.Some? <==> ForgivingDecode(data).Some?
    ensures r.Some? ==> r.value == BinaryString(ForgivingDecode(data).value)
  {
    match ForgivingDecode(data)
    case None => None
    case Some(bytes) => Some(BinaryString(bytes))
  }

  /** A byte sequence as a JavaScript binary string. */
  function BinaryString(bytes: seq<Byte>): (r: string)
    ensures |r| == |bytes|
    ensures forall i :: 0 <= i < |r| ==> r[i] as int == bytes[i]
  {
    seq(|bytes|, i requires 0 <= i < |bytes| => bytes[i] as char)
  }

  /** Three bytes split into four sextets. */
  function EncodeGroup(x: Byte, y: Byte, z: Byte): (r: seq<Sextet>)
    ensures |r| == 4
  {
    [x / 4, (x % 4) * 16 + y / 16, (y % 16) * 4 + z / 64, z % 64]
  }

  /** The sextets that encode `b`: a short last group is padded with zero bits, and only its needed sextets are kept. */
  function EncodeSextets(b: seq<Byte>): (r: seq<Sextet>)
    ensures |r| % 4 != 1
    decreases |b|
  {
    if |b| == 0 then []
    else if |b| == 1 then EncodeGroup(b[0], 0, 0)[..2]
    else if |b| == 2 then EncodeGroup(b[0], b[1], 0)[..3]
    else EncodeGroup(b[0], b[1], b[2]) + EncodeSextets(b[3..])
  }

  /** The sextets and the padding fill whole groups of four characters. */
  lemma {:induction false} EncodeSextetsLength(b: seq<Byte>)
    ensures (|EncodeSextets(b)| + PadLength(|b|)) % 4 == 0
    decreases |b|
  {
    if |b| == 1 {
      assert |EncodeSextets(b)| == 2;
    } else if |b| == 2 {
      assert |EncodeSextets(b)| == 3;
    } else if |b| >= 3 {
      EncodeSextetsLength(b[3..]);
      var m := |EncodeSextets(b[3..])| + PadLength(|b| - 3);
      assert |EncodeSextets(b)| == 4 + |EncodeSextets(b[3..])|;
      assert PadLength(|b|) == PadLength(|b| - 3) by {
        assert |b| % 3 == (|b| - 3) % 3;
      }
      assert |EncodeSextets(b)| + PadLength(|b|) == m + 4;
    }
  }

  /** How many `=` close an encoding of `n` bytes: two after a lone byte, one after two. */
  function PadLength(n: nat): nat {
    if n % 3 == 1 then 2 else if n % 3 == 2 then 1 else 0
  }

  /** `btoa` on a binary string's bytes: sextet characters padded with `=` to a multiple of four. */
  function Encode(b: seq<Byte>): (r: string)
    ensures |r| % 4 == 0
    ensures forall i :: 0 <= i < |r| ==> InAlphabet(r[i]) || r[i] == '='
  {
    var padding := seq(PadLength(|b|), _ => '=');
    EncodeSextetsLength(b);
    EncodeUnpadded(b) + padding
  }

  /** The encoding without its trailing `=`: the sextet characters alone, as JWT segments are written. */
  function EncodeUnpadded(b: seq<Byte>): (r: string)
    ensures |r| % 4 != 1
    ensures forall i :: 0 <= i < |r| ==> InAlphabet(r[i])
  {
    var sextets := EncodeSextets(b);
    seq(|sextets|, i requires 0 <= i < |sextets| => CharOf(sextets[i]))
  }

  /** A group survives encoding and decoding, including a short last group of one or two bytes. */
  lemma GroupRoundTrip(x: Byte, y: Byte, z: Byte)
    ensures var e := EncodeGroup(x, y, z); DecodeGroup(e[0], e[1], e[2], e[3]) == [x, y, z]
    ensures var e := EncodeGroup(x, y, 0); DecodeGroup(e[0], e[1], e[2], 0)[..2] == [x, y]
    ensures var e := EncodeGroup(x, 0, 0); DecodeGroup(e[0], e[1], 0, 0)[..1] == [x]
  {
    FirstByte(x, y);
    FirstByte(x, 0);
    SecondByte(x, y, z);
    SecondByte(x, y, 0);
    ThirdByte(y, z);
  }

  /** The first byte is the high six bits of the first sextet and the high two of the second. */
  lemma FirstByte(x: Byte, y: Byte)
    ensures x / 4 * 4 + ((x % 4) * 16 + y / 16) / 16 == x
  {
  }

  /** The second byte is the low four bits of the second sextet and the high four of the third. */
  lemma SecondByte(x: Byte, y: Byte, z: Byte)
    ensures (((x % 4) * 16 + y / 16) % 16) * 16 + ((y % 16) * 4 + z / 64) / 4 == y
  {
    assert ((x % 4) * 16 + y / 16) % 16 == y / 16;
    assert ((y % 16) * 4 + z / 64) / 4 == y % 16;
  }

  /** The third byte is the low two bits of the third sextet and all of the fourth. */
  lemma ThirdByte(y: Byte, z: Byte)
    ensures (((y % 16) * 4 + z / 64) % 4) * 64 + z % 64 == z
  {
  }

  /** Decoding the sextets of an encoding gives back the bytes. */
  lemma {:induction false} SextetsRoundTrip(b: seq<Byte>)
    ensures DecodeSextets(EncodeSextets(b)) == b
    decreases |b|
  {
    if |b| == 1 {
      GroupRoundTrip(b[0], 0, 0);
    } else if |b| == 2 {
      GroupRoundTrip(b[0], b[1], 0);
    } else if |b| >= 3 {
      var e := EncodeGroup(b[0], b[1], b[2]);
      var rest := EncodeSextets(b[3..]);
      assert (e + rest)[..4] == e && (e + rest)[4..] == rest;
      GroupRoundTrip(b[0], b[1], b[2]);
      SextetsRoundTrip(b[3..]);
      assert b == b[..3] + b[3..];
    }
  }

  /** The decoder's padding step removes exactly the padding the encoder added. */
  lemma PaddingStripped(body: string, n: nat)
    requires n <= 2 && (|body| + n) % 4 == 0
    requires forall i :: 0 <= i < |body| ==> InAlphabet(body[i])
    ensures RemovePadding(body + seq(n, _ => '=')) == body
  {
    var s := body + seq(n, _ => '=');
    if n == 0 {
      assert s == body;
      if |body| >= 1 {
        assert InAlphabet(s[|s| - 1]);
      }
    } else if n == 1 {
      assert s[|s| - 1] == '=' && s[..|s| - 1] == body;
      if |body| >= 1 {
        assert InAlphabet(s[|s| - 2]);
      }
    } else {
      assert s[|s| - 2] == '=' && s[|s| - 1] == '=' && s[..|s| - 2] == body;
    }
  }

  /** `atob` undoes the encoder: the round trip of section 4 of RFC 4648. */
  lemma DecodeEncode(b: seq<Byte>)
    ensures ForgivingDecode(Encode(b)) == Some(b)
    ensures Atob(Encode(b)) == Some(BinaryString(b))
  {
    var sextets := EncodeSextets(b);
    var body := EncodeUnpadded(b);
    var e := Encode(b);
    assert RemoveWhitespace(e) == e by {
      forall i | 0 <= i < |e| ensures !IsAsciiWhitespace(e[i]) {
      }
    }
    assert forall i :: 0 <= i < |body| ==> InAlphabet(body[i]);
    EncodeSextetsLength(b);
    PaddingStripped(body, PadLength(|b|));
    assert seq(|body|, i requires 0 <= i < |body| => SextetOf(body[i])) == sextets;
    SextetsRoundTrip(b);
  }

  /**
   * The encoding with its trailing `=` removed, as JWT segments are written,
   * decodes just the same: the decoder does not need the padding.
   */
  lemma DecodeUnpadded(b: seq<Byte>)
    ensures var e := Encode(b); |e| >= PadLength(|b|) && e[..|e| - PadLength(|b|)] == EncodeUnpadded(b)
    ensures ForgivingDecode(EncodeUnpadded(b)) == Some(b)
    ensures Atob(EncodeUnpadded(b)) == Some(BinaryString(b))
  {
    var sextets := EncodeSextets(b);
    var body := EncodeUnpadded(b);
    assert RemoveWhitespace(body) == body by {
      forall i | 0 <= i < |body| ensures !IsAsciiWhitespace(body[i]) {
      }
    }
    assert RemovePadding(body) == body by {
      if |body| >= 1 {
        assert InAlphabet(body[|body| - 1]);
      }
    }
    assert seq(|body|, i requires 0 <= i < |body| => SextetOf(body[i])) == sextets;
    SextetsRoundTrip(b);
  }

  /**
   * Text holding a base64url character (`-` or `_`) is rejected, so `atob`
   * throws on any base64url segment that uses them.
   */
  lemma Base64UrlRejected(data: string)
    requires '-' in data || '_' in data
    ensures ForgivingDecode(data) == None
    ensures Atob(data) == None
  {
  }
}
