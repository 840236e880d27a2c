/** base64url with padding (RFC 4648, section 5). */
module Base64Url {
  import opened Wrappers

  type byte = x: int | 0 <= x < 256
  type Bytes = seq<byte>

  function CharOf(v: int): char
    requires 0 <= v < 64
  {
    if v < 26 then (v + 'A' as int) as char
    else if v < 52 then (v - 26 + 'a' as int) as char
    else if v < 62 then (v - 52 + '0' as int) as char
    else if v == 62 then '-'
    else '_'
  }

  function ValueOf(c: char): (v: Option<int>)
    ensures v.Some? ==> 0 <= v.value < 64
  {
    if 'A' <= c <= 'Z' then Some(c as int - 'A' as int)
    else if 'a' <= c <= 'z' then Some(c as int - 'a' as int + 26)
    else if '0' <= c <= '9' then Some(c as int - '0' as int + 52)
    else if c == '-' then Some(62)
    else if c == '_' then Some(63)
    else None
  }

  lemma ValueOfCharOf(v: int)
    requires 0 <= v < 64
    ensures ValueOf(CharOf(v)) == Some(v) && CharOf(v) != '='
  {
  }

  function GroupChars(x: byte, y: byte, z: byte): string {
    [CharOf(x / 4), CharOf(x % 4 * 16 + y / 16), CharOf(y % 16 * 4 + z / 64), CharOf(z % 64)]
  }

  function Encode(b: Bytes): string {
    if |b| == 0 then ""
    else if |b| == 1 then [CharOf(b[0] / 4), CharOf(b[0] % 4 * 16), '=', '=']
    else if |b| == 2 then [CharOf(b[0] / 4), CharOf(b[0] % 4 * 16 + b[1] / 16), CharOf(b[1] % 16 * 4), '=']
    else
      GroupChars(b[0], b[1], b[2]) + Encode(b[3..])
  }

  const UPPER := "ABCDEFGHIJKLMNOPQRSTUVWXYZ"
  const LOWER := "abcdefghijklmnopqrstuvwxyz"
  const DIGITS := "0123456789"
  const ALPHABET := UPPER + LOWER + DIGITS + "-_"

  lemma CharIsOfAlphabet(v: int)
    requires 0 <= v < 64
    ensures |ALPHABET| == 64 && CharOf(v) == ALPHABET[v]
  {
    if v < 26 {
      assert UPPER[v] == CharOf(v);
    } else if v < 52 {
      assert LOWER[v - 26] == CharOf(v);
    } else if v < 62 {
      assert DIGITS[v - 52] == CharOf(v);
    }
  }

  /** The characters of one, two or three bytes are the base-64 digits of their bits, padded with zero bits
      on the right and with "=" to four characters. */
  lemma EncodedBits(x: byte, y: byte, z: byte)
    returns (p: int, q: int, r: int, s: int, q1: int, r1: int)
    ensures 0 <= p < 64 && 0 <= q < 64 && 0 <= r < 64 && 0 <= s < 64 && 0 <= q1 < 64 && 0 <= r1 < 64
    ensures Encode([x, y, z]) == [ALPHABET[p], ALPHABET[q], ALPHABET[r], ALPHABET[s]]
    ensures ((x as int) * 256 + y) * 256 + z == ((p * 64 + q) * 64 + r) * 64 + s
    ensures Encode([x, y]) == [ALPHABET[p], ALPHABET[q], ALPHABET[r1], '=']
    ensures ((x as int) * 256 + y) * 4 == (p * 64 + q) * 64 + r1
    ensures Encode([x]) == [ALPHABET[p], ALPHABET[q1], '=', '=']
    ensures (x as int) * 16 == p * 64 + q1
  {
    p, q, r, s := x / 4, x % 4 * 16 + y / 16, y % 16 * 4 + z / 64, z % 64;
    q1, r1 := x % 4 * 16, y % 16 * 4;
    CharIsOfAlphabet(p);
    CharIsOfAlphabet(q);
    CharIsOfAlphabet(r);
    CharIsOfAlphabet(s);
    CharIsOfAlphabet(q1);
    CharIsOfAlphabet(r1);
    EncodeGroup([x, y, z]);
    assert [x, y, z][3..] == [];
  }

  /** Longer strings are encoded three bytes at a time. */
  lemma EncodedInGroups(x: byte, y: byte, z: byte, b: Bytes)
    ensures Encode([x, y, z] + b) == Encode([x, y, z]) + Encode(b)
  {
    EncodeGroup([x, y, z] + b);
    EncodeGroup([x, y, z]);
    assert ([x, y, z] + b)[3..] == b && [x, y, z][3..] == [];
  }

  /** Three bytes of a full group of four characters. */
  function DecodeGroup(v0: int, v1: int, v2: int, v3: int): Bytes
    requires 0 <= v0 < 64 && 0 <= v1 < 64 && 0 <= v2 < 64 && 0 <= v3 < 64
  {
    [v0 * 4 + v1 / 16, v1 % 16 * 16 + v2 / 4, v2 % 4 * 64 + v3]
  }

  /** Decode groups of four characters; only the last group may be padded.  Bits of a padded group that
      belong to no byte are ignored. */
  function Decode(s: string): Option<Bytes> {
    if |s| == 0 then Some([])
    else if |s| < 4 then None
    else
      var v0, v1 := ValueOf(s[0]), ValueOf(s[1]);
      if v0.None? || v1.None? then None
      else if |s| == 4 && s[2..] == "==" then Some(DecodeGroup(v0.value, v1.value, 0, 0)[..1])
      else
        var v2 := ValueOf(s[2]);
        if v2.None? then None
        else if |s| == 4 && s[3] == '=' then Some(DecodeGroup(v0.value, v1.value, v2.value, 0)[..2])
        else
          var v3, rest := ValueOf(s[3]), Decode(s[4..]);
          if v3.None? || rest.None? then None
          else Some(DecodeGroup(v0.value, v1.value, v2.value, v3.value) + rest.value)
  }

  lemma GroupRoundTrip(x: byte, y: byte, z: byte)
    ensures DecodeGroup(x / 4, x % 4 * 16 + y / 16, y % 16 * 4 + z / 64, z % 64) == [x, y, z]
  {
  }

  lemma OneByte(x: byte)
    ensures Decode(Encode([x])) == Some([x])
  {
    GroupRoundTrip(x, 0, 0);
    ValueOfCharOf(x / 4);
    ValueOfCharOf(x % 4 * 16);
    assert Encode([x])[2..] == "==";
    var group := DecodeGroup(x / 4, x % 4 * 16, 0, 0);
    assert group == [x, 0, 0] && group[..1] == [x];
  }

  lemma TwoByteGroup(x: byte, y: byte)
    ensures Decode(Encode([x, y])) == Some([x, y])
  {
    GroupRoundTrip(x, y, 0);
    ValueOfCharOf(x / 4);
    ValueOfCharOf(x % 4 * 16 + y / 16);
    ValueOfCharOf(y % 16 * 4);
    var s := Encode([x, y]);
    assert s[2..][0] == s[2] && s[3] == '=';
    var group := DecodeGroup(x / 4, x % 4 * 16 + y / 16, y % 16 * 4, 0);
    assert group == [x, y, 0] && group[..2] == [x, y];
  }

  lemma FullGroup(x: byte, y: byte, z: byte, rest: string)
    ensures var s := GroupChars(x, y, z) + rest;
            Decode(s) == if Decode(rest).Some? then Some([x, y, z] + Decode(rest).value) else None
  {
    GroupRoundTrip(x, y, z);
    ValueOfCharOf(x / 4);
    ValueOfCharOf(x % 4 * 16 + y / 16);
    ValueOfCharOf(y % 16 * 4 + z / 64);
    ValueOfCharOf(z % 64);
    var s := GroupChars(x, y, z) + rest;
    assert s[4..] == rest && s[2..][0] == s[2];
  }

  lemma ShortRoundTrip(b: Bytes)
    requires |b| < 3
    ensures Decode(Encode(b)) == Some(b)
  {
    if |b| == 1 {
      OneByte(b[0]);
      assert b == [b[0]];
    } else if |b| == 2 {
      TwoByteGroup(b[0], b[1]);
      assert b == [b[0], b[1]];
    }
  }

  lemma EncodeGroup(b: Bytes)
    requires |b| >= 3
    ensures Encode(b) == GroupChars(b[0], b[1], b[2]) + Encode(b[3..])
  {
  }

  /** Decoding an encoded string gives the bytes back. */
  lemma {:induction false} RoundTrip(b: Bytes)
    ensures Decode(Encode(b)) == Some(b)
  {
    if |b| < 3 {
      ShortRoundTrip(b);
    } else {
      RoundTrip(b[3..]);
      EncodeGroup(b);
      FullGroup(b[0], b[1], b[2], Encode(b[3..]));
      assert b == [b[0], b[1], b[2]] + b[3..];
    }
  }
}
