/** Go's `base64.URLEncoding.EncodeToString`: the "base64url" alphabet of section 5 of
    RFC 4648, with `=` padding. Only the shape of the output matters to the account
    handlers: its length, and that padding occurs only at its end. */
module Base64Url {
  import opened Common
  import opened Text

  const PAD: byte := '='

  /** The 64 characters of the base64url alphabet; `=` is not one of them. */
  predicate InAlphabet(c: byte) {
    IsAlnum(c) || c == '-' || c == '_'
  }

  /** The character that encodes the 6-bit value `n` (Table 2 of RFC 4648). */
  function Sextet(n: nat): (c: byte)
    requires n < 64
    ensures InAlphabet(c)
  {
    if n < 26 then ('A' as int + n) as char
    else if n < 52 then ('a' as int + (n - 26)) as char
    else if n < 62 then ('0' as int + (n - 52)) as char
    else if n == 62 then '-'
    else '_'
  }

  /** The number of output characters that carry data when `n` bytes are encoded:
      the first `(4n + 2) / 3` characters, that is ceil(4n/3). */
  function DataLength(n: nat): nat {
    (4 * n + 2) / 3
  }

  /** The four characters for the `count` bytes `b0`, `b1`, `b2` of one group (the bytes
      past `count` are zero): `count + 1` characters carry data, the rest are padding. */
  function EncodeGroup(b0: byte, b1: byte, b2: byte, count: nat): (r: Bytes)
    requires 1 <= count <= 3
    ensures |r| == 4
    ensures forall i :: 0 <= i <= count ==> InAlphabet(r[i])
    ensures forall i :: count < i < 4 ==> r[i] == PAD
  {
    var x0, x1, x2 := b0 as int, b1 as int, b2 as int;
    assert x0 / 4 < 64 && (x0 % 4) * 16 + x1 / 16 < 64;
    assert (x1 % 16) * 4 + x2 / 64 < 64;
    var c0 := Sextet(x0 / 4);
    var c1 := Sextet((x0 % 4) * 16 + x1 / 16);
    var c2 := if count < 2 then PAD else Sextet((x1 % 16) * 4 + x2 / 64);
    var c3 := if count < 3 then PAD else Sextet(x2 % 64);
    [c0, c1, c2, c3]
  }

  /** The encoding of `data`, three input bytes to four output characters, with the
      last group padded by `=` to four characters. */
  function Encode(data: Bytes): (r: Bytes)
    ensures |r| == 4 * ((|data| + 2) / 3)
    ensures forall i :: 0 <= i < DataLength(|data|) ==> InAlphabet(r[i])
    ensures forall i :: DataLength(|data|) <= i < |r| ==> r[i] == PAD
    decreases |data|
  {
    if |data| == 0 then []
    else if |data| == 1 then EncodeGroup(data[0], '\0', '\0', 1)
    else if |data| == 2 then EncodeGroup(data[0], data[1], '\0', 2)
    else
      var head := EncodeGroup(data[0], data[1], data[2], 3);
      var tail := Encode(data[3..]);
      assert forall i :: 4 <= i < |head + tail| ==> (head + tail)[i] == tail[i - 4];
      head + tail
  }

  /** The first `n` characters of the encoding of `n` bytes exist and are never padding,
      so `EncodeToString(bytes)[:n]` is in bounds and lies within the alphabet. */
  lemma EncodedPrefixInAlphabet(data: Bytes)
    ensures |data| <= |Encode(data)|
    ensures forall i :: 0 <= i < |data| ==> InAlphabet(Encode(data)[i])
  {
    assert |data| <= DataLength(|data|);
  }
}
