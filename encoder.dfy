/** The compile-time encoder: every byte of a literal XORed with one key byte. */
module Encoder {

  /** A C++ `char` as its 8-bit pattern; XOR gives the same bits whether `char` is signed or not. */
  type Byte = bv8

  /** The masked image of `s` under `key`: the byte at `i` is `s[i] ^ key`. */
  function Mask(s: seq<Byte>, key: Byte): (r: seq<Byte>)
    ensures |r| == |s|
  {
    seq(|s|, i requires 0 <= i < |s| => s[i] ^ key)
  }

  /** Masking twice with the same key gives the plaintext back: decoding is masking again. */
  lemma MaskInvolutive(s: seq<Byte>, key: Byte)
    ensures Mask(Mask(s, key), key) == s
  {
    forall i | 0 <= i < |s|
      ensures Mask(Mask(s, key), key)[i] == s[i]
    {
      assert (s[i] ^ key) ^ key == s[i];
    }
  }

  /** Masked bytes determine the plaintext: two literals with the same image under one key are equal. */
  lemma MaskInjective(s: seq<Byte>, t: seq<Byte>, key: Byte)
    requires Mask(s, key) == Mask(t, key)
    ensures s == t
  {
    MaskInvolutive(s, key);
    MaskInvolutive(t, key);
  }

  /** A masked byte equals its plaintext byte exactly when the key is zero. */
  lemma MaskKeepsByteIff(s: seq<Byte>, key: Byte, i: nat)
    requires i < |s|
    ensures Mask(s, key)[i] == s[i] <==> key == 0
  {
    if Mask(s, key)[i] == s[i] {
      assert key == (s[i] ^ key) ^ s[i];
    }
  }

  /** The zero key is the no-op: the masked buffer is the plaintext byte for byte. */
  lemma MaskZeroKey(s: seq<Byte>)
    ensures Mask(s, 0) == s
  {
    forall i | 0 <= i < |s|
      ensures Mask(s, 0)[i] == s[i]
    {
      MaskKeepsByteIff(s, 0, i);
    }
  }

  /** For a non-empty literal, masking leaves it unchanged if and only if the key is zero. */
  lemma MaskIsIdentityIff(s: seq<Byte>, key: Byte)
    requires |s| >= 1
    ensures Mask(s, key) == s <==> key == 0
  {
    MaskKeepsByteIff(s, key, 0);
    if key == 0 {
      MaskZeroKey(s);
    }
  }

  /** "abc" with its terminator under key 0x2A, and under the degenerate key 0. */
  lemma MaskAbcExample()
    ensures Mask([0x61, 0x62, 0x63, 0x00], 0x2A) == [0x4B, 0x48, 0x49, 0x2A]
    ensures Mask([0x61, 0x62, 0x63, 0x00], 0x00) == [0x61, 0x62, 0x63, 0x00]
  {
  }

  /**
   * `xor_str<I>(d, key, s)`: writes `d[I] := s[I] ^ key`, then recurses on `I - 1`;
   * the specialisation for `0` writes `d[0]` only and stops.
   */
  method XorStr(d: array<Byte>, key: Byte, s: seq<Byte>, i: nat)
    requires i < d.Length && i < |s|
    modifies d
    ensures forall j :: 0 <= j <= i ==> d[j] == s[j] ^ key
    ensures forall j :: i < j < d.Length ==> d[j] == old(d[j])
    decreases i
  {
    if i == 0 {
      d[0] := s[0] ^ key;
    } else {
      d[i] := s[i] ^ key;
      XorStr(d, key, s, i - 1);
    }
  }
}
