/**
 * `xorlit::string<Size>`, the carrier of a masked literal and its key, with its two
 * decoders, and the entry points `make_str` and `XORLIT`.
 */
module MaskedString {
  import opened Encoder
  import KeyDerivation

  /**
   * A masked literal of `size` bytes (the literal with its terminator). The key and the
   * buffer reference never change; the buffer's bytes are toggled in place by `Rexor`.
   */
  class XorString {
    /** `m_key` */
    const key: Byte
    /** `m_data`, the masked bytes */
    const data: array<Byte>
    /** the template argument `Size`, exposed as `string<Size>::size` */
    const size: nat

    /** A C++ array has at least one element, and `m_data` has exactly `Size`. */
    predicate Valid()
    {
      1 <= size && data.Length == size
    }

    /** `string(s, key)`: `m_data` is value-initialised, then filled by `xor_str<Size - 1>`. */
    constructor (s: seq<Byte>, key: Byte)
      requires |s| >= 1
      ensures Valid() && fresh(data)
      ensures size == |s| && this.key == key
      ensures data[..] == Mask(s, key)
    {
      this.key := key;
      size := |s|;
      data := new Byte[|s|];
      new;
      XorStr(data, key, s, |s| - 1);
    }

    /** `rexor()`: XORs every byte of `m_data` with `m_key` in place and returns `m_data`. */
    method Rexor() returns (p: array<Byte>)
      requires Valid()
      modifies data
      ensures p == data
      ensures data[..] == Mask(old(data[..]), key)
    {
      for i := 0 to data.Length
        invariant forall j :: 0 <= j < i ==> data[j] == old(data[j]) ^ key
        invariant forall j :: i <= j < data.Length ==> data[j] == old(data[j])
      {
        data[i] := data[i] ^ key;
      }
      p := data;
    }

    /** `xor_data() const`: a new `Size`-byte array holding `m_data[i] ^ m_key`; the object is left as it was. */
    method XorData() returns (r: array<Byte>)
      requires Valid()
      ensures fresh(r) && r.Length == size
      ensures r[..] == Mask(data[..], key)
      ensures unchanged(data)
    {
      r := new Byte[size];
      for i := 0 to size
        invariant data[..] == old(data[..])
        invariant forall j :: 0 <= j < i ==> r[j] == old(data[j]) ^ key
      {
        r[i] := data[i] ^ key;
      }
    }

    /** `data()`, both overloads: the stored (masked) buffer itself. */
    method Data() returns (p: array<Byte>)
      ensures p == data
    {
      p := data;
    }

    /** `key() const`: the key the object was built with. */
    method Key() returns (k: Byte)
      ensures k == key
    {
      k := key;
    }
  }

  /** `make_str(s, key)`: builds the masked value of `s` under `key`. */
  method MakeStr(s: seq<Byte>, key: Byte) returns (str: XorString)
    requires |s| >= 1
    ensures fresh(str) && fresh(str.data) && str.Valid()
    ensures str.size == |s| && str.key == key
    ensures str.data[..] == Mask(s, key)
  {
    str := new XorString(s, key);
  }

  /** `make_str(s)`: the key defaults to `static_cast<char>(seed)` of the build time. */
  method MakeStrDefaultKey(s: seq<Byte>, time: seq<Byte>) returns (str: XorString)
    requires |s| >= 1 && |time| >= 8
    ensures fresh(str) && fresh(str.data) && str.Valid()
    ensures str.size == |s| && str.key == KeyDerivation.DefaultKey(time)
    ensures str.data[..] == Mask(s, KeyDerivation.DefaultKey(time))
  {
    str := MakeStr(s, KeyDerivation.DefaultKey(time));
  }

  /** `XORLIT(s, key)`, that is `make_str(s, key).rexor()`: the buffer holds the plaintext again, for any key. */
  method Xorlit(s: seq<Byte>, key: Byte) returns (p: array<Byte>)
    requires |s| >= 1
    ensures p.Length == |s| && p[..] == s
  {
    var str := MakeStr(s, key);
    p := str.Rexor();
    MaskInvolutive(s, key);
  }

  /**
   * Two calls of `xor_data()` on one value: two distinct buffers with equal contents, both
   * the plaintext, while the value still holds the masked bytes.
   */
  method XorDataTwice(s: seq<Byte>, key: Byte) returns (first: array<Byte>, second: array<Byte>, masked: seq<Byte>)
    requires |s| >= 1
    ensures first != second && first[..] == second[..] == s
    ensures masked == Mask(s, key)
  {
    var str := MakeStr(s, key);
    first := str.XorData();
    second := str.XorData();
    masked := str.data[..];
    MaskInvolutive(s, key);
  }

  /**
   * Two calls of `rexor()` on one value: the first gives the plaintext, the second
   * returns the same buffer to the masked bytes rather than decoding again.
   */
  method RexorTwice(s: seq<Byte>, key: Byte) returns (p: array<Byte>, plain: seq<Byte>, q: array<Byte>)
    requires |s| >= 1
    ensures plain == s
    ensures q == p && p[..] == Mask(s, key)
  {
    var str := MakeStr(s, key);
    p := str.Rexor();
    plain := p[..];
    MaskInvolutive(s, key);
    q := str.Rexor();
  }

  /** `"abc"` under key 0x2A: masked to 4B 48 49 2A, and `XORLIT` gives back 61 62 63 00. */
  method AbcScenario() returns (masked: seq<Byte>, plain: seq<Byte>)
    ensures masked == [0x4B, 0x48, 0x49, 0x2A]
    ensures plain == [0x61, 0x62, 0x63, 0x00]
  {
    var str := MakeStr([0x61, 0x62, 0x63, 0x00], 0x2A);
    masked := str.data[..];
    MaskAbcExample();
    var p := str.Rexor();
    plain := p[..];
    MaskInvolutive([0x61, 0x62, 0x63, 0x00], 0x2A);
  }
}
