/**
 * Build-time key derivation: six digits of the compiler's `hh:mm:ss` time string are
 * packed into 4-bit slots of a 32-bit seed, whose low byte is the default key.
 */
module KeyDerivation {
  import opened Encoder

  /** `std::uint_least32_t`, taken as exactly 32 bits. */
  type U32 = bv32

  /** The character `'0'`. */
  const DigitZero: Byte := 0x30

  predicate IsDigit(c: Byte)
  {
    DigitZero <= c <= 0x39
  }

  /**
   * `static_cast<std::uint_least32_t>(c - '0')`: the difference reduced modulo 2^32,
   * reading `c` as an unsigned character.
   */
  function Nibble(c: Byte): (r: U32)
    ensures IsDigit(c) ==> r as int == c as int - DigitZero as int
  {
    (c as U32) - (DigitZero as U32)
  }

  /** Every position of `__TIME__` that the seed reads (0, 1, 3, 4, 6, 7 of `hh:mm:ss`) holds a digit. */
  predicate IsDigitTime(time: seq<Byte>)
  {
    |time| >= 8 &&
    IsDigit(time[0]) && IsDigit(time[1]) &&
    IsDigit(time[3]) && IsDigit(time[4]) &&
    IsDigit(time[6]) && IsDigit(time[7])
  }

  /** `xorlit::seed`: characters 0, 1, 3, 4, 6 and 7 of the time string, shifted by 0, 4, ..., 20 bits and OR-ed. */
  function Seed(time: seq<Byte>): (r: U32)
    requires |time| >= 8
    ensures IsDigitTime(time) ==> r < 0x100_0000
  {
    Nibble(time[0]) |
    (Nibble(time[1]) << 4) |
    (Nibble(time[3]) << 8) |
    (Nibble(time[4]) << 12) |
    (Nibble(time[6]) << 16) |
    (Nibble(time[7]) << 20)
  }

  /** `static_cast<char>(seed)`: the low byte of the seed, the key `make_str` uses when none is given. */
  function DefaultKey(time: seq<Byte>): (k: Byte)
    requires |time| >= 8
    ensures IsDigitTime(time) ==> (k == 0 <==> time[0] == DigitZero && time[1] == DigitZero)
  {
    (Seed(time) & 0xFF) as Byte
  }

  /** The optional build-time check `static_cast<char>(seed) != 0`. */
  function SeedAssertPasses(time: seq<Byte>): (ok: bool)
    requires |time| >= 8
    ensures ok <==> DefaultKey(time) != 0
    ensures IsDigitTime(time) ==> (ok <==> !(time[0] == DigitZero && time[1] == DigitZero))
  {
    DefaultKey(time) != 0
  }

  /** The nibble of a digit is its value; the digits give exactly the values 0 to 9. */
  lemma NibbleOfDigit(c: Byte)
    ensures IsDigit(c) <==> Nibble(c) < 10
    ensures Nibble(c) == 0 <==> c == DigitZero
  {
  }

  /**
   * With digits in every slot no two slots overlap: each 4-bit slot reads back its own
   * digit, the OR equals the weighted sum, and the seed fits in 24 bits.
   */
  lemma SeedPacking(time: seq<Byte>)
    requires IsDigitTime(time)
    ensures Seed(time) ==
      Nibble(time[0]) + 16 * Nibble(time[1]) +
      256 * Nibble(time[3]) + 4096 * Nibble(time[4]) +
      65536 * Nibble(time[6]) + 1048576 * Nibble(time[7])
    ensures Seed(time) < 0x100_0000
    ensures Seed(time) & 0xF == Nibble(time[0]) && (Seed(time) >> 4) & 0xF == Nibble(time[1])
    ensures (Seed(time) >> 8) & 0xF == Nibble(time[3]) && (Seed(time) >> 12) & 0xF == Nibble(time[4])
    ensures (Seed(time) >> 16) & 0xF == Nibble(time[6]) && (Seed(time) >> 20) & 0xF == Nibble(time[7])
  {
  }

  /** The default key is the two hour digits, `d0 | d1 << 4`, and no other digit reaches it. */
  lemma DefaultKeyIsHour(time: seq<Byte>)
    requires IsDigitTime(time)
    ensures DefaultKey(time) == (Nibble(time[0]) | (Nibble(time[1]) << 4)) as Byte
    ensures DefaultKey(time) == (Nibble(time[0]) + 16 * Nibble(time[1])) as Byte
  {
  }

  /**
   * The build-time check fails exactly when both hour digits are `'0'` (a build between
   * 00:00:00 and 00:59:59), the case in which the default key would leave literals unmasked.
   */
  lemma SeedAssertFailsIff(time: seq<Byte>)
    requires IsDigitTime(time)
    ensures !SeedAssertPasses(time) <==> time[0] == DigitZero && time[1] == DigitZero
  {
  }

  /** `"12:34:56"` packs to 0x654321 and keys with 0x21; `"00:59:59"` keys with zero. */
  lemma SeedExamples()
    ensures Seed([0x31, 0x32, 0x3A, 0x33, 0x34, 0x3A, 0x35, 0x36]) == 0x654321
    ensures DefaultKey([0x31, 0x32, 0x3A, 0x33, 0x34, 0x3A, 0x35, 0x36]) == 0x21
    ensures !SeedAssertPasses([0x30, 0x30, 0x3A, 0x35, 0x39, 0x3A, 0x35, 0x39])
  {
  }
}
