# xorlit, modelled in Dafny

xorlit masks C++ string literals with one XOR key byte, so that the literal's plaintext
does not appear in the binary's static data. The header `include/xorlit.hpp` derives a
default key from the build time, encodes a literal byte by byte through a recursive
template, stores the masked bytes and the key in a small `string<Size>` object, and
decodes it either in place (`rexor`) or into a new buffer (`xor_data`). The `XORLIT`
macro builds the object and decodes it in place in one expression.

The model has three modules, one per part of the header:

- `Encoder` (`encoder.dfy`): the byte type (`char` as `bv8`; XOR gives the same bits
  whether `char` is signed or not), the specification function `Mask` (byte `i` is
  `s[i] ^ key`), its algebraic properties, and `XorStr`, the recursive `xor_str<I>` as a
  recursive method that writes one index of a caller's array per call.
- `KeyDerivation` (`key_derivation.dfy`): `Seed` (`xorlit::seed`), `DefaultKey`
  (`static_cast<char>(seed)`), the optional static assertion `SeedAssertPasses`, and the
  bit-packing facts about them. The build time string `__TIME__` is a parameter.
- `MaskedString` (`masked_string.dfy`): the class `XorString` for `string<Size>`, with a
  `const` key, a `const` reference to the `array<bv8>` buffer `m_data` and the `const`
  `size`; its constructor, `Rexor`, `XorData`, `Data` and `Key`; `MakeStr` and
  `MakeStrDefaultKey` for `make_str` with and without a key; `Xorlit` for the macro; and
  three client methods stating what repeated decodes and the `"abc"` example give.

The literal passed to the constructor is a value (`seq<bv8>`, including the terminator):
it is a reference to a `const` array that the code only reads. The plaintext is not a
field of the object (the C++ object does not store it); the constructor's postcondition
ties the buffer to it, `data[..] == Mask(s, key)`, and `Mask` being its own inverse
(`MaskInvolutive`) gives every round trip.

## Model

| member | source | states |
|---|---|---|
| Encoder.Mask | include/xorlit.hpp:53 | the masked image of a literal has the literal's length (byte `i` of it, `s[i] ^ key`, is the specification the encoder and both decoders are proved against) |
| Encoder.MaskInvolutive | include/xorlit.hpp:87-93 | masking the masked bytes again with the same key gives the literal back (the decode of both decoders) |
| Encoder.MaskInjective | include/xorlit.hpp:76-80 | two literals with the same masked bytes under one key are the same literal, so the masked buffer determines the plaintext |
| Encoder.MaskKeepsByteIff | include/xorlit.hpp:51-65 | a masked byte equals its plaintext byte if and only if the key is zero |
| Encoder.MaskZeroKey | include/xorlit.hpp:41 | with key 0 the masked buffer is the plaintext byte for byte, the no-op the assertion message warns about |
| Encoder.MaskIsIdentityIff | include/xorlit.hpp:41 | for a literal of at least one byte, masking leaves it unchanged exactly when the key is zero |
| Encoder.MaskAbcExample | include/xorlit.hpp:51-65 | `"abc"` with terminator masks to 4B 48 49 2A under key 0x2A and to itself under key 0 |
| Encoder.XorStr | include/xorlit.hpp:45-65 | after `xor_str<i>`, `d[j] == s[j] ^ key` for every `j` in `[0, i]` and every index above `i` keeps its old value; the case `i == 0` writes `d[0]` only |
| KeyDerivation.Seed | include/xorlit.hpp:32-38 | with digits in the six positions read, the seed is below 2^24 |
| KeyDerivation.DefaultKey | include/xorlit.hpp:174 | with digits in the positions read, the default key is zero exactly when both hour digits are `'0'` |
| KeyDerivation.Nibble | include/xorlit.hpp:33-38 | for a digit character, `static_cast<std::uint_least32_t>(c - '0')` is the digit's value `c - 0x30` |
| KeyDerivation.NibbleOfDigit | include/xorlit.hpp:33-38 | `c - '0'` taken to 32 bits is below 10 exactly for the digits, and zero exactly for `'0'` |
| KeyDerivation.SeedPacking | include/xorlit.hpp:32-38 | with six digits, the 4-bit slots do not overlap: the OR equals `d0 + 16*d1 + 256*d3 + 4096*d4 + 65536*d6 + 1048576*d7`, each slot reads back its digit, and the seed is below 2^24 |
| KeyDerivation.DefaultKeyIsHour | include/xorlit.hpp:32-34 | the low byte of the seed is `d0` OR `d1 << 4` (that is `d0 + 16*d1`), the two hour digits only |
| KeyDerivation.SeedAssertFailsIff | include/xorlit.hpp:39-43 | the build-time check `static_cast<char>(seed) != 0` fails exactly when the build hour is `00` |
| KeyDerivation.SeedAssertPasses | include/xorlit.hpp:41 | the build-time check holds exactly when the default key is not zero, and, for a digit time, exactly when the hour is not `00` |
| KeyDerivation.SeedExamples | include/xorlit.hpp:32-41 | `12:34:56` packs to 0x654321 with key 0x21; `00:59:59` fails the build-time check |
| MaskedString.XorString.constructor | include/xorlit.hpp:76-80 | the new object has the given key, `Size` equal to the literal's length, a fresh buffer, and `m_data[i] == s[i] ^ key` for every `i` |
| MaskedString.XorString.Rexor | include/xorlit.hpp:87-93 | every byte of `m_data` becomes its old value XOR `m_key`; the returned pointer is `m_data`; the key is unchanged |
| MaskedString.XorString.XorData | include/xorlit.hpp:102-109 | returns a fresh array of `Size` bytes holding `m_data[i] ^ m_key`; `m_data` and `m_key` are unchanged |
| MaskedString.XorString.Data | include/xorlit.hpp:119-140 | returns the stored buffer itself and changes nothing |
| MaskedString.XorString.Key | include/xorlit.hpp:150-156 | returns the construction key and changes nothing |
| MaskedString.MakeStr | include/xorlit.hpp:165-177 | returns a fresh object whose buffer is the literal masked with the given key |
| MaskedString.MakeStrDefaultKey | include/xorlit.hpp:174 | without a key, the key is the low byte of the build-time seed |
| MaskedString.Xorlit | include/xorlit.hpp:180 | `make_str(s, key).rexor()` yields a buffer equal to the literal, for every key |
| MaskedString.XorDataTwice | include/xorlit.hpp:102-109 | two `xor_data()` calls give two distinct buffers, both equal to the literal, and the object still holds the masked bytes |
| MaskedString.RexorTwice | include/xorlit.hpp:87-93 | the first `rexor()` yields the literal; the second returns the buffer to the masked bytes; both calls return the same pointer, `m_data` |
| MaskedString.AbcScenario | include/xorlit.hpp:76-93 | `"abc"` under key 0x2A is stored as 4B 48 49 2A and `rexor()` gives back 61 62 63 00 |

## Left out

- Compile-time evaluation, forced inlining and the absence of the plaintext from the binary: these are properties of the compiler's constant folding, not of the bytes computed.
- The preprocessor feature tests (`__cpp_static_assert`, `__cpp_attributes`, `__cpp_noexcept_function_type`, `_MSC_VER`) and `[[nodiscard]]`/`noexcept`: they change no value.
- Where `__TIME__` comes from: the build time string is a parameter of `Seed`, `DefaultKey` and `MakeStrDefaultKey`.
- KeyDerivation.Nibble: reads a time character as an unsigned byte; for characters above 0x7F a signed `char` would give a different `c - '0'`. `__TIME__` holds only digits and colons, so the two readings agree on every input the compiler supplies.
- KeyDerivation.Seed: `std::uint_least32_t` is taken as exactly 32 bits; a wider type would only matter for non-digit characters, whose negative differences would wrap to a wider value.
- KeyDerivation.SeedPacking: states the packing as an identity between 32-bit values rather than between unbounded integers; since the value is below 2^24 nothing wraps, so the two readings coincide.
- MaskedString.XorString.XorData: allocation failure is not modelled; `new char[Size]` can throw `std::bad_alloc`, and the model assumes the allocation succeeds.
- Release of the buffer returned by `xor_data()` (allocated with `new char[Size]`): ownership and leaks are the host language's matter; only its freshness and contents are modelled.
- Lifetime of the object behind `XORLIT`: in C++ the `make_str` result is a temporary, so the pointer `rexor()` returns is valid only until the end of the full expression. Dafny's heap has no such end, so `Xorlit` does not capture it.
- Concurrent `rexor()` calls on one object: a data race in the source, with no sequential meaning.
- The non-`const` overload of `data()` lets callers write through the pointer; the model returns the same array, and writes through it are the caller's.
