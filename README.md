# MAX7219 driver, modelled in Dafny

This project models the MAX7219 7-segment display driver, `src/lib.rs`.
The driver talks to the chip over SPI. Every operation is a fixed sequence
of two-byte `[register address, data]` writes, and the first failing write
ends it. The model covers four parts:

- **Registers** (`registers.dfy`): the `Register` and `DecodeMode` enums, with
  the byte each one stands for.
- **Segments** (`segments.dfy`): `ssb_byte`, the ASCII-to-segment lookup
  table. It has a fallback glyph for unknown bytes and ORs in the decimal
  point.
- **Formatting** (`numerals.dfy`, `format.dfy`, `bytes.dfy`):
  - `base_10_bytes` writes a signed decimal, or `Err` when the number does
    not fit;
  - `hex_bytes` writes unsigned lower-case hex;
  - `pad_left` right-justifies text into eight positions.

  These are modelled as methods over arrays that keep the loops of
  `base_10_bytes`/`hex_bytes` and the in-place slice reversal. They are proved against the functions
  `Decimal`, `Hexadecimal` and `Padded`. Those functions are in turn specified
  by `Numeral`/`Value`, a positional-numeral theory with round trips in both
  directions.
- **Driver** (`bus.dfy`, `driver.dfy`):
  - `Spi` is the SPI device. It keeps a `trace` of every frame written, the
    failing one included. A fixed `faults` map says which write numbers fail
    and with what error.
  - `Max7219` holds the device, and each of its methods issues its writes
    through it.
  - Each operation is specified by the list of frames it sends, through
    `Performs(faults, before, frames, after, r)`:
    - the trace grows by the prefix of `frames` up to and including the
      first failing write (`Issued`);
    - the result is that write's error, or `Pass` (`Result`).

  The digit loops in `base_10_bytes` and `hex_bytes` are written as separate
  methods (`DecimalDigitsBackwards`, `HexDigitsBackwards`), which the
  formatter methods call.

## Model

| member | source | states |
|---|---|---|
| Registers.Address | src/lib.rs:17-39 | register addresses are 0x00..0x0C or 0x0F; `Noop` is exactly address 0; the digit registers are exactly addresses 1..8 |
| Registers.DigitRegister | src/lib.rs:20-27 | digit register k is a digit register at address k + 1 |
| Registers.AddressInjective | src/lib.rs:18-33 | distinct registers have distinct addresses |
| Registers.Code | src/lib.rs:43-49 | each decode mode has its code: 0x00, 0x01, 0x0F or 0xFF, each code belonging to exactly one mode |
| Segments.Glyph | src/lib.rs:200-241 | the table shows the fallback `?` pattern exactly for characters it has no entry for; bit 7 of a pattern is set exactly for `.` and for the fallback |
| Segments.SsbByte | src/lib.rs:199-249 | bit 7 is set exactly when `dot` is set, the byte is `.`, or the byte is unsupported; the dot never changes the seven segment bits; with `dot` the result is the table pattern OR 0x80 |
| Segments.DotIsBit7 | src/lib.rs:244-248 | `ssb_byte(b, true) == ssb_byte(b, false) \| 0x80` for every byte |
| Segments.FallbackExactlyUnsupported | src/lib.rs:241 | a byte gets 0b1110_0101 exactly when the table has no entry for it |
| Segments.UnrenderableLetters | src/lib.rs:216-241 | `K`, `Z`, `@` and the upper-case `B`, `D`, `Q` all give the fallback pattern |
| Segments.SharedPatterns | src/lib.rs:205-240 | `1`/`i`/`I` share one pattern, as do `0`/`o`/`O` and `5`/`s`/`S` |
| Segments.CaseInsensitiveExceptBdq | src/lib.rs:214-240 | every letter except b, d and q renders the same in both cases |
| Segments.LegibleIsDotless | src/lib.rs:200-241 | a supported byte other than `.`, written without a dot, has bit 7 clear and is not the fallback |
| Numerals.NumeralRoundTrip | src/lib.rs:265-277 | the digits written for m are canonical (no leading zero) and read back as m |
| Numerals.ValueRoundTrip | src/lib.rs:265-277 | a canonical numeral is the written form of its own value, so writing and reading are inverse bijections |
| Numerals.NumeralLength | src/lib.rs:257-260 | the numeral of m has at most k digits exactly when m < base^k |
| Format.DecimalLength | src/lib.rs:252-278 | every `base_10_bytes` text is 1 to 8 bytes long |
| Format.HexadecimalLength | src/lib.rs:281-313 | every `hex_bytes` text is 1 to 8 bytes long |
| Format.DecimalSpec | src/lib.rs:252-278 | `0` for zero; `Err` exactly outside [-9_999_999, 99_999_999]; otherwise at most 8 bytes, with a leading `-` exactly for negative n, then canonical decimal digits whose value is \|n\| |
| Format.HexadecimalSpec | src/lib.rs:281-313 | `0` for zero, never `Err`, 1 to 8 canonical lower-case hex digits whose base-16 value is n |
| Format.DecimalExamples | src/lib.rs:252-278 | -1234 gives `-1234`, -9_999_999 gives `-9999999`, and 100_000_000 and -10_000_000 give `Err` |
| Format.DecimalMaxExample | src/lib.rs:258 | 99_999_999 fills all eight positions with `9` |
| Format.HexadecimalExamples | src/lib.rs:281-313 | 0xFFFF_FFFF gives `ffffffff` and 0x100 gives `100` |
| Format.HexDigit | src/lib.rs:287-306 | values 0..15 map to their digit symbols, never to `?`; only values of 16 or more reach the `?` arm |
| Format.DecimalDigitsBackwards | src/lib.rs:265-270 | the loop writes the decimal digits of k least-significant first, so the written prefix reversed is the numeral of k; the rest of the buffer is untouched |
| Format.HexDigitsBackwards | src/lib.rs:285-309 | the same for the hex digits of k |
| Format.Base10Bytes | src/lib.rs:252-278 | the returned text equals `Decimal(n)`; for formatted numbers it is the first bytes of the buffer and the rest is untouched; for 0 and out-of-range values the buffer is untouched |
| Format.HexBytes | src/lib.rs:281-313 | the returned text equals `Hexadecimal(n)`, placed in the buffer the same way |
| Format.ReverseSlice | src/lib.rs:275-276 | the first `len` elements are reversed in place and the rest are unchanged |
| Format.PadLeft | src/lib.rs:316-327 | exactly 8 bytes: the first 8 - \|v\| are spaces and the rest are v in order |
| Bus.Issued | src/lib.rs:131-137 | the frames that reach the bus are a prefix of those sent, nonempty unless nothing was sent |
| Bus.PassExactlyWithoutFault | src/lib.rs:131-137 | an operation returns Ok exactly when none of its writes fails, and then every frame was sent |
| Bus.FailsAtFirstFault | src/lib.rs:131-137 | when write k is the first to fail, frames 0..k were sent and that write's error is returned |
| Bus.Sequence | src/lib.rs:184-193 | running `a` then `b` with `?` is running `a + b`: if `a` fails, `b` is never sent |
| Bus.Advance | src/lib.rs:184-191 | after each `?` step of a sequence, either the whole operation has failed with that step's error, or the rest remains to send |
| Bus.AdvanceSlice | src/lib.rs:184-191 | a `?` step that sends frames j .. j + len of an operation either fails the whole operation with its error or leaves frames j + len .. to send |
| Bus.Spi.Write | src/lib.rs:64 | one write appends its frame to the trace and fails exactly when its write number is in `faults` |
| Driver.StrFrames | src/lib.rs:131-135 | position i of the string goes to digit register 7 - i, with data `ssb_byte(s[i], dots & (1 << i) != 0)` |
| Driver.RawFrames | src/lib.rs:158-160 | byte n goes to digit register n, in ascending order |
| Driver.StrMirrorsRaw | src/lib.rs:126-162 | `write_str` sends what `write_raw` would send for the reversed segment bytes, in reverse order |
| Driver.ClearFrames | src/lib.rs:78-80 | clearing writes 0 to addresses 1..8, in ascending order |
| Driver.IntegerFramesPlain | src/lib.rs:141-146 | `write_integer` never lights a decimal point and never shows the fallback glyph |
| Driver.HexFramesPlain | src/lib.rs:149-154 | `write_hex` never lights a decimal point and never shows the fallback glyph |
| Driver.InitOnTheWire | src/lib.rs:184-193 | the frames of `init` are (0x0F,0x00), (0x0B,0x07), (0x09,0x00), (1,0) .. (8,0), (0x0C,0x00), (0x0C,0x01) |
| Driver.InitPieces | src/lib.rs:184-193 | the six steps of `init` send consecutive pieces of its 13 frames: test off, scan limit, decode mode, the eight clears, power off, power on |
| Driver.Max7219.constructor | src/lib.rs:174-176 | `new` only wraps the device |
| Driver.Max7219.WriteReg | src/lib.rs:63-65 | one frame `[address, data]` is written and its result returned |
| Driver.Max7219.PowerOn | src/lib.rs:68-70 | writes (0x0C, 0x01) |
| Driver.Max7219.PowerOff | src/lib.rs:73-75 | writes (0x0C, 0x00) |
| Driver.Max7219.ClearDisplay | src/lib.rs:78-80 | performs the clear frames, stopping at the first failure |
| Driver.Max7219.SetIntensity | src/lib.rs:83-85 | writes the level, unchecked, to 0x0A |
| Driver.Max7219.SetDecodeMode | src/lib.rs:90-92 | writes the mode's code to 0x09 |
| Driver.Max7219.WriteDigitBytes | src/lib.rs:116-118 | writes the value to address digit + 1 |
| Driver.Max7219.WriteStr | src/lib.rs:126-138 | performs `StrFrames(s, dots)`: eight writes, Digit7 down to Digit0, and a failing write k leaves exactly writes 0..k on the bus and returns its error |
| Driver.Max7219.WriteInteger | src/lib.rs:141-146 | performs `write_str(pad_left(base_10_bytes(value)), 0)` |
| Driver.Max7219.WriteHex | src/lib.rs:149-154 | performs `write_str(pad_left(hex_bytes(value)), 0)` |
| Driver.Max7219.WriteRaw | src/lib.rs:157-162 | performs `RawFrames(raw)`, stopping at the first failure |
| Driver.Max7219.SetTest | src/lib.rs:165-168 | writes 1 or 0 to 0x0F |
| Driver.Max7219.SetScanLimit | src/lib.rs:179-181 | writes limit - 1 to 0x0B |
| Driver.Max7219.Init | src/lib.rs:184-193 | performs `InitFrames()` in order, stopping at the first failing step with its error |

## Left out

- The `embedded_hal_async::spi::SpiDevice` transport is left out, and so is
  its error type. The bus is the `Spi` class: a trace plus a fixed map from
  write number to error. The map stands for whatever the device reports,
  decided in advance.
- `async`/`.await` is left out, along with any concurrency or cancellation.
  Every write is one synchronous step.
- Driver.Max7219.SetScanLimit: requires `limit >= 1`. At 0, `limit - 1` overflows a `u8`: a debug build panics, and a release build would write 0xFF.
- Driver.Max7219.WriteDigitBytes: requires `digit < 0xFF`, because `digit + 1` overflows a `u8` otherwise.
- Format.PadLeft: requires `|v| <= 8`, in place of the `assert!` that panics.
- Format.Base10Bytes and Format.HexBytes require a buffer large enough for the text. A shorter buffer would panic on an out-of-bounds index. The driver always passes eight bytes, and every text fits in eight.
- The `From<Register> for u8` conversion and `register.into()` are `Registers.Address` applied at the call site.
- `lib.rs` has no BCD encoder and no decode-mode save/restore around writes, so the model has neither.

Three behaviours of `lib.rs` worth knowing:

- `b`, `d` and `q` have only lower-case entries, so `B`, `D` and `Q` show the
  fallback.
- `init` ends with power off followed by power on.
- `.` already lights bit 7 without a dot. The fallback pattern 0b1110_0101
  also has bit 7 set, so bit 7 is not "dot requested" alone.
