# USB keyboard to I2C relay: report decoder and last-key slot

The firmware runs on a Raspberry Pi Pico. It acts as a USB host for a boot-protocol
keyboard and as an I2C slave for another microcontroller. This project models
the part of `main.c` that has a contract:

- **Decoder** (module `KeyDecoder`, `decoder.dfy`). The USB stack hands the report callback an
  8-byte boot-keyboard input report (Appendix B.1 of the USB HID Device Class
  Definition 1.11). Byte 0 is the modifier mask and bytes 2..7 are usage codes of
  the Keyboard/Keypad page. The callback scans the six slots in ascending order
  and stops at the first non-zero code. It maps that code through a fixed
  US-layout switch to a short text: one character for letters, digits and
  punctuation (shifted or not), or a key name such as `Enter`, `F5` or `Up Arrow`.
  A code with no case becomes `Unknown (0x%02x)`. `Table` reproduces the switch
  case for case, grouped by key block. `KeyText` renders one code and `Decode`
  renders one report.
- **Relay slot** (module `I2cRelay`, `relay.dfy`). `i2c_tx_buf[32]` is a class
  `RelaySlot` with a 32-byte array. `OnReport` runs the callback's loop, with its
  `continue`/`break`, and copies the token in with strncpy semantics. It then
  forces the last byte to NUL. `OnRequest` is the `I2C_SLAVE_REQUEST` case: it
  measures the buffer with a strlen loop and returns the bytes it would write.
  It does not clear the buffer. The pure functions `StrLen`, `Strncpy`, `Stored`
  and `AfterReport` describe the buffer images, and the methods are proved
  against them.

The C never checks `len`; `Decode` and `OnReport` require at least 8 bytes,
which is what the code reads.
The two table quirks are kept as written: 0x32 gives `#`/`~`, 0x35 gives
`` ` ``/`~`, and 0x46..0x4E have no entry.

## Model

| member | source | states |
|---|---|---|
| `KeyDecoder.LetterEntry` | main.c:85-110 | codes 0x04..0x1D map to a character pair of distinct printable characters |
| `KeyDecoder.DigitEntry` | main.c:111-120 | codes 0x1E..0x27 map to a character pair of distinct printable characters |
| `KeyDecoder.ControlEntry` | main.c:121-125 | Enter, Esc, Backspace, Tab and Space are named keys with printable names of 2..11 characters |
| `KeyDecoder.PunctuationEntry` | main.c:126-137 | codes 0x2D..0x38 map to a character pair of distinct printable characters |
| `KeyDecoder.FunctionKeyEntry` | main.c:138-150 | Caps Lock and F1..F12 are named keys with printable names |
| `KeyDecoder.ArrowEntry` | main.c:151-154 | the four arrow keys are named keys with printable names |
| `KeyDecoder.Table` | main.c:84-156 | a code has an entry exactly when it lies in 0x04..0x45 or 0x4F..0x52; character pairs differ under shift; names are printable and at most 11 characters long |
| `KeyDecoder.KeyText` | main.c:79-155 | every code yields a non-empty printable token of at most 15 characters, so it fits `key_text[16]` and snprintf never truncates |
| `KeyDecoder.HexDigit` | main.c:155 | each value below 16 is written as one lower-case hex digit that reads back as that value |
| `KeyDecoder.Hex2` | main.c:155 | `%02x` writes a byte as exactly two lower-case hex digits, zero-padded, that read back as the byte |
| `KeyDecoder.Shift` | main.c:83 | the mask test `modifiers & 0x22` holds exactly when modifier bit 1 (Left Shift) or bit 5 (Right Shift) is set |
| `KeyDecoder.Scan` | main.c:81-84 | a token found from slot i comes from a slot before 8 and is a printable text of 1..15 characters |
| `KeyDecoder.Decode` | main.c:79-84 | a report yields no token if and only if all six key bytes are zero; any token is printable and 1..15 characters long |
| `KeyDecoder.LetterKeys` | main.c:85-110 | code c in 0x04..0x1D gives the letter 'a'+(c-0x04) unshifted and 'A'+(c-0x04) shifted |
| `KeyDecoder.DigitKeys` | main.c:111-120 | code c in 0x1E..0x27 gives "1234567890"[c-0x1E] unshifted and "!@#$%^&*()"[c-0x1E] shifted |
| `KeyDecoder.ShiftMattersOnlyForPrintable` | main.c:84-155 | shift changes the text of a code if and only if the code has a character pair |
| `KeyDecoder.NamedKeys` | main.c:121-125 | Enter, Esc, Backspace, Tab, Space, Caps Lock, F1..F12 and the arrows are named keys whose text ignores shift |
| `KeyDecoder.TableQuirks` | main.c:131-134 | 0x32 gives '#'/'~' and 0x35 gives '`'/'~'; codes 0x46..0x4E have no entry |
| `KeyDecoder.UnknownNamesCode` | main.c:155 | a code without an entry renders as "Unknown (0x" + two lower-case, zero-padded hex digits + ")", and the digits read back as the code |
| `KeyDecoder.UnknownTokensDistinct` | main.c:155 | two codes without an entry that render the same text are the same code |
| `KeyDecoder.ScanNone` | main.c:81-82 | scanning from slot i finds nothing exactly when every slot from i to 7 is zero |
| `KeyDecoder.ScanFirst` | main.c:81-84 | scanning from slot i renders the first non-zero slot at or after i |
| `KeyDecoder.DecodeFirstKey` | main.c:81-84 | the token is the text of the lowest-index non-zero key byte, under the report's shift state |
| `KeyDecoder.DecodeHasSlot` | main.c:81-160 | every token comes from a non-zero slot with only zero slots before it |
| `KeyDecoder.LaterSlotsIgnored` | main.c:157-160 | slots after the first non-zero one do not affect the token |
| `KeyDecoder.OnlyShiftBitsMatter` | main.c:83 | reports that agree on the key slots and on modifier bits 1 and 5 decode alike, so no other modifier bit matters |
| `I2cRelay.StrLen` | main.c:41 | the length counts the bytes before the first NUL: all of them are non-zero and the next byte, if any, is NUL |
| `I2cRelay.CString` | main.c:41-43 | the bytes a request sends are a prefix of the buffer, contain no NUL, and end at the first NUL |
| `I2cRelay.CStringOfTerminated` | main.c:41 | a NUL-free text followed by a NUL reads back as exactly that text |
| `I2cRelay.StrncpyReadsBack` | main.c:158 | a NUL-free text copied by strncpy with room to spare reads back as itself; a longer one reads back cut to the buffer size |
| `I2cRelay.Stored` | main.c:158-159 | the stored buffer is NUL-terminated and reads back as the token, or as its first 31 bytes if it were too long |
| `I2cRelay.StoredIsPadded` | main.c:158 | a stored token is its bytes followed by zeros, so nothing of the previous contents survives |
| `I2cRelay.AfterReport` | main.c:157-162 | a report with a token leaves a NUL-terminated buffer that reads back as that token; a report without one leaves the buffer unchanged |
| `I2cRelay.ReportKeepsTerminated` | main.c:157-162 | after any report, the last byte of the buffer is still NUL |
| `I2cRelay.LatestTokenWins` | main.c:157-160 | a later token fully replaces an earlier one, and the earlier one can no longer be read |
| `I2cRelay.EmptyReportKeepsBuffer` | main.c:79-82 | a report whose six key bytes are zero leaves the buffer unchanged |
| `I2cRelay.RelaySlot.constructor` | main.c:16 | the buffer starts all zero, so a read sends nothing |
| `I2cRelay.RelaySlot.OnReport` | main.c:74-165 | the buffer afterwards is `AfterReport` of the old buffer: the padded token if one was found, the old bytes otherwise; it stays NUL-terminated, and a read then sends the new token, or the old text if there was none |
| `I2cRelay.RelaySlot.OnRequest` | main.c:39-46 | sends the bytes before the first NUL, none of them zero and fewer than 32, and changes nothing |
| `I2cRelay.CopyPadded` | main.c:158 | the buffer becomes the strncpy image of the token's bytes |
| `I2cRelay.RequestTwice` | main.c:39-46 | two read requests with no report between them send the same bytes |

## Left out

- USB host bring-up and the other USB callbacks (`usb_host_init`, `usb_host_task`, `tuh_mount_cb`, `tuh_umount_cb`) and the re-arm call `tuh_hid_receive_report`: these are calls into the TinyUSB stack.
- I2C and GPIO set-up (`i2c_init`, pin muxing, `i2c_slave_init`) and the driver transfer `i2c_write_raw_blocking`: `OnRequest` returns the bytes it would write instead of writing them.
- The `I2C_SLAVE_RECEIVE` and `I2C_SLAVE_FINISH` cases: received bytes are never used by the relay. Note that `i2c_rx_len` is never updated and the read count is not bounded by the 32-byte receive buffer.
- The LED blink, `sleep_ms` and the `printf` diagnostics, including the print of `key_text`: these are timing and console output only.
- Concurrency: the request handler runs in interrupt context and the report callback in the main loop, with no lock around the buffer. The model treats each call as atomic, so it does not capture a read that sees a half-written token.
- Decode: a report shorter than 8 bytes is excluded by a precondition, because the code reads bytes 0..7 without checking `len`.
- KeyText: snprintf's truncation to 15 characters is not modelled. The contract proves that no token is longer than 15 characters, so truncation never happens.
