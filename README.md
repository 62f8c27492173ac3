# Telegram field decoders of the ZX ruler results interpreter

The interpreter reads the hex-encoded responses a ZX laser module returns to
its serial commands. It turns each response ("telegram") into one text column
of a results table. This project models the field decoders in
`zx_ruler_results_interpreter.py`: the two's-complement helper and the
nineteen `convert_*`, `get_*` and `interpret_*` functions. Each decoder does
three things:

- checks a telegram. In eleven decoders a NUL character gives "Wrong Hex
  value", and otherwise 6 characters or fewer give "CRC Error"
  (`GateOrder`). The other eight differ:
  - `convert_current_dac_adc`, `convert_cal_laser` and `convert_current_adc`
    give "CRC Error" for a NUL too (`NulReadsAsCrcError`).
  - `convert_power_out_abs`, `convert_ld_lifetime`,
    `convert_module_total_ontime` and `convert_comp_ref` have only the
    length test (`NoNulTest`).
  - `convert_status_byte` has no length test and looks for a NUL only in
    its first two characters (`StatusByteCases`);
- slices fixed character positions out of it;
- parses them with `int(_, 16)` and formats the result, or raises
  `ValueError` or `TypeError` the way Python does.

Modules:

- `PyBuiltins` (python_builtins.dfy): the Python run-time the decoders use,
  on exact integers and strings. This covers `int(_, 16)`, `str()` of a
  non-negative int, clamped slicing, `str.count`, `str.join` (which raises
  `TypeError` on a `None` item), `bin()` and `round(x / 100)` with ties to
  even. Results are `Result<T> = Ok(value) | Raise(error)`, and `:-`
  propagates an exception exactly as Python does.
- `BitFlags` (bit_flags.dfy): the label lists built from `bin()`.
  - `SetBits` states them on integers.
  - `LabelsBySlicing` and `LabelsByPopping` are the two loops as the
    source writes them: build a list of characters, drop "0b" by slicing or
    by popping after the reversal, reverse, walk with `enumerate`. Each is
    proved equal to that statement.
- `TwosComplement` (twos_complement.dfy): `twos_complement_hex_to_signed_int`.
- `Telegram` (telegram.dfy): the label tables, the shared gate and every
  decoder as a function, in source order.
- `FlagDecoders` (flag_decoders.dfy): the three bit-flag decoders as
  methods built on the loops, each proved equal to its function.
- `TelegramProperties` (telegram_properties.dfy): what the decoders promise,
  for all inputs. This covers the gate order and its quirks, the meaning of
  the flag texts, the lookups and their failures, and the field offsets.

Several decoders print a float: the temperatures, DAC and ADC currents,
NTC voltage and comparator reference. For these the model returns
`Fields(raw)`, the integer the float is computed from, instead of the text.

## Model

| member | source | states |
|---|---|---|
| PyBuiltins.ParseHex | zx_ruler_results_interpreter.py:17 | int(s, 16) succeeds exactly when s is a non-empty run of hex digits (empty slice, NUL or other characters raise ValueError); the value is below 16^len(s) |
| PyBuiltins.HexRoundTrip | zx_ruler_results_interpreter.py:17 | parsing the zero-padded hex encoding of v gives back v |
| PyBuiltins.SliceCases | zx_ruler_results_interpreter.py:130 | Python slicing: empty when the start is past the end or the range is reversed, s[lo..hi] inside the string, s[lo..] when only the end overshoots |
| PyBuiltins.SliceTiles | zx_ruler_results_interpreter.py:130-166 | adjacent slices such as 4:12 and 12:20 join to the slice 4:20, so the fields tile the telegram |
| PyBuiltins.CountAllZeros | zx_ruler_results_interpreter.py:133 | field.count('0') == len(field) exactly when every character is '0' (true of the empty field) |
| PyBuiltins.HexZero | zx_ruler_results_interpreter.py:133-140 | a run of hex digits is all '0' exactly when its value is zero, so the "No Errors" test agrees with the value |
| PyBuiltins.StrRoundTrip | zx_ruler_results_interpreter.py:390 | str(n) prints digits that read back as n, with no leading zero |
| PyBuiltins.StrInjective | zx_ruler_results_interpreter.py:390 | distinct values print differently |
| PyBuiltins.RoundPercent | zx_ruler_results_interpreter.py:695-697 | round(x / 100) is within half of x / 100, and on a tie it is even |
| PyBuiltins.JoinTwo | zx_ruler_results_interpreter.py:755 | joining two items puts the separator between them |
| BitFlags.ReversedPermutes | zx_ruler_results_interpreter.py:154 | list.reverse() done twice gives the list back, and it keeps every element with its multiplicity |
| BitFlags.CharList | zx_ruler_results_interpreter.py:146-148 | the loop appending every character gives the string's characters in order |
| BitFlags.CollectLabels | zx_ruler_results_interpreter.py:157-159 | the enumerate loop collects dict.get(key) for exactly the positions holding '1', in order |
| BitFlags.LabelsBySlicing | zx_ruler_results_interpreter.py:143-159 | bin(), drop "0b", reverse, enumerate: the list is one lookup per set bit of n, lowest bit first |
| BitFlags.LabelsByPopping | zx_ruler_results_interpreter.py:438-455 | bin(), reverse, pop twice, enumerate: the same list as the slicing variant |
| BitFlags.LowBitFirstReversesDigits | zx_ruler_results_interpreter.py:143-154 | the low-bit-first digit string is the reversal of bin()'s digits |
| BitFlags.BinReversedIsLowBitFirst | zx_ruler_results_interpreter.py:151-154 | dropping "0b" and reversing, or reversing and popping the last two, both give the binary digits lowest first |
| BitFlags.OnesOfLowBitFirst | zx_ruler_results_interpreter.py:157-159 | the positions of '1' in the low-bit-first string are the set-bit positions of n |
| BitFlags.SetBitsFromMember | zx_ruler_results_interpreter.py:157-159 | a position is listed exactly when that bit of n is set |
| BitFlags.SetBitsCount | zx_ruler_results_interpreter.py:143-159 | the number of labels collected is the number of '1's in bin(n) |
| BitFlags.FlagEntriesMeaning | zx_ruler_results_interpreter.py:157-159 | position p's label is among the entries exactly when bit p is set; entries are in ascending bit order and each is dict.get of its position |
| BitFlags.FlagTextRaisesIff | zx_ruler_results_interpreter.py:159-161 | the join raises TypeError exactly when n has a bit beyond the table (n >= 2^len(table)), because dict.get returns None there |
| BitFlags.FlagTextLabels | zx_ruler_results_interpreter.py:157-161 | below 2^len(table) the text is the labels of the set bits, lowest first, joined by " \| " |
| BitFlags.HighBitSet | zx_ruler_results_interpreter.py:157-159 | n >= 2^m exactly when n has a set bit at m or above |
| TwosComplement.TopBit | zx_ruler_results_interpreter.py:21 | for v < 2^(k+1), the test v & (1 << k) holds exactly when v >= 2^k |
| TwosComplement.SignedValue | zx_ruler_results_interpreter.py:9-24 | a field below 2^bits gives v when the top bit is clear and v - 2^bits when it is set, so the result lies in [-2^(bits-1), 2^(bits-1)) |
| TwosComplement.UnsignedInverse | zx_ruler_results_interpreter.py:9-24 | adding 2^bits back to a negative result recovers the field value |
| TwosComplement.RoundTrip | zx_ruler_results_interpreter.py:9-24 | encoding a value in range as hex and converting back gives the value |
| TwosComplement.Examples | zx_ruler_results_interpreter.py:9-24 | at width 16, "8000" is -32768, "7FFF" is 32767, "0001" is 1 and "FFFF" is -1 |
| FlagDecoders.DecodeFlagField | zx_ruler_results_interpreter.py:130-161 | the error-field steps (zero test, int(), the bin() loop, join) compute the flag-field text |
| FlagDecoders.GetErrorsAndWarnings | zx_ruler_results_interpreter.py:57-203 | get_errors_and_warnings_from_status_response as written computes the gate, then the error text, then the warning text |
| FlagDecoders.ConvertStatusByte | zx_ruler_results_interpreter.py:396-462 | convert_status_byte as written (with the popping loop) computes the status-byte text |
| FlagDecoders.InterpretGetMode | zx_ruler_results_interpreter.py:465-524 | interpret_get_mode as written (with the popping loop) computes the mode text |
| TwosComplement.HexToSigned | zx_ruler_results_interpreter.py:9-24 | raises ValueError exactly when the field is empty or not hex, or the width is 0; otherwise the field value or the field value minus 2^bits (range: SignedValue) |
| Telegram.Validate | zx_ruler_results_interpreter.py:37-42 | a telegram passes exactly when it has no NUL and more than 6 characters; then fields 2:4 and 2:6 have full width and 6:8 and 6:10 are non-empty |
| Telegram.FlagField | zx_ruler_results_interpreter.py:130-161 | an all-'0' field (the empty one included) gives the "none" text; ValueError exactly when the field has another character and is not hex (labels: TelegramProperties.FlagFieldText) |
| Telegram.LdTempInDeg | zx_ruler_results_interpreter.py:27-54 | NUL gives "Wrong Hex value", a short telegram "CRC Error"; raises exactly when 2:6 is not hex, and then ValueError (value: TelegramProperties.LdTempRaw) |
| Telegram.ErrorsAndWarnings | zx_ruler_results_interpreter.py:57-203 | NUL gives "Wrong Hex value", a short telegram "CRC Error"; a non-zero error field that is not hex raises ValueError (text: TelegramProperties.ErrorsAndWarningsComposition) |
| Telegram.LaserOnOrOff | zx_ruler_results_interpreter.py:206-234 | gate as above; raises exactly when 2:4 is not hex, and then ValueError; otherwise "ON" or "OFF" (which: TelegramProperties.LaserOnIffNonZero) |
| Telegram.SmcuStatus | zx_ruler_results_interpreter.py:237-329 | gate as above; 7 to 10 characters raise ValueError; TypeError only for a start-up code without a label; a decoded start-up state is one of the labels (fields: TelegramProperties.SmcuStatusFields) |
| Telegram.TempAdcInDeg | zx_ruler_results_interpreter.py:332-363 | gate as above; raises exactly when 2:6 is not hex, and then ValueError (value: TelegramProperties.TempAdcRaw) |
| Telegram.Current | zx_ruler_results_interpreter.py:366-393 | gate as above; raises exactly when 2:6 is not hex, and then ValueError (text: TelegramProperties.CurrentText) |
| Telegram.StatusByte | zx_ruler_results_interpreter.py:396-462 | a NUL in 0:2 gives "Wrong Hex value", "" gives "No Value", "00" gives "STATUS_OK", with no length gate (rest: TelegramProperties.StatusByteCases) |
| Telegram.Mode | zx_ruler_results_interpreter.py:465-524 | gate as above; a byte 2:4 that is not hex raises ValueError (labels: TelegramProperties.ModeLabels) |
| Telegram.ConfigMode | zx_ruler_results_interpreter.py:527-573 | gate as above; a byte 2:4 that is not hex raises ValueError; a hex code raises exactly when it is 10 or more (labels: TelegramProperties.ConfigModeLookup) |
| Telegram.FwVersion | zx_ruler_results_interpreter.py:576-640 | gate as above; only ValueError can escape, and 7 to 16 characters always raise it (text: TelegramProperties.FwVersionFields) |
| Telegram.CurrentDacAdc | zx_ruler_results_interpreter.py:643-678 | NUL and a short telegram both give "CRC Error"; raises exactly when 2:6 is not hex, and then ValueError (value: TelegramProperties.CurrentDacRaw) |
| Telegram.PowerOutAbs | zx_ruler_results_interpreter.py:681-700 | 6 characters or fewer give "CRC Error", NUL or not; raises exactly when a longer telegram's 2:6 is not hex, and then ValueError (text: TelegramProperties.PowerOutAbsText) |
| Telegram.PowerValInPerc | zx_ruler_results_interpreter.py:703-728 | gate as above; raises exactly when 2:4 is not hex, and then ValueError (text: TelegramProperties.PowerValInPercText) |
| Telegram.HoursMinutes | zx_ruler_results_interpreter.py:739-755 | 6 characters or fewer give "CRC Error"; raises exactly when 2:6 or 6:8 is not hex, and then ValueError (text: TelegramProperties.HoursMinutesFields) |
| Telegram.LdLifetime | zx_ruler_results_interpreter.py:731-758 | as HoursMinutes: no NUL test, "CRC Error" when short, ValueError exactly when 2:6 or 6:8 is not hex (text: TelegramProperties.LdLifetimeText) |
| Telegram.PdValue | zx_ruler_results_interpreter.py:761-797 | gate as above; raises exactly when 2:6 is not hex, and then ValueError (text: TelegramProperties.PdValueText) |
| Telegram.ModuleTotalOntime | zx_ruler_results_interpreter.py:800-827 | as HoursMinutes: no NUL test, "CRC Error" when short, ValueError exactly when 2:6 or 6:8 is not hex (text: TelegramProperties.ModuleTotalOntimeText) |
| Telegram.CalLaser | zx_ruler_results_interpreter.py:830-864 | NUL and a short telegram both give "CRC Error"; raises exactly when 2:6 or 6:10 is not hex, and then ValueError (text: TelegramProperties.CalLaserText) |
| Telegram.CompRef | zx_ruler_results_interpreter.py:867-892 | 6 characters or fewer give "CRC Error", NUL or not; raises exactly when a longer telegram's 2:6 is not hex, and then ValueError (value: TelegramProperties.CompRefRaw) |
| Telegram.CurrentAdc | zx_ruler_results_interpreter.py:895-930 | NUL and a short telegram both give "CRC Error"; raises exactly when 6:10 is not hex, and then ValueError (value: TelegramProperties.CurrentAdcRaw) |
| TelegramProperties.GateOrder | zx_ruler_results_interpreter.py:37-42 | in the eleven guarded decoders a NUL gives "Wrong Hex value" whatever the length; otherwise 6 characters or fewer give "CRC Error" |
| TelegramProperties.NulReadsAsCrcError | zx_ruler_results_interpreter.py:643-678 | convert_current_dac_adc, convert_cal_laser and convert_current_adc give "CRC Error" for a NUL, because their NUL branch writes a misspelt variable |
| TelegramProperties.NoNulTest | zx_ruler_results_interpreter.py:681-700 | the four decoders without a NUL test: short telegrams give "CRC Error" even with a NUL; a NUL inside 2:6 raises ValueError; a NUL after the fields is ignored, so power and comparator come from 2:6 and both lifetimes from 2:6 and 6:8 |
| TelegramProperties.LifetimeOf0102And03 | zx_ruler_results_interpreter.py:731-758 | hours field "0102" and minutes field "03" read "258h 3min", whatever follows |
| TelegramProperties.LeadingNulIgnored | zx_ruler_results_interpreter.py:731-797 | two NUL characters followed by "01020300" (Python `"\x00\x00" "01020300"`) give "258h 3min" as a lifetime (characters 0:2 are never read) but "Wrong Hex value" as a photodiode value |
| TelegramProperties.HoursMinutesNul | zx_ruler_results_interpreter.py:731-758 | a NUL in the hours or minutes field makes both lifetime decoders raise ValueError |
| TelegramProperties.FlagFieldText | zx_ruler_results_interpreter.py:133-161 | an all-'0' field gives "No Errors"/"No Warnings", a value within the table gives its labels, a value with a bit beyond the table raises TypeError |
| TelegramProperties.ErrorField | zx_ruler_results_interpreter.py:130-161 | the eight-digit error field raises TypeError exactly when bit 30 or 31 is set (labels cover bits 0-29); otherwise it gives the labels |
| TelegramProperties.WarningField | zx_ruler_results_interpreter.py:166-195 | the warning field raises TypeError exactly when a bit from 14 on is set (labels cover bits 0-13); otherwise it gives the labels |
| TelegramProperties.ErrorsAndWarningsComposition | zx_ruler_results_interpreter.py:121-203 | the result is "<errors> \| <warnings>" from 4:12 and 12:20; unlabelled error bits raise first, unlabelled warning bits raise otherwise |
| TelegramProperties.ShortResponseHasNoWarnings | zx_ruler_results_interpreter.py:166-170 | a 7 to 12 character response has an empty warning slice, which reads "No Warnings" |
| TelegramProperties.StatusByteCases | zx_ruler_results_interpreter.py:396-462 | only characters 0:2 matter and there is no length gate: "" gives "No Value", "00" gives "STATUS_OK", a NUL gives "Wrong Hex value", other hex bytes give their labels and never raise |
| TelegramProperties.ModeLabels | zx_ruler_results_interpreter.py:465-524 | the mode text is the labels of the set bits of 2:4, never TypeError, and "" for a zero byte |
| TelegramProperties.FlagExample | zx_ruler_results_interpreter.py:157-161 | 5 = 0b101 over labels A, B, C gives "A \| C" |
| TelegramProperties.LaserOnIffNonZero | zx_ruler_results_interpreter.py:206-234 | "ON" exactly when byte 2:4 is non-zero, "OFF" exactly when it is zero |
| TelegramProperties.ConfigModeLookup | zx_ruler_results_interpreter.py:527-573 | codes 0-9 give their one label; codes 10 and above raise TypeError from the join of None |
| TelegramProperties.SmcuStatusFields | zx_ruler_results_interpreter.py:237-329 | an empty 10:14 field raises ValueError first; an unknown start-up code raises TypeError; otherwise the start-up label, the operation label or "<hex>: Not existing", the unsigned NTC count and the signed temperature |
| TelegramProperties.FwVersionFields | zx_ruler_results_interpreter.py:576-640 | on 17 hex digits or more the firmware text is "MMCU:  a.b.c \| SMCU:  d.e.f" from the bytes at 2, 4, 6, 12, 14 and 16 in decimal; on exactly 17 the last field is the single digit at 16 |
| TelegramProperties.FwVersionOfBytes | zx_ruler_results_interpreter.py:595-632 | a telegram carrying the hex encodings of six bytes decodes to those six bytes |
| TelegramProperties.FwVersionExample | zx_ruler_results_interpreter.py:576-640 | "00010203000004050600" decodes to "MMCU:  1.2.3 \| SMCU:  4.5.6" |
| TelegramProperties.FwVersionTooShort | zx_ruler_results_interpreter.py:591-632 | 7 to 16 hex digits pass the gate but leave an empty firmware field, so int() raises ValueError |
| TelegramProperties.HoursMinutesFields | zx_ruler_results_interpreter.py:739-755 | the shared hours/minutes body gives "<h>h <m>min" from hours 2:6 (below 65536) and minutes 6:8 (below 256) |
| TelegramProperties.HoursMinutesOfFields | zx_ruler_results_interpreter.py:742-753 | a telegram carrying the hex encodings of h and m decodes to "<h>h <m>min" |
| TelegramProperties.LdLifetimeText | zx_ruler_results_interpreter.py:731-758 | convert_ld_lifetime gives "<h>h <m>min" from hours 2:6 and minutes 6:8 |
| TelegramProperties.ModuleTotalOntimeText | zx_ruler_results_interpreter.py:800-827 | convert_module_total_ontime gives "<h>h <m>min" from hours 2:6 and minutes 6:8 |
| TelegramProperties.CurrentText | zx_ruler_results_interpreter.py:366-393 | convert_current prints the unsigned value of 2:6 (below 65536) as "<n> mA", and the digits read back as n |
| TelegramProperties.PdValueText | zx_ruler_results_interpreter.py:761-797 | convert_pd_value prints the unsigned value of 2:6 in decimal without a unit, and the digits read back as it |
| TelegramProperties.PowerOutAbsText | zx_ruler_results_interpreter.py:681-700 | the absolute power is the nearest integer to (2:6) / 100, ties to even, followed by " mw" |
| TelegramProperties.PowerValInPercText | zx_ruler_results_interpreter.py:703-728 | the percentage is the nearest integer to (2:4) / 100, ties to even, followed by two spaces |
| TelegramProperties.CalLaserText | zx_ruler_results_interpreter.py:830-864 | the calibration text is "<round((2:6) / 100)> mw \| <6:10> nm" |
| TelegramProperties.LdTempRaw | zx_ruler_results_interpreter.py:27-54 | the LD temperature is the signed 16-bit value of 2:6, and its unsigned reading is the field's value again |
| TelegramProperties.TempAdcRaw | zx_ruler_results_interpreter.py:332-363 | the temperature ADC count is the unsigned value of 2:6, below 65536 |
| TelegramProperties.CurrentDacRaw | zx_ruler_results_interpreter.py:643-678 | the DAC count is the unsigned value of 2:6, below 65536 |
| TelegramProperties.CompRefRaw | zx_ruler_results_interpreter.py:867-892 | the comparator count is the unsigned value of 2:6, below 65536 |
| TelegramProperties.CurrentAdcRaw | zx_ruler_results_interpreter.py:895-930 | the ADC count is the unsigned value of 6:10, below 65536 |

## Left out

- `zx_interpret_results` (lines 933-1134) and the `__main__` block (lines 1137-1151): CSV file reading and writing, and command dispatch. These are I/O around the decoders.
- Float arithmetic and its printing: temperatures, NTC voltage, DAC/ADC currents and the comparator reference. The model returns the raw integers the floats are computed from, and does not model `round(x, 2)` of a float.
- Python's `int(_, 16)` also accepts surrounding white space, `_` separators, a sign, a `0x` prefix and non-ASCII digits. Every decoder requires `IsPlainText` of its input, which excludes those characters; NUL and any other ASCII character stay allowed.
- PyBuiltins.RoundPercent: the model rounds the exact quotient x / 100, while Python rounds the float quotient. The contract covers every x. It agrees with Python for x below 2^16, which covers every field the decoders pass (at most four hex digits). On a tie, x / 100 = k + 0.5 is exactly representable, so the float quotient is exact. Otherwise x / 100 is at least 0.01 from a half-integer, and the float quotient differs from it by less than 2^-36. The float arithmetic itself is not modelled.
- Python's own exception messages and tracebacks: only the exception class (`ValueError` or `TypeError`) is modelled.
- twos_complement_hex_to_signed_int with a negative bit count: the decoders always pass 16, and `bits` is a `nat` in the model.
- The label tables are sequences indexed from 0, so `dict.get` on one is `Lookup`. This is exact for the source's dictionaries, whose keys are 0 to n-1 without gaps.

## Notes on the source

- The firmware decoder reads up to character 18 but gates only on more than 6 characters. A telegram of 7 to 16 hex digits therefore raises `ValueError` (`FwVersionTooShort`). A 17-digit telegram yields a one-digit SMCU field (`FwVersionFields`).
- In `interpret_get_smcu_status` both `int()` calls run before the join. A telegram of 7 to 10 characters therefore raises `ValueError` even when its start-up code is unknown. The `TypeError` for an unknown code comes only after that.
- `convert_status_byte` of "0" gives "", and `interpret_get_mode` of a zero byte gives "". In both cases no bit is set and the empty list is joined.
