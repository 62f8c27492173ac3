/** What the decoders of module Telegram promise, proved for all inputs: the
    order of the shared gate and its quirks, the meaning of the bit-flag
    texts, the lookups and their failures, and the offsets of the integer
    fields (by building telegrams from field values and decoding them back). */
module TelegramProperties {
  import opened PyBuiltins
  import opened BitFlags
  import opened TwosComplement
  import opened Telegram

  /** A telegram of hex digits only: no NUL and nothing int() rejects. */
  predicate IsHexTelegram(s: string) {
    IsPlainText(s) && IsHexText(s)
  }

  lemma HexHasNoNul(s: string)
    requires IsHexText(s)
    ensures NUL !in s
  {
    forall i | 0 <= i < |s| ensures s[i] != NUL {
      assert IsHexDigit(s[i]);
    }
  }

  lemma NulNotHex(f: string)
    requires NUL in f
    ensures !IsHexText(f)
  {
    var i :| 0 <= i < |f| && f[i] == NUL;
    assert !IsHexDigit(f[i]);
  }

  // ---------------------------------------------------------------------
  // The gate
  // ---------------------------------------------------------------------

  /** In every guarded decoder a NUL anywhere gives "Wrong Hex value" whatever
      the length, and otherwise a length of 6 or less gives "CRC Error". */
  lemma GateOrder(s: string)
    requires IsPlainText(s)
    ensures NUL in s ==>
      && LdTempInDeg(s) == Ok(Message(WRONG_HEX)) && ErrorsAndWarnings(s) == Ok(WRONG_HEX)
      && LaserOnOrOff(s) == Ok(WRONG_HEX) && SmcuStatus(s) == Ok(Message(WRONG_HEX))
      && TempAdcInDeg(s) == Ok(Message(WRONG_HEX)) && Current(s) == Ok(WRONG_HEX)
      && Mode(s) == Ok(WRONG_HEX) && ConfigMode(s) == Ok(WRONG_HEX)
      && FwVersion(s) == Ok(WRONG_HEX) && PowerValInPerc(s) == Ok(WRONG_HEX)
      && PdValue(s) == Ok(WRONG_HEX)
    ensures NUL !in s && |s| <= 6 ==>
      && LdTempInDeg(s) == Ok(Message(CRC_ERROR)) && ErrorsAndWarnings(s) == Ok(CRC_ERROR)
      && LaserOnOrOff(s) == Ok(CRC_ERROR) && SmcuStatus(s) == Ok(Message(CRC_ERROR))
      && TempAdcInDeg(s) == Ok(Message(CRC_ERROR)) && Current(s) == Ok(CRC_ERROR)
      && Mode(s) == Ok(CRC_ERROR) && ConfigMode(s) == Ok(CRC_ERROR)
      && FwVersion(s) == Ok(CRC_ERROR) && PowerValInPerc(s) == Ok(CRC_ERROR)
      && PdValue(s) == Ok(CRC_ERROR)
  {
  }

  /** Three decoders store the NUL message in a misspelt variable: a NUL gives
      "CRC Error", and so does a short telegram. */
  lemma NulReadsAsCrcError(s: string)
    requires IsPlainText(s)
    requires NUL in s || |s| <= 6
    ensures CurrentDacAdc(s) == Ok(Message(CRC_ERROR))
    ensures CalLaser(s) == Ok(CRC_ERROR)
    ensures CurrentAdc(s) == Ok(Message(CRC_ERROR))
  {
  }

  /** Four decoders have no NUL test: a short telegram is "CRC Error" even with
      a NUL, a NUL inside characters 2:6 makes int() raise, and a NUL outside
      the fields read is ignored (where a guarded decoder would give "Wrong
      Hex value"). */
  lemma NoNulTest(s: string)
    requires IsPlainText(s)
    ensures |s| <= 6 ==>
      PowerOutAbs(s) == Ok(CRC_ERROR) && LdLifetime(s) == Ok(CRC_ERROR)
      && ModuleTotalOntime(s) == Ok(CRC_ERROR) && CompRef(s) == Ok(Message(CRC_ERROR))
    ensures |s| > 6 && NUL in Slice(s, 2, 6) ==>
      PowerOutAbs(s) == Raise(ValueError) && LdLifetime(s) == Raise(ValueError)
      && ModuleTotalOntime(s) == Raise(ValueError) && CompRef(s) == Raise(ValueError)
    ensures |s| > 6 && IsHexText(Slice(s, 2, 6)) ==>
      PowerOutAbs(s) == Ok(Str(RoundPercent(HexValue(Slice(s, 2, 6)))) + " mw")
      && CompRef(s) == Ok(Fields(HexValue(Slice(s, 2, 6))))
    ensures |s| > 6 && IsHexText(Slice(s, 2, 6)) && IsHexText(Slice(s, 6, 8)) ==>
      var h, m := HexValue(Slice(s, 2, 6)), HexValue(Slice(s, 6, 8));
      LdLifetime(s) == Ok(Str(h) + "h " + Str(m) + "min")
      && ModuleTotalOntime(s) == Ok(Str(h) + "h " + Str(m) + "min")
  {
    if |s| > 6 && NUL in Slice(s, 2, 6) {
      NulNotHex(Slice(s, 2, 6));
    }
    if |s| > 6 && IsHexText(Slice(s, 2, 6)) && IsHexText(Slice(s, 6, 8)) {
      HoursMinutesFields(s);
    }
  }

  /** Hours field "0102" and minutes field "03" read as 258 hours and 3
      minutes, whatever surrounds them. */
  lemma LifetimeOf0102And03(s: string)
    requires IsPlainText(s) && |s| > 6 && Slice(s, 2, 6) == "0102" && Slice(s, 6, 8) == "03"
    ensures LdLifetime(s) == Ok("258h 3min")
  {
    Value4("0102", 0, 1, 0, 2);
    Value2("03", 0, 3);
    LdLifetimeText(s);
    assert Str(2) == "2" && Str(25) == "25" && Str(258) == "258" && Str(3) == "3";
    var text := Str(258) + "h " + Str(3) + "min";
    assert text == "258h 3min";
  }

  /** A concrete telegram with a NUL at position 0: the lifetime decoder still
      reads 0x0102 hours and 0x03 minutes, while a guarded decoder reports
      "Wrong Hex value". */
  lemma LeadingNulIgnored()
    ensures LdLifetime("\0\0" + "01020300") == Ok("258h 3min")
    ensures PdValue("\0\0" + "01020300") == Ok(WRONG_HEX)
  {
    var s := "\0\0" + "01020300";
    assert IsPlainText(s);
    assert Slice(s, 2, 6) == "0102" && Slice(s, 6, 8) == "03";
    LifetimeOf0102And03(s);
  }

  /** A NUL in the hours or minutes field makes the lifetime and on-time
      decoders raise. */
  lemma HoursMinutesNul(s: string)
    requires IsPlainText(s) && |s| > 6
    requires NUL in Slice(s, 2, 6) || NUL in Slice(s, 6, 8)
    ensures LdLifetime(s) == Raise(ValueError) && ModuleTotalOntime(s) == Raise(ValueError)
  {
    if NUL in Slice(s, 2, 6) {
      NulNotHex(Slice(s, 2, 6));
    } else {
      NulNotHex(Slice(s, 6, 8));
    }
  }

  // ---------------------------------------------------------------------
  // Errors and warnings
  // ---------------------------------------------------------------------

  /** The text of a flag field whose value v is below 2^|table|: `none` for
      zero, the labels of the set bits otherwise. */
  function FieldText(table: seq<string>, none: string, v: nat): string
    requires v < Pow2(|table|)
  {
    if v == 0 then none else LabelText(table, v)
  }

  /** One flag field: an all-'0' field (the empty one included) gives `none`,
      a value with every set bit in the table gives its labels, and a value
      with a bit beyond the table raises TypeError. */
  lemma FlagFieldText(field: string, table: seq<string>, none: string)
    requires IsHexTelegram(field)
    ensures var v := HexValue(field);
      && (v < Pow2(|table|) ==> FlagField(field, table, none) == Ok(FieldText(table, none, v)))
      && (v >= Pow2(|table|) ==> FlagField(field, table, none) == Raise(TypeError))
  {
    var v := HexValue(field);
    CountAllZeros(field);
    HexZero(field);
    if v != 0 {
      FlagTextRaisesIff(table, v);
      if v < Pow2(|table|) {
        FlagTextLabels(table, v);
      }
    }
  }

  lemma {:induction false} Pow16IsPow2(k: nat)
    ensures Pow16(k) == Pow2(4 * k)
  {
    if k > 0 {
      Pow16IsPow2(k - 1);
      Pow2Add(4, 4 * (k - 1));
      assert Pow2(4) == 16;
    }
  }

  /** For v < 2^32: v >= 2^30 exactly when bit 30 or bit 31 is set. */
  lemma TopTwoBits(v: nat)
    requires v < Pow2(32)
    ensures v >= Pow2(30) <==> Bit(v, 30) || Bit(v, 31)
  {
    HighBitSet(v, 30);
    if v >= Pow2(30) {
      var p :| p >= 30 && Bit(v, p);
      if p >= 32 {
        NoBitAbove(v, 32, p);
      }
    }
  }

  /** The error field (at most eight digits, so v < 2^32) raises TypeError
      exactly when bit 30 or bit 31 is set: the table labels bits 0 .. 29. */
  lemma ErrorField(field: string)
    requires IsHexTelegram(field) && |field| <= 8
    ensures var v := HexValue(field);
      && (v < Pow2(30) ==> FlagField(field, ERROR_TABLE, "No Errors") == Ok(FieldText(ERROR_TABLE, "No Errors", v)))
      && (FlagField(field, ERROR_TABLE, "No Errors") == Raise(TypeError) <==> Bit(v, 30) || Bit(v, 31))
  {
    var v := HexValue(field);
    assert |ERROR_TABLE| == 30;
    FlagFieldText(field, ERROR_TABLE, "No Errors");
    Pow2Values();
    Pow16IsPow2(|field|);
    Pow2Monotone(4 * |field|, 32);
    TopTwoBits(v);
  }

  /** The warning field raises TypeError exactly when a bit from 14 on is
      set: the table labels bits 0 .. 13. */
  lemma WarningField(field: string)
    requires IsHexTelegram(field)
    ensures var v := HexValue(field);
      && (v < Pow2(14) ==> FlagField(field, WARNING_TABLE, "No Warnings") == Ok(FieldText(WARNING_TABLE, "No Warnings", v)))
      && (FlagField(field, WARNING_TABLE, "No Warnings") == Raise(TypeError) <==> exists p :: p >= 14 && Bit(v, p))
  {
    assert |WARNING_TABLE| == 14;
    FlagFieldText(field, WARNING_TABLE, "No Warnings");
    HighBitSet(HexValue(field), 14);
  }

  /** A hex status response of 7 characters or more: errors from 4:12 and
      warnings from 12:20 joined as "<errors> | <warnings>"; unlabelled
      error bits raise TypeError before the warnings are read, and
      unlabelled warning bits raise TypeError after. */
  lemma ErrorsAndWarningsComposition(s: string)
    requires IsHexTelegram(s) && |s| > 6
    ensures var e, w := HexValue(Slice(s, 4, 12)), HexValue(Slice(s, 12, 20));
      && (e >= Pow2(30) ==> ErrorsAndWarnings(s) == Raise(TypeError))
      && (e < Pow2(30) && w >= Pow2(14) ==> ErrorsAndWarnings(s) == Raise(TypeError))
      && (e < Pow2(30) && w < Pow2(14) ==>
            ErrorsAndWarnings(s)
            == Ok(FieldText(ERROR_TABLE, "No Errors", e) + " | " + FieldText(WARNING_TABLE, "No Warnings", w)))
  {
    HexHasNoNul(s);
    assert |ERROR_TABLE| == 30 && |WARNING_TABLE| == 14;
    var ef, wf := Slice(s, 4, 12), Slice(s, 12, 20);
    FlagFieldText(ef, ERROR_TABLE, "No Errors");
    FlagFieldText(wf, WARNING_TABLE, "No Warnings");
    var e, w := HexValue(ef), HexValue(wf);
    if e < Pow2(30) && w < Pow2(14) {
      JoinTwo(" | ", FieldText(ERROR_TABLE, "No Errors", e), FieldText(WARNING_TABLE, "No Warnings", w));
    }
  }

  /** A status response of 7 to 12 characters has an empty warning field,
      which reads as "No Warnings". */
  lemma ShortResponseHasNoWarnings(s: string)
    requires IsHexTelegram(s) && 7 <= |s| <= 12
    ensures Slice(s, 12, 20) == ""
    ensures var e := HexValue(Slice(s, 4, 12));
      e < Pow2(30) ==>
        ErrorsAndWarnings(s) == Ok(FieldText(ERROR_TABLE, "No Errors", e) + " | " + "No Warnings")
  {
    assert |ERROR_TABLE| == 30 && |WARNING_TABLE| == 14;
    ErrorsAndWarningsComposition(s);
    assert HexValue(Slice(s, 12, 20)) == 0;
    var e := HexValue(Slice(s, 4, 12));
    assert FieldText(WARNING_TABLE, "No Warnings", 0) == "No Warnings";
  }

  // ---------------------------------------------------------------------
  // Status byte and mode
  // ---------------------------------------------------------------------

  /** convert_status_byte reads only the first two characters and has no
      length gate; every bit of a two-digit value has a label, so it never
      raises on hex digits. */
  lemma StatusByteCases(s: string)
    requires IsPlainText(s)
    ensures StatusByte(s) == StatusByte(Slice(s, 0, 2))
    ensures s == "" ==> StatusByte(s) == Ok("No Value")
    ensures NUL in Slice(s, 0, 2) ==> StatusByte(s) == Ok(WRONG_HEX)
    ensures Slice(s, 0, 2) == "00" ==> StatusByte(s) == Ok("STATUS_OK")
    ensures var b := Slice(s, 0, 2);
      b != "" && b != "00" && IsHexText(b) ==>
        HexValue(b) < Pow2(8) && StatusByte(s) == Ok(LabelText(STATUS_TABLE, HexValue(b)))
  {
    var b := Slice(s, 0, 2);
    assert Slice(b, 0, 2) == b;
    if b != "" && b != "00" && IsHexText(b) {
      Pow2Values();
      FlagTextLabels(STATUS_TABLE, HexValue(b));
    }
  }

  /** interpret_get_mode on hex digits: the labels of the set bits of
      characters 2:4, never TypeError, and "" for a zero byte. */
  lemma ModeLabels(s: string)
    requires IsHexTelegram(s) && |s| > 6
    ensures HexValue(Slice(s, 2, 4)) < Pow2(8)
    ensures Mode(s) == Ok(LabelText(MODE_TABLE, HexValue(Slice(s, 2, 4))))
    ensures HexValue(Slice(s, 2, 4)) == 0 ==> Mode(s) == Ok("")
  {
    HexHasNoNul(s);
    Pow2Values();
    FlagTextLabels(MODE_TABLE, HexValue(Slice(s, 2, 4)));
  }

  /** The example of the bit-flag rule: 5 = 0b101 picks positions 0 and 2. */
  lemma FlagExample()
    ensures FlagText(["A", "B", "C"], 5) == Ok("A | C")
  {
    assert Pow2(3) == 8;
    assert SetBitsFrom(0, 3) == [];
    assert SetBitsFrom(1, 2) == [2];
    assert SetBitsFrom(2, 1) == [2];
    assert SetBits(5) == [0, 2];
    FlagTextLabels(["A", "B", "C"], 5);
    assert LabelsAt(["A", "B", "C"], [0, 2]) == ["A", "C"];
    JoinTwo(" | ", "A", "C");
    assert "A" + " | " + "C" == "A | C";
  }

  // ---------------------------------------------------------------------
  // Lookups
  // ---------------------------------------------------------------------

  /** get_laser_on_or_off on hex digits: "ON" exactly when byte 2:4 is non-zero,
      "OFF" otherwise. */
  lemma LaserOnIffNonZero(s: string)
    requires IsHexTelegram(s) && |s| > 6
    ensures LaserOnOrOff(s) == Ok("ON") <==> HexValue(Slice(s, 2, 4)) != 0
    ensures LaserOnOrOff(s) == Ok("OFF") <==> HexValue(Slice(s, 2, 4)) == 0
  {
    HexHasNoNul(s);
  }

  /** interpret_get_config_mode on hex digits: exactly one label for codes
      0 .. 9, TypeError for codes 10 and above. */
  lemma ConfigModeLookup(s: string)
    requires IsHexTelegram(s) && |s| > 6
    ensures var code := HexValue(Slice(s, 2, 4));
      && (code < 10 ==> ConfigMode(s) == Ok(CONFIG_MODE_TABLE[code]))
      && (code >= 10 ==> ConfigMode(s) == Raise(TypeError))
  {
    HexHasNoNul(s);
    var code := HexValue(Slice(s, 2, 4));
    var items := [Lookup(CONFIG_MODE_TABLE, code)];
    if code < 10 {
      assert seq(|items|, k requires 0 <= k < |items| => items[k].value) == [CONFIG_MODE_TABLE[code]];
    } else {
      assert !items[0].Some?;
    }
  }

  /** interpret_get_smcu_status on hex digits.  An empty 10:14 field (7 to
      10 characters) raises ValueError before anything else; otherwise an
      unknown start-up code raises TypeError; otherwise the start-up label,
      the operation label or "<hex>: Not existing", the unsigned NTC count
      and the signed 16-bit silicon temperature. */
  lemma SmcuStatusFields(s: string)
    requires IsHexTelegram(s) && |s| > 6
    ensures |s| <= 10 ==> SmcuStatus(s) == Raise(ValueError)
    ensures |s| > 10 && Slice(s, 2, 4) !in START_UP_STATES ==> SmcuStatus(s) == Raise(TypeError)
    ensures |s| > 10 && Slice(s, 2, 4) in START_UP_STATES ==>
      && SmcuStatus(s).Ok? && SmcuStatus(s).value.Fields?
      && var f := SmcuStatus(s).value.raw;
      && f.startUpState == START_UP_STATES[Slice(s, 2, 4)]
      && (Slice(s, 4, 6) in OPERATION_STATES ==> f.operationState == OPERATION_STATES[Slice(s, 4, 6)])
      && (Slice(s, 4, 6) !in OPERATION_STATES ==> f.operationState == Slice(s, 4, 6) + ": Not existing")
      && f.ntcTempRaw == HexValue(Slice(s, 6, 10)) < 65536
      && -32768 <= f.siTempCenti < 32768
      && Unsigned(f.siTempCenti, 16) == HexValue(Slice(s, 10, 14))
  {
    HexHasNoNul(s);
    Pow2Values();
    if |s| > 10 {
      UnsignedInverse(Slice(s, 10, 14), 16);
      SignedValue(Slice(s, 10, 14), 16);
    }
  }

  // ---------------------------------------------------------------------
  // Integer fields, by building telegrams from values
  // ---------------------------------------------------------------------

  /** The value of the two hex digits at position i. */
  function ByteAt(s: string, i: nat): (b: nat)
    requires IsHexText(s)
    ensures b < 256
  {
    Pow2Values();
    HexValue(Slice(s, i, i + 2))
  }

  /** interpret_get_fw_version on 17 hex digits or more: the six byte fields
      in decimal, "MMCU:  a.b.c | SMCU:  d.e.f".  On exactly 17 digits the
      last field 16:18 is the one digit at 16. */
  lemma FwVersionFields(s: string)
    requires IsHexTelegram(s) && |s| >= 17
    ensures |s| == 17 ==> ByteAt(s, 16) == HexDigitValue(s[16])
    ensures FwVersion(s)
      == Ok("MMCU:  " + Triplet(ByteAt(s, 2), ByteAt(s, 4), ByteAt(s, 6))
            + " | SMCU:  " + Triplet(ByteAt(s, 12), ByteAt(s, 14), ByteAt(s, 16)))
  {
    HexHasNoNul(s);
    var mmcu := Triplet(ByteAt(s, 2), ByteAt(s, 4), ByteAt(s, 6));
    var smcu := Triplet(ByteAt(s, 12), ByteAt(s, 14), ByteAt(s, 16));
    JoinTwo(" | ", "MMCU:  " + mmcu, "SMCU:  " + smcu);
    assert ("MMCU:  " + mmcu) + " | " + ("SMCU:  " + smcu) == "MMCU:  " + mmcu + " | SMCU:  " + smcu;
  }

  /** A telegram whose byte fields carry the encodings of a .. f decodes to
      those six values. */
  lemma FwVersionOfBytes(s: string, a: nat, b: nat, c: nat, d: nat, e: nat, f: nat)
    requires IsHexTelegram(s) && |s| >= 18
    requires a < Pow16(2) && b < Pow16(2) && c < Pow16(2)
    requires d < Pow16(2) && e < Pow16(2) && f < Pow16(2)
    requires s[2..4] == HexEncode(a, 2) && s[4..6] == HexEncode(b, 2) && s[6..8] == HexEncode(c, 2)
    requires s[12..14] == HexEncode(d, 2) && s[14..16] == HexEncode(e, 2) && s[16..18] == HexEncode(f, 2)
    ensures FwVersion(s) == Ok("MMCU:  " + Triplet(a, b, c) + " | SMCU:  " + Triplet(d, e, f))
  {
    FwVersionFields(s);
    HexRoundTrip(a, 2);
    HexRoundTrip(b, 2);
    HexRoundTrip(c, 2);
    HexRoundTrip(d, 2);
    HexRoundTrip(e, 2);
    HexRoundTrip(f, 2);
  }

  /** The value of a two-digit field from its digit values. */
  lemma Value2(s: string, a: nat, b: nat)
    requires |s| == 2 && IsHexText(s)
    requires HexDigitValue(s[0]) == a && HexDigitValue(s[1]) == b
    ensures HexValue(s) == 16 * a + b
  {
    assert s[..1][..0] == [];
  }

  lemma TripletExamples()
    ensures Triplet(1, 2, 3) == "1.2.3" && Triplet(4, 5, 6) == "4.5.6"
  {
    assert Str(1) == "1" && Str(2) == "2" && Str(3) == "3";
    assert Str(4) == "4" && Str(5) == "5" && Str(6) == "6";
  }

  /** The firmware text of the bytes 1 .. 6. */
  lemma FwTextOneToSix()
    ensures "MMCU:  " + Triplet(1, 2, 3) + " | SMCU:  " + Triplet(4, 5, 6) == "MMCU:  1.2.3 | SMCU:  4.5.6"
  {
    TripletExamples();
    var text := "MMCU:  " + Triplet(1, 2, 3) + " | SMCU:  " + Triplet(4, 5, 6);
    assert text == "MMCU:  " + "1.2.3" + " | SMCU:  " + "4.5.6";
  }

  lemma FwVersionOneToSix(s: string)
    requires IsHexTelegram(s) && |s| >= 18
    requires ByteAt(s, 2) == 1 && ByteAt(s, 4) == 2 && ByteAt(s, 6) == 3
    requires ByteAt(s, 12) == 4 && ByteAt(s, 14) == 5 && ByteAt(s, 16) == 6
    ensures FwVersion(s) == Ok("MMCU:  1.2.3 | SMCU:  4.5.6")
  {
    FwVersionFields(s);
    FwTextOneToSix();
  }

  /** A two-digit field "0d" holds the byte d. */
  lemma ByteIs(s: string, i: nat, field: string, d: nat)
    requires IsHexText(s) && d < 10 && i + 2 <= |s|
    requires field == ['0', "0123456789"[d]] && s[i..i + 2] == field
    ensures ByteAt(s, i) == d
  {
    assert Slice(s, i, i + 2) == field;
    Value2(field, 0, d);
  }

  /** The firmware telegram of the bytes 01 02 03 and 04 05 06. */
  lemma FwVersionExample()
    ensures FwVersion("00010203000004050600") == Ok("MMCU:  1.2.3 | SMCU:  4.5.6")
  {
    var s := "00010203000004050600";
    assert IsHexTelegram(s);
    ByteIs(s, 2, "01", 1);
    ByteIs(s, 4, "02", 2);
    ByteIs(s, 6, "03", 3);
    ByteIs(s, 12, "04", 4);
    ByteIs(s, 14, "05", 5);
    ByteIs(s, 16, "06", 6);
    FwVersionOneToSix(s);
  }

  /** Firmware fields past the end are empty slices: a telegram of 7 to 16
      hex digits raises ValueError. */
  lemma FwVersionTooShort(s: string)
    requires IsHexTelegram(s) && 7 <= |s| <= 16
    ensures FwVersion(s) == Raise(ValueError)
  {
    HexHasNoNul(s);
  }

  /** The joined hours and minutes read "<h>h <m>min". */
  lemma HoursMinutesJoin(h: string, m: string)
    ensures Join(" ", [h + "h", m + "min"]) == h + "h " + m + "min"
  {
    JoinTwo(" ", h + "h", m + "min");
    assert (h + "h") + " " + (m + "min") == h + "h " + m + "min";
  }

  /** The shared body of the lifetime decoders on hex digits: hours h from
      2:6 and minutes m from 6:8 (one digit in a 7-character telegram) read
      "<h>h <m>min". */
  lemma HoursMinutesFields(s: string)
    requires IsPlainText(s) && |s| > 6 && IsHexText(Slice(s, 2, 6)) && IsHexText(Slice(s, 6, 8))
    ensures var h, m := HexValue(Slice(s, 2, 6)), HexValue(Slice(s, 6, 8));
      && h < 65536 && m < 256
      && HoursMinutes(s) == Ok(Str(h) + "h " + Str(m) + "min")
  {
    var hs, ms := Slice(s, 2, 6), Slice(s, 6, 8);
    var h, m := HexValue(hs), HexValue(ms);
    Pow2Values();
    Pow16Monotone(|hs|, 4);
    Pow16Monotone(|ms|, 2);
    assert HoursMinutes(s) == Ok(Join(" ", [Str(h) + "h", Str(m) + "min"]));
    HoursMinutesJoin(Str(h), Str(m));
  }

  /** A telegram whose hours and minutes fields carry the encodings of h and
      m decodes to those values. */
  lemma HoursMinutesOfFields(s: string, h: nat, m: nat)
    requires IsHexTelegram(s) && |s| >= 8
    requires h < Pow16(4) && m < Pow16(2)
    requires s[2..6] == HexEncode(h, 4) && s[6..8] == HexEncode(m, 2)
    ensures HoursMinutes(s) == Ok(Str(h) + "h " + Str(m) + "min")
  {
    HoursMinutesFields(s);
    HexRoundTrip(h, 4);
    HexRoundTrip(m, 2);
  }

  /** convert_ld_lifetime: the laser diode's hours and minutes. */
  lemma LdLifetimeText(s: string)
    requires IsPlainText(s) && |s| > 6 && IsHexText(Slice(s, 2, 6)) && IsHexText(Slice(s, 6, 8))
    ensures LdLifetime(s) == Ok(Str(HexValue(Slice(s, 2, 6))) + "h " + Str(HexValue(Slice(s, 6, 8))) + "min")
  {
    HoursMinutesFields(s);
  }

  /** convert_module_total_ontime: the module's hours and minutes. */
  lemma ModuleTotalOntimeText(s: string)
    requires IsPlainText(s) && |s| > 6 && IsHexText(Slice(s, 2, 6)) && IsHexText(Slice(s, 6, 8))
    ensures ModuleTotalOntime(s) == Ok(Str(HexValue(Slice(s, 2, 6))) + "h " + Str(HexValue(Slice(s, 6, 8))) + "min")
  {
    HoursMinutesFields(s);
  }

  /** convert_current prints the unsigned value of 2:6 in decimal with " mA";
      the printed digits read back as that value. */
  lemma CurrentText(s: string)
    requires IsHexTelegram(s) && |s| > 6
    ensures var v := HexValue(Slice(s, 2, 6));
      && v < 65536
      && Current(s) == Ok(Str(v) + " mA")
      && DecimalValue(Str(v)) == v
  {
    HexHasNoNul(s);
    Pow2Values();
    StrRoundTrip(HexValue(Slice(s, 2, 6)));
  }

  /** convert_pd_value prints the unsigned value of 2:6 in decimal, no unit. */
  lemma PdValueText(s: string)
    requires IsHexTelegram(s) && |s| > 6
    ensures var v := HexValue(Slice(s, 2, 6));
      && v < 65536
      && PdValue(s) == Ok(Str(v))
      && DecimalValue(Str(v)) == v
  {
    HexHasNoNul(s);
    Pow2Values();
    StrRoundTrip(HexValue(Slice(s, 2, 6)));
  }

  /** convert_power_out_abs: the nearest integer to (2:6) / 100, ties to
      even, then " mw". */
  lemma PowerOutAbsText(s: string)
    requires IsPlainText(s) && |s| > 6 && IsHexText(Slice(s, 2, 6))
    ensures var p := HexValue(Slice(s, 2, 6));
      exists r: nat :: PowerOutAbs(s) == Ok(Str(r) + " mw") && -50 <= p - 100 * r <= 50
                       && (p - 100 * r == 50 || p - 100 * r == -50 ==> r % 2 == 0)
  {
    var p := HexValue(Slice(s, 2, 6));
    assert PowerOutAbs(s) == Ok(Str(RoundPercent(p)) + " mw");
  }

  /** convert_power_val_in_perc: the nearest integer to (2:4) / 100, ties to
      even, then two spaces. */
  lemma PowerValInPercText(s: string)
    requires IsHexTelegram(s) && |s| > 6
    ensures var q := HexValue(Slice(s, 2, 4));
      exists r: nat :: PowerValInPerc(s) == Ok(Str(r) + "  ") && -50 <= q - 100 * r <= 50
                       && (q - 100 * r == 50 || q - 100 * r == -50 ==> r % 2 == 0)
  {
    HexHasNoNul(s);
    var q := HexValue(Slice(s, 2, 4));
    assert PowerValInPerc(s) == Ok(Str(RoundPercent(q)) + "  ");
  }

  /** convert_cal_laser: the rounded nominal power from 2:6 and the
      wavelength from 6:10, "<p> mw | <w> nm". */
  lemma CalLaserText(s: string)
    requires IsHexTelegram(s) && |s| > 6
    ensures var p, w := HexValue(Slice(s, 2, 6)), HexValue(Slice(s, 6, 10));
      && -50 <= p - 100 * RoundPercent(p) <= 50
      && CalLaser(s) == Ok(Str(RoundPercent(p)) + " mw | " + Str(w) + " nm")
  {
    HexHasNoNul(s);
    var p := HexValue(Slice(s, 2, 6));
    var w := Str(HexValue(Slice(s, 6, 10)));
    JoinTwo(" | ", Str(RoundPercent(p)) + " mw", w + " nm");
    assert (Str(RoundPercent(p)) + " mw") + " | " + (w + " nm") == Str(RoundPercent(p)) + " mw | " + w + " nm";
  }

  /** convert_ld_temp_in_deg on hex digits: the raw temperature is the signed
      16-bit value of 2:6 and re-encodes to its field. */
  lemma LdTempRaw(s: string)
    requires IsHexTelegram(s) && |s| > 6
    ensures LdTempInDeg(s).Ok? && LdTempInDeg(s).value.Fields?
    ensures var t := LdTempInDeg(s).value.raw;
      -32768 <= t < 32768 && Unsigned(t, 16) == HexValue(Slice(s, 2, 6))
  {
    HexHasNoNul(s);
    Pow2Values();
    UnsignedInverse(Slice(s, 2, 6), 16);
    SignedValue(Slice(s, 2, 6), 16);
  }

  /** convert_temp_adc_in_deg on hex digits: the unsigned count of 2:6. */
  lemma TempAdcRaw(s: string)
    requires IsHexTelegram(s) && |s| > 6
    ensures TempAdcInDeg(s) == Ok(Fields(HexValue(Slice(s, 2, 6)))) && HexValue(Slice(s, 2, 6)) < 65536
  {
    HexHasNoNul(s);
    Pow2Values();
  }

  /** convert_current_dac_adc on hex digits: the unsigned DAC count of 2:6. */
  lemma CurrentDacRaw(s: string)
    requires IsHexTelegram(s) && |s| > 6
    ensures CurrentDacAdc(s) == Ok(Fields(HexValue(Slice(s, 2, 6)))) && HexValue(Slice(s, 2, 6)) < 65536
  {
    HexHasNoNul(s);
    Pow2Values();
  }

  /** convert_comp_ref on hex digits: the unsigned count of 2:6. */
  lemma CompRefRaw(s: string)
    requires IsPlainText(s) && |s| > 6 && IsHexText(Slice(s, 2, 6))
    ensures CompRef(s) == Ok(Fields(HexValue(Slice(s, 2, 6)))) && HexValue(Slice(s, 2, 6)) < 65536
  {
    Pow2Values();
  }

  /** convert_current_adc on hex digits: the unsigned ADC count of 6:10. */
  lemma CurrentAdcRaw(s: string)
    requires IsHexTelegram(s) && |s| > 6
    ensures CurrentAdc(s) == Ok(Fields(HexValue(Slice(s, 6, 10)))) && HexValue(Slice(s, 6, 10)) < 65536
  {
    HexHasNoNul(s);
    Pow2Values();
  }
}
