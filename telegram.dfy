/** The telegram field decoders of zx_ruler_results_interpreter.py.  Each one
    takes the ASCII-hex response of one command and gives the text the
    interpreter writes into its output column, or raises.  Where the source
    prints a float (temperatures, DAC/ADC voltages and currents, the
    comparator reference) the model gives the raw integer the float is
    computed from instead. */
module Telegram {
  import opened PyBuiltins
  import opened BitFlags
  import opened TwosComplement

  // ---------------------------------------------------------------------
  // Sentinels and label tables
  // ---------------------------------------------------------------------

  const CRC_ERROR := "CRC Error"
  const WRONG_HEX := "Wrong Hex value"

  /** error_dict: bit position -> label, positions 0 .. 29. */
  const ERROR_TABLE: seq<string> := [
    "ERROR_FLASH_CHECK", "ERROR_EEPROM_CHECK", "ERROR_RAM_CHECK", "ERROR_BOOT_CHECK",
    "ERROR_WRONG_VIN_VOLTAGE", "ERROR_VLD_LEVEL_CHECK", "ERROR_SYNCRONISATION_CHECK",
    "ERROR_COMPARATOR_CHECK", "ERROR_VIN_OUT_OF_RANGE", "ERROR_TWI_ERROR", "ERROR_UART_ERROR",
    "ERROR_HEARBEAT_MISSING", "ERROR_MISSING_CALIB", "ERROR_OVER_CURRENT", "ERROR_UNDER_CURRENT",
    "ERROR_LD_NTC_PROBLEM", "ERROR_LD_OVERTEMP", "ERROR_LD_UNDERTEMP", "ERROR_MEMORY_FAIL",
    "ERROR_EXTRAPOLATION_RANGE", "ERROR_P_SET", "ERROR_CALIBRATION_TABLE",
    "ERROR_TABLE_INDICES_FAIL", "ERROR_OPERATION_CURRENT_FAIL", "ERROR_INTERPOLATION_TABLE",
    "ERROR_SMCU_CALIBRATION", "ERROR_PERIPHERAL_CHECK", "ERROR_CMD_EXECUTION",
    "ERROR_BYPASS_TRANSISTOR", "ERROR_WRONG_LASER_HEAD"]

  /** warning_dict: bit position -> label, positions 0 .. 13. */
  const WARNING_TABLE: seq<string> := [
    "WARNING_LD_NTC_PROBLEM", "WARNING_LD_OVERTEMP", "WARNING_LD_UNDERTEMP",
    "WARNING_LD_SMALL_POWER_FACTOR", "WARNING_LD_BIG_POWER_FACTOR",
    "WARNING_CANT_SET_POWER_FACTOR", "WARNING_WRONG_COMMAND", "WARNING_COMMAND_VALUE_OOR",
    "WARNING_ACCESS_VIOLATION", "WARNING_CAN_NOT_SET_RUNNING_MODE",
    "WARNING_OVER_24_HOURS_ONTIME", "WARNING_EXTRAPOLATION", "WARNING_CAL_T_MIN_MAX_LIMIT",
    "WARNING_END_OF_LIFE"]

  /** status_dict: bit position -> label, positions 0 .. 7. */
  const STATUS_TABLE: seq<string> := [
    "STATUS_BUSY", "STATUS_CRC_ERROR", "STATUS_PASSWORD_ERROR", "STATUS_TELEGRAM_ERROR",
    "STATUS_WARNING", "STATUS_ERROR", "STATUS_PASSWORD_SET", "STATUS_NO_DATA"]

  /** mode_dict: bit position -> label, positions 0 .. 7. */
  const MODE_TABLE: seq<string> := [
    "external_dig_modulation_on", "future_use_1", "extern_analog_modulation_on",
    "OVTMP_shutdown_on", "fail_out_signalling_on", "fail_in_GPIO_on", "future_use_2",
    "future_use_3"]

  /** config_mode_dict: code -> label, codes 0 .. 9. */
  const CONFIG_MODE_TABLE: seq<string> := [
    "MODULATION_FAIL_OUT", "MODULATION_FAIL_IN", "RS232_COM_DIG_IN", "TWI_COM_DIG_IN",
    "RS232_COM_FAIL_IN", "TWI_COM_FAIL_IN", "RS232_COM_FAIL_OUT", "TWI_COM_FAIL_OUT",
    "ZX20S_AT_CONFIG", "ZXS_OEM_CONFIG"]

  /** start_up_states_dict, keyed by the two characters as written. */
  const START_UP_STATES: map<string, string> := map[
    "10" := "STARTUP_TESTS_ONGOING", "20" := "STARTUP_TESTS_FINISHED",
    "30" := "STARTUP_COMP_TEST_FINISHED", "40" := "STARTUP_COMP_READY"]

  /** operation_states_dict, keyed by the two characters as written. */
  const OPERATION_STATES: map<string, string> := map[
    "00" := "OP_STAT_STARTUP_IDLE", "01" := "OP_STAT_STARTUP_USERCOMM_SELECTED",
    "02" := "OP_STAT_STARTUP_WAIT_FOR_SMCU", "03" := "OP_STAT_STARTUP_TEST_FIRST_OPV_VALUE",
    "04" := "OP_STAT_STARTUP_TEST_SECOND_OPV_VALUE", "10" := "OP_STAT_STANDBY",
    "20" := "OP_STAT_READY_OPERATION", "28" := "OP_STAT_USER_SERVICE",
    "40" := "OP_STAT_FACTORY_SERVICE", "60" := "OP_STAT_LD_TEST", "80" := "OP_STAT_FAILURE"]

  // ---------------------------------------------------------------------
  // Outcomes
  // ---------------------------------------------------------------------

  /** What a float-printing decoder returns in the model: either one of its
      fixed messages, or the raw integer(s) the printed float is computed from. */
  datatype Reading<T> = Message(text: string) | Fields(raw: T)

  /** The raw fields behind interpret_get_smcu_status's four parts. */
  datatype SmcuFields = SmcuFields(
    startUpState: string,   // label of characters 2:4
    operationState: string, // label of characters 4:6, or "<hex>: Not existing"
    ntcTempRaw: nat,        // unsigned characters 6:10, printed as 2.06 * raw / 65535 V
    siTempCenti: int)       // signed 16-bit characters 10:14, printed as raw / 100 degC

  /** The shared gate, in order: a NUL anywhere, then a length of 6 or less. */
  datatype Gate = HasNul | TooShort | Passed

  function Validate(telegram: string): (g: Gate)
    ensures g == Passed <==> NUL !in telegram && |telegram| > 6
    ensures g == Passed ==> |Slice(telegram, 2, 4)| == 2 && |Slice(telegram, 2, 6)| == 4
    ensures g == Passed ==> Slice(telegram, 6, 8) != [] && Slice(telegram, 6, 10) != []
  {
    if NUL in telegram then HasNul
    else if |telegram| <= 6 then TooShort
    else Passed
  }

  // ---------------------------------------------------------------------
  // The decoders, in the order of the source
  // ---------------------------------------------------------------------

  /** convert_ld_temp_in_deg: signed 16-bit characters 2:6, in 1/100 degC. */
  function LdTempInDeg(ldTemp: string): (r: Result<Reading<int>>)
    requires IsPlainText(ldTemp)
    ensures NUL in ldTemp ==> r == Ok(Message(WRONG_HEX))
    ensures Validate(ldTemp) == TooShort ==> r == Ok(Message(CRC_ERROR))
    ensures r.Raise? <==> Validate(ldTemp) == Passed && !IsHexText(Slice(ldTemp, 2, 6))
    ensures r.Raise? ==> r.error == ValueError
  {
    match Validate(ldTemp)
    case HasNul => Ok(Message(WRONG_HEX))
    case TooShort => Ok(Message(CRC_ERROR))
    case Passed =>
      var t :- HexToSigned(Slice(ldTemp, 2, 6), 16);
      Ok(Fields(t))
  }

  /** One half of get_errors_and_warnings_from_status_response: a field of
      only '0' characters (the empty field included) gives `none`, any
      other the labels of its set bits. */
  function FlagField(field: string, table: seq<string>, none: string): (r: Result<string>)
    requires IsPlainText(field)
    ensures (forall i :: 0 <= i < |field| ==> field[i] == '0') ==> r == Ok(none)
    ensures r == Raise(ValueError) <==> CountChar(field, '0') != |field| && !IsHexText(field)
  {
    CountAllZeros(field);
    if CountChar(field, '0') == |field| then Ok(none)
    else
      var code :- ParseHex(field);
      FlagText(table, code)
  }

  /** get_errors_and_warnings_from_status_response: errors from characters
      4:12 and warnings from 12:20, joined by " | ".  The error labels are
      joined (and may raise) before the warning field is looked at. */
  function ErrorsAndWarnings(response: string): (r: Result<string>)
    requires IsPlainText(response)
    ensures NUL in response ==> r == Ok(WRONG_HEX)
    ensures Validate(response) == TooShort ==> r == Ok(CRC_ERROR)
    ensures var errors := Slice(response, 4, 12);
            Validate(response) == Passed && CountChar(errors, '0') != |errors| && !IsHexText(errors)
            ==> r == Raise(ValueError)
  {
    match Validate(response)
    case HasNul => Ok(WRONG_HEX)
    case TooShort => Ok(CRC_ERROR)
    case Passed =>
      var errors :- FlagField(Slice(response, 4, 12), ERROR_TABLE, "No Errors");
      var warnings :- FlagField(Slice(response, 12, 20), WARNING_TABLE, "No Warnings");
      Ok(Join(" | ", [errors, warnings]))
  }

  /** get_laser_on_or_off: characters 2:4, "ON" when non-zero. */
  function LaserOnOrOff(response: string): (r: Result<string>)
    requires IsPlainText(response)
    ensures NUL in response ==> r == Ok(WRONG_HEX)
    ensures Validate(response) == TooShort ==> r == Ok(CRC_ERROR)
    ensures r.Raise? <==> Validate(response) == Passed && !IsHexText(Slice(response, 2, 4))
    ensures r.Raise? ==> r.error == ValueError
    ensures Validate(response) == Passed && r.Ok? ==> r.value == "ON" || r.value == "OFF"
  {
    match Validate(response)
    case HasNul => Ok(WRONG_HEX)
    case TooShort => Ok(CRC_ERROR)
    case Passed =>
      var v :- ParseHex(Slice(response, 2, 4));
      Ok(if v != 0 then "ON" else "OFF")
  }

  /** interpret_get_smcu_status.  The start-up lookup has no default, so an
      unknown code leaves None in the list and the final join raises
      TypeError; but both int() calls come first, so an empty 10:14 field
      raises ValueError before that. */
  function SmcuStatus(status: string): (r: Result<Reading<SmcuFields>>)
    requires IsPlainText(status)
    ensures NUL in status ==> r == Ok(Message(WRONG_HEX))
    ensures Validate(status) == TooShort ==> r == Ok(Message(CRC_ERROR))
    ensures Validate(status) == Passed && |status| <= 10 ==> r == Raise(ValueError)
    ensures r == Raise(TypeError) ==> Slice(status, 2, 4) !in START_UP_STATES
    ensures r.Ok? && r.value.Fields? ==> r.value.raw.startUpState in START_UP_STATES.Values
  {
    match Validate(status)
    case HasNul => Ok(Message(WRONG_HEX))
    case TooShort => Ok(Message(CRC_ERROR))
    case Passed =>
      var startUpHex := Slice(status, 2, 4);
      var startUp := if startUpHex in START_UP_STATES then Some(START_UP_STATES[startUpHex]) else None;
      var operationHex := Slice(status, 4, 6);
      var operation := if operationHex in OPERATION_STATES then OPERATION_STATES[operationHex]
                       else operationHex + ": Not existing";
      var ntc :- ParseHex(Slice(status, 6, 10));
      var si :- HexToSigned(Slice(status, 10, 14), 16);
      if startUp.None? then Raise(TypeError)
      else Ok(Fields(SmcuFields(startUp.value, operation, ntc, si)))
  }

  /** convert_temp_adc_in_deg: unsigned characters 2:6, in 1/100 mV. */
  function TempAdcInDeg(tempAdc: string): (r: Result<Reading<nat>>)
    requires IsPlainText(tempAdc)
    ensures NUL in tempAdc ==> r == Ok(Message(WRONG_HEX))
    ensures Validate(tempAdc) == TooShort ==> r == Ok(Message(CRC_ERROR))
    ensures r.Raise? <==> Validate(tempAdc) == Passed && !IsHexText(Slice(tempAdc, 2, 6))
    ensures r.Raise? ==> r.error == ValueError
  {
    match Validate(tempAdc)
    case HasNul => Ok(Message(WRONG_HEX))
    case TooShort => Ok(Message(CRC_ERROR))
    case Passed =>
      var v :- ParseHex(Slice(tempAdc, 2, 6));
      Ok(Fields(v))
  }

  /** convert_current: unsigned characters 2:6 printed as "<n> mA"
      (round(n, 2) of an int is n). */
  function Current(current: string): (r: Result<string>)
    requires IsPlainText(current)
    ensures NUL in current ==> r == Ok(WRONG_HEX)
    ensures Validate(current) == TooShort ==> r == Ok(CRC_ERROR)
    ensures r.Raise? <==> Validate(current) == Passed && !IsHexText(Slice(current, 2, 6))
    ensures r.Raise? ==> r.error == ValueError
  {
    match Validate(current)
    case HasNul => Ok(WRONG_HEX)
    case TooShort => Ok(CRC_ERROR)
    case Passed =>
      var v :- ParseHex(Slice(current, 2, 6));
      Ok(Str(v) + " mA")
  }

  /** convert_status_byte: only characters 0:2 matter, and there is no
      length gate.  "" gives "No Value", "00" gives "STATUS_OK", anything
      else the labels of its set bits ("0" alone gives ""). */
  function StatusByte(response: string): (r: Result<string>)
    requires IsPlainText(response)
    ensures NUL in Slice(response, 0, 2) ==> r == Ok(WRONG_HEX)
    ensures response == "" ==> r == Ok("No Value")
    ensures Slice(response, 0, 2) == "00" ==> r == Ok("STATUS_OK")
  {
    var statusByte := Slice(response, 0, 2);
    if NUL in statusByte then Ok(WRONG_HEX)
    else if statusByte == "" then Ok("No Value")
    else if statusByte != "00" then
      var code :- ParseHex(statusByte);
      FlagText(STATUS_TABLE, code)
    else Ok("STATUS_OK")
  }

  /** interpret_get_mode: the labels of the set bits of characters 2:4
      ("" when the byte is zero). */
  function Mode(mode: string): (r: Result<string>)
    requires IsPlainText(mode)
    ensures NUL in mode ==> r == Ok(WRONG_HEX)
    ensures Validate(mode) == TooShort ==> r == Ok(CRC_ERROR)
    ensures Validate(mode) == Passed && !IsHexText(Slice(mode, 2, 4)) ==> r == Raise(ValueError)
  {
    match Validate(mode)
    case HasNul => Ok(WRONG_HEX)
    case TooShort => Ok(CRC_ERROR)
    case Passed =>
      var code :- ParseHex(Slice(mode, 2, 4));
      FlagText(MODE_TABLE, code)
  }

  /** interpret_get_config_mode: the label of the code in characters 2:4,
      joined as a one-item list, so a code without a label raises TypeError. */
  function ConfigMode(configMode: string): (r: Result<string>)
    requires IsPlainText(configMode)
    ensures NUL in configMode ==> r == Ok(WRONG_HEX)
    ensures Validate(configMode) == TooShort ==> r == Ok(CRC_ERROR)
    ensures Validate(configMode) == Passed && !IsHexText(Slice(configMode, 2, 4)) ==> r == Raise(ValueError)
    ensures Validate(configMode) == Passed && IsHexText(Slice(configMode, 2, 4)) ==>
              (r.Raise? <==> HexValue(Slice(configMode, 2, 4)) >= |CONFIG_MODE_TABLE|)
  {
    match Validate(configMode)
    case HasNul => Ok(WRONG_HEX)
    case TooShort => Ok(CRC_ERROR)
    case Passed =>
      var code :- ParseHex(Slice(configMode, 2, 4));
      JoinItems(" | ", [Lookup(CONFIG_MODE_TABLE, code)])
  }

  /** "<a>.<b>.<c>" of three byte values. */
  function Triplet(a: nat, b: nat, c: nat): string {
    Str(a) + "." + Str(b) + "." + Str(c)
  }

  /** interpret_get_fw_version: MMCU bytes 2:4, 4:6, 6:8 and SMCU bytes
      12:14, 14:16, 16:18. */
  function FwVersion(fwVersion: string): (r: Result<string>)
    requires IsPlainText(fwVersion)
    ensures NUL in fwVersion ==> r == Ok(WRONG_HEX)
    ensures Validate(fwVersion) == TooShort ==> r == Ok(CRC_ERROR)
    ensures r.Raise? ==> r.error == ValueError
    ensures Validate(fwVersion) == Passed && |fwVersion| <= 16 ==> r == Raise(ValueError)
  {
    match Validate(fwVersion)
    case HasNul => Ok(WRONG_HEX)
    case TooShort => Ok(CRC_ERROR)
    case Passed =>
      var mMajor :- ParseHex(Slice(fwVersion, 2, 4));
      var mMinor :- ParseHex(Slice(fwVersion, 4, 6));
      var mIntern :- ParseHex(Slice(fwVersion, 6, 8));
      var sMajor :- ParseHex(Slice(fwVersion, 12, 14));
      var sMinor :- ParseHex(Slice(fwVersion, 14, 16));
      var sIntern :- ParseHex(Slice(fwVersion, 16, 18));
      Ok(Join(" | ", ["MMCU:  " + Triplet(mMajor, mMinor, mIntern),
                      "SMCU:  " + Triplet(sMajor, sMinor, sIntern)]))
  }

  /** convert_current_dac_adc: unsigned characters 2:6 (the DAC count).  The
      NUL branch assigns a misspelt variable, so a NUL gives "CRC Error". */
  function CurrentDacAdc(currentDac: string): (r: Result<Reading<nat>>)
    requires IsPlainText(currentDac)
    ensures NUL in currentDac ==> r == Ok(Message(CRC_ERROR))
    ensures Validate(currentDac) == TooShort ==> r == Ok(Message(CRC_ERROR))
    ensures r.Raise? <==> Validate(currentDac) == Passed && !IsHexText(Slice(currentDac, 2, 6))
    ensures r.Raise? ==> r.error == ValueError
  {
    match Validate(currentDac)
    case HasNul => Ok(Message(CRC_ERROR))
    case TooShort => Ok(Message(CRC_ERROR))
    case Passed =>
      var v :- ParseHex(Slice(currentDac, 2, 6));
      Ok(Fields(v))
  }

  /** convert_power_out_abs: round(characters 2:6 / 100) as "<n> mw".  No
      NUL test: only a NUL inside 2:6 matters, and it makes int() raise. */
  function PowerOutAbs(powerOutAbs: string): (r: Result<string>)
    requires IsPlainText(powerOutAbs)
    ensures |powerOutAbs| <= 6 ==> r == Ok(CRC_ERROR)
    ensures r.Raise? <==> |powerOutAbs| > 6 && !IsHexText(Slice(powerOutAbs, 2, 6))
    ensures r.Raise? ==> r.error == ValueError
  {
    if |powerOutAbs| > 6 then
      var v :- ParseHex(Slice(powerOutAbs, 2, 6));
      Ok(Str(RoundPercent(v)) + " mw")
    else Ok(CRC_ERROR)
  }

  /** convert_power_val_in_perc: round(characters 2:4 / 100) followed by two
      spaces. */
  function PowerValInPerc(powerValInPerc: string): (r: Result<string>)
    requires IsPlainText(powerValInPerc)
    ensures NUL in powerValInPerc ==> r == Ok(WRONG_HEX)
    ensures Validate(powerValInPerc) == TooShort ==> r == Ok(CRC_ERROR)
    ensures r.Raise? <==> Validate(powerValInPerc) == Passed && !IsHexText(Slice(powerValInPerc, 2, 4))
    ensures r.Raise? ==> r.error == ValueError
  {
    match Validate(powerValInPerc)
    case HasNul => Ok(WRONG_HEX)
    case TooShort => Ok(CRC_ERROR)
    case Passed =>
      var v :- ParseHex(Slice(powerValInPerc, 2, 4));
      Ok(Str(RoundPercent(v)) + "  ")
  }

  /** The shared body of convert_ld_lifetime and convert_module_total_ontime:
      hours from characters 2:6, minutes from 6:8, "<h>h <m>min"; no NUL test. */
  function HoursMinutes(telegram: string): (r: Result<string>)
    requires IsPlainText(telegram)
    ensures |telegram| <= 6 ==> r == Ok(CRC_ERROR)
    ensures r.Raise? <==> |telegram| > 6 && !(IsHexText(Slice(telegram, 2, 6)) && IsHexText(Slice(telegram, 6, 8)))
    ensures r.Raise? ==> r.error == ValueError
  {
    if |telegram| > 6 then
      var hours :- ParseHex(Slice(telegram, 2, 6));
      var minutes :- ParseHex(Slice(telegram, 6, 8));
      Ok(Join(" ", [Str(hours) + "h", Str(minutes) + "min"]))
    else Ok(CRC_ERROR)
  }

  /** convert_ld_lifetime */
  function LdLifetime(ldLifetime: string): (r: Result<string>)
    requires IsPlainText(ldLifetime)
    ensures |ldLifetime| <= 6 ==> r == Ok(CRC_ERROR)
    ensures r.Raise? <==> |ldLifetime| > 6 && !(IsHexText(Slice(ldLifetime, 2, 6)) && IsHexText(Slice(ldLifetime, 6, 8)))
    ensures r.Raise? ==> r.error == ValueError
  {
    HoursMinutes(ldLifetime)
  }

  /** convert_pd_value: unsigned characters 2:6 in decimal. */
  function PdValue(pdValue: string): (r: Result<string>)
    requires IsPlainText(pdValue)
    ensures NUL in pdValue ==> r == Ok(WRONG_HEX)
    ensures Validate(pdValue) == TooShort ==> r == Ok(CRC_ERROR)
    ensures r.Raise? <==> Validate(pdValue) == Passed && !IsHexText(Slice(pdValue, 2, 6))
    ensures r.Raise? ==> r.error == ValueError
  {
    match Validate(pdValue)
    case HasNul => Ok(WRONG_HEX)
    case TooShort => Ok(CRC_ERROR)
    case Passed =>
      var v :- ParseHex(Slice(pdValue, 2, 6));
      Ok(Str(v))
  }

  /** convert_module_total_ontime */
  function ModuleTotalOntime(ontime: string): (r: Result<string>)
    requires IsPlainText(ontime)
    ensures |ontime| <= 6 ==> r == Ok(CRC_ERROR)
    ensures r.Raise? <==> |ontime| > 6 && !(IsHexText(Slice(ontime, 2, 6)) && IsHexText(Slice(ontime, 6, 8)))
    ensures r.Raise? ==> r.error == ValueError
  {
    HoursMinutes(ontime)
  }

  /** convert_cal_laser: round(characters 2:6 / 100) mw and characters 6:10
      nm.  The NUL branch assigns a misspelt variable, so a NUL gives
      "CRC Error". */
  function CalLaser(calLaser: string): (r: Result<string>)
    requires IsPlainText(calLaser)
    ensures NUL in calLaser ==> r == Ok(CRC_ERROR)
    ensures Validate(calLaser) == TooShort ==> r == Ok(CRC_ERROR)
    ensures r.Raise? <==>
              Validate(calLaser) == Passed && !(IsHexText(Slice(calLaser, 2, 6)) && IsHexText(Slice(calLaser, 6, 10)))
    ensures r.Raise? ==> r.error == ValueError
  {
    match Validate(calLaser)
    case HasNul => Ok(CRC_ERROR)
    case TooShort => Ok(CRC_ERROR)
    case Passed =>
      var power :- ParseHex(Slice(calLaser, 2, 6));
      var wavelength :- ParseHex(Slice(calLaser, 6, 10));
      Ok(Join(" | ", [Str(RoundPercent(power)) + " mw", Str(wavelength) + " nm"]))
  }

  /** convert_comp_ref: unsigned characters 2:6; no NUL test. */
  function CompRef(compRef: string): (r: Result<Reading<nat>>)
    requires IsPlainText(compRef)
    ensures |compRef| <= 6 ==> r == Ok(Message(CRC_ERROR))
    ensures r.Raise? <==> |compRef| > 6 && !IsHexText(Slice(compRef, 2, 6))
    ensures r.Raise? ==> r.error == ValueError
  {
    if |compRef| > 6 then
      var v :- ParseHex(Slice(compRef, 2, 6));
      Ok(Fields(v))
    else Ok(Message(CRC_ERROR))
  }

  /** convert_current_adc: unsigned characters 6:10 (the ADC count).  The NUL
      branch assigns a misspelt variable, so a NUL gives "CRC Error". */
  function CurrentAdc(currentAdc: string): (r: Result<Reading<nat>>)
    requires IsPlainText(currentAdc)
    ensures NUL in currentAdc ==> r == Ok(Message(CRC_ERROR))
    ensures Validate(currentAdc) == TooShort ==> r == Ok(Message(CRC_ERROR))
    ensures r.Raise? <==> Validate(currentAdc) == Passed && !IsHexText(Slice(currentAdc, 6, 10))
    ensures r.Raise? ==> r.error == ValueError
  {
    match Validate(currentAdc)
    case HasNul => Ok(Message(CRC_ERROR))
    case TooShort => Ok(Message(CRC_ERROR))
    case Passed =>
      var v :- ParseHex(Slice(currentAdc, 6, 10));
      Ok(Fields(v))
  }
}
