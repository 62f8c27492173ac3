/** The three bit-flag decoders as the source writes them: lists built step
    by step from bin(), reversed, stripped of the "0b" prefix and walked with
    enumerate.  Each method is proved to return exactly what the matching
    function of module Telegram states on integers. */
module FlagDecoders {
  import opened PyBuiltins
  import opened BitFlags
  import opened Telegram

  /** One field of the status response: "No Errors"/"No Warnings" for a field
      of only '0's, otherwise the joined labels of its set bits. */
  method DecodeFlagField(field: string, table: seq<string>, none: string) returns (r: Result<string>)
    requires IsPlainText(field)
    ensures r == FlagField(field, table, none)
  {
    var items: seq<Option<string>>;
    if CountChar(field, '0') == |field| {
      items := [Some(none)];
    } else {
      var code := ParseHex(field);
      if code.Raise? {
        return Raise(code.error);
      }
      items := LabelsBySlicing(table, code.value);
    }
    r := JoinItems(" | ", items);
  }

  /** get_errors_and_warnings_from_status_response */
  method GetErrorsAndWarnings(response: string) returns (r: Result<string>)
    requires IsPlainText(response)
    ensures r == ErrorsAndWarnings(response)
  {
    if NUL in response {
      return Ok(WRONG_HEX);
    }
    if |response| <= 6 {
      return Ok(CRC_ERROR);
    }
    var errors := DecodeFlagField(Slice(response, 4, 12), ERROR_TABLE, "No Errors");
    if errors.Raise? {
      return Raise(errors.error);
    }
    var warnings := DecodeFlagField(Slice(response, 12, 20), WARNING_TABLE, "No Warnings");
    if warnings.Raise? {
      return Raise(warnings.error);
    }
    r := Ok(Join(" | ", [errors.value, warnings.value]));
  }

  /** convert_status_byte */
  method ConvertStatusByte(response: string) returns (r: Result<string>)
    requires IsPlainText(response)
    ensures r == StatusByte(response)
  {
    var statusByte := Slice(response, 0, 2);
    if NUL in statusByte {
      return Ok(WRONG_HEX);
    }
    if statusByte == "" {
      return Ok("No Value");
    }
    if statusByte == "00" {
      return Ok("STATUS_OK");
    }
    var code := ParseHex(statusByte);
    if code.Raise? {
      return Raise(code.error);
    }
    var labels := LabelsByPopping(STATUS_TABLE, code.value);
    r := JoinItems(" | ", labels);
  }

  /** interpret_get_mode */
  method InterpretGetMode(mode: string) returns (r: Result<string>)
    requires IsPlainText(mode)
    ensures r == Mode(mode)
  {
    if NUL in mode {
      return Ok(WRONG_HEX);
    }
    if |mode| <= 6 {
      return Ok(CRC_ERROR);
    }
    var code := ParseHex(Slice(mode, 2, 4));
    if code.Raise? {
      return Raise(code.error);
    }
    var labels := LabelsByPopping(MODE_TABLE, code.value);
    r := JoinItems(" | ", labels);
  }
}
