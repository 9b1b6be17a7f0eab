/**
 * The validation side of alerts.py: the hex-colour validator, the `Colour`
 * record an LLM reply must validate to, and the cleaning of the reply before
 * validation in `load_alert_colour`.
 *
 * JSON decoding is abstracted: a decoder gives the fields of the JSON object
 * (each present or absent), or nothing when the text is not a JSON object.
 */
module AlertColours {
  import opened Wrappers
  import opened LlmReply

  /** `[0-9a-fA-F]` */
  predicate IsHexDigit(c: char) {
    '0' <= c <= '9' || 'a' <= c <= 'f' || 'A' <= c <= 'F'
  }

  /** `[0-9a-fA-F]{n}` matched at position `i`, one character at a time. */
  function HexRun(s: string, i: nat, n: nat): (b: bool)
    requires i <= |s|
    ensures b <==> i + n <= |s| && forall k :: i <= k < i + n ==> IsHexDigit(s[k])
    decreases n
  {
    if n == 0 then true
    else if i < |s| && IsHexDigit(s[i]) then HexRun(s, i + 1, n - 1)
    else false
  }

  /** Python's `$`: the end of the string, or the position just before a final newline. */
  predicate AtEnd(s: string, i: nat) {
    i == |s| || (i + 1 == |s| && s[i] == '\n')
  }

  /**
   * `is_valid_hex_colour`: `#` and six hex digits, optionally followed by one
   * newline that `$` lets through; the colour is returned unchanged, anything
   * else raises ValueError.
   */
  function IsValidHexColour(colour: string): (r: Result<string, string>)
    ensures r.Success? <==>
              && (|colour| == 7 || (|colour| == 8 && colour[7] == '\n'))
              && colour[0] == '#'
              && forall k :: 1 <= k < 7 ==> IsHexDigit(colour[k])
    ensures r.Success? ==> r.value == colour
    ensures r.Failure? ==> r.error == "Invalid hex colour: " + colour
  {
    if |colour| > 0 && colour[0] == '#' && HexRun(colour, 1, 6) && AtEnd(colour, 7)
    then Success(colour)
    else Failure("Invalid hex colour: " + colour)
  }

  /** The validated record. */
  datatype Colour = Colour(colour: string, brightness: int, reason: string, state: string)

  const DefaultBrightness: int := 50

  /** The fields of a decoded JSON object that `Colour` reads; absent fields are `None`. */
  datatype ColourFields = ColourFields(
    colour: Option<string>,
    brightness: Option<int>,
    reason: Option<string>,
    state: Option<string>)

  /** The fields pydantic can report, in declaration order. */
  datatype Field = ColourField | BrightnessField | ReasonField

  predicate ColourFails(f: ColourFields) {
    f.colour.None? || IsValidHexColour(f.colour.value).Failure?
  }

  predicate BrightnessFails(f: ColourFields) {
    f.brightness.Some? && !(1 <= f.brightness.value <= 100)
  }

  predicate ReasonFails(f: ColourFields) {
    f.reason.None?
  }

  /**
   * `Colour` validation: the colour must be given and pass the hex validator,
   * the brightness defaults to 50 and must lie in 1..100, the reason must be
   * given, the state defaults to "". A failure lists every failing field, in
   * declaration order, as pydantic collects them.
   */
  function ValidateColour(f: ColourFields): (r: Result<Colour, seq<Field>>)
    ensures r.Success? <==> !ColourFails(f) && !BrightnessFails(f) && !ReasonFails(f)
    ensures r.Success? ==> r.value.colour == f.colour.value && r.value.reason == f.reason.value
    ensures r.Success? ==> r.value.brightness == (if f.brightness.Some? then f.brightness.value else DefaultBrightness)
    ensures r.Success? ==> r.value.state == (if f.state.Some? then f.state.value else "")
    ensures r.Failure? ==> (ColourField in r.error <==> ColourFails(f))
    ensures r.Failure? ==> (BrightnessField in r.error <==> BrightnessFails(f))
    ensures r.Failure? ==> (ReasonField in r.error <==> ReasonFails(f))
    ensures r.Failure? ==> forall k, l :: 0 <= k < l < |r.error| ==> FieldOrder(r.error[k]) < FieldOrder(r.error[l])
  {
    var errors :=
      (if ColourFails(f) then [ColourField] else [])
      + (if BrightnessFails(f) then [BrightnessField] else [])
      + (if ReasonFails(f) then [ReasonField] else []);
    if errors == [] then
      Success(Colour(
        f.colour.value,
        if f.brightness.Some? then f.brightness.value else DefaultBrightness,
        f.reason.value,
        if f.state.Some? then f.state.value else ""))
    else Failure(errors)
  }

  function FieldOrder(x: Field): nat {
    match x
    case ColourField => 0
    case BrightnessField => 1
    case ReasonField => 2
  }

  /** Every validated `Colour` satisfies the field constraints. */
  ghost predicate WellFormed(c: Colour) {
    IsValidHexColour(c.colour).Success? && 1 <= c.brightness <= 100
  }

  lemma ValidatedColourWellFormed(f: ColourFields)
    requires ValidateColour(f).Success?
    ensures WellFormed(ValidateColour(f).value)
  {
  }

  /** The state string of the sample colour shown to the LLM. */
  const SampleState: string :=
    "rule:green based colors for CO2, blue for humidity, cooler shades for living room, warmer for bedroom;co2_living_room=#2ada75;co2_bedroom=#87da2a"

  /**
   * The sample colour shown to the LLM validates to itself, and a reply
   * without brightness or state gets the defaults.
   */
  lemma SampleColourValidates()
    ensures ValidateColour(ColourFields(Some("#FF0000"), Some(50), Some("reason for the colour"), Some(SampleState)))
              == Success(Colour("#FF0000", 50, "reason for the colour", SampleState))
    ensures ValidateColour(ColourFields(Some("#000000"), None, Some("reason for the colour"), None))
              == Success(Colour("#000000", 50, "reason for the colour", ""))
  {
    assert HexRun("#FF0000", 1, 6);
    assert HexRun("#000000", 1, 6);
  }

  /** Why a reply did not give a colour. */
  datatype LoadError = NotJsonObject | InvalidFields(fields: seq<Field>)

  /**
   * `load_alert_colour` after the LLM call: clean the reply down to its outer
   * braces, decode it, validate it.
   */
  function LoadAlertColour(reply: string, decode: string -> Option<ColourFields>): (r: Result<Colour, LoadError>)
    ensures decode(ExtractBraces(reply)).None? ==> r == Failure(NotJsonObject)
    ensures decode(ExtractBraces(reply)).Some? ==>
              (r.Success? <==> ValidateColour(decode(ExtractBraces(reply)).value).Success?)
    ensures decode(ExtractBraces(reply)).Some? && r.Success? ==>
              r.value == ValidateColour(decode(ExtractBraces(reply)).value).value
    ensures decode(ExtractBraces(reply)).Some? && r.Failure? ==>
              r.error == InvalidFields(ValidateColour(decode(ExtractBraces(reply)).value).error)
    ensures r.Success? ==> WellFormed(r.value)
  {
    match decode(ExtractBraces(reply))
    case None => Failure(NotJsonObject)
    case Some(fields) =>
      match ValidateColour(fields)
      case Success(c) => Success(c)
      case Failure(errors) => Failure(InvalidFields(errors))
  }
}
