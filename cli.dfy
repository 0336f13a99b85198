/** The exact-string validators applied to the command line and to the image
    metadata before anything remote happens. */
module Cli {
  import opened Wrappers
  import opened Aws

  /** The only supported target system. */
  const SupportedSystem := "x86_64-linux"

  datatype OutputFormat = Json

  /** The spelling `--output-format` accepts for each format. */
  function FormatName(f: OutputFormat): string
  {
    match f
    case Json => "json"
  }

  /** `OutputFormat::from_str`: accepts exactly "json"; any other string is
      refused with a message that quotes it. */
  function ParseOutputFormat(s: string): (r: Result<OutputFormat, string>)
    ensures r.Ok? <==> s == "json"
    ensures r.Ok? ==> FormatName(r.value) == s
    ensures r.Err? ==> r.error == "invalid format '" + s + "'; must be 'json'"
  {
    if s == "json" then Ok(Json)
    else Err("invalid format '" + s + "'; must be 'json'")
  }

  /** Every format's spelling parses back to that format. */
  lemma FormatRoundTrip(f: OutputFormat)
    ensures ParseOutputFormat(FormatName(f)) == Ok(f)
  {
  }

  /** The refusal message quotes the refused string at a fixed offset, so
      the message determines the string. */
  lemma {:induction false} FormatErrorQuotesInput(s: string)
    requires s != "json"
    ensures var m := ParseOutputFormat(s).error;
      |m| == |s| + 33 && m[16..16 + |s|] == s
  {
    var m := ParseOutputFormat(s).error;
    assert m == ("invalid format '" + s) + "'; must be 'json'";
    assert ("invalid format '" + s)[16..] == s;
  }

  /** The metadata's system must be exactly the supported one. */
  function CheckSystem(system: string): (r: Result<(), Failure>)
    ensures r.Ok? <==> system == SupportedSystem
    ensures r.Err? ==> r.error == UnsupportedSystem(system)
  {
    if system == SupportedSystem then Ok(()) else Err(UnsupportedSystem(system))
  }
}
