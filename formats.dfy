/** The format resolver: which container an output is written in, and the
    file extension that goes with it. */
module Formats {
  import opened Wrappers

  /** get_output_format: a non-empty requested format wins; otherwise the
      original one, with the alias "JPG" read as "JPEG"; otherwise "JPEG".
      Only the original is normalised: a requested "JPG" passes through. */
  function OutputFormat(original: Option<string>, requested: Option<string>): (r: string)
    ensures r != ""
    ensures Truthy(requested) ==> r == requested.value
    ensures !Truthy(requested) && Truthy(original) && original.value != "JPG" ==> r == original.value
    ensures !Truthy(requested) && original == Some("JPG") ==> r == "JPEG"
    ensures !Truthy(requested) && !Truthy(original) ==> r == "JPEG"
    ensures r == "JPG" <==> requested == Some("JPG")
  {
    var normalised := if original == Some("JPG") then Some("JPEG") else original;
    if Truthy(requested) then requested.value
    else if Truthy(normalised) then normalised.value
    else "JPEG"
  }

  /** Resolving a resolved format again, with nothing requested, gives it
      back exactly when it is not the alias "JPG". */
  lemma ResolveTwice(original: Option<string>, requested: Option<string>)
    ensures var r := OutputFormat(original, requested);
            OutputFormat(Some(r), None) == r <==> r != "JPG"
  {
  }

  /** get_file_extension: JPEG, PNG and WEBP have their own extension; any
      other name (BMP, the alias JPG, ...) falls back to ".jpg". */
  function FileExtension(format: string): (ext: string)
    ensures ext in {".jpg", ".png", ".webp"}
    ensures ext == ".png" <==> format == "PNG"
    ensures ext == ".webp" <==> format == "WEBP"
  {
    if format == "JPEG" then ".jpg"
    else if format == "PNG" then ".png"
    else if format == "WEBP" then ".webp"
    else ".jpg"
  }

  /** No extension holds '_', so a name's "_"-separated numbers end before it. */
  lemma ExtensionWithoutUnderscore(format: string)
    ensures '_' !in FileExtension(format)
  {
  }

  /** The stitch job's own extension rule: ".png" for PNG, ".jpg" for
      everything else, WEBP and an unknown (None) format included. */
  function StitchExtension(format: Option<string>): (ext: string)
    ensures ext in {".jpg", ".png"}
    ensures ext == ".png" <==> format == Some("PNG")
  {
    if format == Some("PNG") then ".png" else ".jpg"
  }

  /** The two extension rules disagree on WEBP and only on WEBP. */
  lemma StitchExtensionDiffers(format: string)
    ensures StitchExtension(Some(format)) != FileExtension(format) <==> format == "WEBP"
  {
  }

  /** How the stitch result is handed to the encoder: JPEG is flattened to
      RGB and saved at a fixed quality of 95; any other format is saved
      with the encoder's defaults. */
  datatype StitchSave = StitchSave(format: Option<string>, flattenToRgb: bool, quality: Option<nat>)

  function StitchSaveFor(format: Option<string>): (s: StitchSave)
    ensures s.format == format
    ensures s.flattenToRgb <==> format == Some("JPEG")
    ensures s.quality.Some? <==> format == Some("JPEG")
    ensures s.quality.Some? ==> s.quality.value == 95
  {
    if format == Some("JPEG") then StitchSave(format, true, Some(95))
    else StitchSave(format, false, None)
  }
}
