/**
 * The static format catalogue: which destinations the rule editor offers for each source
 * extension, the encoder name handed to the image library for each destination extension,
 * and the extensions accepted as input.
 */
module Catalog {
  import opened Text

  /** The destination used when no rule applies. */
  const DefaultFormat: string := "jpg"

  /** Destinations offered per source extension. */
  const ConversionMap: map<string, seq<string>> := map[
    "png" := ["jpg", "webp", "bmp", "avif"],
    "bmp" := ["jpg", "png", "webp", "avif"],
    "webp" := ["jpg", "png", "avif"],
    "tiff" := ["jpg", "png", "avif"],
    "jpeg" := ["png", "webp", "avif"],
    "jpg" := ["png", "webp", "avif"],
    "avif" := ["jpg", "png"],
    "heic" := ["jpg", "png"],
    "ico" := ["png", "jpg"],
    "tga" := ["jpg", "png"]
  ]

  /** Encoder name per destination extension. */
  const FormatMap: map<string, string> := map[
    "jpg" := "JPEG",
    "jpeg" := "JPEG",
    "png" := "PNG",
    "webp" := "WEBP",
    "bmp" := "BMP",
    "tiff" := "TIFF",
    "avif" := "AVIF",
    "ico" := "ICO",
    "tga" := "TGA"
  ]

  /** File-name endings accepted as input (compared against the lower-cased path). */
  const SupportedExtensions: seq<string> :=
    [".png", ".jpg", ".jpeg", ".bmp", ".webp", ".tiff", ".avif", ".heic", ".ico", ".tga"]

  /**
   * The destinations the rule editor offers once a source is chosen
   * (`conversion_map.get(src.lower(), [DEFAULT_FORMAT])`): the catalogue's list for a known
   * source and the default for an unknown one; never empty, every one of them has an
   * encoder name, and none is the source itself.
   */
  function AllowedDestinations(src: string): (dsts: seq<string>)
    ensures Lower(src) in ConversionMap ==> dsts == ConversionMap[Lower(src)]
    ensures |dsts| > 0
    ensures forall i :: 0 <= i < |dsts| ==> dsts[i] in FormatMap && dsts[i] != Lower(src)
    ensures Lower(src) !in ConversionMap ==> dsts == [DefaultFormat]
  {
    var key := Lower(src);
    if key in ConversionMap then ConversionMap[key] else [DefaultFormat]
  }

  /**
   * `format_map.get(dst, dst.upper())`: total, and equal to the upper-cased extension for
   * every destination except `jpg`, whose encoder is `JPEG`.
   */
  function EncoderName(dst: string): (name: string)
    ensures name == if dst == "jpg" then "JPEG" else Upper(dst)
  {
    if dst in FormatMap then FormatMap[dst] else Upper(dst)
  }

  /** `path.lower().endswith(SUPPORTED_EXTENSIONS)` */
  predicate IsSupported(path: string) {
    exists i :: 0 <= i < |SupportedExtensions| && EndsWith(Lower(path), SupportedExtensions[i])
  }

  /** The catalogue's sources are exactly the supported input extensions, without their dot. */
  lemma CatalogCoversSupported(ext: string)
    ensures ext in ConversionMap <==> "." + ext in SupportedExtensions
  {
    var dotted := "." + ext;
    assert ext == dotted[1..];
    if dotted in SupportedExtensions {
      var i :| 0 <= i < |SupportedExtensions| && SupportedExtensions[i] == dotted;
      assert ext == SupportedExtensions[i][1..];
    }
    if ext in ConversionMap {
      SupportedSourceListed(ext);
    }
  }

  lemma SupportedSourceListed(ext: string)
    requires ext in ConversionMap
    ensures "." + ext in SupportedExtensions
  {
    var dotted := "." + ext;
    if ext == "png" { assert dotted == SupportedExtensions[0]; }
    else if ext == "jpg" { assert dotted == SupportedExtensions[1]; }
    else if ext == "jpeg" { assert dotted == SupportedExtensions[2]; }
    else if ext == "bmp" { assert dotted == SupportedExtensions[3]; }
    else if ext == "webp" { assert dotted == SupportedExtensions[4]; }
    else if ext == "tiff" { assert dotted == SupportedExtensions[5]; }
    else if ext == "avif" { assert dotted == SupportedExtensions[6]; }
    else if ext == "heic" { assert dotted == SupportedExtensions[7]; }
    else if ext == "ico" { assert dotted == SupportedExtensions[8]; }
    else { assert ext == "tga"; assert dotted == SupportedExtensions[9]; }
  }

  /** Every supported ending is a dot followed by lower-case letters. */
  lemma SupportedExtensionShape(i: int)
    requires 0 <= i < |SupportedExtensions|
    ensures |SupportedExtensions[i]| >= 2 && SupportedExtensions[i][0] == '.'
    ensures forall k :: 1 <= k < |SupportedExtensions[i]| ==> IsLowerAscii(SupportedExtensions[i][k])
  {
    var s := SupportedExtensions[i];
    if i == 0 { assert s == ".png"; }
    else if i == 1 { assert s == ".jpg"; }
    else if i == 2 { assert s == ".jpeg"; }
    else if i == 3 { assert s == ".bmp"; }
    else if i == 4 { assert s == ".webp"; }
    else if i == 5 { assert s == ".tiff"; }
    else if i == 6 { assert s == ".avif"; }
    else if i == 7 { assert s == ".heic"; }
    else if i == 8 { assert s == ".ico"; }
    else { assert s == ".tga"; }
  }

  /** Each supported ending, without its dot, is a source of the catalogue. */
  lemma SupportedEndingIsSource(i: int)
    requires 0 <= i < |SupportedExtensions|
    ensures SupportedExtensions[i][1..] in ConversionMap
  {
    var suffix := SupportedExtensions[i];
    SupportedExtensionShape(i);
    assert "." + suffix[1..] == suffix;
    CatalogCoversSupported(suffix[1..]);
  }
}
