/** The request-level helpers of the new service: file-type sniffing, the engine
    configuration string, and the parameter checks of its three upload endpoints. */
module Requests {
  import opened Basics
  import opened Numerals
  import opened Tesseract

  /** The four bytes `%PDF`. */
  const PdfMagic: Bytes := [0x25, 0x50, 0x44, 0x46]

  /** `contents[:4] == b"%PDF"`: the slice is shorter than four bytes for short input. */
  predicate IsPdf(contents: Bytes)
  {
    contents[..if |contents| < 4 then |contents| else 4] == PdfMagic
  }

  function FileTypeOf(contents: Bytes): (t: string)
    ensures t == "PDF" || t == "Image"
    ensures t == "PDF" <==>
      |contents| >= 4 && contents[0] == 0x25 && contents[1] == 0x50 &&
      contents[2] == 0x44 && contents[3] == 0x46
  {
    if IsPdf(contents) then "PDF" else "Image"
  }

  /** The recognition parameters of an upload. */
  datatype OcrParams = OcrParams(lang: string, dpi: Option<int>, psm: int, config: Option<string>)

  /** Python truthiness of `dpi`: present and nonzero. */
  predicate DpiGiven(dpi: Option<int>)
  {
    dpi.Some? && dpi.value != 0
  }

  /** `config and config.startswith("--")`. */
  predicate FlagsGiven(config: Option<string>)
  {
    config.Some? && config.value != "" && StartsWith(config.value, "--")
  }

  function BaseConfig(p: OcrParams): string
  {
    "-l " + p.lang + " --psm " + IntToString(p.psm)
  }

  function DpiPart(p: OcrParams): string
  {
    if DpiGiven(p.dpi) then " --dpi " + IntToString(p.dpi.value) else ""
  }

  /** The configuration string handed to the engine for every page. */
  function BuildConfig(p: OcrParams): (s: string)
    ensures StartsWith(s, BaseConfig(p))
    ensures |s| == |BaseConfig(p)|
                   + (if DpiGiven(p.dpi) then 7 + |IntToString(p.dpi.value)| else 0)
                   + (if FlagsGiven(p.config) then 1 + |p.config.value| else 0)
    ensures DpiGiven(p.dpi) ==>
      s[|BaseConfig(p)|..|BaseConfig(p)| + 7 + |IntToString(p.dpi.value)|] == " --dpi " + IntToString(p.dpi.value)
    ensures FlagsGiven(p.config) ==> s[|s| - |p.config.value| - 1..] == " " + p.config.value
  {
    var base := BaseConfig(p) + DpiPart(p);
    var s := if FlagsGiven(p.config) then base + " " + p.config.value else base;
    assert s[..|BaseConfig(p)|] == BaseConfig(p);
    s
  }

  /** The three endpoints that validate recognition parameters. */
  datatype Endpoint = Sync | Async | Searchable

  /** The first parameter check that failed. */
  datatype Rejection = LanguageUnavailable | DpiNotPositive | InvalidPsm | ConfigNotDashed

  /** The page segmentation modes an endpoint accepts. */
  function PsmValues(e: Endpoint): seq<int>
  {
    match e
    case Sync => [3, 4, 5, 6, 8, 9, 10, 11, 12, 13]
    case Async => [0, 1, 2, 3, 4, 6, 8, 9, 11, 12, 13]
    case Searchable => [0, 1, 2, 3, 4, 6, 8, 9, 11, 12, 13]
  }

  predicate LanguageOk(p: OcrParams, available: seq<string>) { p.lang in available }

  predicate DpiOk(p: OcrParams) { p.dpi.None? || p.dpi.value > 0 }

  predicate PsmOk(e: Endpoint, p: OcrParams) { p.psm in PsmValues(e) }

  /** `config` may be absent or empty; otherwise it must start with `--`. */
  predicate ConfigOk(p: OcrParams)
  {
    p.config.None? || p.config.value == "" || StartsWith(p.config.value, "--")
  }

  /** The endpoint's checks in their fixed order; the first one that fails decides the
      rejection, and `None` means the request is accepted. */
  function Validate(e: Endpoint, p: OcrParams, available: seq<string>): (r: Option<Rejection>)
    ensures r.None? <==> LanguageOk(p, available) && DpiOk(p) && PsmOk(e, p) && ConfigOk(p)
    ensures r == Some(LanguageUnavailable) <==> !LanguageOk(p, available)
    ensures r == Some(DpiNotPositive) <==> LanguageOk(p, available) && !DpiOk(p)
    ensures r == Some(InvalidPsm) <==> LanguageOk(p, available) && DpiOk(p) && !PsmOk(e, p)
    ensures r == Some(ConfigNotDashed) <==>
      LanguageOk(p, available) && DpiOk(p) && PsmOk(e, p) && !ConfigOk(p)
  {
    if p.lang !in available then Some(LanguageUnavailable)
    else if p.dpi.Some? && p.dpi.value <= 0 then Some(DpiNotPositive)
    else if p.psm !in PsmValues(e) then Some(InvalidPsm)
    else if p.config.Some? && p.config.value != "" && !StartsWith(p.config.value, "--") then Some(ConfigNotDashed)
    else None
  }

  /** The `error` text of the 400 response. */
  function RejectionMessage(e: Endpoint, r: Rejection): string
  {
    match r
    case LanguageUnavailable => "Specified language is not available"
    case DpiNotPositive => "DPI must be more than 0"
    case InvalidPsm =>
      if e == Searchable then "Invalid PSM value"
      else "Invalid PSM value. Must be one of: " + PsmListText(e)
    case ConfigNotDashed => "Config must start with '--'"
  }

  /** The accepted modes as the two submission endpoints print them into the message. */
  function PsmListText(e: Endpoint): string
  {
    if e == Sync then "[3, 4, 5, 6, 8, 9, 10, 11, 12, 13]" else "[0, 1, 2, 3, 4, 6, 8, 9, 11, 12, 13]"
  }

  /** The opening words of the 400 text tell which check failed, on every endpoint. */
  lemma RejectionMessageTells(e: Endpoint, r: Rejection)
    ensures r == LanguageUnavailable <==> StartsWith(RejectionMessage(e, r), "Specified")
    ensures r == DpiNotPositive <==> StartsWith(RejectionMessage(e, r), "DPI")
    ensures r == InvalidPsm <==> StartsWith(RejectionMessage(e, r), "Invalid PSM value")
    ensures r == ConfigNotDashed <==> StartsWith(RejectionMessage(e, r), "Config")
  {
    var s := RejectionMessage(e, r);
    var c := MessageOpening(e, r);
    OpeningsDiffer(s, c);
  }

  /** Each message starts with its own opening words; the result is their first letter. */
  lemma MessageOpening(e: Endpoint, r: Rejection) returns (c: char)
    ensures |RejectionMessage(e, r)| > 0 && RejectionMessage(e, r)[0] == c
    ensures r == LanguageUnavailable ==> c == 'S' && StartsWith(RejectionMessage(e, r), "Specified")
    ensures r == DpiNotPositive ==> c == 'D' && StartsWith(RejectionMessage(e, r), "DPI")
    ensures r == InvalidPsm ==> c == 'I' && StartsWith(RejectionMessage(e, r), "Invalid PSM value")
    ensures r == ConfigNotDashed ==> c == 'C' && StartsWith(RejectionMessage(e, r), "Config")
  {
    match r
    case LanguageUnavailable => c := 'S';
    case DpiNotPositive => c := 'D';
    case InvalidPsm =>
      PsmMessageOpening(e);
      c := 'I';
    case ConfigNotDashed => c := 'C';
  }

  /** A text can only start with those of the four openings that share its first letter. */
  lemma OpeningsDiffer(s: string, c: char)
    requires |s| > 0 && s[0] == c
    ensures StartsWith(s, "Specified") ==> c == 'S'
    ensures StartsWith(s, "DPI") ==> c == 'D'
    ensures StartsWith(s, "Invalid PSM value") ==> c == 'I'
    ensures StartsWith(s, "Config") ==> c == 'C'
  {
    StartsWithHead(s, "Specified");
    StartsWithHead(s, "DPI");
    StartsWithHead(s, "Invalid PSM value");
    StartsWithHead(s, "Config");
  }

  /** The mode message opens with the same words on every endpoint. */
  lemma PsmMessageOpening(e: Endpoint)
    ensures StartsWith(RejectionMessage(e, InvalidPsm), "Invalid PSM value")
    ensures RejectionMessage(e, InvalidPsm)[0] == 'I'
  {
    if e != Searchable {
      var opening := "Invalid PSM value. Must be one of: ";
      assert opening[..17] == "Invalid PSM value";
      assert (opening + PsmListText(e))[..17] == opening[..17];
    }
  }

  /** The synchronous endpoint accepts modes 5 and 10, which the asynchronous one
      refuses, and refuses 0, 1 and 2, which the asynchronous one accepts. */
  lemma PsmSetsDiffer(p: OcrParams)
    ensures PsmOk(Sync, p) <==> p.psm in {3, 4, 5, 6, 8, 9, 10, 11, 12, 13}
    ensures PsmOk(Async, p) <==> p.psm in {0, 1, 2, 3, 4, 6, 8, 9, 11, 12, 13}
    ensures PsmOk(Async, p) == PsmOk(Searchable, p)
    ensures PsmOk(Sync, p) && !PsmOk(Async, p) <==> p.psm == 5 || p.psm == 10
    ensures PsmOk(Async, p) && !PsmOk(Sync, p) <==> 0 <= p.psm <= 2
  {
  }

  /** An accepted request never has a non-positive resolution, so for it "resolution
      given" (truthiness) and "resolution present" coincide. */
  lemma AcceptedDpiIsGiven(e: Endpoint, p: OcrParams, available: seq<string>)
    requires Validate(e, p, available).None?
    ensures DpiGiven(p.dpi) <==> p.dpi.Some?
    ensures FlagsGiven(p.config) <==> p.config.Some? && p.config.value != ""
  {
  }
}
