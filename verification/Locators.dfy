/** Canonical `source://` locators: the printer, the parser, and when they undo each other. */
module Locators {
  import opened Wrappers
  import opened Strings
  import opened Regexes

  /**
   * What the text library decides: Unicode digits and their values, white space, and the strip-and-lower-case
   * normal form of a modality.
   */
  datatype Unicode = Unicode(digit: char -> bool, value: char -> nat, space: char -> bool, normal: string -> string)

  const DIGITS: string := "0123456789"

  predicate AsciiDigit(c: char) { '0' <= c <= '9' }

  predicate ModalityChar(c: char) { 'a' <= c <= 'z' || AsciiDigit(c) || c == '_' || c == '-' }

  predicate UrlSafeChar(c: char) { 'A' <= c <= 'Z' || ModalityChar(c) }

  predicate StructuralChar(c: char) { 'a' <= c <= 'z' || AsciiDigit(c) || c == '/' || c == '_' || c == '.' || c == '-' }

  predicate AllModality(s: string) { s != "" && forall c | c in s :: ModalityChar(c) }

  predicate UrlSafe(s: string) { s != "" && forall c | c in s :: UrlSafeChar(c) }

  /** No ASCII character but 0-9 is a digit; normal forms are normal, and no longer than what they come from. */
  ghost predicate Faithful(u: Unicode) {
    && (forall c | u.digit(c) :: AsciiDigit(c) || c as int >= 128)
    && (forall s | AllModality(s) :: u.normal(s) == s)
    && (forall s | AllModality(u.normal(s)) :: |u.normal(s)| <= |s|)
  }

  // ---------------------------------------------------------------------------
  // Values
  // ---------------------------------------------------------------------------

  datatype PipelineVersion = PipelineVersion(segmenter: string, decoder: string, renderer: string, ordinal: int)

  datatype Selector =
    | Iiif(region: string)
    | Cfi(cfi: string)
    | Media(t: Option<string>, track: Option<string>, spatial: Option<string>)
    | Structural(path: string)
    | ByteOffset(start: nat, end: nat)

  datatype Locator = Locator(
    sourceId: string, modality: string, segment: string, version: Option<PipelineVersion>, frag: Option<Selector>)

  datatype LocatorError =
    | NotASourceLocator
    | InvalidVersion
    | MissingComponent
    | EmptyComponent
    | InvalidSelector
    | InvalidField
    | ByteOffsetOnly

  // ---------------------------------------------------------------------------
  // Patterns
  // ---------------------------------------------------------------------------

  function Digits(u: Unicode): Regex { Plus(One(u.digit)) }

  function Word(s: string): Regex { if s == "" then Empty else Seq(Lit(s[0]), Word(s[1..])) }

  /** Four of them, with commas between. */
  function Quad(r: Regex): Regex { Seq(r, Seq(Lit(','), Seq(r, Seq(Lit(','), Seq(r, Seq(Lit(','), r)))))) }

  function Xywh(u: Unicode): Regex { Quad(Digits(u)) }

  function Percent(u: Unicode): Regex { Seq(Digits(u), Opt(Seq(Alt(Lit('.'), Lit(',')), Digits(u)))) }

  function Pct(u: Unicode): Regex { Seq(Word("pct:"), Quad(Percent(u))) }

  function Fraction(u: Unicode): Regex { Seq(Lit('.'), Digits(u)) }

  function Time(u: Unicode): Regex {
    Seq(Digits(u), Seq(Opt(Seq(Opt(Fraction(u)), Lit(','))), Seq(Star(One(u.digit)), Opt(Fraction(u)))))
  }

  function StructuralPath(): Regex { Plus(One(StructuralChar)) }

  predicate IsRegion(u: Unicode, s: string) { LineMatch(Xywh(u), s) || LineMatch(Pct(u), s) }

  // ---------------------------------------------------------------------------
  // Constructors with their validators
  // ---------------------------------------------------------------------------

  /** A component as the version's own constructor demands it. */
  predicate VersionComponent(s: string) { s != "" && '/' !in s && '?' !in s && '#' !in s && '@' !in s }

  predicate ValidVersion(v: PipelineVersion) {
    VersionComponent(v.segmenter) && VersionComponent(v.decoder) && VersionComponent(v.renderer)
  }

  predicate AtMost(s: Option<string>, n: nat) { s.None? || |s.value| <= n }

  predicate Truthy(s: Option<string>) { s.Some? && s.value != "" }

  predicate ValidSelector(u: Unicode, s: Selector) {
    match s
    case Iiif(region) => |region| <= 128 && IsRegion(u, region)
    case Cfi(cfi) => |cfi| <= 512 && StartsWith(cfi, "epubcfi(") && EndsWith(cfi, ")")
    case Media(t, track, spatial) =>
      && AtMost(t, 64) && AtMost(track, 128) && AtMost(spatial, 128)
      && (t.Some? ==> LineMatch(Time(u), t.value))
      && (Truthy(t) || Truthy(track) || Truthy(spatial))
    case Structural(path) => |path| <= 512 && path != "" && Stripped(path, '/') && LineMatch(StructuralPath(), path)
    case ByteOffset(start, end) => start <= end
  }

  function Checked(u: Unicode, s: Selector): Result<Selector, LocatorError> {
    if ValidSelector(u, s) then Success(s) else Failure(InvalidSelector)
  }

  /** The validator strips the path; the length is that of the text given. */
  function MakeStructural(u: Unicode, raw: string): Result<Selector, LocatorError> {
    if |raw| <= 512 then Checked(u, Structural(Strip(raw, '/'))) else Failure(InvalidSelector)
  }

  /** A locator that any caller could have constructed. */
  predicate ValidLocator(u: Unicode, l: Locator) {
    && |l.sourceId| <= 256
    && |l.modality| <= 32 && AllModality(l.modality)
    && |l.segment| <= 512 && UrlSafe(l.segment)
    && (l.version.Some? ==> ValidVersion(l.version.value))
    && (l.frag.Some? ==> ValidSelector(u, l.frag.value) && !l.frag.value.ByteOffset?)
  }

  function MakeLocator(u: Unicode, sourceId: string, modality: string, segment: string,
                       version: Option<PipelineVersion>,
                       frag: Option<Selector>): Result<Locator, LocatorError> {
    if |sourceId| > 256 || |modality| > 32 || |segment| > 512 then Failure(InvalidField)
    else if !AllModality(u.normal(modality)) || !UrlSafe(segment) then Failure(InvalidField)
    else if frag.Some? && frag.value.ByteOffset? then Failure(ByteOffsetOnly)
    else Success(Locator(sourceId, u.normal(modality), segment, version, frag))
  }

  // ---------------------------------------------------------------------------
  // Printing
  // ---------------------------------------------------------------------------

  function Tag(v: PipelineVersion): string { "v" + v.segmenter + "." + v.decoder + "." + v.renderer }

  function Part(name: string, s: Option<string>): seq<string> { if Truthy(s) then [name + s.value] else [] }

  function MediaParts(s: Selector): seq<string>
    requires s.Media?
  {
    Part("t=", s.t) + Part("track=", s.track) + Part("spatial=", s.spatial)
  }

  function Decimal(n: nat): string {
    if n < 10 then [DIGITS[n]] else Decimal(n / 10) + [DIGITS[n % 10]]
  }

  function Frag(s: Selector): string {
    match s
    case Iiif(region) => region
    case Cfi(cfi) => cfi
    case Media(_, _, _) => JoinWith(MediaParts(s), '&')
    case Structural(path) => path
    case ByteOffset(start, end) => "bytes=" + Decimal(start) + "-" + Decimal(end)
  }

  function Place(l: Locator): string { l.sourceId + "/" + l.modality + "/" + l.segment }

  function Versioned(l: Locator): string { if l.version.Some? then Place(l) + "@" + Tag(l.version.value) else Place(l) }

  function Canonical(l: Locator): string {
    "source://" + if l.frag.Some? then Versioned(l) + "?frag=" + Frag(l.frag.value) else Versioned(l)
  }

  // ---------------------------------------------------------------------------
  // Parsing
  // ---------------------------------------------------------------------------

  /** A component as the tag pattern demands it; the dot is the pattern's separator. */
  predicate TagComponent(u: Unicode, s: string) {
    s != "" && forall c | c in s :: c != '.' && !u.space(c) && c != '?' && c != '@' && c != '#'
  }

  function FromTag(u: Unicode, tag: string): Result<PipelineVersion, LocatorError> {
    if tag == "" || tag[0] != 'v' then Failure(InvalidVersion)
    else
      var p := Split(tag[1..], '.');
      if |p| != 3 || !TagComponent(u, p[0]) || !TagComponent(u, p[1]) || !TagComponent(u, p[2]) then
        Failure(InvalidVersion)
      else
        var v := PipelineVersion(p[0], p[1], p[2], 0);
        if ValidVersion(v) then Success(v) else Failure(InvalidVersion)
  }

  /** The last value given for each parameter. */
  function ReadParts(parts: seq<string>, s: Selector): Result<Selector, LocatorError>
    requires s.Media?
    ensures ReadParts(parts, s).Success? ==> ReadParts(parts, s).value.Media?
    decreases |parts|
  {
    if parts == [] then Success(s)
    else if StartsWith(parts[0], "t=") then ReadParts(parts[1..], s.(t := Some(parts[0][2..])))
    else if StartsWith(parts[0], "track=") then ReadParts(parts[1..], s.(track := Some(parts[0][6..])))
    else if StartsWith(parts[0], "spatial=") then ReadParts(parts[1..], s.(spatial := Some(parts[0][8..])))
    else Failure(InvalidSelector)
  }

  predicate LooksLikeMedia(raw: string) {
    '&' in raw || StartsWith(raw, "t=") || StartsWith(raw, "track=") || StartsWith(raw, "spatial=")
  }

  predicate AllDigits(u: Unicode, s: string) { s != "" && forall c | c in s :: u.digit(c) }

  function ValueOf(u: Unicode, s: string): nat {
    if s == "" then 0 else ValueOf(u, s[..|s| - 1]) * 10 + u.value(s[|s| - 1])
  }

  function ParseBytes(u: Unicode, range: string): Result<Selector, LocatorError> {
    var cut := Cut(range, "-");
    if cut.None? || !AllDigits(u, cut.value.0) || !AllDigits(u, cut.value.1) then Failure(InvalidSelector)
    else Checked(u, ByteOffset(ValueOf(u, cut.value.0), ValueOf(u, cut.value.1)))
  }

  function ParseSelector(u: Unicode, raw: string): Result<Selector, LocatorError> {
    if raw == "" then Failure(InvalidSelector)
    else if StartsWith(raw, "epubcfi(") then Checked(u, Cfi(raw))
    else if StartsWith(raw, "bytes=") then ParseBytes(u, raw[6..])
    else if LooksLikeMedia(raw) then
      var read := ReadParts(Split(raw, '&'), Media(None, None, None));
      if read.Failure? then read else Checked(u, read.value)
    else if IsRegion(u, raw) then Checked(u, Iiif(raw))
    else if LineMatch(StructuralPath(), Strip(raw, '/')) && Strip(raw, '/') != "" then MakeStructural(u, raw)
    else Failure(InvalidSelector)
  }

  /** Source id, modality and segment, and whatever version and selector came with them. */
  function ParsePlace(u: Unicode, place: string, version: Option<PipelineVersion>,
                      frag: Option<string>): Result<Locator, LocatorError> {
    var first := Cut(place, "/");
    if first.None? then Failure(MissingComponent)
    else
      var second := Cut(first.value.1, "/");
      if second.None? then Failure(MissingComponent)
      else
        var (sourceId, modality, segment) := (first.value.0, second.value.0, second.value.1);
        if sourceId == "" || modality == "" || segment == "" then Failure(EmptyComponent)
        else if frag.None? then MakeLocator(u, sourceId, modality, segment, version, None)
        else
          var selector := ParseSelector(u, frag.value);
          if selector.Failure? then Failure(selector.error)
          else MakeLocator(u, sourceId, modality, segment, version, Some(selector.value))
  }

  function ParseBody(u: Unicode, body: string, frag: Option<string>): Result<Locator, LocatorError> {
    if Contains(body, "@v") then
      var cut := Cut(body, "@");
      if cut.None? then Failure(InvalidVersion)
      else
        var version := FromTag(u, cut.value.1);
        if version.Failure? then Failure(version.error) else ParsePlace(u, cut.value.0, Some(version.value), frag)
    else ParsePlace(u, body, None, frag)
  }

  function Parse(u: Unicode, text: string): Result<Locator, LocatorError> {
    if !StartsWith(text, "source://") then Failure(NotASourceLocator)
    else
      var cut := Cut(text[9..], "?frag=");
      if cut.Some? then ParseBody(u, cut.value.0, Some(cut.value.1)) else ParseBody(u, text[9..], None)
  }
}
