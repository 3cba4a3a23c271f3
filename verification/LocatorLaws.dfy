/** When printing and parsing a locator undo each other. */
module LocatorLaws {
  import opened Wrappers
  import opened Strings
  import opened Regexes
  import opened Locators

  // ---------------------------------------------------------------------------
  // What can be printed and read back
  // ---------------------------------------------------------------------------

  predicate CleanSource(l: Locator) {
    && l.sourceId != "" && '/' !in l.sourceId && !Contains(l.sourceId, "?frag=")
    && if l.version.None? then !Contains(l.sourceId, "@v") else '@' !in l.sourceId
  }

  /** Without dots, white space and the separators of a locator. */
  predicate CleanComponent(u: Unicode, s: string) { s != "" && forall c | c in s :: c !in "./?#@" && !u.space(c) }

  predicate CleanVersion(u: Unicode, v: PipelineVersion) {
    && CleanComponent(u, v.segmenter) && CleanComponent(u, v.decoder) && CleanComponent(u, v.renderer)
    && v.ordinal == 0
  }

  predicate CleanField(s: Option<string>) { s.Some? ==> '&' !in s.value }

  predicate CleanSelector(s: Selector) {
    match s
    case Media(t, track, spatial) => CleanField(t) && CleanField(track) && CleanField(spatial)
    case ByteOffset(_, _) => false
    case _ => true
  }

  predicate NoEmptyField(s: Selector) {
    s.Media? ==> s.t != Some("") && s.track != Some("") && s.spatial != Some("")
  }

  predicate Clean(u: Unicode, l: Locator) {
    && CleanSource(l)
    && (l.version.Some? ==> CleanVersion(u, l.version.value))
    && (l.frag.Some? ==> CleanSelector(l.frag.value))
  }

  predicate Printable(u: Unicode, l: Locator) { Clean(u, l) && (l.frag.Some? ==> NoEmptyField(l.frag.value)) }

  function Dropped(s: Option<string>): Option<string> { if s == Some("") then None else s }

  /** Empty media fields are not printed. */
  function WithoutEmpty(l: Locator): Locator {
    match l.frag
    case Some(Media(t, track, spatial)) => l.(frag := Some(Media(Dropped(t), Dropped(track), Dropped(spatial))))
    case _ => l
  }

  // ---------------------------------------------------------------------------
  // The patterns
  // ---------------------------------------------------------------------------

  lemma QuadMentions(r: Regex, c: char)
    ensures Mentions(Quad(r), c) <==> Mentions(r, c) || c == ','
    ensures Needs(Quad(r), ',')
  {
    var last := Seq(Lit(','), r);
    var two := Seq(Lit(','), Seq(r, last));
    var three := Seq(Lit(','), Seq(r, two));
    assert Quad(r) == Seq(r, three);
    assert Mentions(last, c) <==> Mentions(r, c) || c == ',';
    assert Mentions(Seq(r, last), c) <==> Mentions(r, c) || c == ',';
    assert Mentions(two, c) <==> Mentions(r, c) || c == ',';
    assert Mentions(Seq(r, two), c) <==> Mentions(r, c) || c == ',';
    assert Mentions(three, c) <==> Mentions(r, c) || c == ',';
    assert Needs(Lit(','), ',') && Needs(three, ',');
  }

  lemma DigitsMention(u: Unicode, c: char)
    ensures Mentions(Digits(u), c) <==> u.digit(c)
  {
    assert Mentions(One(u.digit), c) <==> u.digit(c);
    assert Mentions(Star(One(u.digit)), c) <==> u.digit(c);
  }

  lemma {:induction false} WordMentions(s: string, c: char)
    ensures Mentions(Word(s), c) <==> c in s
  {
    if s != "" {
      WordMentions(s[1..], c);
      assert s == [s[0]] + s[1..];
      assert Mentions(Lit(s[0]), c) <==> s[0] == c;
    }
  }

  predicate RegionChar(u: Unicode, c: char) { u.digit(c) || c in "pct:.,\n" }

  lemma PercentMentions(u: Unicode, c: char)
    requires Mentions(Percent(u), c)
    ensures u.digit(c) || c == '.' || c == ','
  {
    DigitsMention(u, c);
    var point := Alt(Lit('.'), Lit(','));
    LitMentions('.', c);
    LitMentions(',', c);
    assert Mentions(point, c) ==> c == '.' || c == ',';
    assert Mentions(Seq(point, Digits(u)), c) ==> c == '.' || c == ',' || u.digit(c);
    OptMentions(Seq(point, Digits(u)), c);
  }

  lemma LitMentions(x: char, c: char)
    ensures Mentions(Lit(x), c) <==> x == c
  {}

  lemma OptMentions(r: Regex, c: char)
    ensures Mentions(Opt(r), c) <==> Mentions(r, c)
  {
    assert !Mentions(Empty, c);
  }

  lemma RegionMentions(u: Unicode, region: string)
    requires IsRegion(u, region)
    ensures ',' in region && forall c | c in region :: RegionChar(u, c)
  {
    QuadMentions(Digits(u), ',');
    QuadMentions(Percent(u), ',');
    if LineMatch(Xywh(u), region) { LineHolds(Xywh(u), region, ','); } else { LineHolds(Pct(u), region, ','); }
    forall c | c in region && c != '\n' ensures RegionChar(u, c) {
      QuadMentions(Digits(u), c);
      DigitsMention(u, c);
      QuadMentions(Percent(u), c);
      WordMentions("pct:", c);
      if LineMatch(Xywh(u), region) {
        LineIsMentioned(Xywh(u), region, c);
      } else {
        LineIsMentioned(Pct(u), region, c);
        if Mentions(Percent(u), c) { PercentMentions(u, c); }
      }
    }
  }

  lemma TimeMentions(u: Unicode, t: string)
    requires LineMatch(Time(u), t)
    ensures t != "" && forall c | c in t :: RegionChar(u, c)
  {
    forall c | c in t && c != '\n' ensures RegionChar(u, c) {
      LineIsMentioned(Time(u), t, c);
      TimeIsMadeOf(u, c);
    }
    assert !Nullable(Digits(u)) && !Nullable(Time(u)) by { assert !Nullable(One(u.digit)); }
  }

  lemma TimeIsMadeOf(u: Unicode, c: char)
    requires Mentions(Time(u), c)
    ensures u.digit(c) || c == '.' || c == ','
  {
    DigitsMention(u, c);
    var fraction, more := Opt(Fraction(u)), Star(One(u.digit));
    LitMentions('.', c);
    LitMentions(',', c);
    assert Mentions(Fraction(u), c) ==> c == '.' || u.digit(c);
    OptMentions(Fraction(u), c);
    assert Mentions(Seq(fraction, Lit(',')), c) ==> c == '.' || c == ',' || u.digit(c);
    OptMentions(Seq(fraction, Lit(',')), c);
    assert Mentions(One(u.digit), c) ==> u.digit(c);
    assert Mentions(more, c) ==> u.digit(c);
    assert Mentions(Seq(more, fraction), c) ==> c == '.' || u.digit(c);
  }

  lemma StructuralMentions(path: string)
    requires LineMatch(StructuralPath(), path)
    ensures forall c | c in path :: StructuralChar(c) || c == '\n'
  {
    forall c | c in path && c != '\n' ensures StructuralChar(c) {
      LineIsMentioned(StructuralPath(), path, c);
      assert Mentions(One(StructuralChar), c) <==> StructuralChar(c);
      assert Mentions(Star(One(StructuralChar)), c) <==> StructuralChar(c);
    }
  }

  // ---------------------------------------------------------------------------
  // Whatever parses is clean
  // ---------------------------------------------------------------------------

  lemma DropKeepsOut(s: string, k: nat, c: char)
    requires c !in s && k <= |s|
    ensures c !in s[k..]
  {}

  lemma {:induction false} ReadPartsAreClean(parts: seq<string>, s: Selector)
    requires s.Media? && CleanSelector(s) && forall p | p in parts :: '&' !in p
    requires ReadParts(parts, s).Success?
    ensures CleanSelector(ReadParts(parts, s).value)
    decreases |parts|
  {
    if parts != [] {
      var p := parts[0];
      assert p in parts && forall q | q in parts[1..] :: q in parts;
      if StartsWith(p, "t=") {
        DropKeepsOut(p, 2, '&');
        ReadPartsAreClean(parts[1..], s.(t := Some(p[2..])));
      } else if StartsWith(p, "track=") {
        DropKeepsOut(p, 6, '&');
        ReadPartsAreClean(parts[1..], s.(track := Some(p[6..])));
      } else {
        DropKeepsOut(p, 8, '&');
        ReadPartsAreClean(parts[1..], s.(spatial := Some(p[8..])));
      }
    }
  }

  lemma ParsedSelectorIsClean(u: Unicode, raw: string)
    requires ParseSelector(u, raw).Success?
    ensures var s := ParseSelector(u, raw).value; ValidSelector(u, s) && (!s.ByteOffset? ==> CleanSelector(s))
  {
    SplitPartsArePlain(raw, '&');
    StripStrips(raw, '/');
    if raw != "" && !StartsWith(raw, "epubcfi(") && !StartsWith(raw, "bytes=") && LooksLikeMedia(raw) {
      ReadPartsAreClean(Split(raw, '&'), Media(None, None, None));
    }
  }

  lemma MadeLocatorIsValid(u: Unicode, sourceId: string, modality: string, segment: string,
                           version: Option<PipelineVersion>, frag: Option<Selector>)
    requires Faithful(u) && (version.Some? ==> ValidVersion(version.value))
    requires frag.Some? ==> ValidSelector(u, frag.value) && (!frag.value.ByteOffset? ==> CleanSelector(frag.value))
    requires MakeLocator(u, sourceId, modality, segment, version, frag).Success?
    ensures var l := MakeLocator(u, sourceId, modality, segment, version, frag).value;
            && ValidLocator(u, l) && l.sourceId == sourceId && l.version == version
            && (l.frag.Some? ==> CleanSelector(l.frag.value))
  {}

  lemma ParsedPlaceIsClean(u: Unicode, place: string, version: Option<PipelineVersion>, frag: Option<string>)
    returns (rest: string)
    requires Faithful(u) && (version.Some? ==> ValidVersion(version.value))
    requires ParsePlace(u, place, version, frag).Success?
    ensures var l := ParsePlace(u, place, version, frag).value;
            && ValidLocator(u, l) && place == l.sourceId + rest && l.sourceId != "" && '/' !in l.sourceId
            && l.version == version && (l.frag.Some? ==> CleanSelector(l.frag.value))
  {
    var first := Cut(place, "/").value;
    var second := Cut(first.1, "/").value;
    rest := "/" + first.1;
    FirstPartIsCut(place, first.0, first.1);
    if frag.Some? {
      ParsedSelectorIsClean(u, frag.value);
      MadeLocatorIsValid(u, first.0, second.0, second.1, version, Some(ParseSelector(u, frag.value).value));
    } else {
      MadeLocatorIsValid(u, first.0, second.0, second.1, version, None);
    }
  }

  lemma FirstPartIsCut(place: string, first: string, more: string)
    requires Cut(place, "/") == Some((first, more))
    ensures place == first + ("/" + more) && '/' !in first
  {
    CutTakesTheFirst(place, "/");
    ContainsChar(first, '/');
    assert place == first + ("/" + more);
  }

  lemma ParsedBodyIsClean(u: Unicode, body: string, frag: Option<string>)
    requires Faithful(u) && !Contains(body, "?frag=") && ParseBody(u, body, frag).Success?
    ensures var l := ParseBody(u, body, frag).value; ValidLocator(u, l) && Clean(u, l)
  {
    var l := ParseBody(u, body, frag).value;
    if Contains(body, "@v") {
      var cut := Cut(body, "@").value;
      CutTakesTheFirst(body, "@");
      ContainsChar(cut.0, '@');
      var rest := ParsedPlaceIsClean(u, cut.0, Some(FromTag(u, cut.1).value), frag);
      Regrouped(l.sourceId, rest, "@", cut.1);
      Regrouped(l.sourceId + rest, "@", cut.1, "");
      Regrouped(rest, "@", cut.1, "");
      Regrouped(l.sourceId, rest, "@" + cut.1, "");
      NotInPrefix(l.sourceId, rest + "@" + cut.1, "?frag=");
    } else {
      var rest := ParsedPlaceIsClean(u, body, None, frag);
      NotInPrefix(l.sourceId, rest, "?frag=");
      NotInPrefix(l.sourceId, rest, "@v");
    }
  }

  lemma NotInPrefix(a: string, b: string, sep: string)
    requires sep != "" && !Contains(a + b, sep)
    ensures !Contains(a, sep)
  {
    if Contains(a, sep) { ContainedInPrefix(a, b, sep); }
  }

  /** Every string that parses yields a valid locator that prints cleanly. */
  lemma ParsedIsClean(u: Unicode, text: string)
    requires Faithful(u) && Parse(u, text).Success?
    ensures ValidLocator(u, Parse(u, text).value) && Clean(u, Parse(u, text).value)
  {
    var rest := text[9..];
    var cut := Cut(rest, "?frag=");
    if cut.Some? {
      CutTakesTheFirst(rest, "?frag=");
      ParsedBodyIsClean(u, cut.value.0, Some(cut.value.1));
    } else {
      ParsedBodyIsClean(u, rest, None);
    }
  }

  // ---------------------------------------------------------------------------
  // Whatever prints cleanly parses back
  // ---------------------------------------------------------------------------

  lemma OwnStart(p: string, s: string)
    ensures StartsWith(p + s, p) && (p + s)[|p|..] == s
  {
    assert (p + s)[..|p|] == p;
  }

  lemma StartIsInside(s: string, p: string, c: char)
    requires c in p && c !in s
    ensures !StartsWith(s, p)
  {
  }

  lemma OtherStart(s: string, p: string)
    requires s != "" && p != "" && s[0] != p[0]
    ensures !StartsWith(s, p)
  {
    StartAgrees(s, p);
  }

  lemma TagParses(u: Unicode, v: PipelineVersion)
    requires CleanVersion(u, v)
    ensures FromTag(u, Tag(v)) == Success(v) && '@' !in Tag(v) && '?' !in Tag(v)
  {
    var parts := [v.segmenter, v.decoder, v.renderer];
    var joined := v.segmenter + "." + v.decoder + "." + v.renderer;
    ThreeJoined(v.segmenter, v.decoder, v.renderer);
    SplitUndoesJoin(parts, '.');
    OwnStart("v", joined);
    Grouped("v", v.segmenter, ".", v.decoder, v.renderer);
  }

  lemma ThreeJoined(a: string, b: string, c: string)
    ensures JoinWith([a, b, c], '.') == a + "." + b + "." + c
  {
    assert [a, b, c][1..] == [b, c] && [b, c][1..] == [c];
    assert JoinWith([b, c], '.') == b + "." + c;
    assert JoinWith([a, b, c], '.') == a + "." + JoinWith([b, c], '.');
    assert a + "." + (b + "." + c) == a + "." + b + "." + c;
  }

  lemma Grouped(v: string, a: string, dot: string, b: string, c: string)
    ensures v + a + dot + b + dot + c == v + (a + dot + b + dot + c)
  {}

  lemma RegionParses(u: Unicode, region: string)
    requires Faithful(u) && ValidSelector(u, Iiif(region))
    ensures ParseSelector(u, region) == Success(Iiif(region))
  {
    RegionMentions(u, region);
    assert !RegionChar(u, '(') && !RegionChar(u, '=') && !RegionChar(u, '&');
    StartIsInside(region, "epubcfi(", '(');
    StartIsInside(region, "bytes=", '=');
    StartIsInside(region, "t=", '=');
    StartIsInside(region, "track=", '=');
    StartIsInside(region, "spatial=", '=');
  }

  lemma PathParses(u: Unicode, path: string)
    requires Faithful(u) && ValidSelector(u, Structural(path))
    ensures ParseSelector(u, path) == Success(Structural(path))
  {
    StructuralMentions(path);
    StripStrips(path, '/');
    StartIsInside(path, "epubcfi(", '(');
    StartIsInside(path, "bytes=", '=');
    StartIsInside(path, "t=", '=');
    StartIsInside(path, "track=", '=');
    StartIsInside(path, "spatial=", '=');
    if IsRegion(u, path) { RegionMentions(u, path); }
  }

  lemma PartsReadBack(s: Selector)
    requires s.Media? && NoEmptyField(s)
    ensures ReadParts(MediaParts(s), Media(None, None, None)) == Success(s)
  {
    var a, b, c := Part("t=", s.t), Part("track=", s.track), Part("spatial=", s.spatial);
    ReadOne(s, c, Media(s.t, s.track, None));
    assert b + c == (if b == [] then c else [b[0]] + c);
    assert a + b + c == (if a == [] then b + c else [a[0]] + (b + c));
    if b != [] {
      OwnStart("track=", s.track.value);
      OtherTrack(s.track.value);
      assert (b + c)[1..] == c;
    }
    assert ReadParts(b + c, Media(s.t, None, None)) == Success(s);
    if a != [] {
      OwnStart("t=", s.t.value);
      assert (a + (b + c))[1..] == b + c;
    }
  }

  lemma OtherTrack(x: string)
    ensures !StartsWith("track=" + x, "t=") && !StartsWith("spatial=" + x, "t=") &&
            !StartsWith("spatial=" + x, "track=")
  {
    StartAgrees("track=" + x, "t=");
    assert ("track=" + x)[1] == 'r';
    OtherStart("spatial=" + x, "t=");
    OtherStart("spatial=" + x, "track=");
  }

  lemma ReadOne(s: Selector, c: seq<string>, m: Selector)
    requires s.Media? && NoEmptyField(s) && c == Part("spatial=", s.spatial) && m == Media(s.t, s.track, None)
    ensures ReadParts(c, m) == Success(s)
  {
    if c != [] {
      OwnStart("spatial=", s.spatial.value);
      OtherTrack(s.spatial.value);
      assert c[1..] == [];
    }
  }

  lemma MediaParses(u: Unicode, s: Selector)
    requires s.Media? && ValidSelector(u, s) && CleanSelector(s) && NoEmptyField(s)
    ensures ParseSelector(u, Frag(s)) == Success(s)
  {
    var parts, raw := MediaParts(s), Frag(s);
    PartsReadBack(s);
    assert parts != [] by {
      assert Truthy(s.t) ==> parts[0] == Part("t=", s.t)[0];
    }
    forall p | p in parts ensures '&' !in p {}
    SplitUndoesJoin(parts, '&');
    if Truthy(s.t) {
      OwnStart("t=", s.t.value);
    } else if Truthy(s.track) {
      OwnStart("track=", s.track.value);
    } else {
      OwnStart("spatial=", s.spatial.value);
    }
    OtherStart(raw, "epubcfi(");
    OtherStart(raw, "bytes=");
  }

  lemma SelectorParses(u: Unicode, s: Selector)
    requires Faithful(u) && ValidSelector(u, s) && CleanSelector(s) && NoEmptyField(s)
    ensures ParseSelector(u, Frag(s)) == Success(s)
  {
    match s
    case Iiif(region) => RegionParses(u, region);
    case Structural(path) => PathParses(u, path);
    case Media(_, _, _) => MediaParses(u, s);
    case Cfi(_) =>
  }

  lemma PlaceParses(u: Unicode, l: Locator, frag: Option<string>)
    requires Faithful(u) && ValidLocator(u, l) && Printable(u, l)
    requires frag == if l.frag.Some? then Some(Frag(l.frag.value)) else None
    ensures ParsePlace(u, Place(l), l.version, frag) == Success(l)
  {
    ContainsChar(l.sourceId, '/');
    ContainsChar(l.modality, '/');
    assert '/' !in l.modality by { assert forall c | c in l.modality :: ModalityChar(c); }
    assert Place(l) == l.sourceId + "/" + (l.modality + "/" + l.segment);
    CutFindsIt(l.sourceId, "/", l.modality + "/" + l.segment);
    CutFindsIt(l.modality, "/", l.segment);
    if l.frag.Some? { SelectorParses(u, l.frag.value); }
  }

  /** What follows the source id, up to the selector. */
  function Tail(l: Locator): string {
    "/" + l.modality + "/" + l.segment + if l.version.Some? then "@" + Tag(l.version.value) else ""
  }

  lemma TailIsPlain(u: Unicode, l: Locator)
    requires ValidLocator(u, l) && Clean(u, l)
    ensures Versioned(l) == l.sourceId + Tail(l) && Tail(l) != "" && Tail(l)[0] == '/' && '?' !in Tail(l)
    ensures l.version.None? ==> '@' !in Tail(l)
    ensures '@' !in l.sourceId ==> '@' !in Place(l)
  {
    assert Place(l) == l.sourceId + ("/" + l.modality + "/" + l.segment);
    if l.version.Some? {
      TagParses(u, l.version.value);
      assert Versioned(l) == l.sourceId + ("/" + l.modality + "/" + l.segment) + ("@" + Tag(l.version.value));
    }
    assert forall c | c in l.modality :: ModalityChar(c);
    assert forall c | c in l.segment :: UrlSafeChar(c);
  }

  lemma BareBodyParses(u: Unicode, l: Locator, frag: Option<string>)
    requires Faithful(u) && ValidLocator(u, l) && Printable(u, l) && l.version.None?
    requires frag == if l.frag.Some? then Some(Frag(l.frag.value)) else None
    ensures ParseBody(u, Versioned(l), frag) == Success(l)
  {
    TailIsPlain(u, l);
    NothingAdded(l.sourceId, Tail(l), "@v");
    PlaceParses(u, l, frag);
  }

  lemma VersionedBodyParses(u: Unicode, l: Locator, frag: Option<string>)
    requires Faithful(u) && ValidLocator(u, l) && Printable(u, l) && l.version.Some?
    requires frag == if l.frag.Some? then Some(Frag(l.frag.value)) else None
    ensures ParseBody(u, Versioned(l), frag) == Success(l)
  {
    var place, tag := Place(l), Tag(l.version.value);
    TailIsPlain(u, l);
    TagParses(u, l.version.value);
    VersionIsFound(place, tag);
    PlaceParses(u, l, frag);
  }

  lemma VersionIsFound(place: string, tag: string)
    requires '@' !in place && tag != "" && tag[0] == 'v'
    ensures Contains(place + "@" + tag, "@v") && Cut(place + "@" + tag, "@") == Some((place, tag))
  {
    ContainsChar(place, '@');
    CutFindsIt(place, "@", tag);
    var rest := tag[1..];
    assert tag == "v" + rest && "@" + "v" == "@v";
    Regrouped(place, "@", "v", rest);
    ContainsInside(place, "@v", rest);
  }

  lemma Regrouped(a: string, b: string, c: string, d: string)
    ensures a + b + (c + d) == a + (b + c) + d && a + b + c == a + (b + c)
  {}

  lemma BodyParses(u: Unicode, l: Locator, frag: Option<string>)
    requires Faithful(u) && ValidLocator(u, l) && Printable(u, l)
    requires frag == if l.frag.Some? then Some(Frag(l.frag.value)) else None
    ensures ParseBody(u, Versioned(l), frag) == Success(l) && !Contains(Versioned(l), "?frag=")
  {
    TailIsPlain(u, l);
    NothingAdded(l.sourceId, Tail(l), "?frag=");
    if l.version.None? { BareBodyParses(u, l, frag); } else { VersionedBodyParses(u, l, frag); }
  }

  lemma ContainsInside(a: string, sep: string, b: string)
    requires sep != "" && sep[0] !in sep[1..]
    ensures Contains(a + sep + b, sep)
  {
    if Contains(a, sep) {
      ContainedInPrefix(a, sep + b, sep);
      assert a + sep + b == a + (sep + b);
    } else {
      CutFindsIt(a, sep, b);
    }
  }

  /** Printing a clean locator and parsing it gives the locator back. */
  lemma PrintableParses(u: Unicode, l: Locator)
    requires Faithful(u) && ValidLocator(u, l) && Printable(u, l)
    ensures Parse(u, Canonical(l)) == Success(l)
  {
    var frag := if l.frag.Some? then Some(Frag(l.frag.value)) else None;
    var rest := if l.frag.Some? then Versioned(l) + "?frag=" + Frag(l.frag.value) else Versioned(l);
    OwnStart("source://", rest);
    BodyParses(u, l, frag);
    if l.frag.Some? { CutFindsIt(Versioned(l), "?frag=", Frag(l.frag.value)); }
  }

  // ---------------------------------------------------------------------------
  // Main results
  // ---------------------------------------------------------------------------

  lemma WithoutEmptyPrintsTheSame(u: Unicode, l: Locator)
    requires ValidLocator(u, l) && Clean(u, l)
    ensures Canonical(WithoutEmpty(l)) == Canonical(l)
    ensures ValidLocator(u, WithoutEmpty(l)) && Printable(u, WithoutEmpty(l))
  {
    if l.frag.Some? && l.frag.value.Media? {
      var s := WithoutEmpty(l).frag.value;
      assert MediaParts(s) == MediaParts(l.frag.value);
    }
    assert Versioned(WithoutEmpty(l)) == Versioned(l);
  }

  /** A valid locator survives printing and parsing exactly when it is printable. */
  lemma RoundTripExactlyWhen(u: Unicode, l: Locator)
    requires Faithful(u) && ValidLocator(u, l)
    ensures Parse(u, Canonical(l)) == Success(l) <==> Printable(u, l)
  {
    if Parse(u, Canonical(l)) == Success(l) {
      ParsedIsClean(u, Canonical(l));
      WithoutEmptyPrintsTheSame(u, l);
      PrintableParses(u, WithoutEmpty(l));
    } else if Printable(u, l) {
      PrintableParses(u, l);
    }
  }

  /**
   * Whatever parses prints to a string that parses to the same, but for empty media fields, and prints again
   * unchanged.
   */
  lemma PrintedFormIsAFixedPoint(u: Unicode, text: string)
    requires Faithful(u) && Parse(u, text).Success?
    ensures var l := Parse(u, text).value;
            Parse(u, Canonical(l)) == Success(WithoutEmpty(l)) && Canonical(WithoutEmpty(l)) == Canonical(l)
  {
    ParsedIsClean(u, text);
    WithoutEmptyPrintsTheSame(u, Parse(u, text).value);
    PrintableParses(u, WithoutEmpty(Parse(u, text).value));
  }

  /** An empty media field is read but never printed. */
  lemma EmptyFieldIsLost(u: Unicode, time: string)
    requires Faithful(u) && |time| <= 64 && LineMatch(Time(u), time)
    ensures ParseSelector(u, "track=&t=" + time) == Success(Media(Some(time), Some(""), None))
    ensures Frag(Media(Some(time), Some(""), None)) == "t=" + time
  {
    var raw, parts := "track=&t=" + time, ["track=", "t=" + time];
    assert "track=" + "&" + "t=" == "track=&t=";
    TimeMentions(u, time);
    assert !RegionChar(u, '&');
    Grouped2("track=", "&", "t=", time);
    SplitUndoesJoin(parts, '&');
    TrackThenTime(time);
    OtherStart(raw, "epubcfi(");
    OtherStart(raw, "bytes=");
    EmptyFieldIsNotPrinted(time);
  }

  lemma EmptyFieldIsNotPrinted(time: string)
    requires time != ""
    ensures Frag(Media(Some(time), Some(""), None)) == "t=" + time
  {
    assert MediaParts(Media(Some(time), Some(""), None)) == ["t=" + time];
  }

  lemma Grouped2(a: string, b: string, c: string, d: string)
    ensures a + b + c + d == a + b + (c + d)
  {}

  lemma TrackThenTime(time: string)
    ensures ReadParts(["track=", "t=" + time], Media(None, None, None)) == Success(Media(Some(time), Some(""), None))
  {
    var parts := ["track=", "t=" + time];
    OwnStart("track=", "");
    OtherTrack("");
    OwnStart("t=", time);
    assert "track=" + "" == "track=" && parts[1..] == ["t=" + time] && parts[1..][1..] == [];
    assert ReadParts(["t=" + time], Media(None, Some(""), None)) == Success(Media(Some(time), Some(""), None)) by {
      assert ["t=" + time][1..] == [];
    }
  }

  /** A byte range alone never names a place, whatever comes before it. */
  lemma ByteRangesAreRejected(u: Unicode, place: string, frag: string, range: string)
    requires frag == "bytes=" + range && !Contains(place, "?frag=")
    ensures Parse(u, "source://" + (place + "?frag=" + frag)).Failure?
  {
    OwnStart("source://", place + "?frag=" + frag);
    CutFindsIt(place, "?frag=", frag);
    OwnStart("bytes=", range);
    OtherStart(frag, "epubcfi(");
  }
}
