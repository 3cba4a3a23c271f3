/** What the locator patterns and limits accept, in terms of the text itself. */
module LocatorShapes {
  import opened Wrappers
  import opened Strings
  import opened Regexes
  import opened Locators

  // ---------------------------------------------------------------------------
  // Shapes
  // ---------------------------------------------------------------------------

  predicate Digital(u: Unicode, s: string) { forall c | c in s :: u.digit(c) }

  predicate Number(u: Unicode, s: string) { s != "" && Digital(u, s) }

  /** Nothing, or a point and a number. */
  predicate MaybeFraction(u: Unicode, s: string) { s == "" || (s[0] == '.' && Number(u, s[1..])) }

  /** Nothing, or a comma after nothing or a fraction. */
  predicate MaybeComma(u: Unicode, s: string) { s == "" || (s[|s| - 1] == ',' && MaybeFraction(u, s[..|s| - 1])) }

  /** A number, the end of the first time if there are two, then digits and a fraction. */
  ghost predicate TimeText(u: Unicode, s: string) {
    exists a, b, c, d ::
      s == a + (b + (c + d)) && Number(u, a) && MaybeComma(u, b) && Digital(u, c) && MaybeFraction(u, d)
  }

  /** Nothing, or a point or comma and a number. */
  predicate MaybePart(u: Unicode, s: string) { s == "" || (s[0] in ".," && Number(u, s[1..])) }

  ghost predicate PercentText(u: Unicode, s: string) {
    exists a, b :: s == a + b && Number(u, a) && MaybePart(u, b)
  }

  /** So many parts with commas between. */
  ghost predicate Listing(part: string -> bool, n: nat, s: string) {
    if n <= 1 then part(s) else exists a, rest :: s == a + ("," + rest) && part(a) && Listing(part, n - 1, rest)
  }

  ghost predicate RegionText(u: Unicode, s: string) {
    || Listing(x => Number(u, x), 4, s)
    || (StartsWith(s, "pct:") && Listing(x => PercentText(u, x), 4, s[4..]))
  }

  /** A pattern ends at the end of the text or before its final newline. */
  ghost predicate Line(shape: string -> bool, s: string) {
    shape(s) || (s != "" && s[|s| - 1] == '\n' && shape(s[..|s| - 1]))
  }

  // ---------------------------------------------------------------------------
  // The patterns mean their shapes
  // ---------------------------------------------------------------------------

  lemma DigitsMean(u: Unicode, s: string)
    ensures Means(Digits(u), s) <==> Number(u, s)
    ensures Means(Star(One(u.digit)), s) <==> Digital(u, s)
  {
    PlusOneMeans(u.digit, s);
    StarOneMeans(u.digit, s);
  }

  lemma FractionMeans(u: Unicode, s: string)
    ensures Means(Opt(Fraction(u)), s) <==> MaybeFraction(u, s)
  {
    if Means(Fraction(u), s) {
      var x, y := SeqSplits(Lit('.'), Digits(u), s);
      DigitsMean(u, y);
      assert s[1..] == y;
    }
    if s != "" && MaybeFraction(u, s) {
      DigitsMean(u, s[1..]);
      SeqJoins(Lit('.'), Digits(u), ".", s[1..]);
      assert s == "." + s[1..];
    }
  }

  lemma CommaMeans(u: Unicode, s: string)
    ensures Means(Opt(Seq(Opt(Fraction(u)), Lit(','))), s) <==> MaybeComma(u, s)
  {
    if Means(Seq(Opt(Fraction(u)), Lit(',')), s) {
      var x, y := SeqSplits(Opt(Fraction(u)), Lit(','), s);
      FractionMeans(u, x);
      assert s[..|s| - 1] == x;
    }
    if s != "" && MaybeComma(u, s) {
      FractionMeans(u, s[..|s| - 1]);
      SeqJoins(Opt(Fraction(u)), Lit(','), s[..|s| - 1], ",");
      assert s == s[..|s| - 1] + ",";
    }
  }

  lemma TimeMeans(u: Unicode, s: string)
    ensures Means(Time(u), s) <==> TimeText(u, s)
  {
    var comma, digits, rest := Opt(Seq(Opt(Fraction(u)), Lit(','))), Star(One(u.digit)), Opt(Fraction(u));
    if Means(Time(u), s) {
      var a, bcd := SeqSplits(Digits(u), Seq(comma, Seq(digits, rest)), s);
      var b, cd := SeqSplits(comma, Seq(digits, rest), bcd);
      var c, d := SeqSplits(digits, rest, cd);
      DigitsMean(u, a);
      CommaMeans(u, b);
      DigitsMean(u, c);
      FractionMeans(u, d);
    }
    if TimeText(u, s) {
      var a, b, c, d :|
        s == a + (b + (c + d)) && Number(u, a) && MaybeComma(u, b) && Digital(u, c) && MaybeFraction(u, d);
      DigitsMean(u, a);
      CommaMeans(u, b);
      DigitsMean(u, c);
      FractionMeans(u, d);
      SeqJoins(digits, rest, c, d);
      SeqJoins(comma, Seq(digits, rest), b, c + d);
      SeqJoins(Digits(u), Seq(comma, Seq(digits, rest)), a, b + (c + d));
    }
  }

  lemma PartMeans(u: Unicode, s: string)
    ensures Means(Opt(Seq(Alt(Lit('.'), Lit(',')), Digits(u))), s) <==> MaybePart(u, s)
  {
    var point := Alt(Lit('.'), Lit(','));
    if Means(Seq(point, Digits(u)), s) {
      var x, y := SeqSplits(point, Digits(u), s);
      DigitsMean(u, y);
      assert Means(Lit('.'), x) || Means(Lit(','), x);
      assert s[0] == x[0] && s[1..] == y;
    }
    if s != "" && MaybePart(u, s) {
      DigitsMean(u, s[1..]);
      assert Means(Lit(s[0]), [s[0]]) && Means(point, [s[0]]);
      SeqJoins(point, Digits(u), [s[0]], s[1..]);
      assert s == [s[0]] + s[1..];
    }
  }

  lemma PercentMeans(u: Unicode, s: string)
    ensures Means(Percent(u), s) <==> PercentText(u, s)
  {
    var more := Opt(Seq(Alt(Lit('.'), Lit(',')), Digits(u)));
    if Means(Percent(u), s) {
      var a, b := SeqSplits(Digits(u), more, s);
      DigitsMean(u, a);
      PartMeans(u, b);
    }
    if PercentText(u, s) {
      var a, b :| s == a + b && Number(u, a) && MaybePart(u, b);
      DigitsMean(u, a);
      PartMeans(u, b);
      SeqJoins(Digits(u), more, a, b);
    }
  }

  /** `part` is what `r` means. */
  ghost predicate Describes(part: string -> bool, r: Regex) { forall x :: Means(r, x) <==> part(x) }

  lemma OnePartMore(r: Regex, more: Regex, part: string -> bool, n: nat)
    requires Describes(part, r) && n >= 1 && forall s :: Means(more, s) <==> Listing(part, n, s)
    ensures forall s :: Means(Seq(r, Seq(Lit(','), more)), s) <==> Listing(part, n + 1, s)
  {
    forall s ensures Means(Seq(r, Seq(Lit(','), more)), s) <==> Listing(part, n + 1, s) {
      if Means(Seq(r, Seq(Lit(','), more)), s) {
        var a, t := SeqSplits(r, Seq(Lit(','), more), s);
        var x, rest := SeqSplits(Lit(','), more, t);
        assert s == a + ("," + rest);
      }
      if Listing(part, n + 1, s) {
        var a, rest :| s == a + ("," + rest) && part(a) && Listing(part, n, rest);
        SeqJoins(Lit(','), more, ",", rest);
        SeqJoins(r, Seq(Lit(','), more), a, "," + rest);
      }
    }
  }

  lemma QuadMeans(r: Regex, part: string -> bool)
    requires Describes(part, r)
    ensures forall s :: Means(Quad(r), s) <==> Listing(part, 4, s)
  {
    var two := Seq(r, Seq(Lit(','), r));
    OnePartMore(r, r, part, 1);
    OnePartMore(r, two, part, 2);
    OnePartMore(r, Seq(r, Seq(Lit(','), two)), part, 3);
  }

  lemma {:induction false} WordMeans(w: string, s: string)
    ensures Means(Word(w), s) <==> s == w
  {
    if w != "" {
      assert w == [w[0]] + w[1..];
      if Means(Word(w), s) {
        var x, y := SeqSplits(Lit(w[0]), Word(w[1..]), s);
        WordMeans(w[1..], y);
      }
      if s == w {
        WordMeans(w[1..], w[1..]);
        SeqJoins(Lit(w[0]), Word(w[1..]), [w[0]], w[1..]);
      }
    }
  }

  lemma RegionMeans(u: Unicode, s: string)
    ensures Means(Xywh(u), s) || Means(Pct(u), s) <==> RegionText(u, s)
  {
    forall x ensures Means(Digits(u), x) <==> Number(u, x) { DigitsMean(u, x); }
    QuadMeans(Digits(u), x => Number(u, x));
    PctMeans(u, s);
  }

  lemma PctMeans(u: Unicode, s: string)
    ensures Means(Pct(u), s) <==> StartsWith(s, "pct:") && Listing(x => PercentText(u, x), 4, s[4..])
  {
    forall x ensures Means(Percent(u), x) <==> PercentText(u, x) { PercentMeans(u, x); }
    QuadMeans(Percent(u), x => PercentText(u, x));
    if Means(Pct(u), s) {
      var x, y := SeqSplits(Word("pct:"), Quad(Percent(u)), s);
      WordMeans("pct:", x);
      assert s[..4] == x && s[4..] == y;
    }
    if StartsWith(s, "pct:") && Means(Quad(Percent(u)), s[4..]) {
      WordMeans("pct:", "pct:");
      SeqJoins(Word("pct:"), Quad(Percent(u)), "pct:", s[4..]);
      assert s == "pct:" + s[4..];
    }
  }

  lemma LineMeans(r: Regex, s: string)
    ensures LineMatch(r, s) <==> Line(x => Means(r, x), s)
  {
    MatchIsMeaning(r, s);
    if s != "" { MatchIsMeaning(r, s[..|s| - 1]); }
  }

  // ---------------------------------------------------------------------------
  // What a selector accepts
  // ---------------------------------------------------------------------------

  predicate PathChar(c: char) { 'a' <= c <= 'z' || '0' <= c <= '9' || c in "/_.-" }

  predicate Short(s: Option<string>, n: nat) { s == None || |s.value| <= n }

  /** The selectors a caller can make, and their limits. */
  ghost predicate Makeable(u: Unicode, s: Selector) {
    match s
    case Iiif(region) => |region| <= 128 && Line(x => RegionText(u, x), region)
    case Cfi(cfi) => 8 <= |cfi| <= 512 && cfi[..8] == "epubcfi(" && cfi[|cfi| - 1] == ')'
    case Media(t, track, spatial) =>
      && Short(t, 64) && Short(track, 128) && Short(spatial, 128)
      && (t == None || Line(x => TimeText(u, x), t.value))
      && !(t in {None, Some("")} && track in {None, Some("")} && spatial in {None, Some("")})
    case Structural(path) =>
      && |path| <= 512 && path != "" && path[0] != '/' && path[|path| - 1] != '/'
      && Line(x => x != "" && forall c | c in x :: PathChar(c), path)
    case ByteOffset(start, end) => start <= end
  }

  lemma RegionLine(u: Unicode, s: string)
    ensures IsRegion(u, s) <==> Line(x => RegionText(u, x), s)
  {
    LineMeans(Xywh(u), s);
    LineMeans(Pct(u), s);
    RegionMeans(u, s);
    if s != "" { RegionMeans(u, s[..|s| - 1]); }
  }

  lemma TimeLine(u: Unicode, s: string)
    ensures LineMatch(Time(u), s) <==> Line(x => TimeText(u, x), s)
  {
    LineMeans(Time(u), s);
    TimeMeans(u, s);
    if s != "" { TimeMeans(u, s[..|s| - 1]); }
  }

  lemma PathLine(s: string)
    ensures LineMatch(StructuralPath(), s) <==> Line(x => x != "" && forall c | c in x :: PathChar(c), s)
  {
    LineMeans(StructuralPath(), s);
    PlusOneMeans(StructuralChar, s);
    if s != "" { PlusOneMeans(StructuralChar, s[..|s| - 1]); }
  }

  /** A caller can make exactly the selectors of these shapes, within these limits. */
  lemma ValidIsMakeable(u: Unicode, s: Selector)
    ensures ValidSelector(u, s) <==> Makeable(u, s)
  {
    match s
    case Iiif(region) => RegionLine(u, region);
    case Media(t, _, _) => if t.Some? { TimeLine(u, t.value); }
    case Structural(path) => PathLine(path);
    case Cfi(cfi) => if cfi != "" { assert cfi[|cfi| - 1..] == [cfi[|cfi| - 1]]; }
    case ByteOffset(_, _) =>
  }

  predicate Component(s: string) { s != "" && forall c | c in s :: c !in "/?#@" }

  predicate LowerChar(c: char) { 'a' <= c <= 'z' || '0' <= c <= '9' || c in "_-" }

  /** The locators a caller can make. */
  ghost predicate WellMade(u: Unicode, l: Locator) {
    && |l.sourceId| <= 256 && 1 <= |l.modality| <= 32 && 1 <= |l.segment| <= 512
    && (forall c | c in l.modality :: LowerChar(c))
    && (forall c | c in l.segment :: LowerChar(c) || 'A' <= c <= 'Z')
    && (l.version != None ==>
          var v := l.version.value; Component(v.segmenter) && Component(v.decoder) && Component(v.renderer))
    && (l.frag != None ==> Makeable(u, l.frag.value) && !l.frag.value.ByteOffset?)
  }

  lemma ValidIsWellMade(u: Unicode, l: Locator)
    ensures ValidLocator(u, l) <==> WellMade(u, l)
  {
    forall s ensures VersionComponent(s) <==> Component(s) {
      assert forall c :: c in "/?#@" <==> c == '/' || c == '?' || c == '#' || c == '@';
    }
    if l.frag.Some? { ValidIsMakeable(u, l.frag.value); }
  }

  // ---------------------------------------------------------------------------
  // Byte ranges
  // ---------------------------------------------------------------------------

  /** ASCII digits are digits, of their usual value. */
  ghost predicate Decimals(u: Unicode) {
    forall c | '0' <= c <= '9' :: u.digit(c) && u.value(c) == c as int - '0' as int
  }

  lemma DigitsCount(k: nat)
    requires k < 10
    ensures k < |DIGITS| && DIGITS[k] as int == '0' as int + k
  {}

  lemma {:induction false} DecimalReads(u: Unicode, n: nat)
    requires Decimals(u)
    ensures AllDigits(u, Decimal(n)) && ValueOf(u, Decimal(n)) == n
    ensures forall c | c in Decimal(n) :: '0' <= c <= '9'
  {
    DigitsCount(n % 10);
    if n >= 10 {
      DecimalReads(u, n / 10);
      OneDigitMore(u, Decimal(n / 10), DIGITS[n % 10]);
    } else {
      OneDigitMore(u, "", DIGITS[n]);
      assert Decimal(n) == "" + [DIGITS[n]];
    }
  }

  lemma OneDigitMore(u: Unicode, s: string, c: char)
    requires Decimals(u) && '0' <= c <= '9' && Digital(u, s)
    ensures AllDigits(u, s + [c]) && ValueOf(u, s + [c]) == ValueOf(u, s) * 10 + (c as int - '0' as int)
  {
    assert (s + [c])[..|s|] == s;
  }

  /** A byte range is read back from its printed form. */
  lemma ByteRangeParses(u: Unicode, start: nat, end: nat)
    requires Decimals(u)
    ensures ParseSelector(u, Frag(ByteOffset(start, end))) ==
            if start <= end then Success(ByteOffset(start, end)) else Failure(InvalidSelector)
  {
    var a, b := Decimal(start), Decimal(end);
    DecimalReads(u, start);
    DecimalReads(u, end);
    ContainsChar(a, '-');
    CutFindsIt(a, "-", b);
    assert "bytes=" + a + "-" + b == "bytes=" + (a + "-" + b);
    BytesGoToTheRange(u, a + "-" + b);
  }

  lemma BytesGoToTheRange(u: Unicode, range: string)
    ensures ParseSelector(u, "bytes=" + range) == ParseBytes(u, range)
  {
    var text := "bytes=" + range;
    assert text[..6] == "bytes=" && text[6..] == range && text[0] == 'b';
    StartAgrees(text, "epubcfi(");
  }

  /** A byte range parses exactly when it is two numbers around a dash, the first not above the second. */
  lemma ByteRangeExactlyWhen(u: Unicode, range: string)
    requires !u.digit('-')
    ensures ParseSelector(u, "bytes=" + range).Success? <==>
            exists a, b :: IsRange(u, range, a, b) && ValueOf(u, a) <= ValueOf(u, b)
  {
    BytesGoToTheRange(u, range);
    if ParseBytes(u, range).Success? {
      CutTakesTheFirst(range, "-");
      var (a, b) := Cut(range, "-").value;
      assert IsRange(u, range, a, b);
    }
    if a, b :| IsRange(u, range, a, b) && ValueOf(u, a) <= ValueOf(u, b) {
      ContainsChar(a, '-');
      CutFindsIt(a, "-", b);
    }
  }

  predicate IsRange(u: Unicode, range: string, a: string, b: string) {
    range == a + "-" + b && Number(u, a) && Number(u, b)
  }

  /** No text above 512 characters is a selector, unless it is a byte range or made of media fields. */
  lemma LongTextFails(u: Unicode, raw: string)
    requires |raw| > 512 && !StartsWith(raw, "bytes=") && !LooksLikeMedia(raw)
    ensures ParseSelector(u, raw).Failure?
  {}
}
