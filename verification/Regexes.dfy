/** Regular expressions, matched by derivatives. */
module Regexes {
  datatype Regex =
    | Nothing
    | Empty
    | Lit(c: char)
    | One(p: char -> bool)
    | Alt(a: Regex, b: Regex)
    | Seq(a: Regex, b: Regex)
    | Star(a: Regex)

  function Plus(r: Regex): Regex { Seq(r, Star(r)) }

  function Opt(r: Regex): Regex { Alt(Empty, r) }

  predicate Nullable(r: Regex) {
    match r
    case Nothing => false
    case Empty => true
    case Lit(_) => false
    case One(_) => false
    case Alt(a, b) => Nullable(a) || Nullable(b)
    case Seq(a, b) => Nullable(a) && Nullable(b)
    case Star(_) => true
  }

  /** What is left to match after `c`. */
  function Derived(r: Regex, c: char): Regex {
    match r
    case Nothing => Nothing
    case Empty => Nothing
    case Lit(x) => if x == c then Empty else Nothing
    case One(p) => if p(c) then Empty else Nothing
    case Alt(a, b) => Alt(Derived(a, c), Derived(b, c))
    case Seq(a, b) => Alt(Seq(Derived(a, c), b), if Nullable(a) then Derived(b, c) else Nothing)
    case Star(a) => Seq(Derived(a, c), r)
  }

  /** `re.fullmatch`. */
  predicate FullMatch(r: Regex, s: string)
    decreases |s|
  {
    if s == "" then Nullable(r) else FullMatch(Derived(r, s[0]), s[1..])
  }

  /** `re.match` of a pattern between `^` and `$`: the end may also stand before a final newline. */
  predicate LineMatch(r: Regex, s: string) {
    FullMatch(r, s) || (s != "" && s[|s| - 1] == '\n' && FullMatch(r, s[..|s| - 1]))
  }

  // ---------------------------------------------------------------------------
  // Which characters a match can and must hold
  // ---------------------------------------------------------------------------

  predicate Mentions(r: Regex, c: char) {
    match r
    case Nothing => false
    case Empty => false
    case Lit(x) => x == c
    case One(p) => p(c)
    case Alt(a, b) => Mentions(a, c) || Mentions(b, c)
    case Seq(a, b) => Mentions(a, c) || Mentions(b, c)
    case Star(a) => Mentions(a, c)
  }

  /** Plainly without any match. */
  predicate Dead(r: Regex) {
    match r
    case Nothing => true
    case Alt(a, b) => Dead(a) && Dead(b)
    case Seq(a, b) => Dead(a) || Dead(b)
    case _ => false
  }

  /** Every match holds `c`. */
  predicate Needs(r: Regex, c: char) {
    match r
    case Nothing => true
    case Lit(x) => x == c
    case Alt(a, b) => Needs(a, c) && Needs(b, c)
    case Seq(a, b) => Needs(a, c) || Needs(b, c)
    case _ => false
  }

  lemma {:induction false} DeadStaysDead(r: Regex, c: char)
    requires Dead(r)
    ensures !Nullable(r) && Dead(Derived(r, c))
  {
    match r
    case Alt(a, b) => DeadStaysDead(a, c); DeadStaysDead(b, c);
    case Seq(a, b) => if Dead(a) { DeadStaysDead(a, c); } else { DeadStaysDead(b, c); }
    case _ =>
  }

  lemma {:induction false} DeadMatchesNothing(r: Regex, s: string)
    requires Dead(r)
    ensures !FullMatch(r, s)
    decreases |s|
  {
    DeadStaysDead(r, if s == "" then ' ' else s[0]);
    if s != "" { DeadMatchesNothing(Derived(r, s[0]), s[1..]); }
  }

  lemma {:induction false} ForeignCharacterKills(r: Regex, c: char)
    requires !Mentions(r, c)
    ensures Dead(Derived(r, c))
  {
    match r
    case Alt(a, b) => ForeignCharacterKills(a, c); ForeignCharacterKills(b, c);
    case Seq(a, b) => ForeignCharacterKills(a, c); ForeignCharacterKills(b, c);
    case Star(a) => ForeignCharacterKills(a, c);
    case _ =>
  }

  lemma {:induction false} DerivedMentionsNoMore(r: Regex, c: char, x: char)
    requires Mentions(Derived(r, c), x)
    ensures Mentions(r, x)
  {
    match r
    case Alt(a, b) =>
      if Mentions(Derived(a, c), x) { DerivedMentionsNoMore(a, c, x); } else { DerivedMentionsNoMore(b, c, x); }
    case Seq(a, b) =>
      assert Mentions(Seq(Derived(a, c), b), x) || Mentions(if Nullable(a) then Derived(b, c) else Nothing, x);
      if Mentions(Derived(a, c), x) { DerivedMentionsNoMore(a, c, x); }
      else if Nullable(a) && Mentions(Derived(b, c), x) { DerivedMentionsNoMore(b, c, x); }
    case Star(a) => if Mentions(Derived(a, c), x) { DerivedMentionsNoMore(a, c, x); }
    case _ =>
  }

  /** A match is made of mentioned characters. */
  lemma {:induction false} MatchIsMentioned(r: Regex, s: string, x: char)
    requires FullMatch(r, s) && x in s
    ensures Mentions(r, x)
    decreases |s|
  {
    var c := s[0];
    if !Mentions(r, c) {
      ForeignCharacterKills(r, c);
      DeadMatchesNothing(Derived(r, c), s[1..]);
    }
    if x != c {
      assert x in s[1..] by { assert s == [c] + s[1..]; }
      MatchIsMentioned(Derived(r, c), s[1..], x);
      DerivedMentionsNoMore(r, c, x);
    }
  }

  lemma {:induction false} StillNeeded(r: Regex, c: char, x: char)
    requires Needs(r, c) && x != c
    ensures !Nullable(r) && Needs(Derived(r, x), c)
  {
    match r
    case Alt(a, b) => StillNeeded(a, c, x); StillNeeded(b, c, x);
    case Seq(a, b) => if Needs(a, c) { StillNeeded(a, c, x); } else { StillNeeded(b, c, x); }
    case _ =>
  }

  /** A match holds the needed characters. */
  lemma {:induction false} MatchHolds(r: Regex, s: string, c: char)
    requires Needs(r, c) && FullMatch(r, s)
    ensures c in s
    decreases |s|
  {
    var x := if c == ' ' then '0' else ' ';
    StillNeeded(r, c, x);
    if s[0] != c {
      StillNeeded(r, c, s[0]);
      MatchHolds(Derived(r, s[0]), s[1..], c);
    }
  }

  /** The same for whole lines, up to the final newline. */
  lemma LineIsMentioned(r: Regex, s: string, x: char)
    requires LineMatch(r, s) && x in s && x != '\n'
    ensures Mentions(r, x)
  {
    if FullMatch(r, s) {
      MatchIsMentioned(r, s, x);
    } else {
      assert s == s[..|s| - 1] + [s[|s| - 1]];
      MatchIsMentioned(r, s[..|s| - 1], x);
    }
  }

  lemma LineHolds(r: Regex, s: string, c: char)
    requires Needs(r, c) && LineMatch(r, s)
    ensures c in s
  {
    if FullMatch(r, s) { MatchHolds(r, s, c); } else { MatchHolds(r, s[..|s| - 1], c); }
  }

  // ---------------------------------------------------------------------------
  // What an expression means
  // ---------------------------------------------------------------------------

  /** The text belongs to the language of the expression. */
  ghost predicate Means(r: Regex, s: string)
    decreases r, |s|
  {
    match r
    case Nothing => false
    case Empty => s == ""
    case Lit(c) => s == [c]
    case One(p) => |s| == 1 && p(s[0])
    case Alt(a, b) => Means(a, s) || Means(b, s)
    case Seq(a, b) => exists i | 0 <= i <= |s| :: Means(a, s[..i]) && Means(b, s[i..])
    case Star(a) => s == "" || exists i | 0 < i <= |s| :: Means(a, s[..i]) && Means(r, s[i..])
  }

  lemma {:induction false} NullableMeansEmpty(r: Regex)
    ensures Nullable(r) <==> Means(r, "")
  {
    match r
    case Alt(a, b) => NullableMeansEmpty(a); NullableMeansEmpty(b);
    case Seq(a, b) =>
      NullableMeansEmpty(a);
      NullableMeansEmpty(b);
      assert ""[..0] == "" && ""[0..] == "";
    case _ =>
  }

  lemma SeqJoins(a: Regex, b: Regex, x: string, y: string)
    requires Means(a, x) && Means(b, y)
    ensures Means(Seq(a, b), x + y)
  {
    assert (x + y)[..|x|] == x && (x + y)[|x|..] == y;
  }

  lemma SeqSplits(a: Regex, b: Regex, s: string) returns (x: string, y: string)
    requires Means(Seq(a, b), s)
    ensures s == x + y && Means(a, x) && Means(b, y)
  {
    var i: nat :| i <= |s| && Means(a, s[..i]) && Means(b, s[i..]);
    x, y := s[..i], s[i..];
  }

  lemma HeadOfSplit(c: char, s: string, x: string, y: string)
    requires [c] + s == x + y && x != ""
    ensures x == [c] + x[1..] && s == x[1..] + y
  {
    assert ([c] + s)[0] == (x + y)[0] && ([c] + s)[1..] == s && (x + y)[1..] == x[1..] + y;
  }

  lemma Shifted(c: char, s: string, i: nat)
    requires i <= |s|
    ensures ([c] + s)[..i + 1] == [c] + s[..i] && ([c] + s)[i + 1..] == s[i..]
  {}

  /** What is left to match after a character is what completes it to a match. */
  lemma {:induction false} DerivedMeans(r: Regex, c: char, s: string)
    ensures Means(Derived(r, c), s) <==> Means(r, [c] + s)
    decreases r
  {
    assert ([c] + s)[0] == c && (s == "" ==> [c] + s == [c]);
    match r
    case Alt(a, b) => DerivedMeans(a, c, s); DerivedMeans(b, c, s);
    case Seq(a, b) => DerivedSeq(a, b, c, s);
    case Star(a) => DerivedStar(a, c, s);
    case _ =>
  }

  lemma {:induction false} DerivedSeq(a: Regex, b: Regex, c: char, s: string)
    ensures Means(Derived(Seq(a, b), c), s) <==> Means(Seq(a, b), [c] + s)
    decreases Seq(a, b), 1
  {
    if Means(Derived(Seq(a, b), c), s) { DerivedSeqThere(a, b, c, s); }
    if Means(Seq(a, b), [c] + s) { DerivedSeqBack(a, b, c, s); }
  }

  lemma {:induction false} DerivedSeqThere(a: Regex, b: Regex, c: char, s: string)
    requires Means(Derived(Seq(a, b), c), s)
    ensures Means(Seq(a, b), [c] + s)
    decreases Seq(a, b), 0
  {
    if Means(Seq(Derived(a, c), b), s) {
      var x, y := SeqSplits(Derived(a, c), b, s);
      DerivedMeans(a, c, x);
      SeqJoins(a, b, [c] + x, y);
      assert [c] + s == [c] + x + y;
    } else {
      DerivedMeans(b, c, s);
      NullableMeansEmpty(a);
      SeqJoins(a, b, "", [c] + s);
      assert "" + ([c] + s) == [c] + s;
    }
  }

  lemma {:induction false} DerivedSeqBack(a: Regex, b: Regex, c: char, s: string)
    requires Means(Seq(a, b), [c] + s)
    ensures Means(Derived(Seq(a, b), c), s)
    decreases Seq(a, b), 0
  {
    var x, y := SeqSplits(a, b, [c] + s);
    if x == "" {
      assert y == [c] + s;
      DerivedMeans(b, c, s);
      NullableMeansEmpty(a);
    } else {
      HeadOfSplit(c, s, x, y);
      DerivedMeans(a, c, x[1..]);
      SeqJoins(Derived(a, c), b, x[1..], y);
    }
  }

  lemma {:induction false} DerivedStar(a: Regex, c: char, s: string)
    ensures Means(Derived(Star(a), c), s) <==> Means(Star(a), [c] + s)
    decreases Star(a), 0
  {
    var t := [c] + s;
    forall i: nat | i <= |s| ensures Means(Derived(a, c), s[..i]) <==> Means(a, t[..i + 1]) {
      DerivedMeans(a, c, s[..i]);
      Shifted(c, s, i);
    }
    if Means(Derived(Star(a), c), s) {
      var i: nat :| i <= |s| && Means(Derived(a, c), s[..i]) && Means(Star(a), s[i..]);
      Shifted(c, s, i);
      assert Means(a, t[..i + 1]) && Means(Star(a), t[i + 1..]);
    }
    if Means(Star(a), t) {
      var j: nat :| 0 < j <= |t| && Means(a, t[..j]) && Means(Star(a), t[j..]);
      Shifted(c, s, j - 1);
    }
  }

  /** Matching by derivatives decides the language. */
  lemma {:induction false} MatchIsMeaning(r: Regex, s: string)
    ensures FullMatch(r, s) <==> Means(r, s)
    decreases |s|
  {
    if s == "" {
      NullableMeansEmpty(r);
    } else {
      MatchIsMeaning(Derived(r, s[0]), s[1..]);
      DerivedMeans(r, s[0], s[1..]);
      assert s == [s[0]] + s[1..];
    }
  }

  lemma {:induction false} StarOneMeans(p: char -> bool, s: string)
    ensures Means(Star(One(p)), s) <==> forall c | c in s :: p(c)
    decreases |s|
  {
    if s != "" {
      assert s == [s[0]] + s[1..] && s[..1] == [s[0]];
      StarOneMeans(p, s[1..]);
      if Means(Star(One(p)), s) {
        var i: nat :| 0 < i <= |s| && Means(One(p), s[..i]) && Means(Star(One(p)), s[i..]);
        assert i == 1;
      }
      if p(s[0]) && Means(Star(One(p)), s[1..]) { assert Means(One(p), s[..1]); }
    }
  }

  lemma PlusOneMeans(p: char -> bool, s: string)
    ensures Means(Plus(One(p)), s) <==> s != "" && forall c | c in s :: p(c)
  {
    if s != "" {
      assert s == [s[0]] + s[1..] && s[..1] == [s[0]];
      StarOneMeans(p, s[1..]);
      if Means(Plus(One(p)), s) {
        var i: nat :| i <= |s| && Means(One(p), s[..i]) && Means(Star(One(p)), s[i..]);
        assert i == 1;
      }
      if forall c | c in s :: p(c) { assert Means(One(p), s[..1]) && Means(Star(One(p)), s[1..]); }
    }
  }
}
