/** Cutting and splitting strings. */
module Strings {
  import opened Wrappers

  predicate StartsWith(s: string, p: string) { |p| <= |s| && s[..|p|] == p }

  predicate EndsWith(s: string, p: string) { |p| <= |s| && s[|s| - |p|..] == p }

  /** The text around the first `sep`. */
  function Cut(s: string, sep: string): Option<(string, string)>
    requires sep != ""
    decreases |s|
  {
    if |s| < |sep| then None
    else if StartsWith(s, sep) then Some(("", s[|sep|..]))
    else
      var later := Cut(s[1..], sep);
      if later.None? then None else Some(([s[0]] + later.value.0, later.value.1))
  }

  predicate Contains(s: string, sep: string)
    requires sep != ""
  {
    Cut(s, sep).Some?
  }

  lemma StartAgrees(s: string, p: string)
    ensures StartsWith(s, p) ==> |p| <= |s| && forall k | 0 <= k < |p| :: s[k] == p[k]
  {
    if StartsWith(s, p) {
      forall k | 0 <= k < |p| ensures s[k] == p[k] { assert s[..|p|][k] == s[k]; }
    }
  }

  lemma StartOfPrefix(a: string, b: string, sep: string)
    requires |sep| <= |a|
    ensures StartsWith(a + b, sep) <==> StartsWith(a, sep)
  {
    assert (a + b)[..|sep|] == a[..|sep|];
  }

  /** A longer text contains at least as much. */
  lemma {:induction false} ContainedInPrefix(a: string, b: string, sep: string)
    requires sep != "" && Contains(a, sep)
    ensures Contains(a + b, sep)
  {
    StartOfPrefix(a, b, sep);
    if !StartsWith(a, sep) {
      ContainedInPrefix(a[1..], b, sep);
      assert (a + b)[1..] == a[1..] + b;
    }
  }

  /** What is cut off is what was there, and the separator is not in the part before it. */
  lemma {:induction false} CutTakesTheFirst(s: string, sep: string)
    requires sep != "" && Contains(s, sep)
    ensures var (a, b) := Cut(s, sep).value; s == a + sep + b && !Contains(a, sep)
  {
    var (a, b) := Cut(s, sep).value;
    if !StartsWith(s, sep) {
      CutTakesTheFirst(s[1..], sep);
      assert s == [s[0]] + s[1..] && a[1..] == Cut(s[1..], sep).value.0;
      assert s == a + (sep + b);
      if |sep| <= |a| { StartOfPrefix(a, sep + b, sep); }
    }
  }

  /** A separator that starts like nowhere else in itself is found where it was put. */
  lemma {:induction false} CutFindsIt(a: string, sep: string, b: string)
    requires sep != "" && sep[0] !in sep[1..] && !Contains(a, sep)
    ensures Cut(a + sep + b, sep) == Some((a, b))
  {
    var s := a + sep + b;
    if a == "" {
      assert s == sep + b && s[..|sep|] == sep && s[|sep|..] == b;
    } else {
      assert s == a + (sep + b) && s[0] == a[0] && s[|a|] == sep[0];
      if |sep| <= |a| {
        StartOfPrefix(a, sep + b, sep);
      } else {
      }
      ShorterHasNoMore(a, sep);
      CutFindsIt(a[1..], sep, b);
      assert s[1..] == a[1..] + sep + b;
      assert a == [a[0]] + a[1..];
    }
  }

  /** Text that cannot take part in a separator adds none. */
  lemma {:induction false} NothingAdded(a: string, b: string, sep: string)
    requires sep != "" && !Contains(a, sep) && sep[0] !in b && (b != "" ==> b[0] !in sep)
    ensures !Contains(a + b, sep)
  {
    if a == "" {
      assert a + b == b;
      NoStartNoCut(b, sep);
    } else {
      var s := a + b;
      if |sep| <= |a| {
        StartOfPrefix(a, b, sep);
      } else if |sep| <= |s| {
        assert s[|a|] == b[0] && sep[|a|] in sep;
        StartAgrees(s, sep);
      }
      ShorterHasNoMore(a, sep);
      NothingAdded(a[1..], b, sep);
      assert s[1..] == a[1..] + b;
    }
  }

  lemma ShorterHasNoMore(a: string, sep: string)
    requires sep != "" && a != "" && !Contains(a, sep)
    ensures !Contains(a[1..], sep)
  {}

  lemma {:induction false} NoStartNoCut(b: string, sep: string)
    requires sep != "" && sep[0] !in b
    ensures !Contains(b, sep)
  {
    if b != "" {
      StartAgrees(b, sep);
      NoStartNoCut(b[1..], sep);
    }
  }

  /** A one-character separator is contained exactly when it occurs. */
  lemma {:induction false} ContainsChar(s: string, c: char)
    ensures Contains(s, [c]) <==> c in s
  {
    if s != "" {
      assert StartsWith(s, [c]) <==> s[0] == c;
      ContainsChar(s[1..], c);
      assert s == [s[0]] + s[1..];
    }
  }

  // ---------------------------------------------------------------------------
  // Split and join
  // ---------------------------------------------------------------------------

  function Split(s: string, c: char): (parts: seq<string>)
    ensures parts != []
  {
    if s == "" then [""]
    else
      var rest := Split(s[1..], c);
      if s[0] == c then [""] + rest else [[s[0]] + rest[0]] + rest[1..]
  }

  function JoinWith(parts: seq<string>, c: char): string {
    if parts == [] then ""
    else if |parts| == 1 then parts[0]
    else parts[0] + [c] + JoinWith(parts[1..], c)
  }

  lemma {:induction false} SplitPartsArePlain(s: string, c: char)
    ensures forall p | p in Split(s, c) :: c !in p
  {
    if s != "" { SplitPartsArePlain(s[1..], c); }
  }

  lemma {:induction false} SplitPlain(s: string, c: char)
    requires c !in s
    ensures Split(s, c) == [s]
  {
    if s != "" {
      SplitPlain(s[1..], c);
      assert s == [s[0]] + s[1..];
    }
  }

  lemma {:induction false} SplitAt(a: string, c: char, b: string)
    requires c !in a
    ensures Split(a + [c] + b, c) == [a] + Split(b, c)
  {
    var s := a + [c] + b;
    if a == "" {
      assert s[0] == c && s[1..] == b;
    } else {
      SplitAt(a[1..], c, b);
      assert s[0] == a[0] && s[1..] == a[1..] + [c] + b;
      assert a == [a[0]] + a[1..];
    }
  }

  /** Joining plain parts and splitting again gives the parts back. */
  lemma {:induction false} SplitUndoesJoin(parts: seq<string>, c: char)
    requires parts != [] && forall p | p in parts :: c !in p
    ensures Split(JoinWith(parts, c), c) == parts
  {
    if |parts| == 1 {
      SplitPlain(parts[0], c);
    } else {
      SplitAt(parts[0], c, JoinWith(parts[1..], c));
      SplitUndoesJoin(parts[1..], c);
      assert parts == [parts[0]] + parts[1..];
    }
  }

  // ---------------------------------------------------------------------------
  // Strip
  // ---------------------------------------------------------------------------

  function StripLeft(s: string, c: char): string { if s != "" && s[0] == c then StripLeft(s[1..], c) else s }

  function StripRight(s: string, c: char): string {
    if s != "" && s[|s| - 1] == c then StripRight(s[..|s| - 1], c) else s
  }

  function Strip(s: string, c: char): string { StripRight(StripLeft(s, c), c) }

  predicate Stripped(s: string, c: char) { s == "" || (s[0] != c && s[|s| - 1] != c) }

  lemma {:induction false} StripLeftStrips(s: string, c: char)
    ensures var r := StripLeft(s, c); |r| <= |s| && (r == "" || r[0] != c)
  {
    if s != "" && s[0] == c { StripLeftStrips(s[1..], c); }
  }

  lemma {:induction false} StripRightStrips(s: string, c: char)
    requires s == "" || s[0] != c
    ensures Stripped(StripRight(s, c), c) && |StripRight(s, c)| <= |s|
  {
    if s != "" && s[|s| - 1] == c { StripRightStrips(s[..|s| - 1], c); }
  }

  /** Stripping strips, and leaves alone what is stripped already. */
  lemma StripStrips(s: string, c: char)
    ensures Stripped(Strip(s, c), c) && |Strip(s, c)| <= |s|
    ensures Stripped(s, c) ==> Strip(s, c) == s
  {
    StripLeftStrips(s, c);
    StripRightStrips(StripLeft(s, c), c);
  }
}
