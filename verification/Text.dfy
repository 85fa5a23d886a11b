/** The string library calls the gateway's list handling rests on: trimming, splitting and
    joining, with the round trips between them. Strings are sequences of code points. */
module Text {

  /** The code points that Go's `strings.TrimSpace` removes. */
  const WHITESPACE: set<char> := {
    '\t', '\n', '\U{0B}', '\U{0C}', '\r', ' ', '\U{85}', '\U{A0}', '\U{1680}',
    '\U{2000}', '\U{2001}', '\U{2002}', '\U{2003}', '\U{2004}', '\U{2005}', '\U{2006}',
    '\U{2007}', '\U{2008}', '\U{2009}', '\U{200A}', '\U{2028}', '\U{2029}', '\U{202F}',
    '\U{205F}', '\U{3000}'
  }

  function TrimLeft(s: string, cut: set<char>): string {
    if s != "" && s[0] in cut then TrimLeft(s[1..], cut) else s
  }

  function TrimRight(s: string, cut: set<char>): string {
    if s != "" && s[|s| - 1] in cut then TrimRight(s[..|s| - 1], cut) else s
  }

  function Trim(s: string, cut: set<char>): string {
    TrimRight(TrimLeft(s, cut), cut)
  }

  function TrimSpace(s: string): string {
    Trim(s, WHITESPACE)
  }

  predicate HasPrefix(s: string, prefix: string) {
    prefix <= s
  }

  /** `strings.Split` on a one-character separator: never empty. */
  function Split(s: string, sep: char): (r: seq<string>)
    ensures |r| >= 1
  {
    if s == "" then [""] else Prepend(s[0], sep, Split(s[1..], sep))
  }

  /** One more character in front of pieces already split off. */
  function Prepend(c: char, sep: char, pieces: seq<string>): (r: seq<string>)
    requires |pieces| >= 1
    ensures |r| >= 1
  {
    if c == sep then [""] + pieces else [[c] + pieces[0]] + pieces[1..]
  }

  /** `strings.Join`. */
  function Join(parts: seq<string>, sep: char): string {
    if |parts| == 0 then ""
    else if |parts| == 1 then parts[0]
    else parts[0] + [sep] + Join(parts[1..], sep)
  }

  /** No end of the string is in the cut set. */
  ghost predicate Trimmed(s: string, cut: set<char>) {
    s == "" || (s[0] !in cut && s[|s| - 1] !in cut)
  }

  ghost predicate FreeOf(parts: seq<string>, sep: char) {
    forall i :: 0 <= i < |parts| ==> sep !in parts[i]
  }

  // ---------------------------------------------------------------- trimming

  lemma {:induction false} TrimLeftEnds(s: string, cut: set<char>)
    ensures var t := TrimLeft(s, cut);
            (t == "" || t[0] !in cut) && |t| <= |s| && t == s[|s| - |t|..]
            && forall i :: 0 <= i < |s| - |t| ==> s[i] in cut
  {
    if s != "" && s[0] in cut {
      TrimLeftEnds(s[1..], cut);
      var t := TrimLeft(s, cut);
      assert t == s[1..][|s| - 1 - |t|..] == s[|s| - |t|..];
      forall i | 0 <= i < |s| - |t| ensures s[i] in cut {
        if i > 0 { assert s[i] == s[1..][i - 1]; }
      }
    }
  }

  lemma {:induction false} TrimRightEnds(s: string, cut: set<char>)
    ensures var t := TrimRight(s, cut);
            (t == "" || t[|t| - 1] !in cut) && |t| <= |s| && t == s[..|t|]
            && forall i :: |t| <= i < |s| ==> s[i] in cut
  {
    if s != "" && s[|s| - 1] in cut {
      TrimRightEnds(s[..|s| - 1], cut);
    }
  }

  /** `Trim` leaves both ends outside the cut set, and leaves a string with such ends alone. */
  lemma TrimSpec(s: string, cut: set<char>)
    ensures Trimmed(Trim(s, cut), cut)
    ensures Trimmed(s, cut) ==> Trim(s, cut) == s
    ensures forall c :: c in Trim(s, cut) ==> c in s
  {
    TrimEnds(s, cut);
    TrimMembers(s, cut);
  }

  lemma TrimEnds(s: string, cut: set<char>)
    ensures Trimmed(Trim(s, cut), cut)
  {
    TrimLeftEnds(s, cut);
    var l, t := TrimLeft(s, cut), Trim(s, cut);
    TrimRightEnds(l, cut);
    if t != "" {
      assert t[0] == l[0];
    }
  }

  lemma TrimMembers(s: string, cut: set<char>)
    ensures forall c :: c in Trim(s, cut) ==> c in s
  {
    TrimLeftEnds(s, cut);
    var l, t := TrimLeft(s, cut), Trim(s, cut);
    TrimRightEnds(l, cut);
    assert s == s[..|s| - |l|] + l && l == t + l[|t|..];
  }

  /** A string trims to nothing exactly when all of it is in the cut set. */
  lemma TrimEmpty(s: string, cut: set<char>)
    ensures Trim(s, cut) == "" <==> forall c :: c in s ==> c in cut
  {
    TrimLeftEnds(s, cut);
    var l := TrimLeft(s, cut);
    TrimRightEnds(l, cut);
    if Trim(s, cut) == "" {
      assert l == "";
    } else {
      assert l[0] in s && l[0] !in cut;
    }
  }

  /** What trimming removes: a part of the cut set before and after. */
  lemma TrimParts(s: string, cut: set<char>) returns (before: string, after: string)
    ensures s == before + Trim(s, cut) + after
    ensures forall i :: 0 <= i < |before| ==> before[i] in cut
    ensures forall i :: 0 <= i < |after| ==> after[i] in cut
  {
    TrimLeftEnds(s, cut);
    var l, t := TrimLeft(s, cut), Trim(s, cut);
    TrimRightEnds(l, cut);
    before, after := s[..|s| - |l|], l[|t|..];
    CutTwice(s, l, t);
  }

  lemma CutTwice(s: string, l: string, t: string)
    requires |l| <= |s| && l == s[|s| - |l|..] && |t| <= |l| && t == l[..|t|]
    ensures s == s[..|s| - |l|] + t + l[|t|..]
  {
    var k := |s| - |l|;
    assert s == s[..k] + s[k..];
    assert l == l[..|t|] + l[|t|..];
    assert s[..k] + (t + l[|t|..]) == s[..k] + t + l[|t|..];
  }

  /** The Unicode code points of white space, by number. */
  lemma WhitespaceIs(c: char)
    ensures c in WHITESPACE <==>
            var n := c as int;
            || 9 <= n <= 13 || n == 32 || n == 133 || n == 160 || n == 5760 || 8192 <= n <= 8202
            || n == 8232 || n == 8233 || n == 8239 || n == 8287 || n == 12288
  {
  }

  // ---------------------------------------------------- splitting and joining

  /** Where a part begins in the joined string: behind the parts before it and a separator for each. */
  ghost function Offset(parts: seq<string>, i: nat): nat
    requires i <= |parts|
  {
    if i == 0 then 0 else |parts[0]| + 1 + Offset(parts[1..], i - 1)
  }

  /** A part stands in a string at a place, with a separator behind it if more follows. */
  ghost predicate StandsAt(j: string, at: nat, part: string, more: bool, sep: char) {
    && at + |part| <= |j| && j[at..at + |part|] == part
    && (more ==> at + |part| < |j| && j[at + |part|] == sep)
  }

  /** Every part is in the joined string at its place, with a separator behind all but the last. */
  lemma {:induction false} JoinPlaces(parts: seq<string>, sep: char, i: nat)
    requires i < |parts|
    ensures StandsAt(Join(parts, sep), Offset(parts, i), parts[i], i + 1 < |parts|, sep)
    ensures |Join(parts, sep)| + 1 == Offset(parts, |parts|)
    decreases |parts|
  {
    JoinSize(parts, sep);
    if i == 0 {
      FirstPlace(parts, sep);
    } else {
      var rest, head := parts[1..], parts[0] + [sep];
      JoinPlaces(rest, sep, i - 1);
      StandsBehind(head, Join(rest, sep), Offset(rest, i - 1), rest[i - 1], i < |rest|, sep);
    }
  }

  lemma FirstPlace(parts: seq<string>, sep: char)
    requires parts != []
    ensures StandsAt(Join(parts, sep), 0, parts[0], |parts| > 1, sep)
  {
  }

  lemma StandsBehind(head: string, tail: string, at: nat, part: string, more: bool, sep: char)
    requires StandsAt(tail, at, part, more, sep)
    ensures StandsAt(head + tail, |head| + at, part, more, sep)
  {
  }

  lemma {:induction false} JoinSize(parts: seq<string>, sep: char)
    requires parts != []
    ensures |Join(parts, sep)| + 1 == Offset(parts, |parts|)
    decreases |parts|
  {
    if |parts| == 1 {
      assert Offset(parts[1..], 0) == 0;
    } else {
      JoinSize(parts[1..], sep);
    }
  }

  lemma {:induction false} SplitFree(s: string, sep: char)
    ensures FreeOf(Split(s, sep), sep)
  {
    if s == "" {
    } else {
      SplitFree(s[1..], sep);
    }
  }

  /** A separator-free string is one piece. */
  lemma {:induction false} SplitWhole(s: string, sep: char)
    requires sep !in s
    ensures Split(s, sep) == [s]
  {
    if s == "" {
    } else {
      SplitWhole(s[1..], sep);
      assert [s[0]] + s[1..] == s;
    }
  }

  lemma PrependAppend(c: char, sep: char, left: seq<string>, right: seq<string>)
    requires |left| >= 1
    ensures Prepend(c, sep, left + right) == Prepend(c, sep, left) + right
  {
    assert (left + right)[1..] == left[1..] + right && (left + right)[0] == left[0];
    if c != sep {
      var head := [[c] + left[0]];
      assert head + (left[1..] + right) == (head + left[1..]) + right;
    } else {
      assert [""] + (left + right) == ([""] + left) + right;
    }
  }

  lemma {:induction false} SplitAppend(a: string, sep: char, b: string)
    ensures Split(a + [sep] + b, sep) == Split(a, sep) + Split(b, sep)
  {
    if a == "" {
      assert (a + [sep] + b)[1..] == b;
    } else {
      SplitAppend(a[1..], sep, b);
      var whole := a + [sep] + b;
      assert whole[1..] == a[1..] + [sep] + b && whole[0] == a[0];
      PrependAppend(a[0], sep, Split(a[1..], sep), Split(b, sep));
    }
  }

  /** Joining separator-free parts and splitting again returns the parts. */
  lemma {:induction false} SplitJoin(parts: seq<string>, sep: char)
    requires |parts| >= 1 && FreeOf(parts, sep)
    ensures Split(Join(parts, sep), sep) == parts
  {
    SplitWhole(parts[0], sep);
    if |parts| == 1 {
      assert parts == [parts[0]];
    } else {
      SplitJoin(parts[1..], sep);
      SplitAppend(parts[0], sep, Join(parts[1..], sep));
      assert parts == [parts[0]] + parts[1..];
    }
  }

  /** Splitting and joining again returns the string. */
  lemma {:induction false} JoinSplit(s: string, sep: char)
    ensures Join(Split(s, sep), sep) == s
  {
    if s == "" {
    } else {
      JoinSplit(s[1..], sep);
      var rest := Split(s[1..], sep);
      var all := Split(s, sep);
      if s[0] == sep {
        assert all[1..] == rest;
      } else if |rest| > 1 {
        assert all[1..] == rest[1..];
      } else {
        assert all == [[s[0]] + rest[0]];
      }
    }
  }

  /** A joined list starts with its first part and ends with its last. */
  lemma {:induction false} JoinEnds(parts: seq<string>, sep: char)
    requires |parts| >= 1
    ensures parts[0] <= Join(parts, sep)
    ensures var last, j := parts[|parts| - 1], Join(parts, sep);
            |last| <= |j| && j[|j| - |last|..] == last
    ensures |parts| > 1 ==> |Join(parts, sep)| > |parts[0]| && Join(parts, sep)[|parts[0]|] == sep
  {
    if |parts| > 1 {
      JoinEnds(parts[1..], sep);
    }
  }

  /** When neither the first nor the last part is empty, the joined string has no separator to trim
      at either end, and otherwise it has (or is empty). */
  lemma JoinTrimmed(parts: seq<string>, sep: char)
    requires |parts| >= 1 && FreeOf(parts, sep)
    ensures parts[0] != "" && parts[|parts| - 1] != "" <==>
            Join(parts, sep) != "" && Trimmed(Join(parts, sep), {sep})
  {
    JoinEnds(parts, sep);
    var j, last := Join(parts, sep), parts[|parts| - 1];
    if parts[0] != "" && last != "" {
      assert j[0] == parts[0][0];
      assert j[|j| - 1] == last[|last| - 1];
    } else if |parts| > 1 {
      if parts[0] == "" {
        assert j[0] == sep;
      } else {
        JoinLastSeparator(parts, sep);
      }
    }
  }

  lemma {:induction false} JoinLastSeparator(parts: seq<string>, sep: char)
    requires |parts| > 1 && parts[|parts| - 1] == ""
    ensures var j := Join(parts, sep); j != "" && j[|j| - 1] == sep
  {
    if |parts| > 2 {
      JoinLastSeparator(parts[1..], sep);
    } else {
      assert parts[1..] == [""];
    }
  }
}
