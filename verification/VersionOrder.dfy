/** Ordering of assistant versions and the decision to offer one (controller/misc.go:220-299). A
    version is the list of numbers read off its text. */
module VersionOrder {

  type Parts = seq<nat>

  /** Missing parts count as zero. */
  function At(parts: Parts, i: nat): nat {
    if i < |parts| then parts[i] else 0
  }

  /** `compareAssistantVersion`: 1, 0 or -1 at the first position where the lists, padded with zeros,
      differ. */
  method CompareAssistantVersion(left: Parts, right: Parts) returns (r: int)
    ensures r == 1 ==> Below(right, left)
    ensures r == -1 ==> Below(left, right)
    ensures r == 0 ==> forall i: nat :: At(left, i) == At(right, i)
    ensures r == 1 || r == -1 || r == 0
  {
    var maxLen := |left|;
    if |right| > maxLen {
      maxLen := |right|;
    }
    for i := 0 to maxLen
      invariant forall j :: 0 <= j < i ==> At(left, j) == At(right, j)
    {
      var leftValue, rightValue := 0, 0;
      if i < |left| { leftValue := left[i]; }
      if i < |right| { rightValue := right[i]; }
      if leftValue > rightValue {
        assert BelowAt(right, left, i);
        return 1;
      }
      if leftValue < rightValue {
        assert BelowAt(left, right, i);
        return -1;
      }
    }
    return 0;
  }

  ghost predicate BelowAt(a: Parts, b: Parts, k: nat) {
    At(a, k) < At(b, k) && forall j: nat :: j < k ==> At(a, j) == At(b, j)
  }

  ghost predicate Below(a: Parts, b: Parts) {
    exists k: nat :: BelowAt(a, b, k)
  }

  /** Equal as versions. */
  ghost predicate Same(a: Parts, b: Parts) {
    forall i: nat :: At(a, i) == At(b, i)
  }

  /** The list without its trailing zeros. */
  function Strip(parts: Parts): Parts {
    if parts != [] && parts[|parts| - 1] == 0 then Strip(parts[..|parts| - 1]) else parts
  }

  lemma {:induction false} StripKeeps(parts: Parts)
    ensures Same(Strip(parts), parts)
    ensures Strip(parts) != [] ==> Strip(parts)[|Strip(parts)| - 1] != 0
  {
    if parts != [] && parts[|parts| - 1] == 0 {
      var init := parts[..|parts| - 1];
      StripKeeps(init);
      forall i: nat ensures At(Strip(parts), i) == At(parts, i) {
        assert At(init, i) == At(parts, i);
      }
    }
  }

  lemma LongerDiffers(s: Parts, t: Parts)
    requires |s| < |t| && t[|t| - 1] != 0
    ensures !Same(s, t) && !Same(t, s)
  {
    assert At(t, |t| - 1) != At(s, |t| - 1);
  }

  /** Two lists are the same version exactly when they agree after stripping trailing zeros. */
  lemma SameExactlyWhen(a: Parts, b: Parts)
    ensures Same(a, b) <==> Strip(a) == Strip(b)
  {
    StripKeeps(a);
    StripKeeps(b);
    var s, t := Strip(a), Strip(b);
    if Same(a, b) {
      assert Same(s, t) by {
        forall i: nat ensures At(s, i) == At(t, i) {
          assert At(s, i) == At(a, i) && At(b, i) == At(t, i) && At(a, i) == At(b, i);
        }
      }
      if |s| < |t| {
        LongerDiffers(s, t);
      } else if |t| < |s| {
        LongerDiffers(t, s);
      } else {
        forall i | 0 <= i < |s| ensures s[i] == t[i] {
          assert At(s, i) == At(t, i);
        }
      }
    } else {
      var i: nat :| At(a, i) != At(b, i);
      assert At(s, i) == At(a, i) && At(t, i) == At(b, i);
    }
  }

  /** Exactly one of below, same and above holds of any two versions. */
  lemma Trichotomy(a: Parts, b: Parts)
    ensures Below(a, b) || Same(a, b) || Below(b, a)
    ensures !(Below(a, b) && Below(b, a)) && !(Below(a, b) && Same(a, b))
  {
    FirstDifference(a, b, 0);
  }

  lemma FirstDifference(a: Parts, b: Parts, k: nat)
    requires forall j: nat :: j < k ==> At(a, j) == At(b, j)
    ensures Below(a, b) || Same(a, b) || Below(b, a)
    decreases |a| + |b| - k
  {
    if k >= |a| && k >= |b| {
      assert Same(a, b);
    } else if At(a, k) < At(b, k) {
      assert BelowAt(a, b, k);
    } else if At(b, k) < At(a, k) {
      assert BelowAt(b, a, k);
    } else {
      FirstDifference(a, b, k + 1);
    }
  }

  /** Being older is transitive, also through versions that only differ in trailing zeros. */
  lemma BelowTransitive(a: Parts, b: Parts, c: Parts)
    requires Below(a, b) || Same(a, b)
    requires Below(b, c) || Same(b, c)
    ensures Below(a, c) || Same(a, c)
    ensures Below(a, b) || Below(b, c) ==> Below(a, c)
  {
    if Same(a, b) && Same(b, c) {
      assert Same(a, c);
    } else {
      var i: nat :| if Below(a, b) then BelowAt(a, b, i) else BelowAt(b, c, i);
      var j: nat :| if Below(b, c) then BelowAt(b, c, j) else BelowAt(a, b, j);
      BelowThrough(a, b, c, i, j);
    }
  }

  lemma BelowThrough(a: Parts, b: Parts, c: Parts, i: nat, j: nat)
    requires BelowAt(a, b, i) || (Same(a, b) && i == j)
    requires BelowAt(b, c, j) || (Same(b, c) && i == j)
    requires BelowAt(a, b, i) || BelowAt(b, c, j)
    ensures Below(a, c)
  {
    var k := if i < j then i else j;
    assert At(a, k) <= At(b, k) <= At(c, k);
    assert BelowAt(a, c, k);
  }

  /** When `writeAssistantUpdateManifest` answers with a manifest; `parts` reads the numbers off a
      version text. */
  method OffersUpdate(version: string, url: string, signature: string, current: string,
                      parts: string -> Parts)
    returns (offer: bool)
    ensures offer <==> version != "" && url != "" && signature != "" && Below(parts(current), parts(version))
  {
    if version == "" || url == "" || signature == "" {
      return false;
    }
    Trichotomy(parts(version), parts(current));
    if version == current {
      return false;
    }
    var order := CompareAssistantVersion(parts(version), parts(current));
    Trichotomy(parts(current), parts(version));
    return order > 0;
  }
}
