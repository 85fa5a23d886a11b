/** The ordered-set algebra over model names (controller/channel_upstream_update.go:100-150). */
module ModelNames {
  import opened Text

  type Names = seq<string>

  ghost predicate NoDup(s: Names) {
    forall i, j :: 0 <= i < j < |s| ==> s[i] != s[j]
  }

  /** A name that normalising leaves alone. */
  predicate Clean(name: string) {
    name != "" && TrimSpace(name) == name
  }

  /** A list that normalising leaves alone. */
  ghost predicate IsNormal(s: Names) {
    NoDup(s) && forall x :: x in s ==> Clean(x)
  }

  ghost predicate Disjoint(a: Names, b: Names) {
    forall x :: x in a ==> x !in b
  }

  /** `lo.FilterMap` with the trimming callback. */
  function TrimAll(s: Names): Names {
    if s == [] then []
    else
      var r, t := TrimAll(s[..|s| - 1]), TrimSpace(s[|s| - 1]);
      if t == "" then r else r + [t]
  }

  /** `lo.Uniq`: the first occurrence of each name, in order. */
  function Uniq(s: Names): Names {
    if s == [] then []
    else
      var r := Uniq(s[..|s| - 1]);
      if s[|s| - 1] in r then r else r + [s[|s| - 1]]
  }

  function Normalize(s: Names): Names {
    Uniq(TrimAll(s))
  }

  /** `lo.Filter`. */
  function Filter(s: Names, keep: string -> bool): (r: Names)
    ensures forall x :: x in r <==> x in s && keep(x)
    ensures NoDup(s) ==> NoDup(r)
    ensures |r| <= |s|
  {
    if s == [] then []
    else
      var r := Filter(s[..|s| - 1], keep);
      if keep(s[|s| - 1]) then r + [s[|s| - 1]] else r
  }

  /** A filter against a removal set. */
  function Without(s: Names, removed: Names): (r: Names)
    ensures forall x :: x in r <==> x in s && x !in removed
    ensures NoDup(s) ==> NoDup(r)
  {
    if s == [] then []
    else
      var r := Without(s[..|s| - 1], removed);
      if s[|s| - 1] in removed then r else r + [s[|s| - 1]]
  }

  function Merge(base: Names, appended: Names): Names {
    Normalize(base) + Without(Normalize(appended), Normalize(base))
  }

  function Subtract(base: Names, removed: Names): Names {
    Without(Normalize(base), Normalize(removed))
  }

  function Intersect(base: Names, allowed: Names): Names {
    Filter(Normalize(base), x => x in Normalize(allowed))
  }

  function ApplySelected(origin: Names, add: Names, remove: Names): Names {
    var normalizedAdd := Normalize(add);
    Subtract(Merge(origin, normalizedAdd), Subtract(Normalize(remove), normalizedAdd))
  }

  // ------------------------------------------------------------- what they mean

  lemma {:induction false} TrimAllSpec(s: Names)
    ensures forall x :: x in TrimAll(s) ==> Clean(x)
    ensures forall x :: x in TrimAll(s) <==> x != "" && exists i :: 0 <= i < |s| && TrimSpace(s[i]) == x
  {
    if s == [] {
    } else {
      var init := s[..|s| - 1];
      TrimAllSpec(init);
      TrimSpec(s[|s| - 1], WHITESPACE);
      TrimSpec(TrimSpace(s[|s| - 1]), WHITESPACE);
      forall x ensures x in TrimAll(s) <==> x != "" && exists i :: 0 <= i < |s| && TrimSpace(s[i]) == x {
        if x != "" && exists i :: 0 <= i < |s| && TrimSpace(s[i]) == x {
          var i :| 0 <= i < |s| && TrimSpace(s[i]) == x;
          if i < |s| - 1 { assert init[i] == s[i]; }
        }
        if x in TrimAll(init) {
          var i :| 0 <= i < |init| && TrimSpace(init[i]) == x;
          assert s[i] == init[i];
        }
      }
    }
  }

  lemma {:induction false} UniqSpec(s: Names)
    ensures NoDup(Uniq(s))
    ensures forall x :: x in Uniq(s) <==> x in s
    ensures NoDup(s) ==> Uniq(s) == s
  {
    if s == [] {
    } else {
      UniqSpec(s[..|s| - 1]);
      assert s == s[..|s| - 1] + [s[|s| - 1]];
    }
  }

  /** Normalising yields distinct, trimmed, non-empty names: exactly the trimmed forms of the input. */
  lemma NormalizeSpec(s: Names)
    ensures IsNormal(Normalize(s))
    ensures forall x :: x in Normalize(s) <==> x != "" && exists i :: 0 <= i < |s| && TrimSpace(s[i]) == x
  {
    TrimAllSpec(s);
    UniqSpec(TrimAll(s));
  }

  lemma {:induction false} UniqPrefix(a: Names, b: Names)
    ensures Uniq(a) <= Uniq(a + b)
  {
    if b == [] {
      assert a + b == a;
    } else {
      UniqPrefix(a, b[..|b| - 1]);
      assert (a + b)[..|a + b| - 1] == a + b[..|b| - 1];
    }
  }

  /** Normalising keeps the order of first appearance: more input only adds names at the end. */
  lemma NormalizePrefix(a: Names, b: Names)
    ensures Normalize(a) <= Normalize(a + b)
  {
    TrimAllAppend(a, b);
    UniqPrefix(TrimAll(a), TrimAll(b));
  }

  /** So does filtering. */
  lemma {:induction false} FilterPrefix(a: Names, b: Names, keep: string -> bool)
    ensures Filter(a, keep) <= Filter(a + b, keep)
  {
    if b == [] {
      assert a + b == a;
    } else {
      FilterPrefix(a, b[..|b| - 1], keep);
      assert (a + b)[..|a + b| - 1] == a + b[..|b| - 1];
    }
  }

  lemma TrimAllLast(s: Names, last: string)
    requires s != [] && s[|s| - 1] == last && Clean(last)
    ensures TrimAll(s) == TrimAll(s[..|s| - 1]) + [last]
  {
  }

  lemma {:induction false} TrimAllFixed(s: Names)
    requires forall x :: x in s ==> Clean(x)
    ensures TrimAll(s) == s
  {
    if s == [] {
    } else {
      var init, last := s[..|s| - 1], s[|s| - 1];
      assert s == init + [last];
      TrimAllFixed(init);
      TrimAllLast(s, last);
    }
  }

  /** Normalising is idempotent: a normal list is its own normal form. */
  lemma NormalizeFixed(s: Names)
    requires IsNormal(s)
    ensures Normalize(s) == s
  {
    TrimAllFixed(s);
    UniqSpec(s);
  }

  lemma {:induction false} TrimAllAppend(a: Names, b: Names)
    ensures TrimAll(a + b) == TrimAll(a) + TrimAll(b)
  {
    if b == [] {
      assert a + b == a;
    } else {
      var all, init := a + b, b[..|b| - 1];
      TrimAllAppend(a, init);
      assert all[..|all| - 1] == a + init && all[|all| - 1] == b[|b| - 1];
      var t := TrimSpace(b[|b| - 1]);
      assert (TrimAll(a) + TrimAll(init)) + [t] == TrimAll(a) + (TrimAll(init) + [t]);
    }
  }

  /** Removing nothing that is there changes nothing. */
  lemma {:induction false} WithoutDisjoint(s: Names, removed: Names)
    requires Disjoint(s, removed)
    ensures Without(s, removed) == s
  {
    if s == [] {
    } else {
      var init, last := s[..|s| - 1], s[|s| - 1];
      assert last in s;
      WithoutDisjoint(init, removed);
      assert init + [last] == s;
    }
  }

  /** Every list operation yields a normal list with exactly the set-theoretic members. */
  lemma SetAlgebra(a: Names, b: Names)
    ensures IsNormal(Merge(a, b)) && IsNormal(Subtract(a, b)) && IsNormal(Intersect(a, b))
    ensures forall x :: x in Merge(a, b) <==> x in Normalize(a) || x in Normalize(b)
    ensures forall x :: x in Subtract(a, b) <==> x in Normalize(a) && x !in Normalize(b)
    ensures forall x :: x in Intersect(a, b) <==> x in Normalize(a) && x in Normalize(b)
    ensures Normalize(a) <= Merge(a, b)
  {
    NormalizeSpec(a);
    NormalizeSpec(b);
    NoDupAppend(Normalize(a), Without(Normalize(b), Normalize(a)));
  }

  lemma NoDupAppend(a: Names, b: Names)
    requires NoDup(a) && NoDup(b) && Disjoint(b, a)
    ensures NoDup(a + b)
  {
    forall i, j | 0 <= i < j < |a + b| ensures (a + b)[i] != (a + b)[j] {
      if i < |a| <= j { assert b[j - |a|] in b; }
    }
  }

  /** One occurrence of x comes before one of y. */
  ghost predicate Precedes(s: Names, x: string, y: string) {
    exists i, j :: 0 <= i < j < |s| && s[i] == x && s[j] == y
  }

  lemma PrecedesLast(s: Names, last: string, x: string, y: string)
    ensures Precedes(s + [last], x, y) <==> Precedes(s, x, y) || (x in s && y == last)
  {
    var all := s + [last];
    if Precedes(all, x, y) {
      var i, j :| 0 <= i < j < |all| && all[i] == x && all[j] == y;
      assert s[i] == x;
      if j < |s| { assert s[j] == y; }
    }
    if Precedes(s, x, y) {
      var i, j :| 0 <= i < j < |s| && s[i] == x && s[j] == y;
      assert all[i] == x && all[j] == y;
    } else if x in s && y == last {
      var i :| 0 <= i < |s| && s[i] == x;
      assert all[i] == x && all[|s|] == y;
    }
  }

  lemma {:induction false} FilterOrder(s: Names, keep: string -> bool, x: string, y: string)
    ensures Precedes(Filter(s, keep), x, y) <==> Precedes(s, x, y) && keep(x) && keep(y)
  {
    if s == [] {
    } else {
      var init, last := s[..|s| - 1], s[|s| - 1];
      FilterOrder(init, keep, x, y);
      assert s == init + [last];
      PrecedesLast(init, last, x, y);
      PrecedesLast(Filter(init, keep), last, x, y);
    }
  }

  lemma {:induction false} WithoutOrder(s: Names, removed: Names, x: string, y: string)
    ensures Precedes(Without(s, removed), x, y) <==> Precedes(s, x, y) && x !in removed && y !in removed
  {
    if s == [] {
    } else {
      var init, last := s[..|s| - 1], s[|s| - 1];
      WithoutOrder(init, removed, x, y);
      assert s == init + [last];
      PrecedesLast(init, last, x, y);
      PrecedesLast(Without(init, removed), last, x, y);
    }
  }

  /** Every list operation keeps the order of its first list; what merging appends keeps the order of the
      second. */
  lemma AlgebraKeepsOrder(a: Names, b: Names, x: string, y: string)
    ensures Precedes(Subtract(a, b), x, y) <==>
            Precedes(Normalize(a), x, y) && x !in Normalize(b) && y !in Normalize(b)
    ensures Precedes(Intersect(a, b), x, y) <==>
            Precedes(Normalize(a), x, y) && x in Normalize(b) && y in Normalize(b)
    ensures var tail := Merge(a, b)[|Normalize(a)|..];
            Precedes(tail, x, y) <==> Precedes(Normalize(b), x, y) && x !in Normalize(a) && y !in Normalize(a)
  {
    WithoutOrder(Normalize(a), Normalize(b), x, y);
    FilterOrder(Normalize(a), n => n in Normalize(b), x, y);
    WithoutOrder(Normalize(b), Normalize(a), x, y);
    assert Merge(a, b)[|Normalize(a)|..] == Without(Normalize(b), Normalize(a));
  }

  /** Merging in names that are all new lengthens the list by exactly their number. */
  lemma MergeDisjointLength(base: Names, appended: Names)
    requires IsNormal(base) && IsNormal(appended) && Disjoint(appended, base)
    ensures |Merge(base, appended)| == |base| + |appended|
  {
    NormalizeFixed(base);
    NormalizeFixed(appended);
    WithoutDisjoint(appended, base);
  }

  /** Selected changes: everything added, and of the origin everything not removed; a name selected
      for both is added. */
  lemma ApplySelectedSpec(origin: Names, add: Names, remove: Names)
    ensures IsNormal(ApplySelected(origin, add, remove))
    ensures forall x :: x in ApplySelected(origin, add, remove) <==>
                        x in Normalize(add) || (x in Normalize(origin) && x !in Normalize(remove))
  {
    var normalizedAdd := Normalize(add);
    NormalizeSpec(add);
    NormalizeFixed(normalizedAdd);
    NormalizeSpec(remove);
    NormalizeFixed(Normalize(remove));
    SetAlgebra(origin, normalizedAdd);
    NormalizeFixed(Merge(origin, normalizedAdd));
    SetAlgebra(Normalize(remove), normalizedAdd);
    NormalizeFixed(Subtract(Normalize(remove), normalizedAdd));
    SetAlgebra(Merge(origin, normalizedAdd), Subtract(Normalize(remove), normalizedAdd));
  }

  lemma WithoutLast(s: Names, last: string, removed: Names)
    ensures Without(s + [last], removed) == Without(s, removed) + if last in removed then [] else [last]
  {
    assert (s + [last])[..|s|] == s;
  }

  lemma Associates(a: Names, b: Names, c: Names)
    ensures (a + b) + c == a + (b + c)
  {
  }

  lemma {:induction false} WithoutAppend(a: Names, b: Names, removed: Names)
    ensures Without(a + b, removed) == Without(a, removed) + Without(b, removed)
  {
    if b == [] {
      assert a + b == a;
    } else {
      var init, last := b[..|b| - 1], b[|b| - 1];
      var whole := init + [last];
      assert whole == b;
      assert Without(a + whole, removed) == Without(a, removed) + Without(whole, removed) by {
        WithoutAppend(a, init, removed);
        WithoutAppendLast(a, init, last, removed);
      }
    }
  }

  lemma WithoutAppendLast(a: Names, b: Names, last: string, removed: Names)
    requires Without(a + b, removed) == Without(a, removed) + Without(b, removed)
    ensures Without(a + (b + [last]), removed) == Without(a, removed) + Without(b + [last], removed)
  {
    Associates(a, b, [last]);
    WithoutLast(a + b, last, removed);
    WithoutLast(b, last, removed);
    Associates(Without(a, removed), Without(b, removed), if last in removed then [] else [last]);
  }

  /** Where selected changes leave things: first what stays of the origin, then what is new. */
  lemma ApplySelectedLayout(origin: Names, add: Names, remove: Names)
    requires IsNormal(origin) && IsNormal(add) && IsNormal(remove) && Disjoint(add, remove)
    ensures ApplySelected(origin, add, remove) == Without(origin, remove) + Without(add, origin)
  {
    NormalizeFixed(origin);
    NormalizeFixed(add);
    NormalizeFixed(remove);
    WithoutDisjoint(remove, add);
    SetAlgebra(origin, add);
    NormalizeFixed(Merge(origin, add));
    WithoutAppend(origin, Without(add, origin), remove);
    WithoutDisjoint(Without(add, origin), remove);
  }

  lemma WithoutStep(extra: Names, origin: Names, i: nat)
    requires i < |extra|
    ensures Without(extra[..i + 1], origin) ==
            if extra[i] in origin then Without(extra[..i], origin) else Without(extra[..i], origin) + [extra[i]]
  {
    var longer := extra[..i + 1];
    assert longer[..|longer| - 1] == extra[..i] && longer[|longer| - 1] == extra[i];
  }

  /** `mergeModelNames`, with its `seen` set and growing slice. */
  method MergeModelNames(base: Names, appended: Names) returns (merged: Names)
    ensures merged == Merge(base, appended)
  {
    merged := Normalize(base);
    var seen: set<string> := {};
    for i := 0 to |merged|
      invariant forall x :: x in seen <==> x in merged[..i]
    {
      seen := seen + {merged[i]};
    }
    assert merged[..|merged|] == merged;
    NormalizeSpec(appended);
    merged := AppendUnseen(merged, seen, Normalize(appended));
  }

  ghost predicate Seen(seen: set<string>, origin: Names, tail: Names) {
    forall x :: x in seen <==> x in origin || x in tail
  }

  lemma SeenStep(seen: set<string>, origin: Names, tail: Names, name: string)
    requires Seen(seen, origin, tail)
    ensures Seen(seen + {name}, origin, tail + [name])
  {
  }

  /** One round of the second loop: a name is new exactly when it is not in the seen set. */
  lemma UnseenStep(extra: Names, origin: Names, seen: set<string>, tail: Names, i: nat)
    requires NoDup(extra) && i < |extra| && tail == Without(extra[..i], origin) && Seen(seen, origin, tail)
    ensures extra[i] in seen ==> Without(extra[..i + 1], origin) == tail
    ensures extra[i] !in seen ==>
              Without(extra[..i + 1], origin) == tail + [extra[i]]
              && Seen(seen + {extra[i]}, origin, tail + [extra[i]])
  {
    assert extra[i] !in extra[..i];
    WithoutStep(extra, origin, i);
    SeenStep(seen, origin, tail, extra[i]);
  }

  /** The second loop: names not seen yet are appended. */
  method AppendUnseen(origin: Names, known: set<string>, extra: Names) returns (merged: Names)
    requires NoDup(extra) && forall x :: x in known <==> x in origin
    ensures merged == origin + Without(extra, origin)
  {
    merged := origin;
    var seen := known;
    ghost var tail: Names := [];
    for i := 0 to |extra|
      invariant tail == Without(extra[..i], origin) && merged == origin + tail
      invariant Seen(seen, origin, tail)
    {
      var name := extra[i];
      UnseenStep(extra, origin, seen, tail, i);
      if name in seen {
        continue;
      }
      seen := seen + {name};
      Associates(origin, tail, [name]);
      merged, tail := merged + [name], tail + [name];
    }
    assert extra[..|extra|] == extra;
  }
}
