/** Appending keys to a multi-key channel (controller/channel.go:1064-1137). */
module KeyAppend {
  import opened Basics
  import opened Text
  import opened MultiKey

  /** The keys the append branch takes the stored string to hold. */
  function ExistingKeys(origin: string, read: ArrayReader): Keys {
    if HasPrefix(TrimSpace(origin), "[")
    then (match read(TrimSpace(origin)) case Some(keys) => keys case None => [])
    else Lines(origin)
  }

  /** A value as the `seen` set knows it. */
  ghost predicate Known(keys: Keys, x: string) {
    exists i :: 0 <= i < |keys| && TrimSpace(keys[i]) == x
  }

  /** The new keys of an input, in order of first appearance. */
  ghost function FreshOf(existing: Keys, input: Keys): Keys {
    if input == [] then []
    else
      var before, x := FreshOf(existing, input[..|input| - 1]), TrimSpace(input[|input| - 1]);
      if x == "" || Known(existing, x) || x in before then before else before + [x]
  }

  /** Distinct, trimmed, not empty, and exactly those that are not among the existing keys. */
  ghost predicate IsFresh(added: Keys, existing: Keys, input: Keys) {
    && (forall i, j :: 0 <= i < j < |added| ==> added[i] != added[j])
    && (forall x :: x in added <==> x != "" && Known(input, x) && !Known(existing, x))
  }

  lemma {:induction false} FreshOfSpec(existing: Keys, input: Keys)
    ensures IsFresh(FreshOf(existing, input), existing, input)
  {
    if input == [] {
    } else {
      FreshOfSpec(existing, input[..|input| - 1]);
      KnownStep(input, |input| - 1);
      assert input[..|input|] == input;
    }
  }

  /** New keys come in order of first appearance: more input only adds keys at the end. */
  lemma {:induction false} FreshOfPrefix(existing: Keys, a: Keys, b: Keys)
    ensures FreshOf(existing, a) <= FreshOf(existing, a + b)
  {
    if b == [] {
      assert a + b == a;
    } else {
      FreshOfPrefix(existing, a, b[..|b| - 1]);
      assert (a + b)[..|a + b| - 1] == a + b[..|b| - 1];
    }
  }

  /** The de-duplication loops of the append branch. */
  method FreshKeys(existing: Keys, input: Keys) returns (added: Keys)
    ensures added == FreshOf(existing, input)
  {
    var seen: set<string> := {};
    for i := 0 to |existing|
      invariant forall x :: x in seen <==> x != "" && Known(existing[..i], x)
    {
      KnownStep(existing, i);
      var normalized := TrimSpace(existing[i]);
      if normalized != "" {
        seen := seen + {normalized};
      }
    }
    assert existing[..|existing|] == existing;
    added := [];
    for i := 0 to |input|
      invariant added == FreshOf(existing, input[..i])
      invariant forall x :: x in seen <==> x in added || (x != "" && Known(existing, x))
    {
      assert input[..i + 1][..i] == input[..i];
      var normalized := TrimSpace(input[i]);
      FreshOfSpec(existing, input[..i]);
      if normalized == "" || normalized in seen {
        continue;
      }
      seen := seen + {normalized};
      added := added + [normalized];
    }
    assert input[..|input|] == input;
  }

  lemma KnownStep(keys: Keys, i: nat)
    requires i < |keys|
    ensures forall x :: Known(keys[..i + 1], x) <==> Known(keys[..i], x) || x == TrimSpace(keys[i])
  {
    forall x ensures Known(keys[..i + 1], x) <==> Known(keys[..i], x) || x == TrimSpace(keys[i]) {
      if Known(keys[..i], x) {
        var k :| 0 <= k < i && TrimSpace(keys[..i][k]) == x;
        assert keys[..i + 1][k] == keys[..i][k];
      }
      if Known(keys[..i + 1], x) {
        var k :| 0 <= k < i + 1 && TrimSpace(keys[..i + 1][k]) == x;
        if k < i { assert keys[..i][k] == keys[..i + 1][k]; }
      }
      assert keys[..i + 1][i] == keys[i];
    }
  }

  /** Reads the keys of a Vertex AI array, or fails (lines 637-667). */
  type VertexReader = string -> Option<Keys>

  /** How the new keys are given: one per line, or as the JSON keys of a Vertex AI channel. */
  datatype Form = PerLine | Vertex(read: VertexReader)

  /** The new keys before they are trimmed and filtered; a Vertex AI array may fail to parse. */
  function NewKeys(input: string, form: Form): Option<Keys> {
    match form
    case PerLine => Some(Split(input, '\n'))
    case Vertex(read) => if HasPrefix(TrimSpace(input), "[") then read(input) else Some([input])
  }

  /** Keys given by line are the lines of the input, in order and none missing; a Vertex AI key that is no
      array is one key, line breaks and all. */
  lemma NewKeysAreTheLines(input: string, read: VertexReader)
    ensures NewKeys(input, PerLine).Some? && FreeOf(NewKeys(input, PerLine).value, '\n')
    ensures Join(NewKeys(input, PerLine).value, '\n') == input
    ensures TrimSpace(input) == "" || TrimSpace(input)[0] != '[' ==> NewKeys(input, Vertex(read)) == Some([input])
    ensures TrimSpace(input) != "" && TrimSpace(input)[0] == '[' ==> NewKeys(input, Vertex(read)) == read(input)
  {
    SplitFree(input, '\n');
    JoinSplit(input, '\n');
  }

  /** The key string the append branch writes. */
  function Written(origin: string, added: Keys, read: ArrayReader): string {
    Join(ExistingKeys(origin, read) + added, '\n')
  }

  /** The append branch: the new key string and the keys it added. A channel without a key takes the input
      as it is, and an array that does not parse is refused. */
  method AppendKeys(origin: string, input: string, form: Form, read: ArrayReader)
    returns (ok: bool, key: string, added: Keys)
    ensures ok <==> origin == "" || NewKeys(input, form).Some?
    ensures origin == "" ==> key == input && added == []
    ensures origin != "" && ok ==>
              && key == Written(origin, added, read)
              && added == FreshOf(ExistingKeys(origin, read), NewKeys(input, form).value)
              && IsFresh(added, ExistingKeys(origin, read), NewKeys(input, form).value)
  {
    if origin == "" {
      return true, input, [];
    }
    var newKeys := NewKeys(input, form);
    if newKeys.None? {
      return false, origin, [];
    }
    var existing := ExistingKeys(origin, read);
    FreshOfSpec(existing, newKeys.value);
    added := FreshKeys(existing, newKeys.value);
    return true, Join(existing + added, '\n'), added;
  }

  // ----------------------------------------------------------------------- index stability

  /** New keys are visible at both ends; given one per line, they have no newline inside. */
  lemma AddedClean(added: Keys, existing: Keys, newKeys: Keys)
    requires IsFresh(added, existing, newKeys)
    ensures forall i :: 0 <= i < |added| ==> added[i] != ""
    ensures FreeOf(newKeys, '\n') ==> FreeOf(added, '\n')
  {
    forall i | 0 <= i < |added| ensures added[i] != "" && (FreeOf(newKeys, '\n') ==> '\n' !in added[i]) {
      assert added[i] in added;
      var k :| 0 <= k < |newKeys| && TrimSpace(newKeys[k]) == added[i];
      TrimSpec(newKeys[k], WHITESPACE);
    }
  }

  /** Is the first character that is not white space an opening bracket? */
  ghost predicate Bracketed(s: string) {
    HasPrefix(TrimSpace(s), "[")
  }

  /** The first character that is not white space decides. */
  lemma BracketedAt(s: string, k: nat)
    requires k < |s| && s[k] !in WHITESPACE && forall i :: 0 <= i < k ==> s[i] in WHITESPACE
    ensures Bracketed(s) <==> s[k] == '['
  {
    TrimLeftEnds(s, WHITESPACE);
    var l := TrimLeft(s, WHITESPACE);
    assert l[0] == s[|s| - |l|];
    TrimRightEnds(l, WHITESPACE);
    var t := TrimSpace(s);
    assert t != "" by { TrimEmpty(s, WHITESPACE); assert s[k] in s; }
    assert t[0] == l[0] == s[k];
    assert HasPrefix(t, "[") <==> t[0] == '[';
  }

  lemma FirstBlackIn(s: string) returns (k: nat)
    requires exists c :: c in s && c !in WHITESPACE
    ensures k < |s| && s[k] !in WHITESPACE && forall i :: 0 <= i < k ==> s[i] in WHITESPACE
  {
    k := 0;
    var c :| c in s && c !in WHITESPACE;
    while s[k] in WHITESPACE
      invariant k < |s| && forall i :: 0 <= i < k ==> s[i] in WHITESPACE
      invariant c in s[k..]
      decreases |s| - k
    {
      assert s[k..] == [s[k]] + s[k + 1..];
      k := k + 1;
    }
  }

  /** White space before, and anything after, does not change which visible character comes first. */
  lemma SurroundBracket(before: string, s: string, after: string)
    requires (forall i :: 0 <= i < |before| ==> before[i] in WHITESPACE) && TrimSpace(s) != ""
    ensures Bracketed(before + s + after) <==> Bracketed(s)
    ensures TrimSpace(before + s + after) != ""
  {
    TrimEmpty(s, WHITESPACE);
    var k := FirstBlackIn(s);
    BracketedAt(s, k);
    var whole := before + s + after;
    assert whole[|before| + k] == s[k];
    forall i | 0 <= i < |before| + k ensures whole[i] in WHITESPACE {
      if i >= |before| { assert whole[i] == s[i - |before|]; }
    }
    BracketedAt(whole, |before| + k);
    TrimEmpty(whole, WHITESPACE);
    assert whole[|before| + k] in whole;
  }

  /** Appending to a key string that shows something keeps its first visible character. */
  lemma JoinedBracket(added: Keys, origin: string)
    requires TrimSpace(origin) != ""
    ensures Bracketed(Join(Lines(origin) + added, '\n')) <==> Bracketed(origin)
  {
    var trimmed := Trim(origin, {'\n'});
    var before, after := TrimParts(origin, {'\n'});
    TrimEmpty(origin, WHITESPACE);
    TrimEmpty(trimmed, WHITESPACE);
    VisibleInside(before, trimmed, after);
    SurroundBracket(before, trimmed, after);
    JoinSplit(trimmed, '\n');
    JoinPrefix(Lines(origin), added);
    var joined := Join(Lines(origin) + added, '\n');
    assert joined == "" + trimmed + joined[|trimmed|..];
    SurroundBracket("", trimmed, joined[|trimmed|..]);
  }

  lemma VisibleInside(before: string, s: string, after: string)
    requires forall i :: 0 <= i < |before| ==> before[i] == '\n'
    requires forall i :: 0 <= i < |after| ==> after[i] == '\n'
    requires TrimSpace(before + s + after) != ""
    ensures TrimSpace(s) != ""
  {
    TrimEmpty(before + s + after, WHITESPACE);
    TrimEmpty(s, WHITESPACE);
    var c :| c in before + s + after && c !in WHITESPACE;
    assert c in s;
  }

  lemma {:induction false} JoinPrefix(a: Keys, b: Keys)
    ensures Join(a, '\n') <= Join(a + b, '\n')
  {
    if |a| == 1 && b != [] {
      assert a + b == [a[0]] + b && (a + b)[1..] == b;
    } else if |a| == 1 {
      assert a + b == a;
    } else if |a| > 1 {
      JoinPrefix(a[1..], b);
      assert (a + b)[1..] == a[1..] + b;
    }
  }

  /** A string that starts like a JSON array and is none: `GetKeys` reads it line by line, but the append
      branch takes it to hold no key. */
  predicate Misread(origin: string, read: ArrayReader) {
    HasPrefix(TrimSpace(origin), "[") && !ReadsAsArray(origin, read)
  }

  lemma ExistingAre(origin: string, read: ArrayReader)
    requires origin != ""
    ensures ExistingKeys(origin, read) == if Misread(origin, read) then [] else GetKeys(origin, read)
  {
  }

  /** Nothing but the new keys is left of a misread string. */
  lemma MisreadNeverReadsBack(origin: string, added: Keys, read: ArrayReader)
    requires ReadsJSON(read) && origin != "" && Misread(origin, read)
    ensures Written(origin, added, read) == Join(added, '\n')
    ensures GetKeys(Written(origin, added, read), read) != GetKeys(origin, read) + added
  {
    assert [] + added == added;
    TooShort(Join(added, '\n'), GetKeys(origin, read), added, read);
  }

  /** A string is too short to hold more keys than were joined to make it. */
  lemma TooShort(s: string, more: Keys, keys: Keys, read: ArrayReader)
    requires ReadsJSON(read) && s == Join(keys, '\n') && more != []
    ensures GetKeys(s, read) != more + keys
  {
    JoinLength(keys, '\n');
    LengthAppend(more, keys);
    if s != "" && ReadsAsArray(s, read) {
      TrimShorter(s, WHITESPACE);
    } else if s != "" {
      TrimShorter(s, {'\n'});
      JoinSplit(Trim(s, {'\n'}), '\n');
      JoinLength(Lines(s), '\n');
    }
  }

  lemma {:induction false} LengthAppend(a: Keys, b: Keys)
    requires a != []
    ensures Length(a + b) == Length(a) + if b == [] then 0 else 1 + Length(b)
  {
    if |a| == 1 {
      if b == [] { assert a + b == a; } else { assert (a + b)[1..] == b; }
    } else {
      LengthAppend(a[1..], b);
      assert (a + b)[1..] == a[1..] + b;
    }
  }

  /** Append mode keeps indices stable: reading the string it writes returns the old keys as a prefix and
      then the new ones, exactly when the old string is not misread and the whole list can be stored: no
      key has a newline, the first and the last are not empty, and the joined string is not taken for a
      JSON array. */
  lemma AppendStableExactlyWhen(origin: string, newKeys: Keys, added: Keys, read: ArrayReader)
    requires ReadsJSON(read) && origin != "" && IsFresh(added, ExistingKeys(origin, read), newKeys)
    ensures var all := GetKeys(origin, read) + added;
            GetKeys(Written(origin, added, read), read) == all <==>
            !Misread(origin, read) && (all == [] || Storable(all, read))
    ensures Written(origin, added, read) ==
            Join(if Misread(origin, read) then added else GetKeys(origin, read) + added, '\n')
  {
    ExistingAre(origin, read);
    var all := GetKeys(origin, read) + added;
    if Misread(origin, read) {
      MisreadNeverReadsBack(origin, added, read);
    } else if all != [] {
      ReadBackExactlyWhen(all, read);
    }
  }

  /** On a channel with one key per line that comes to: the string does not start with a bracket, has a
      character other than newlines, and does not turn into a JSON array. */
  lemma LinesStableExactlyWhen(origin: string, input: string, added: Keys, read: ArrayReader)
    requires ReadsJSON(read) && origin != "" && !ReadsAsArray(origin, read)
    requires IsFresh(added, ExistingKeys(origin, read), Split(input, '\n'))
    ensures GetKeys(Written(origin, added, read), read) == GetKeys(origin, read) + added <==>
            !Bracketed(origin) && Trim(origin, {'\n'}) != "" && !ReadsAsArray(Written(origin, added, read), read)
  {
    AppendStableExactlyWhen(origin, Split(input, '\n'), added, read);
    if !Bracketed(origin) {
      LinesStorable(origin, input, added, read);
    }
  }

  lemma LinesStorable(origin: string, input: string, added: Keys, read: ArrayReader)
    requires IsFresh(added, Lines(origin), Split(input, '\n'))
    ensures Storable(Lines(origin) + added, read) <==>
            Trim(origin, {'\n'}) != "" && !ReadsAsArray(Join(Lines(origin) + added, '\n'), read)
  {
    LinesEnds(origin);
    SplitFree(input, '\n');
    AddedClean(added, Lines(origin), Split(input, '\n'));
    StorableBoth(Lines(origin), added, read);
  }

  /** One failing input: a single key that starts with a bracket is lost to whatever is added. */
  lemma BracketedKeyIsLost(added: Keys, read: ArrayReader)
    requires read("[x").None?
    ensures GetKeys("[x", read) == ["[x"] && Written("[x", added, read) == Join(added, '\n')
  {
    var origin := "[x";
    VisibleEnds(origin);
    assert Trimmed(origin, {'\n'});
    TrimSpec(origin, {'\n'});
    SplitWhole(origin, '\n');
    assert HasPrefix(origin, "[");
    assert [] + added == added;
  }

  /** Others: a blank key such as " " and a new one in brackets such as "[1]" make a string that reads as an
      array, and the blank key is gone. */
  lemma BlankTurnsIntoArray(blank: string, key: string, values: Keys, read: ArrayReader)
    requires blank != "" && '\n' !in blank && TrimSpace(blank) == ""
    requires |key| > 1 && key[0] == '[' && key[|key| - 1] == ']' && read(key) == Some(values)
    ensures GetKeys(blank, read) == [blank] && Written(blank, [key], read) == blank + ['\n'] + key
    ensures GetKeys(Written(blank, [key], read), read) == values
  {
    BlankIsOneKey(blank, read);
    var all, before := [blank] + [key], blank + ['\n'];
    assert all[1..] == [key] && Join(all, '\n') == before + key;
    TrimEmpty(blank, WHITESPACE);
    VisibleEnds(key);
    TrimLeftOver(before, key, WHITESPACE);
  }

  lemma BlankIsOneKey(blank: string, read: ArrayReader)
    requires blank != "" && '\n' !in blank && TrimSpace(blank) == ""
    ensures GetKeys(blank, read) == ExistingKeys(blank, read) == [blank]
  {
    assert Trimmed(blank, {'\n'});
    TrimSpec(blank, {'\n'});
    SplitWhole(blank, '\n');
  }

  lemma {:induction false} TrimLeftOver(before: string, s: string, cut: set<char>)
    requires (forall i :: 0 <= i < |before| ==> before[i] in cut) && s != "" && s[0] !in cut
    ensures TrimLeft(before + s, cut) == s
  {
    if before == "" {
      assert before + s == s;
    } else {
      TrimLeftOver(before[1..], s, cut);
      assert (before + s)[1..] == before[1..] + s;
    }
  }

  lemma VisibleEnds(s: string)
    requires s != "" && s[0] !in WHITESPACE && s[|s| - 1] !in WHITESPACE
    ensures TrimSpace(s) == s && TrimLeft(s, WHITESPACE) == s && TrimRight(s, WHITESPACE) == s
  {
    TrimSpec(s, WHITESPACE);
  }

  lemma StorableBoth(a: Keys, b: Keys, read: ArrayReader)
    requires a != [] && FreeOf(a, '\n') && FreeOf(b, '\n')
    requires a[0] != "" ==> a[|a| - 1] != ""
    requires forall i :: 0 <= i < |b| ==> b[i] != ""
    ensures Storable(a + b, read) <==> a[0] != "" && !ReadsAsArray(Join(a + b, '\n'), read)
  {
    var all := a + b;
    if b == [] {
      assert all == a;
    } else {
      assert all[|all| - 1] == b[|b| - 1];
    }
    assert FreeOf(all, '\n');
  }

  lemma LinesEnds(origin: string)
    ensures FreeOf(Lines(origin), '\n')
    ensures Trim(origin, {'\n'}) != "" <==> Lines(origin)[0] != ""
    ensures Trim(origin, {'\n'}) != "" ==> Lines(origin)[|Lines(origin)| - 1] != ""
  {
    var trimmed := Trim(origin, {'\n'});
    SplitFree(trimmed, '\n');
    JoinSplit(trimmed, '\n');
    TrimSpec(origin, {'\n'});
    JoinTrimmed(Lines(origin), '\n');
  }

  /** Only a blank key string can turn into an array, and only by a new key that starts with a bracket. */
  lemma LinesTurnIntoArrayOnlyWhen(origin: string, added: Keys, read: ArrayReader)
    requires origin != "" && !Bracketed(origin) && ReadsAsArray(Written(origin, added, read), read)
    ensures TrimSpace(origin) == ""
  {
    if TrimSpace(origin) != "" {
      JoinedBracket(added, origin);
    }
  }

  /** Every old key keeps its index and view, and every new one starts enabled. */
  ghost predicate KeepsViews(c: Channel, after: Channel, added: Keys, read: ArrayReader) {
    && GetKeys(after.key, read) == GetKeys(c.key, read) + added
    && after.info.size == |GetKeys(after.key, read)| && InRange(after.info)
    && (forall i :: 0 <= i < c.info.size ==> ViewOf(after.info, i) == ViewOf(c.info, i))
    && (forall i :: c.info.size <= i ==> ViewOf(after.info, i) == KeyView(1, 0, ""))
  }

  /** The saved channel keeps them exactly when the written list can be stored and the old one was not
      misread; when nothing at all is written the key string stays, and only an empty array suffers,
      because it is recounted as one key. */
  lemma AppendKeepsViewsExactlyWhen(c: Channel, newKeys: Keys, added: Keys, read: ArrayReader)
    requires ReadsJSON(read) && c.key != "" && InRange(c.info) && c.info.size == |GetKeys(c.key, read)|
    requires IsFresh(added, ExistingKeys(c.key, read), newKeys)
    ensures var written := Written(c.key, added, read);
            KeepsViews(c, Saved(Channel(written, c.info), c.key, read), added, read) <==>
            if written == "" then GetKeys(c.key, read) != []
            else !Misread(c.key, read) && Storable(GetKeys(c.key, read) + added, read)
  {
    var written, before := Written(c.key, added, read), GetKeys(c.key, read);
    var all := before + added;
    var after := Saved(Channel(written, c.info), c.key, read);
    AppendStableExactlyWhen(c.key, newKeys, added, read);
    if written == "" {
      AddedClean(added, ExistingKeys(c.key, read), newKeys);
      NothingWritten(ExistingKeys(c.key, read), added);
      assert all == before && after.key == c.key;
      if before != [] { SavedViews(c, "", read); }
    } else if !Misread(c.key, read) && Storable(all, read) {
      assert written == Join(all, '\n') by { ExistingAre(c.key, read); }
      ReadBackExactlyWhen(all, read);
      SavedViews(c, written, read);
    } else {
      assert written != Join([], '\n');
      assert after.key == written && GetKeys(after.key, read) != all by { ExistingAre(c.key, read); }
    }
  }

  /** Saving a longer key list keeps every view and enables the keys beyond. */
  lemma SavedViews(c: Channel, key: string, read: ArrayReader)
    requires InRange(c.info) && c.info.size <= CountKeys(if key == "" then c.key else key, read)
    ensures var after := Saved(Channel(key, c.info), c.key, read);
            && after.info.size == CountKeys(after.key, read) && InRange(after.info)
            && (forall i :: 0 <= i < c.info.size ==> ViewOf(after.info, i) == ViewOf(c.info, i))
            && (forall i :: c.info.size <= i ==> ViewOf(after.info, i) == KeyView(1, 0, ""))
  {
    var after := Saved(Channel(key, c.info), c.key, read);
    assert after.info.status == c.info.status;
  }

  lemma NothingWritten(existing: Keys, added: Keys)
    requires Join(existing + added, '\n') == "" && forall i :: 0 <= i < |added| ==> added[i] != ""
    ensures added == []
  {
    var all := existing + added;
    if added != [] {
      assert all[|all| - 1] == added[|added| - 1] != "";
      JoinEnds(all, '\n');
    }
  }
}
