/** Key management of a multi-key channel (controller/channel.go, model/channel.go): a key string and
    three sparse maps from key index to status, disabling time and reason. */
module MultiKey {
  import opened Basics
  import opened Text

  const ENABLED := 1
  const MANUALLY_DISABLED := 2
  const AUTO_DISABLED := 3

  type Keys = seq<string>

  /** Reads a JSON array as the raw texts of its elements, or fails. */
  type ArrayReader = string -> Option<Keys>

  datatype Info = Info(size: int, status: map<int, int>, time: map<int, int>, reason: map<int, string>)
  datatype Channel = Channel(key: string, info: Info)

  // ------------------------------------------------------------------- the key string

  /** Is the string taken for a JSON array? */
  predicate ReadsAsArray(key: string, read: ArrayReader) {
    HasPrefix(TrimSpace(key), "[") && read(TrimSpace(key)).Some?
  }

  function Lines(key: string): Keys {
    Split(Trim(key, {'\n'}), '\n')
  }

  /** `GetKeys` (model/channel.go:175-197). */
  function GetKeys(key: string, read: ArrayReader): Keys {
    if key == "" then []
    else if ReadsAsArray(key, read) then read(TrimSpace(key)).value
    else Lines(key)
  }

  /** What the string holds: nothing; if its first visible character is a bracket and it reads as an array, the
      elements; and otherwise its lines, without the newlines around them. */
  lemma GetKeysAre(key: string, read: ArrayReader) returns (before: string, after: string)
    ensures var keys, shown := GetKeys(key, read), TrimSpace(key);
            if key == "" then keys == []
            else if shown != "" && shown[0] == '[' && read(shown).Some? then keys == read(shown).value
            else
              && keys == Lines(key) && keys != [] && FreeOf(keys, '\n') && key == before + Join(keys, '\n') + after
              && Trimmed(Join(keys, '\n'), {'\n'})
              && (forall i :: 0 <= i < |before| ==> before[i] == '\n')
              && (forall i :: 0 <= i < |after| ==> after[i] == '\n')
  {
    before, after := TrimParts(key, {'\n'});
    TrimSpec(key, {'\n'});
    SplitFree(Trim(key, {'\n'}), '\n');
    JoinSplit(Trim(key, {'\n'}), '\n');
  }

  /** The number of keys that `Update` counts (model/channel.go:554-570). */
  function CountKeys(key: string, read: ArrayReader): nat {
    if key == "" then 0
    else if ReadsAsArray(key, read) && |read(TrimSpace(key)).value| > 0 then |read(TrimSpace(key)).value|
    else |Lines(key)|
  }

  /** `Update` (model/channel.go:542-589): the size is recounted, statuses beyond it are dropped, and an
      empty key string leaves the stored one in place. */
  function Saved(c: Channel, storedKey: string, read: ArrayReader): Channel {
    var key := if c.key != "" then c.key else storedKey;
    var size := CountKeys(key, read);
    Channel(key, c.info.(size := size, status := map i | i in c.info.status && i < size :: c.info.status[i]))
  }

  /** The string length a joined list has. */
  function Length(parts: Keys): nat {
    if |parts| == 0 then 0 else if |parts| == 1 then |parts[0]| else |parts[0]| + 1 + Length(parts[1..])
  }

  lemma {:induction false} JoinLength(parts: Keys, sep: char)
    ensures |Join(parts, sep)| == Length(parts)
  {
    if |parts| > 1 {
      JoinLength(parts[1..], sep);
    }
  }

  /** An array's text holds its elements, the commas between them and two brackets. */
  ghost predicate ReadsJSON(read: ArrayReader) {
    forall s :: read(s).Some? ==> Length(read(s).value) + 2 <= |s|
  }

  /** A list of keys that survives being joined with newlines and read again. */
  ghost predicate Storable(keys: Keys, read: ArrayReader) {
    && keys != [] && FreeOf(keys, '\n') && keys[0] != "" && keys[|keys| - 1] != ""
    && !ReadsAsArray(Join(keys, '\n'), read)
  }

  /** Joining keys and reading the string again returns them, exactly when no key contains a newline,
      the first and the last key are not empty, and the string is not taken for a JSON array. */
  lemma ReadBackExactlyWhen(keys: Keys, read: ArrayReader)
    requires ReadsJSON(read) && keys != []
    ensures GetKeys(Join(keys, '\n'), read) == keys <==> Storable(keys, read)
    ensures Storable(keys, read) ==> Join(keys, '\n') != "" && CountKeys(Join(keys, '\n'), read) == |keys|
  {
    var j := Join(keys, '\n');
    if ReadsAsArray(j, read) {
      JoinLength(keys, '\n');
      TrimShorter(j, WHITESPACE);
    } else if !FreeOf(keys, '\n') {
      SplitFree(Trim(j, {'\n'}), '\n');
    } else {
      JoinTrimmed(keys, '\n');
      if Storable(keys, read) {
        SplitJoin(keys, '\n');
        TrimSpec(j, {'\n'});
      } else if j != "" {
        TrimmedDiffers(j, keys);
      }
    }
  }

  lemma TrimShorter(s: string, cut: set<char>)
    ensures |Trim(s, cut)| <= |s|
  {
    TrimLeftEnds(s, cut);
    TrimRightEnds(TrimLeft(s, cut), cut);
  }

  lemma TrimmedDiffers(s: string, keys: Keys)
    requires FreeOf(keys, '\n') && keys != [] && s == Join(keys, '\n') && !Trimmed(s, {'\n'})
    ensures Lines(s) != keys
  {
    TrimSpec(s, {'\n'});
    JoinSplit(Trim(s, {'\n'}), '\n');
  }

  // ------------------------------------------------------------------- what a key shows

  /** One row of `get_key_status`; time and reason show only on a key that is not enabled. */
  datatype KeyView = KeyView(status: int, time: int, reason: string)

  function StatusOf(info: Info, i: int): int {
    if i in info.status then info.status[i] else ENABLED
  }

  function ViewOf(info: Info, i: int): KeyView {
    var status := StatusOf(info, i);
    if status == ENABLED then KeyView(status, 0, "")
    else KeyView(status, if i in info.time then info.time[i] else 0,
                 if i in info.reason then info.reason[i] else "")
  }

  ghost predicate InRange(info: Info) {
    && (forall i :: i in info.status ==> 0 <= i < info.size)
    && (forall i :: i in info.time ==> 0 <= i < info.size)
    && (forall i :: i in info.reason ==> 0 <= i < info.size)
  }

  // ------------------------------------------------------------------------- deletion

  datatype Deletion = OneKey(index: int) | AutoDisabledKeys

  predicate Survives(d: Deletion, info: Info, i: int) {
    match d
    case OneKey(index) => i != index
    case AutoDisabledKeys => StatusOf(info, i) != AUTO_DISABLED
  }

  /** The positions of the surviving keys, in order. */
  function Kept(n: nat, d: Deletion, info: Info): (r: seq<int>)
    ensures forall j :: 0 <= j < |r| ==> 0 <= r[j] < n
    ensures |r| <= n
  {
    if n == 0 then []
    else if Survives(d, info, n - 1) then Kept(n - 1, d, info) + [n - 1]
    else Kept(n - 1, d, info)
  }

  /** Deleting one key keeps every other position, deleting the disabled keys keeps every position that does
      not show as disabled automatically; each once, in ascending order. */
  lemma {:induction false} KeptSpec(n: nat, d: Deletion, info: Info)
    ensures d.OneKey? ==> forall i :: i in Kept(n, d, info) <==> 0 <= i < n && i != d.index
    ensures d.AutoDisabledKeys? ==>
              forall i :: i in Kept(n, d, info) <==> 0 <= i < n && ViewOf(info, i).status != 3
    ensures Ascending(Kept(n, d, info))
  {
    if n == 0 {
    } else {
      KeptSpec(n - 1, d, info);
    }
  }

  lemma OthersRemain(n: nat, index: int, info: Info)
    ensures Kept(n, OneKey(index), info) == [] <==> n == 0 || (n == 1 && index == 0)
  {
    var kept := Kept(n, OneKey(index), info);
    KeptSpec(n, OneKey(index), info);
    if n > 1 {
      assert 0 in kept || 1 in kept;
    } else if n == 1 {
      assert 0 in kept <==> index != 0;
      if kept != [] { assert kept[0] in kept; }
    }
  }

  /** How many of the first n keys show a status. */
  function CountStatus(info: Info, n: nat, status: int): nat {
    if n == 0 then 0
    else CountStatus(info, n - 1, status) + if ViewOf(info, n - 1).status == status then 1 else 0
  }

  lemma {:induction false} DeletedAreAutoDisabled(info: Info, n: nat)
    ensures n - |Kept(n, AutoDisabledKeys, info)| == CountStatus(info, n, 3)
  {
    if n == 0 {
    } else {
      DeletedAreAutoDisabled(info, n - 1);
    }
  }

  ghost predicate Ascending(s: seq<int>) {
    forall i, j :: 0 <= i < j < |s| ==> s[i] < s[j]
  }

  /** The keys at the given positions. */
  function Pick(keys: Keys, at: seq<int>): (r: Keys)
    requires forall j :: 0 <= j < |at| ==> 0 <= at[j] < |keys|
    ensures |r| == |at| && forall j :: 0 <= j < |at| ==> r[j] == keys[at[j]]
  {
    seq(|at|, j requires 0 <= j < |at| => keys[at[j]])
  }

  /** What one more surviving key adds to a map: its entry at the next free position, if it has one, and
      if `onlyDisabled` only if the key is not enabled. */
  function Put<T>(next: map<int, T>, newIndex: int, m: map<int, T>, i: int, info: Info, onlyDisabled: bool)
    : map<int, T>
  {
    if i in m && (onlyDisabled ==> StatusOf(info, i) != ENABLED) then next[newIndex := m[i]] else next
  }

  function AddKey(next: Info, info: Info, i: int, dropIdle: bool): Info {
    Info(next.size + 1, Put(next.status, next.size, info.status, i, info, true),
         Put(next.time, next.size, info.time, i, info, dropIdle),
         Put(next.reason, next.size, info.reason, i, info, dropIdle))
  }

  /** The three maps rebuilt for the survivors among the first n keys. */
  function InfoUpTo(info: Info, d: Deletion, n: nat): Info {
    if n == 0 then Info(0, map[], map[], map[])
    else if Survives(d, info, n - 1) then AddKey(InfoUpTo(info, d, n - 1), info, n - 1, d.AutoDisabledKeys?)
    else InfoUpTo(info, d, n - 1)
  }

  /** What a deletion writes: the surviving keys joined, and the maps re-indexed. Deleting the disabled
      keys also drops the time and reason that a re-enabled key may still carry. */
  function Deleted(keys: Keys, info: Info, d: Deletion): Channel {
    Channel(Join(Pick(keys, Kept(|keys|, d, info)), '\n'), InfoUpTo(info, d, |keys|))
  }

  /** The re-indexing loop of `delete_key` and `delete_disabled_keys`. */
  method Reindex(keys: Keys, info: Info, d: Deletion) returns (remaining: Keys, next: Info)
    ensures remaining == Pick(keys, Kept(|keys|, d, info))
    ensures next == InfoUpTo(info, d, |keys|)
  {
    remaining, next := [], Info(0, map[], map[], map[]);
    for i := 0 to |keys|
      invariant remaining == KeysUpTo(keys, info, d, i)
      invariant next == InfoUpTo(info, d, i)
    {
      if Survives(d, info, i) {
        remaining := remaining + [keys[i]];
        next := AddKey(next, info, i, d.AutoDisabledKeys?);
      }
    }
    KeysUpToSpec(keys, info, d, |keys|);
  }

  /** The keys after the first rounds of that loop. */
  function KeysUpTo(keys: Keys, info: Info, d: Deletion, n: nat): Keys
    requires n <= |keys|
  {
    if n == 0 then []
    else if Survives(d, info, n - 1) then KeysUpTo(keys, info, d, n - 1) + [keys[n - 1]]
    else KeysUpTo(keys, info, d, n - 1)
  }

  lemma {:induction false} KeysUpToAt(keys: Keys, info: Info, d: Deletion, n: nat, j: int)
    requires n <= |keys|
    ensures |KeysUpTo(keys, info, d, n)| == |Kept(n, d, info)|
    ensures 0 <= j < |Kept(n, d, info)| ==> KeysUpTo(keys, info, d, n)[j] == keys[Kept(n, d, info)[j]]
  {
    if n == 0 {
    } else {
      KeysUpToAt(keys, info, d, n - 1, j);
    }
  }

  lemma KeysUpToSpec(keys: Keys, info: Info, d: Deletion, n: nat)
    requires n <= |keys|
    ensures KeysUpTo(keys, info, d, n) == Pick(keys, Kept(n, d, info))
  {
    KeysUpToAt(keys, info, d, n, 0);
    forall j | 0 <= j < |Kept(n, d, info)| ensures KeysUpTo(keys, info, d, n)[j] == keys[Kept(n, d, info)[j]] {
      KeysUpToAt(keys, info, d, n, j);
    }
  }

  // ------------------------------------------------------------------------- the actions

  /** The recount of `Update`: an array that parses and is not empty, or the lines. */
  method ParseKeys(text: string, read: ArrayReader) returns (keys: Keys)
    ensures |keys| == CountKeys(text, read)
    ensures keys != [] && GetKeys(text, read) != [] ==> keys == GetKeys(text, read)
  {
    keys := [];
    if text != "" {
      var trimmed := TrimSpace(text);
      if HasPrefix(trimmed, "[") {
        var parsed := read(trimmed);
        if parsed.Some? { keys := parsed.value; }
      }
      if |keys| == 0 { keys := Lines(text); }
    }
  }

  lemma Inhabited(s: set<int>)
    ensures s == {} || exists i :: i in s
  {
    if forall i :: i !in s { assert s <= {}; }
  }

  /** The loop that deletes the statuses beyond the size. */
  method DropBeyond(status: map<int, int>, size: nat) returns (r: map<int, int>)
    ensures r == map i | i in status && i < size :: status[i]
  {
    r := status;
    var rest := status.Keys;
    while rest != {}
      invariant rest <= status.Keys
      invariant r.Keys == set i | i in status && (i < size || i in rest)
      invariant forall i :: i in r ==> r[i] == status[i]
    {
      Inhabited(rest);
      var i :| i in rest;
      if i >= size { r := r - {i}; }
      rest := rest - {i};
    }
  }

  datatype Outcome = Done | Refused

  /** The stored multi-key channel; every successful action ends in `Update`. */
  class MultiKeyChannel {
    var key: string
    var info: Info
    const read: ArrayReader

    function State(): Channel
      reads this
    {
      Channel(key, info)
    }

    constructor (c: Channel, read: ArrayReader)
      ensures State() == c && this.read == read
    {
      key, info, this.read := c.key, c.info, read;
    }

    /** `Update`: recount the keys, drop the statuses beyond, write. */
    method Update(c: Channel)
      modifies this
      ensures State() == Saved(c, old(key), read)
    {
      var text := if c.key != "" then c.key else key;
      var keys := ParseKeys(text, read);
      var status := DropBeyond(c.info.status, |keys|);
      key, info := text, c.info.(size := |keys|, status := status);
    }

    /** `delete_key`: refused without an index, outside the counted size, or for the only key. */
    method DeleteKey(keyIndex: Option<int>) returns (r: Outcome)
      modifies this
      ensures var keys := GetKeys(old(key), read);
              if keyIndex.None? || !(0 <= keyIndex.value < old(info).size)
                 || |keys| == 0 || (|keys| == 1 && keyIndex.value == 0)
              then r == Refused && State() == old(State())
              else r == Done && State() == Saved(Deleted(keys, old(info), OneKey(keyIndex.value)), old(key), read)
    {
      if keyIndex.None? || keyIndex.value < 0 || keyIndex.value >= info.size {
        return Refused;
      }
      var keys := GetKeys(key, read);
      var remaining, next := Reindex(keys, info, OneKey(keyIndex.value));
      OthersRemain(|keys|, keyIndex.value, info);
      if |remaining| == 0 {
        return Refused;
      }
      Update(Channel(Join(remaining, '\n'), next));
      return Done;
    }

    /** `delete_disabled_keys`: refused when no key was disabled automatically. */
    method DeleteDisabledKeys() returns (r: Outcome, deletedCount: int)
      modifies this
      ensures var keys := GetKeys(old(key), read);
              && deletedCount == CountStatus(old(info), |keys|, 3)
              && if deletedCount == 0 then r == Refused && State() == old(State())
                 else r == Done && State() == Saved(Deleted(keys, old(info), AutoDisabledKeys), old(key), read)
    {
      var keys := GetKeys(key, read);
      var remaining, next := Reindex(keys, info, AutoDisabledKeys);
      DeletedAreAutoDisabled(info, |keys|);
      deletedCount := |keys| - |remaining|;
      if deletedCount == 0 {
        return Refused, deletedCount;
      }
      Update(Channel(Join(remaining, '\n'), next));
      r := Done;
    }

    /** `disable_key`. */
    method DisableKey(keyIndex: Option<int>) returns (r: Outcome)
      modifies this
      ensures if keyIndex.None? || !(0 <= keyIndex.value < old(info).size)
              then r == Refused && State() == old(State())
              else r == Done && State() == Saved(Channel(old(key), Disabled(old(info), keyIndex.value)), old(key), read)
    {
      if keyIndex.None? || keyIndex.value < 0 || keyIndex.value >= info.size {
        return Refused;
      }
      Update(Channel(key, info.(status := info.status[keyIndex.value := MANUALLY_DISABLED])));
      return Done;
    }

    /** `enable_key`: the key loses its status, time and reason. */
    method EnableKey(keyIndex: Option<int>) returns (r: Outcome)
      modifies this
      ensures if keyIndex.None? || !(0 <= keyIndex.value < old(info).size)
              then r == Refused && State() == old(State())
              else r == Done && State() == Saved(Channel(old(key), Enabled(old(info), keyIndex.value)), old(key), read)
    {
      if keyIndex.None? || keyIndex.value < 0 || keyIndex.value >= info.size {
        return Refused;
      }
      var gone := {keyIndex.value};
      Update(Channel(key, Info(info.size, info.status - gone, info.time - gone, info.reason - gone)));
      return Done;
    }

    /** `enable_all_keys`. */
    method EnableAllKeys()
      modifies this
      ensures State() == Saved(Channel(old(key), Info(old(info).size, map[], map[], map[])), old(key), read)
    {
      Update(Channel(key, Info(info.size, map[], map[], map[])));
    }

    /** `disable_all_keys`: refused when no key is enabled. */
    method DisableAllKeys() returns (r: Outcome)
      modifies this
      ensures if forall i :: 0 <= i < old(info).size ==> StatusOf(old(info), i) != ENABLED
              then r == Refused && State() == old(State())
              else r == Done && State() == Saved(Channel(old(key), AllDisabled(old(info))), old(key), read)
    {
      var status, disabledCount := DisableEach(info);
      ZeroCountMeans(info, if info.size < 0 then 0 else info.size);
      if disabledCount == 0 {
        return Refused;
      }
      Update(Channel(key, info.(status := status)));
      return Done;
    }
  }

  /** The loop of `disable_all_keys`. */
  method DisableEach(info: Info) returns (status: map<int, int>, disabledCount: nat)
    ensures (status, disabledCount) == DisableUpTo(info, if info.size < 0 then 0 else info.size)
  {
    status, disabledCount := info.status, 0;
    var i := 0;
    while i < info.size
      invariant 0 <= i && (i <= info.size || i == 0)
      invariant (status, disabledCount) == DisableUpTo(info, i)
    {
      DisableUpToAt(info, i, i);
      var now := if i in status then status[i] else ENABLED;
      if now == ENABLED {
        status := status[i := MANUALLY_DISABLED];
        disabledCount := disabledCount + 1;
      }
      i := i + 1;
    }
  }

  /** Statuses and count after the first rounds of that loop. */
  function DisableUpTo(info: Info, n: nat): (map<int, int>, nat) {
    if n == 0 then (info.status, 0)
    else
      var (status, count) := DisableUpTo(info, n - 1);
      if StatusOf(info, n - 1) == ENABLED then (status[n - 1 := MANUALLY_DISABLED], count + 1) else (status, count)
  }

  /** Enabled keys below the bound become disabled; every other status stays as it was. */
  lemma {:induction false} DisableUpToAt(info: Info, n: nat, k: int)
    ensures var status := DisableUpTo(info, n).0;
            if 0 <= k < n && StatusOf(info, k) == 1 then k in status && status[k] == 2
            else (k in status <==> k in info.status) && (k in status ==> status[k] == info.status[k])
  {
    if n > 0 { DisableUpToAt(info, n - 1, k); }
  }

  lemma {:induction false} ZeroCountMeans(info: Info, n: nat)
    ensures DisableUpTo(info, n).1 == 0 <==> forall i :: 0 <= i < n ==> StatusOf(info, i) != ENABLED
  {
    if n > 0 { ZeroCountMeans(info, n - 1); }
  }

  function Disabled(info: Info, i: int): Info {
    info.(status := info.status[i := MANUALLY_DISABLED])
  }

  function Enabled(info: Info, i: int): Info {
    Info(info.size, info.status - {i}, info.time - {i}, info.reason - {i})
  }

  function AllDisabled(info: Info): Info {
    info.(status := DisableUpTo(info, if info.size < 0 then 0 else info.size).0)
  }

  // --------------------------------------------------- deletion keeps every survivor's view

  ghost predicate Unused(info: Info, j: int) {
    j !in info.status && j !in info.time && j !in info.reason
  }

  /** Position j of the rebuilt maps carries what the key at old position at[j] carried. */
  ghost predicate Carries(next: Info, at: seq<int>, info: Info, j: int) {
    && next.size == |at|
    && (!(0 <= j < |at|) ==> Unused(next, j))
    && (0 <= j < |at| ==> ViewOf(next, j) == ViewOf(info, at[j]))
  }

  lemma AddedCarries(next: Info, at: seq<int>, info: Info, i: int, dropIdle: bool, j: int)
    requires Carries(next, at, info, j)
    ensures Carries(AddKey(next, info, i, dropIdle), at + [i], info, j)
  {
  }

  lemma NextCarries(before: Info, next: Info, at: seq<int>, at': seq<int>, info: Info, d: Deletion, i: int, j: int)
    requires Carries(before, at, info, j)
    requires next == if Survives(d, info, i) then AddKey(before, info, i, d.AutoDisabledKeys?) else before
    requires at' == if Survives(d, info, i) then at + [i] else at
    ensures Carries(next, at', info, j)
  {
    if Survives(d, info, i) {
      AddedCarries(before, at, info, i, d.AutoDisabledKeys?, j);
    }
  }

  lemma {:induction false} InfoUpToAt(info: Info, d: Deletion, n: nat, j: int)
    ensures Carries(InfoUpTo(info, d, n), Kept(n, d, info), info, j)
  {
    if n == 0 {
    } else {
      InfoUpToAt(info, d, n - 1, j);
      NextCarries(InfoUpTo(info, d, n - 1), InfoUpTo(info, d, n), Kept(n - 1, d, info), Kept(n, d, info),
                  info, d, n - 1, j);
    }
  }

  ghost predicate ShowsSurvivors(next: Info, at: seq<int>, info: Info) {
    && InRange(next) && next.size == |at|
    && forall j :: 0 <= j < |at| ==> ViewOf(next, j) == ViewOf(info, at[j])
  }

  lemma CarriesAll(next: Info, at: seq<int>, info: Info)
    requires forall j :: Carries(next, at, info, j)
    ensures ShowsSurvivors(next, at, info)
  {
    assert Carries(next, at, info, 0);
    forall j ensures Unused(next, j) || 0 <= j < |at| {
      assert Carries(next, at, info, j);
    }
    forall j | 0 <= j < |at| ensures ViewOf(next, j) == ViewOf(info, at[j]) {
      assert Carries(next, at, info, j);
    }
    forall i | i in next.status || i in next.time || i in next.reason ensures 0 <= i < next.size {
      assert !Unused(next, i);
    }
  }

  lemma RebuiltViews(info: Info, d: Deletion, n: nat)
    ensures ShowsSurvivors(InfoUpTo(info, d, n), Kept(n, d, info), info)
  {
    forall j ensures Carries(InfoUpTo(info, d, n), Kept(n, d, info), info, j) {
      InfoUpToAt(info, d, n, j);
    }
    CarriesAll(InfoUpTo(info, d, n), Kept(n, d, info), info);
  }

  /** What the rebuilt maps hold at position j for the key that was at at[j]: its status unless it is enabled,
      and its time and reason, which deleting the disabled keys keeps only for keys that are not enabled. */
  ghost predicate Follows(next: Info, at: seq<int>, info: Info, keepIdle: bool, j: int) {
    0 <= j < |at| && j < next.size ==>
      var idle := at[j] !in info.status || info.status[at[j]] == 1;
      && (j in next.status <==> !idle) && (j in next.status ==> next.status[j] == info.status[at[j]])
      && (j in next.time <==> at[j] in info.time && (keepIdle || !idle))
      && (j in next.time ==> next.time[j] == info.time[at[j]])
      && (j in next.reason <==> at[j] in info.reason && (keepIdle || !idle))
      && (j in next.reason ==> next.reason[j] == info.reason[at[j]])
  }

  lemma {:induction false} MapsFollowKeys(info: Info, d: Deletion, n: nat, j: int)
    ensures Follows(InfoUpTo(info, d, n), Kept(n, d, info), info, d.OneKey?, j)
  {
    if n == 0 {
    } else {
      MapsFollowKeys(info, d, n - 1, j);
      InfoUpToAt(info, d, n - 1, j);
    }
  }

  /** The survivors read back as they were, in order, each showing what it showed before. */
  ghost predicate SurvivorsIntact(c: Channel, after: Channel, at: seq<int>, read: ArrayReader)
    requires forall j :: 0 <= j < |at| ==> 0 <= at[j] < |GetKeys(c.key, read)|
  {
    && GetKeys(after.key, read) == Pick(GetKeys(c.key, read), at)
    && after.info.size == |at| && InRange(after.info)
    && forall j :: 0 <= j < |at| ==> ViewOf(after.info, j) == ViewOf(c.info, at[j])
  }

  /** What saving promises: statuses beyond the key list are gone, the views of the keys in it stay, and the
      size is the number of keys, unless an empty JSON array is stored, which is recounted by its text.
      Saving twice changes nothing more. */
  lemma SaveKeepsViews(c: Channel, storedKey: string, read: ArrayReader)
    ensures var after := Saved(c, storedKey, read);
            && after.key == (if c.key != "" then c.key else storedKey)
            && after.info.time == c.info.time && after.info.reason == c.info.reason
            && (after.key == "" || GetKeys(after.key, read) != [] ==> after.info.size == |GetKeys(after.key, read)|)
            && (after.key != "" && GetKeys(after.key, read) == [] ==> after.info.size == |Lines(after.key)| > 0)
            && (forall i :: i < after.info.size ==> ViewOf(after.info, i) == ViewOf(c.info, i))
            && (forall i :: i >= after.info.size ==> ViewOf(after.info, i) == KeyView(1, 0, ""))
            && Saved(after, after.key, read) == after
  {
    var after := Saved(c, storedKey, read);
    assert (map i | i in after.info.status && i < after.info.size :: after.info.status[i]) == after.info.status;
  }

  lemma SavedInRange(c: Channel, storedKey: string, read: ArrayReader)
    requires InRange(c.info) && c.key != "" && c.info.size == CountKeys(c.key, read)
    ensures Saved(c, storedKey, read) == c
  {
    assert (map i | i in c.info.status && i < c.info.size :: c.info.status[i]) == c.info.status;
  }

  /** Deleting keys leaves every survivor intact although its index shifts, exactly when the surviving
      list can be stored: something survives, no survivor has a newline in it, the first and the last are not
      empty, and the joined string is not taken for a JSON array. */
  lemma DeletionIntactExactlyWhen(c: Channel, d: Deletion, read: ArrayReader)
    requires ReadsJSON(read)
    requires |Kept(|GetKeys(c.key, read)|, d, c.info)| < |GetKeys(c.key, read)|
    ensures var keys := GetKeys(c.key, read);
            var at := Kept(|keys|, d, c.info);
            SurvivorsIntact(c, Saved(Deleted(keys, c.info, d), c.key, read), at, read) <==>
            Storable(Pick(keys, at), read)
    ensures var keys := GetKeys(c.key, read);
            var joined := Join(Pick(keys, Kept(|keys|, d, c.info)), '\n');
            Saved(Deleted(keys, c.info, d), c.key, read).key == if joined == "" then c.key else joined
  {
    var keys := GetKeys(c.key, read);
    var at := Kept(|keys|, d, c.info);
    var remaining, next := Pick(keys, at), Deleted(keys, c.info, d);
    RebuiltViews(c.info, d, |keys|);
    if remaining != [] {
      ReadBackExactlyWhen(remaining, read);
    }
    if Storable(remaining, read) {
      SavedInRange(next, c.key, read);
    } else if next.key == "" {
      assert Saved(next, c.key, read).key == c.key;
    }
  }

  /** A key that joins and reads back without surprises. */
  ghost predicate Plain(key: string) {
    key != "" && '\n' !in key && '[' !in key
  }

  /** Failing inputs: from a channel with a plain key, an empty one and another plain one, deleting the
      first leaves two keys, but the stored string reads as one and the empty key is gone. */
  lemma EmptyEndIsLost(a: string, b: string, info: Info, read: ArrayReader)
    requires Plain(a) && Plain(b) && ReadsJSON(read)
    ensures var c := Channel(Join([a, "", b], '\n'), info);
            && GetKeys(c.key, read) == [a, "", b] && Kept(3, OneKey(0), info) == [1, 2]
            && GetKeys(Saved(Deleted([a, "", b], info, OneKey(0)), c.key, read).key, read) == [b]
  {
    PlainReadsBack(a, b, read);
    DropFirst(info);
    var keys := [a, "", b];
    assert Pick(keys, Kept(3, OneKey(0), info)) == ["", b];
    EmptyFirst(b, read);
  }

  lemma PlainReadsBack(a: string, b: string, read: ArrayReader)
    requires Plain(a) && Plain(b) && ReadsJSON(read)
    ensures GetKeys(Join([a, "", b], '\n'), read) == [a, "", b]
  {
    var keys := [a, "", b];
    var rest := keys[1..];
    assert rest == ["", b] && rest[1..] == [b];
    assert Join(rest, '\n') == "" + ['\n'] + b;
    assert Join(keys, '\n') == a + ['\n'] + Join(rest, '\n');
    NoBracket(Join(keys, '\n'), read);
    ReadBackExactlyWhen(keys, read);
  }

  lemma EmptyFirst(b: string, read: ArrayReader)
    requires Plain(b)
    ensures Join(["", b], '\n') == ['\n'] + b && GetKeys(['\n'] + b, read) == [b]
  {
    var rest, joined := ["", b], ['\n'] + b;
    assert rest[1..] == [b] && "" + ['\n'] + b == joined && joined[1..] == b;
    NoBracket(joined, read);
    TrimSpec(b, {'\n'});
    assert TrimLeft(joined, {'\n'}) == TrimLeft(b, {'\n'});
    SplitWhole(b, '\n');
  }

  lemma DropFirst(info: Info)
    ensures Kept(3, OneKey(0), info) == [1, 2]
  {
    assert Kept(0, OneKey(0), info) == [];
    assert Kept(1, OneKey(0), info) == [];
    assert Kept(2, OneKey(0), info) == [1];
  }

  lemma NoBracket(s: string, read: ArrayReader)
    requires '[' !in s
    ensures !ReadsAsArray(s, read)
  {
    TrimSpec(s, WHITESPACE);
  }

  /** Others: the stored string is a JSON array, laid out over several lines, whose second element has a
      newline in it. Deleting the first leaves that one key, which reads back as two. */
  lemma NewlineSplitsKey(c: Channel, gone: string, a: string, b: string, read: ArrayReader)
    requires Plain(a) && Plain(b) && ReadsJSON(read)
    requires GetKeys(c.key, read) == [gone, a + ['\n'] + b]
    ensures ReadsAsArray(c.key, read)
    ensures GetKeys(Saved(Deleted(GetKeys(c.key, read), c.info, OneKey(0)), c.key, read).key, read) == [a, b]
  {
    var keys, x := GetKeys(c.key, read), a + ['\n'] + b;
    assert keys[1] == x && x[|a|] == '\n';
    SplitFree(Trim(c.key, {'\n'}), '\n');
    assert Saved(Deleted(keys, c.info, OneKey(0)), c.key, read).key == x by {
      DropFirstOfTwo(c.info);
      assert Pick(keys, Kept(2, OneKey(0), c.info)) == [x];
    }
    ReadsAsTwo(a, b, read);
  }

  lemma ReadsAsTwo(a: string, b: string, read: ArrayReader)
    requires Plain(a) && Plain(b) && ReadsJSON(read)
    ensures GetKeys(a + ['\n'] + b, read) == [a, b]
  {
    var both := [a, b];
    assert both[1..] == [b] && Join(both, '\n') == a + ['\n'] + b;
    NoBracket(a + ['\n'] + b, read);
    ReadBackExactlyWhen(both, read);
  }

  lemma DropFirstOfTwo(info: Info)
    ensures Kept(2, OneKey(0), info) == [1]
  {
    assert Kept(0, OneKey(0), info) == [];
    assert Kept(1, OneKey(0), info) == [];
  }

  /** When every key was disabled automatically, deleting the disabled keys deletes nothing: the key
      string stays and every key is enabled again. */
  lemma DeletingAllReenables(c: Channel, read: ArrayReader, i: int)
    requires Kept(|GetKeys(c.key, read)|, AutoDisabledKeys, c.info) == []
    ensures var after := Saved(Deleted(GetKeys(c.key, read), c.info, AutoDisabledKeys), c.key, read);
            after.key == c.key && ViewOf(after.info, i) == KeyView(1, 0, "")
  {
    InfoUpToAt(c.info, AutoDisabledKeys, |GetKeys(c.key, read)|, i);
  }

  /** The maps agree everywhere but at one index. */
  ghost predicate SameElsewhere<T>(before: map<int, T>, after: map<int, T>, target: int) {
    forall i :: i != target ==> (i in after <==> i in before) && (i in before ==> after[i] == before[i])
  }

  /** Enabling and disabling touch only the key named, and keep the channel's counts and ranges. Disabling it
      leaves the time and reason it may still carry, and it shows them; enabling it takes both away for good. */
  lemma TogglesAreLocal(c: Channel, target: int, read: ArrayReader)
    requires c.key != "" && InRange(c.info) && c.info.size == CountKeys(c.key, read)
    requires 0 <= target < c.info.size
    ensures var after := Saved(Channel(c.key, Disabled(c.info, target)), c.key, read);
            && after.key == c.key && InRange(after.info) && after.info.size == c.info.size
            && SameElsewhere(c.info.status, after.info.status, target)
            && after.info.time == c.info.time && after.info.reason == c.info.reason
            && ViewOf(after.info, target) == KeyView(2, if target in c.info.time then c.info.time[target] else 0,
                                                     if target in c.info.reason then c.info.reason[target] else "")
    ensures var after := Saved(Channel(c.key, Enabled(c.info, target)), c.key, read);
            && after.key == c.key && InRange(after.info) && after.info.size == c.info.size
            && SameElsewhere(c.info.status, after.info.status, target)
            && SameElsewhere(c.info.time, after.info.time, target)
            && SameElsewhere(c.info.reason, after.info.reason, target)
            && ViewOf(after.info, target) == KeyView(1, 0, "")
            && ViewOf(Disabled(after.info, target), target) == KeyView(2, 0, "")
  {
    SavedInRange(Channel(c.key, Disabled(c.info, target)), c.key, read);
    SavedInRange(Channel(c.key, Enabled(c.info, target)), c.key, read);
  }

  /** Disabling all disables the enabled keys by hand, and changes nothing on a key that was not enabled. */
  lemma DisableAllViews(c: Channel, read: ArrayReader, i: int)
    requires c.key != "" && InRange(c.info) && c.info.size == CountKeys(c.key, read)
    requires 0 <= i < c.info.size
    ensures var after := Saved(Channel(c.key, AllDisabled(c.info)), c.key, read);
            && after.key == c.key && InRange(after.info) && after.info.size == c.info.size
            && after.info.time == c.info.time && after.info.reason == c.info.reason
            && (StatusOf(c.info, i) == 1 ==> ViewOf(after.info, i).status == 2)
            && (StatusOf(c.info, i) != 1 ==> ViewOf(after.info, i) == ViewOf(c.info, i))
  {
    var disabled := AllDisabled(c.info);
    forall k ensures k in disabled.status ==> 0 <= k < c.info.size {
      DisableUpToAt(c.info, c.info.size, k);
    }
    DisableUpToAt(c.info, c.info.size, i);
    SavedInRange(Channel(c.key, disabled), c.key, read);
  }
}
