/** The comparison of local prices with those of upstream channels (controller/ratio_sync.go:48-132,
    536-696). Numbers are exact reals. */
module PricingDiff {
  import opened Basics
  import opened ModelsDev

  /** The synchronised fields (lines 64-75). */
  datatype Field =
    | ModelRatio | CompletionRatio | CacheRatio | CreateCacheRatio | ImageRatio | AudioRatio
    | AudioCompletionRatio | ModelPrice | BillingMode | BillingExpr

  const FIELDS: seq<Field> := [
    ModelRatio, CompletionRatio, CacheRatio, CreateCacheRatio, ImageRatio, AudioRatio,
    AudioCompletionRatio, ModelPrice, BillingMode, BillingExpr]

  /** A decoded JSON scalar, or a Go integer. */
  datatype Value = Null | Num(r: real) | Int(i: int) | Text(s: string) | Flag(b: bool)

  /** The marker put in place of a value that equals the local one; the code uses this very text. */
  const SAME := Text("same")

  type Table = map<string, Value>
  type Data = map<Field, Table>

  datatype Channel = Channel(name: string, data: Data)
  type Channels = seq<Channel>

  datatype Item = Item(current: Value, upstreams: map<string, Value>, confidence: map<string, bool>)
  type Row = map<Field, Item>
  type Differences = map<string, Row>

  // ------------------------------------------------------------------- values

  predicate Numeric(f: Field) {
    !f.BillingMode? && !f.BillingExpr?
  }

  function AsFloat(v: Value): Option<real> {
    match v
    case Num(r) => Some(r)
    case Int(i) => Some(i as real)
    case _ => None
  }

  /** `normalizeSyncValue`. */
  function Normalized(f: Field, v: Value): Value {
    if Numeric(f) && AsFloat(v).Some? then Num(AsFloat(v).value) else v
  }

  /** `valuesEqual`. */
  predicate ValuesEqual(a: Value, b: Value) {
    if a.Num? && b.Num? then NearlyEqual(a.r, b.r) else a == b
  }

  function TableOf(data: Data, f: Field): Table {
    if f in data then data[f] else map[]
  }

  /** The value a data set supplies, `None` if it has no entry. */
  function Supplied(data: Data, f: Field, m: string): Option<Value> {
    var table := TableOf(data, f);
    if m in table then Some(Normalized(f, table[m])) else None
  }

  /** The local value; a missing entry and a null one look the same. */
  function LocalValue(local: Data, f: Field, m: string): Value {
    match Supplied(local, f, m)
    case Some(v) => v
    case None => Null
  }

  /** What the listing shows for a channel: its value, the marker, or nothing. */
  function ShownValue(mine: Value, theirs: Option<Value>): Value {
    var up := if theirs.None? then Null else if ValuesEqual(mine, theirs.value) then SAME else theirs.value;
    if up == Null && mine == Null then SAME else up
  }

  function Shown(local: Data, c: Channel, f: Field, m: string): Value {
    ShownValue(LocalValue(local, f, m), Supplied(c.data, f, m))
  }

  predicate Real(v: Value) {
    v != Null && v != SAME
  }

  /** The same, said of the values. */
  ghost predicate Visible(v: Value) {
    v != Null && v != Text("same")
  }

  predicate DiffersFrom(mine: Value, theirs: Option<Value>) {
    theirs.Some? && (mine == Null || !ValuesEqual(mine, theirs.value))
  }

  /** The channel supplies something here that is absent locally or not equal. */
  predicate Differs(local: Data, c: Channel, f: Field, m: string) {
    DiffersFrom(LocalValue(local, f, m), Supplied(c.data, f, m))
  }

  /** Is the pair listed before pruning (lines 631-641)? */
  predicate Included(local: Data, channels: Channels, f: Field, m: string) {
    exists c :: c in channels && Differs(local, c, f, m)
  }

  /** A price of 37.5 with a completion ratio of 1 is the placeholder of an unconfigured upstream. */
  predicate Trusted(c: Channel, m: string) {
    var ratios, completions := TableOf(c.data, ModelRatio), TableOf(c.data, CompletionRatio);
    !(m in ratios && m in completions
      && AsFloat(ratios[m]).Some? && AsFloat(completions[m]).Some?
      && NearlyEqual(AsFloat(ratios[m]).value, 37.5) && NearlyEqual(AsFloat(completions[m]).value, 1.0))
  }

  /** The maps from channel name; of channels with one name the last one counts. */
  function UpstreamsOf(local: Data, channels: Channels, f: Field, m: string): map<string, Value> {
    if channels == [] then map[]
    else
      var last := channels[|channels| - 1];
      UpstreamsOf(local, channels[..|channels| - 1], f, m)[last.name := Shown(local, last, f, m)]
  }

  function ConfidenceOf(channels: Channels, m: string): map<string, bool> {
    if channels == [] then map[]
    else
      var last := channels[|channels| - 1];
      ConfidenceOf(channels[..|channels| - 1], m)[last.name := Trusted(last, m)]
  }

  function RawItem(local: Data, channels: Channels, f: Field, m: string): Item {
    Item(LocalValue(local, f, m), UpstreamsOf(local, channels, f, m), ConfidenceOf(channels, m))
  }

  /** The entries of a model in the given fields. */
  function RowFor(local: Data, channels: Channels, m: string, fields: seq<Field>): Row {
    if fields == [] then map[]
    else
      var row, f := RowFor(local, channels, m, fields[..|fields| - 1]), fields[|fields| - 1];
      if Included(local, channels, f, m) then row[f := RawItem(local, channels, f, m)] else row
  }

  function RawRow(local: Data, channels: Channels, m: string): Row {
    RowFor(local, channels, m, FIELDS)
  }

  predicate Mentions(data: Data, m: string) {
    exists f :: f in FIELDS && m in TableOf(data, f)
  }

  /** The raw entry of a table, null if there is none. */
  function RawEntry(data: Data, f: Field, m: string): Value {
    if f in data && m in data[f] then data[f][m] else Null
  }

  /** A number closer than epsilon to a target. */
  ghost predicate Around(v: Value, target: real) {
    || (v.Num? && target - 0.000000001 < v.r < target + 0.000000001)
    || (v.Int? && target - 0.000000001 < v.i as real < target + 0.000000001)
  }

  /** The pair an unconfigured upstream supplies: a price of 37.5 and a completion ratio of 1. */
  ghost predicate Placeholder(c: Channel, m: string) {
    Around(RawEntry(c.data, ModelRatio, m), 37.5) && Around(RawEntry(c.data, CompletionRatio, m), 1.0)
  }

  /** A channel is not trusted on a model exactly when it supplies that pair. */
  lemma UntrustedExactlyWhen(c: Channel, m: string)
    ensures !Trusted(c, m) <==> Placeholder(c, m)
  {
  }

  /** Two raw entries of a field are told apart: numbers by at least epsilon, where the text fields know only
      floats as numbers, and anything else when it is not the same. */
  ghost predicate Apart(f: Field, a: Value, b: Value) {
    var text := f == BillingMode || f == BillingExpr;
    if (a.Num? || (a.Int? && !text)) && (b.Num? || (b.Int? && !text)) then
      var x, y := if a.Num? then a.r else a.i as real, if b.Num? then b.r else b.i as real;
      x - y >= 0.000000001 || y - x >= 0.000000001
    else a != b
  }

  /** A channel differs exactly when it has an entry and the local one is missing, null or told apart. */
  lemma DiffersExactlyWhen(local: Data, c: Channel, f: Field, m: string)
    ensures Differs(local, c, f, m) <==>
            && f in c.data && m in c.data[f]
            && (RawEntry(local, f, m) == Null || Apart(f, RawEntry(local, f, m), c.data[f][m]))
  {
    LocalIsTheEntry(local, f, m);
    if f in c.data && m in c.data[f] {
      EqualUnlessApart(f, RawEntry(local, f, m), c.data[f][m]);
    }
  }

  /** A listed value is the raw entry, with an integer of a numeric field as a number. */
  ghost predicate Presents(f: Field, raw: Value, shown: Value) {
    if raw.Int? && f != BillingMode && f != BillingExpr then shown == Num(raw.i as real) else shown == raw
  }

  /** What a listing owes a channel: without an entry of its own the marker against a missing local one and
      nothing against another; against a missing local one its entry, or the marker for null; otherwise its
      entry where the two are told apart, and the marker where they are not. */
  ghost predicate ShowsEntry(local: Data, c: Channel, f: Field, m: string, shown: Value) {
    var mine := RawEntry(local, f, m);
    if !(f in c.data && m in c.data[f]) then shown == if mine == Null then Text("same") else Null
    else
      var theirs := c.data[f][m];
      if mine == Null && theirs == Null then shown == Text("same")
      else if mine == Null || Apart(f, mine, theirs) then Presents(f, theirs, shown)
      else shown == Text("same")
  }

  lemma ShownIsTheEntry(local: Data, c: Channel, f: Field, m: string)
    ensures ShowsEntry(local, c, f, m, Shown(local, c, f, m))
  {
    LocalIsTheEntry(local, f, m);
    if f in c.data && m in c.data[f] {
      ShownOfEntries(f, RawEntry(local, f, m), c.data[f][m]);
    }
  }

  lemma LocalIsTheEntry(local: Data, f: Field, m: string)
    ensures LocalValue(local, f, m) == Normalized(f, RawEntry(local, f, m))
    ensures Presents(f, RawEntry(local, f, m), LocalValue(local, f, m))
  {
  }

  lemma ShownOfEntries(f: Field, mine: Value, theirs: Value)
    ensures var shown := ShownValue(Normalized(f, mine), Some(Normalized(f, theirs)));
            if mine == Null && theirs == Null then shown == Text("same")
            else if mine == Null || Apart(f, mine, theirs) then Presents(f, theirs, shown)
            else shown == Text("same")
  {
    EqualUnlessApart(f, mine, theirs);
  }

  lemma EqualUnlessApart(f: Field, mine: Value, theirs: Value)
    ensures ValuesEqual(Normalized(f, mine), Normalized(f, theirs)) <==> !Apart(f, mine, theirs)
  {
  }

  // --------------------------------------------------------------- the phases

  /** All model names (lines 542-556). */
  method CollectModels(local: Data, channels: Channels) returns (models: set<string>)
    ensures forall m :: m in models <==> Mentions(local, m) || exists c :: c in channels && Mentions(c.data, m)
  {
    models := ModelsOf(local);
    for i := 0 to |channels|
      invariant forall m :: m in models <==>
                  Mentions(local, m) || exists k :: 0 <= k < i && Mentions(channels[k].data, m)
    {
      var more := ModelsOf(channels[i].data);
      models := models + more;
    }
  }

  method ModelsOf(data: Data) returns (models: set<string>)
    ensures forall m :: m in models <==> Mentions(data, m)
  {
    models := {};
    for i := 0 to |FIELDS|
      invariant forall m :: m in models <==> exists k :: 0 <= k < i && m in TableOf(data, FIELDS[k])
    {
      models := models + TableOf(data, FIELDS[i]).Keys;
    }
    forall m ensures m in models <==> Mentions(data, m) {
      if Mentions(data, m) {
        var f :| f in FIELDS && m in TableOf(data, f);
        var k :| 0 <= k < |FIELDS| && FIELDS[k] == f;
      }
    }
  }

  /** The confidence of every channel in every model (lines 558-591). */
  method CollectConfidence(channels: Channels, models: set<string>) returns (confidence: map<string, map<string, bool>>)
    ensures forall m :: m in models ==> Knows(confidence, channels, m)
  {
    confidence := map[];
    ghost var before: Channels := [];
    for i := 0 to |channels|
      invariant before == channels[..i]
      invariant forall m :: m in models ==> KnowsSoFar(confidence, before, m)
    {
      var c := channels[i];
      var column := map m | m in models :: Trusted(c, m);
      forall m | m in models ensures KnowsSoFar(confidence[c.name := column], before + [c], m) {
        ConfidenceStep(before, c, m);
        assert KnowsSoFar(confidence, before, m);
      }
      confidence := confidence[c.name := column];
      before := before + [c];
    }
    assert before == channels;
    forall m | m in models ensures Knows(confidence, channels, m) {
      assert KnowsSoFar(confidence, channels, m);
      ConfidenceKeys(channels, m);
    }
  }

  ghost predicate KnowsSoFar(confidence: map<string, map<string, bool>>, before: Channels, m: string) {
    forall n :: n in ConfidenceOf(before, m) ==>
      n in confidence && m in confidence[n] && confidence[n][m] == ConfidenceOf(before, m)[n]
  }

  lemma ConfidenceStep(before: Channels, c: Channel, m: string)
    ensures ConfidenceOf(before + [c], m) == ConfidenceOf(before, m)[c.name := Trusted(c, m)]
  {
    assert (before + [c])[..|before|] == before;
  }

  /** One channel's contribution to an entry (lines 606-624): what is shown, and whether it differs. */
  method ShowChannel(localValue: Value, supplied: Option<Value>) returns (upstreamValue: Value, differs: bool)
    ensures upstreamValue == ShownValue(localValue, supplied)
    ensures differs <==> DiffersFrom(localValue, supplied) && (localValue == Null ==> Visible(upstreamValue))
  {
    upstreamValue, differs := Null, false;
    if supplied.Some? {
      upstreamValue := supplied.value;
      if localValue != Null && !ValuesEqual(localValue, upstreamValue) {
        differs := true;
      } else if ValuesEqual(localValue, upstreamValue) {
        upstreamValue := SAME;
      }
    }
    if upstreamValue == Null && localValue == Null {
      upstreamValue := SAME;
    }
    if localValue == Null && upstreamValue != Null && upstreamValue != SAME {
      differs := true;
    }
  }

  /** The loop over the channels of one entry, and the decision to list it (lines 605-641). */
  method ShowChannels(local: Data, channels: Channels, f: Field, m: string)
    returns (upstreams: map<string, Value>, listed: bool)
    ensures upstreams == UpstreamsOf(local, channels, f, m)
    ensures listed == Included(local, channels, f, m)
  {
    var localValue := LocalValue(local, f, m);
    upstreams := map[];
    var hasUpstreamValue, hasDifference := false, false;
    for i := 0 to |channels|
      invariant upstreams == UpstreamsOf(local, channels[..i], f, m)
      invariant localValue == Null ==> (hasUpstreamValue <==> Included(local, channels[..i], f, m))
      invariant localValue != Null ==> (hasDifference <==> Included(local, channels[..i], f, m))
    {
      var c := channels[i];
      IncludedStep(local, channels[..i], c, f, m);
      UpstreamsStep(local, channels[..i], c, f, m);
      assert channels[..i + 1] == channels[..i] + [c];
      var supplied := Supplied(c.data, f, m);
      var upstreamValue, differs := ShowChannel(localValue, supplied);
      hasUpstreamValue := hasUpstreamValue || supplied.Some?;
      hasDifference := hasDifference || differs;
      upstreams := upstreams[c.name := upstreamValue];
    }
    assert channels[..|channels|] == channels;
    listed := if localValue != Null then hasDifference else hasUpstreamValue;
  }

  lemma IncludedStep(local: Data, before: Channels, c: Channel, f: Field, m: string)
    ensures Included(local, before + [c], f, m) <==> Included(local, before, f, m) || Differs(local, c, f, m)
  {
    var all := before + [c];
    assert all[|before|] == c;
    if Included(local, before, f, m) {
      var d :| d in before && Differs(local, d, f, m);
      assert d in all;
    }
    assert c in all;
  }

  lemma UpstreamsStep(local: Data, before: Channels, c: Channel, f: Field, m: string)
    ensures UpstreamsOf(local, before + [c], f, m) == UpstreamsOf(local, before, f, m)[c.name := Shown(local, c, f, m)]
  {
    assert (before + [c])[..|before|] == before;
  }

  /** A channel's confidence in one model, copied into the entry. */
  method ShowConfidence(channels: Channels, m: string, confidence: map<string, map<string, bool>>)
    returns (shown: map<string, bool>)
    requires Knows(confidence, channels, m)
    ensures shown == ConfidenceOf(channels, m)
  {
    shown := map[];
    for i := 0 to |channels|
      invariant ShownSoFar(shown, channels, m, i)
    {
      assert channels[i] in channels;
      ShowOneMore(shown, channels, m, i);
      shown := shown[channels[i].name := confidence[channels[i].name][m]];
    }
    AllShown(shown, channels, m);
  }

  /** The confidence of the first channels has been copied. */
  ghost predicate ShownSoFar(shown: map<string, bool>, channels: Channels, m: string, i: nat)
    requires i <= |channels|
  {
    && (forall k :: 0 <= k < i ==> channels[k].name in shown)
    && (forall n :: n in shown ==> n in ConfidenceOf(channels, m) && shown[n] == ConfidenceOf(channels, m)[n])
  }

  lemma ShowOneMore(shown: map<string, bool>, channels: Channels, m: string, i: nat)
    requires i < |channels| && ShownSoFar(shown, channels, m, i) && channels[i].name in ConfidenceOf(channels, m)
    ensures var n := channels[i].name; ShownSoFar(shown[n := ConfidenceOf(channels, m)[n]], channels, m, i + 1)
  {
  }

  lemma AllShown(shown: map<string, bool>, channels: Channels, m: string)
    requires ShownSoFar(shown, channels, m, |channels|)
    ensures shown == ConfidenceOf(channels, m)
  {
    ConfidenceKeys(channels, m);
  }

  ghost predicate Knows(confidence: map<string, map<string, bool>>, channels: Channels, m: string) {
    forall c :: c in channels ==>
      c.name in confidence && m in confidence[c.name] && c.name in ConfidenceOf(channels, m)
      && confidence[c.name][m] == ConfidenceOf(channels, m)[c.name]
  }

  lemma {:induction false} ConfidenceKeys(channels: Channels, m: string)
    ensures forall n :: n in ConfidenceOf(channels, m) <==> exists k :: 0 <= k < |channels| && channels[k].name == n
  {
    if channels == [] {
    } else {
      var init := channels[..|channels| - 1];
      ConfidenceKeys(init, m);
      forall n ensures n in ConfidenceOf(channels, m) <==> exists k :: 0 <= k < |channels| && channels[k].name == n {
        if k :| 0 <= k < |init| && init[k].name == n {
          assert channels[k].name == n;
        }
        if k :| 0 <= k < |channels| && channels[k].name == n {
          if k < |init| { assert init[k].name == n; }
        }
      }
    }
  }

  /** All entries of one model (lines 594-653). */
  method BuildRow(local: Data, channels: Channels, m: string, confidence: map<string, map<string, bool>>)
    returns (row: Row)
    requires Knows(confidence, channels, m)
    ensures row == RawRow(local, channels, m)
  {
    row := BuildRowFor(local, channels, m, FIELDS, confidence);
  }

  method BuildRowFor(local: Data, channels: Channels, m: string, fields: seq<Field>,
                     confidence: map<string, map<string, bool>>)
    returns (row: Row)
    requires Knows(confidence, channels, m)
    ensures row == RowFor(local, channels, m, fields)
  {
    row := map[];
    for i := 0 to |fields|
      invariant row == RowFor(local, channels, m, fields[..i])
    {
      assert fields[..i + 1][..i] == fields[..i];
      var upstreams, listed := ShowChannels(local, channels, fields[i], m);
      var shown := ShowConfidence(channels, m, confidence);
      if listed {
        row := row[fields[i] := Item(LocalValue(local, fields[i], m), upstreams, shown)];
      }
    }
    assert fields[..|fields|] == fields;
  }

  lemma {:induction false} RowEntries(local: Data, channels: Channels, m: string, fields: seq<Field>, f: Field)
    ensures Entry(RowFor(local, channels, m, fields), f) ==
            if f in fields && Included(local, channels, f, m) then Some(RawItem(local, channels, f, m)) else None
  {
    if fields == [] {
    } else {
      var init, last := fields[..|fields| - 1], fields[|fields| - 1];
      RowEntries(local, channels, m, init, f);
      assert fields == init + [last];
    }
  }

  function Entry(row: Row, f: Field): Option<Item> {
    if f in row then Some(row[f]) else None
  }

  function RowOf(d: Differences, m: string): Row {
    if m in d then d[m] else map[]
  }

  lemma AllFields(f: Field)
    ensures f in FIELDS
  {
    match f {
      case ModelRatio => assert FIELDS[0] == f;
      case CompletionRatio => assert FIELDS[1] == f;
      case CacheRatio => assert FIELDS[2] == f;
      case CreateCacheRatio => assert FIELDS[3] == f;
      case ImageRatio => assert FIELDS[4] == f;
      case AudioRatio => assert FIELDS[5] == f;
      case AudioCompletionRatio => assert FIELDS[6] == f;
      case ModelPrice => assert FIELDS[7] == f;
      case BillingMode => assert FIELDS[8] == f;
      case BillingExpr => assert FIELDS[9] == f;
    }
  }

  /** A model nobody mentions has no entries. */
  lemma UnmentionedRow(local: Data, channels: Channels, m: string)
    requires forall c :: c in channels ==> !Mentions(c.data, m)
    ensures RawRow(local, channels, m) == map[]
  {
    forall f ensures f !in RawRow(local, channels, m) {
      AllFields(f);
      RowEntries(local, channels, m, FIELDS, f);
      assert forall c :: c in channels ==> Supplied(c.data, f, m).None?;
    }
  }

  /** The listing before pruning: the rows that are not empty (lines 593-654). */
  method BuildRaw(local: Data, channels: Channels, models: set<string>, confidence: map<string, map<string, bool>>)
    returns (raw: Differences)
    requires forall m :: m in models <==> Mentions(local, m) || exists c :: c in channels && Mentions(c.data, m)
    requires forall m :: m in models ==> Knows(confidence, channels, m)
    ensures forall m :: RowOf(raw, m) == RawRow(local, channels, m)
    ensures forall m :: m in raw ==> raw[m] != map[]
  {
    raw := map[];
    var rest := models;
    while rest != {}
      invariant rest <= models
      invariant forall m :: RowOf(raw, m) == if m in models && m !in rest then RawRow(local, channels, m) else map[]
      invariant forall m :: m in raw ==> raw[m] != map[]
    {
      var m :| m in rest;
      rest := rest - {m};
      var row := BuildRow(local, channels, m, confidence);
      if row != map[] {
        raw := raw[m := row];
      }
    }
    forall m ensures RowOf(raw, m) == RawRow(local, channels, m) {
      if m !in models {
        UnmentionedRow(local, channels, m);
      }
    }
  }

  // ------------------------------------------------------------------- pruning

  /** The names under which an entry shows a real value. */
  function RealNames(item: Item): set<string> {
    set n | n in item.upstreams && Real(item.upstreams[n])
  }

  ghost predicate RealSomewhere(raw: Differences, n: string) {
    exists m, f :: m in raw && f in raw[m] && n in RealNames(raw[m][f])
  }

  /** The channels with a difference anywhere (lines 656-665). */
  method FindDiffering(raw: Differences) returns (names: set<string>)
    ensures forall n :: n in names <==> RealSomewhere(raw, n)
  {
    names := {};
    var rest := raw.Keys;
    while rest != {}
      invariant rest <= raw.Keys
      invariant forall n :: n in names <==>
                  exists m, f :: m in raw && m !in rest && f in raw[m] && n in RealNames(raw[m][f])
    {
      var m :| m in rest;
      var more := RowRealNames(raw[m]);
      rest := rest - {m};
      names := names + more;
    }
  }

  method RowRealNames(row: Row) returns (names: set<string>)
    ensures forall n :: n in names <==> exists f :: f in row && n in RealNames(row[f])
  {
    names := {};
    var rest := row.Keys;
    while rest != {}
      invariant rest <= row.Keys
      invariant forall n :: n in names <==> exists f :: f in row && f !in rest && n in RealNames(row[f])
    {
      var f :| f in rest;
      rest := rest - {f};
      names := names + RealNames(row[f]);
    }
  }

  function PrunedItem(item: Item, names: set<string>): Item {
    var gone := item.upstreams.Keys - names;
    Item(item.current, item.upstreams - gone, item.confidence - gone)
  }

  predicate WorthKeeping(item: Item) {
    exists n :: n in item.upstreams && item.upstreams[n] != SAME
  }

  function PrunedEntry(entry: Option<Item>, names: set<string>): Option<Item> {
    match entry
    case None => None
    case Some(item) =>
      var pruned := PrunedItem(item, names);
      if WorthKeeping(pruned) then Some(pruned) else None
  }

  /** Pruning one row (lines 668-688). */
  method PruneRow(row: Row, names: set<string>) returns (pruned: Row)
    ensures forall f :: Entry(pruned, f) == PrunedEntry(Entry(row, f), names)
  {
    pruned := row;
    var rest := row.Keys;
    while rest != {}
      invariant rest <= row.Keys
      invariant forall f :: Entry(pruned, f) == if f in rest then Entry(row, f) else PrunedEntry(Entry(row, f), names)
    {
      var f :| f in rest;
      rest := rest - {f};
      var item := PrunedItem(row[f], names);
      if WorthKeeping(item) {
        pruned := pruned[f := item];
      } else {
        pruned := pruned - {f};
      }
    }
  }

  /** Pruning every row, and dropping the rows left empty (lines 667-693). */
  method Prune(raw: Differences, names: set<string>) returns (d: Differences)
    requires forall m :: m in raw ==> raw[m] != map[]
    ensures forall m, f :: Entry(RowOf(d, m), f) == PrunedEntry(Entry(RowOf(raw, m), f), names)
    ensures forall m :: m in d ==> d[m] != map[]
  {
    d := raw;
    var rest := raw.Keys;
    while rest != {}
      invariant rest <= raw.Keys
      invariant forall m :: m in rest ==> RowOf(d, m) == RowOf(raw, m)
      invariant forall m, f :: m !in rest ==> Entry(RowOf(d, m), f) == PrunedEntry(Entry(RowOf(raw, m), f), names)
      invariant forall m :: m in d ==> d[m] != map[]
    {
      var m :| m in rest;
      rest := rest - {m};
      var row := PruneRow(raw[m], names);
      if row == map[] {
        d := d - {m};
      } else {
        d := d[m := row];
      }
    }
  }

  // ------------------------------------------------------------------ the whole listing

  /** The entry under a channel name in an unpruned item shows a real value somewhere. */
  ghost predicate DiffersSomewhere(local: Data, channels: Channels, n: string) {
    exists m, f :: Included(local, channels, f, m) && n in RealNames(RawItem(local, channels, f, m))
  }

  /** What the listing reports for a model and field. */
  ghost predicate Reports(d: Differences, local: Data, channels: Channels, m: string, f: Field, names: set<string>) {
    Entry(RowOf(d, m), f) ==
    PrunedEntry(if Included(local, channels, f, m) then Some(RawItem(local, channels, f, m)) else None, names)
  }

  /** `buildDifferences`: every entry is the unpruned one without the channels that differ nowhere, or
      is gone if nothing but markers is left; no row is empty. */
  method BuildDifferences(local: Data, channels: Channels) returns (d: Differences, ghost names: set<string>)
    ensures NamesDiffering(names, local, channels)
    ensures forall m, f :: Reports(d, local, channels, m, f, names)
    ensures forall m :: m in d ==> d[m] != map[]
    ensures forall m, f :: Entry(RowOf(d, m), f).Some? ==> Truthful(Entry(RowOf(d, m), f).value, local, channels, m, f)
  {
    var models := CollectModels(local, channels);
    var confidence := CollectConfidence(channels, models);
    var raw := BuildRaw(local, channels, models, confidence);
    var differing := FindDiffering(raw);
    d := Prune(raw, differing);
    names := differing;
    forall m, f ensures Entry(RowOf(raw, m), f) ==
                        if Included(local, channels, f, m) then Some(RawItem(local, channels, f, m)) else None {
      AllFields(f);
      RowEntries(local, channels, m, FIELDS, f);
    }
    forall n ensures n in names <==> DiffersSomewhere(local, channels, n) {
      SomewhereAgrees(raw, local, channels, n);
    }
    forall m, f | Entry(RowOf(d, m), f).Some?
      ensures Truthful(Entry(RowOf(d, m), f).value, local, channels, m, f)
    {
      EntriesAreTruthful(d, local, channels, m, f, names);
    }
  }

  lemma SomewhereAgrees(raw: Differences, local: Data, channels: Channels, n: string)
    requires forall m, f :: Entry(RowOf(raw, m), f) ==
               if Included(local, channels, f, m) then Some(RawItem(local, channels, f, m)) else None
    ensures RealSomewhere(raw, n) <==> DiffersSomewhere(local, channels, n)
  {
    if RealSomewhere(raw, n) {
      var m, f :| m in raw && f in raw[m] && n in RealNames(raw[m][f]);
      assert Entry(RowOf(raw, m), f) == Some(raw[m][f]);
    }
    if DiffersSomewhere(local, channels, n) {
      var m, f :| Included(local, channels, f, m) && n in RealNames(RawItem(local, channels, f, m));
      assert Entry(RowOf(raw, m), f) == Some(RawItem(local, channels, f, m));
    }
  }

  // ----------------------------------------------------------------------- exactness

  ghost predicate DistinctNames(channels: Channels) {
    forall i, j :: 0 <= i < j < |channels| ==> channels[i].name != channels[j].name
  }

  /** The channel at a position is the last one of its name, the one the maps keep. */
  ghost predicate LastOfName(channels: Channels, k: int) {
    0 <= k < |channels| && forall j :: k < j < |channels| ==> channels[j].name != channels[k].name
  }

  ghost predicate Effective(channels: Channels, c: Channel) {
    exists k :: LastOfName(channels, k) && channels[k] == c
  }

  lemma DistinctEffective(channels: Channels, c: Channel)
    requires DistinctNames(channels)
    ensures Effective(channels, c) <==> c in channels
  {
    if c in channels {
      var k :| 0 <= k < |channels| && channels[k] == c;
      assert LastOfName(channels, k);
    }
  }

  lemma {:induction false} UpstreamsByName(local: Data, channels: Channels, f: Field, m: string, k: int)
    requires LastOfName(channels, k)
    ensures var n, shown := channels[k].name, UpstreamsOf(local, channels, f, m);
            n in shown && shown[n] == Shown(local, channels[k], f, m)
    ensures var n, shown := channels[k].name, ConfidenceOf(channels, m);
            n in shown && shown[n] == Trusted(channels[k], m)
  {
    var last := |channels| - 1;
    if k < last {
      var init := channels[..last];
      assert init[k] == channels[k] && channels[last].name != channels[k].name;
      assert LastOfName(init, k) by {
        assert forall j :: k < j < last ==> init[j] == channels[j];
      }
      UpstreamsByName(local, init, f, m, k);
    }
  }

  /** Every name in the maps belongs to an effective channel. */
  lemma {:induction false} NamesAreEffective(local: Data, channels: Channels, f: Field, m: string, n: string)
    returns (k: int)
    requires n in UpstreamsOf(local, channels, f, m) || n in ConfidenceOf(channels, m)
    ensures LastOfName(channels, k) && channels[k].name == n
  {
    var last := |channels| - 1;
    if n == channels[last].name {
      k := last;
    } else {
      var init := channels[..last];
      k := NamesAreEffective(local, init, f, m, n);
      assert forall j :: k < j < last ==> channels[j] == init[j];
    }
  }

  /** The channel shows a real value somewhere, which takes a difference there. */
  ghost predicate VisiblyDiffers(local: Data, c: Channel) {
    exists m, f :: Differs(local, c, f, m) && Visible(Shown(local, c, f, m))
  }

  lemma SomewhereByChannel(local: Data, channels: Channels, k: int)
    requires LastOfName(channels, k)
    ensures DiffersSomewhere(local, channels, channels[k].name) <==> VisiblyDiffers(local, channels[k])
  {
    var c := channels[k];
    assert c in channels;
    if DiffersSomewhere(local, channels, c.name) {
      var m, f :| Included(local, channels, f, m) && c.name in RealNames(RawItem(local, channels, f, m));
      UpstreamsByName(local, channels, f, m, k);
      assert Differs(local, c, f, m);
    }
    if VisiblyDiffers(local, c) {
      var m, f :| Differs(local, c, f, m) && Visible(Shown(local, c, f, m));
      UpstreamsByName(local, channels, f, m, k);
      assert c.name in RealNames(RawItem(local, channels, f, m));
    }
  }

  /** The names of the channels that differ somewhere, as the pruning pass collects them. */
  ghost predicate NamesDiffering(names: set<string>, local: Data, channels: Channels) {
    forall n :: n in names <==> DiffersSomewhere(local, channels, n)
  }

  /** Some channel that the maps keep, and that visibly differs somewhere, shows something here. */
  ghost predicate ShowsSomething(local: Data, channels: Channels, f: Field, m: string) {
    exists c :: Effective(channels, c) && VisiblyDiffers(local, c) && Shown(local, c, f, m) != Text("same")
  }

  /** Whatever the values and the names, an entry is reported exactly when some channel differs there and
      some effective channel that visibly differs somewhere shows something other than the marker there. */
  lemma ReportedExactlyWhen(d: Differences, local: Data, channels: Channels, m: string, f: Field, names: set<string>)
    requires Reports(d, local, channels, m, f, names) && NamesDiffering(names, local, channels)
    ensures Entry(RowOf(d, m), f).Some? <==>
            Included(local, channels, f, m) && ShowsSomething(local, channels, f, m)
  {
    KeptExactlyWhen(local, channels, m, f, names);
  }

  lemma KeptExactlyWhen(local: Data, channels: Channels, m: string, f: Field, names: set<string>)
    requires NamesDiffering(names, local, channels)
    ensures WorthKeeping(PrunedItem(RawItem(local, channels, f, m), names)) <==> ShowsSomething(local, channels, f, m)
  {
    if WorthKeeping(PrunedItem(RawItem(local, channels, f, m), names)) {
      var c := KeptFor(local, channels, m, f, names);
    }
    forall c | Effective(channels, c) && VisiblyDiffers(local, c) && Shown(local, c, f, m) != Text("same")
      ensures WorthKeeping(PrunedItem(RawItem(local, channels, f, m), names))
    {
      ChannelContents(local, channels, m, f, names, c);
    }
  }

  lemma KeptFor(local: Data, channels: Channels, m: string, f: Field, names: set<string>) returns (c: Channel)
    requires NamesDiffering(names, local, channels)
    requires WorthKeeping(PrunedItem(RawItem(local, channels, f, m), names))
    ensures Effective(channels, c) && VisiblyDiffers(local, c) && Shown(local, c, f, m) != Text("same")
  {
    var item := PrunedItem(RawItem(local, channels, f, m), names);
    var n :| n in item.upstreams && item.upstreams[n] != SAME;
    var k := NamesAreEffective(local, channels, f, m, n);
    c := channels[k];
    ChannelContents(local, channels, m, f, names, c);
  }

  /** No upstream value is null or the marker text itself. */
  ghost predicate ProperValues(channels: Channels) {
    forall c, f, m :: c in channels && f in c.data && m in c.data[f] ==> Visible(c.data[f][m])
  }

  ghost predicate DiffersAnywhere(local: Data, c: Channel) {
    exists m, f :: Differs(local, c, f, m)
  }

  /** A difference between proper values always shows. */
  lemma ProperDifferencesShow(local: Data, channels: Channels, c: Channel)
    requires ProperValues(channels) && c in channels
    ensures forall f, m :: Differs(local, c, f, m) ==> Visible(Shown(local, c, f, m))
    ensures VisiblyDiffers(local, c) <==> DiffersAnywhere(local, c)
  {
    forall f, m | Differs(local, c, f, m) ensures Visible(Shown(local, c, f, m)) {
      assert Visible(c.data[f][m]);
    }
    if DiffersAnywhere(local, c) {
      var m, f :| Differs(local, c, f, m);
      assert Visible(Shown(local, c, f, m));
    }
  }

  /** For proper values and any names: an entry is reported exactly when an effective channel differs there,
      or a hidden namesake does and an effective channel that differs elsewhere says nothing there. */
  lemma ProperReportedExactlyWhen(
    d: Differences, local: Data, channels: Channels, m: string, f: Field, names: set<string>)
    requires ProperValues(channels)
    requires Reports(d, local, channels, m, f, names) && NamesDiffering(names, local, channels)
    ensures Entry(RowOf(d, m), f).Some? <==>
            || (exists c :: Effective(channels, c) && Differs(local, c, f, m))
            || (Included(local, channels, f, m)
                && exists c :: Effective(channels, c) && DiffersAnywhere(local, c) && SaysNothing(local, c, f, m))
  {
    ReportedExactlyWhen(d, local, channels, m, f, names);
    forall c | Effective(channels, c)
      ensures VisiblyDiffers(local, c) && Shown(local, c, f, m) != Text("same") <==>
              Differs(local, c, f, m) || (DiffersAnywhere(local, c) && SaysNothing(local, c, f, m))
      ensures Differs(local, c, f, m) ==> Included(local, channels, f, m)
    {
      ProperShows(local, channels, c, f, m);
    }
  }

  /** The local value stands against a channel that supplies none. */
  ghost predicate SaysNothing(local: Data, c: Channel, f: Field, m: string) {
    RawEntry(local, f, m) != Null && !(f in c.data && m in c.data[f])
  }

  lemma ProperShows(local: Data, channels: Channels, c: Channel, f: Field, m: string)
    requires ProperValues(channels) && Effective(channels, c)
    ensures VisiblyDiffers(local, c) && Shown(local, c, f, m) != Text("same") <==>
            Differs(local, c, f, m) || (DiffersAnywhere(local, c) && SaysNothing(local, c, f, m))
    ensures Differs(local, c, f, m) ==> Included(local, channels, f, m)
  {
    assert c in channels;
    ProperDifferencesShow(local, channels, c);
  }

  /** The listing is complete and sound: an entry is there if and only if some channel supplies a value
      that is absent locally or not equal; so pruning never removes a whole entry. */
  lemma EntriesAreExact(d: Differences, local: Data, channels: Channels, m: string, f: Field, names: set<string>)
    requires DistinctNames(channels) && ProperValues(channels)
    requires Reports(d, local, channels, m, f, names) && NamesDiffering(names, local, channels)
    ensures Entry(RowOf(d, m), f).Some? <==> exists c :: c in channels && Differs(local, c, f, m)
  {
    ReportedExactlyWhen(d, local, channels, m, f, names);
    if Included(local, channels, f, m) {
      var c :| c in channels && Differs(local, c, f, m);
      DistinctEffective(channels, c);
      ProperDifferencesShow(local, channels, c);
    }
  }

  /** What a reported entry says: the local entry, and the effective channels that visibly differ somewhere, each
      with its own entry or the marker, and trusted unless it supplies the placeholder pair. */
  ghost predicate Truthful(item: Item, local: Data, channels: Channels, m: string, f: Field) {
    && Presents(f, RawEntry(local, f, m), item.current)
    && item.upstreams.Keys == item.confidence.Keys
    && (forall n :: n in item.upstreams ==> exists c :: Effective(channels, c) && c.name == n)
    && (forall c :: Effective(channels, c) ==> (c.name in item.upstreams <==> VisiblyDiffers(local, c)))
    && (forall c :: Effective(channels, c) && c.name in item.upstreams ==>
          ShowsEntry(local, c, f, m, item.upstreams[c.name]) && (item.confidence[c.name] <==> !Placeholder(c, m)))
  }

  /** Whatever the values and the names, a reported entry is truthful. */
  lemma EntriesAreTruthful(d: Differences, local: Data, channels: Channels, m: string, f: Field, names: set<string>)
    requires Reports(d, local, channels, m, f, names) && NamesDiffering(names, local, channels)
    ensures Entry(RowOf(d, m), f).Some? ==> Truthful(Entry(RowOf(d, m), f).value, local, channels, m, f)
  {
    if Entry(RowOf(d, m), f).Some? {
      ItemContents(local, channels, m, f, names);
      var item := Entry(RowOf(d, m), f).value;
      forall c | Effective(channels, c) && c.name in item.upstreams
        ensures ShowsEntry(local, c, f, m, item.upstreams[c.name])
        ensures item.confidence[c.name] <==> !Placeholder(c, m)
      {
        assert ChannelListed(item, local, c, f, m);
        ShownIsTheEntry(local, c, f, m);
        UntrustedExactlyWhen(c, m);
      }
      forall c | Effective(channels, c) ensures c.name in item.upstreams <==> VisiblyDiffers(local, c) {
        assert ChannelListed(item, local, c, f, m);
      }
      LocalIsTheEntry(local, f, m);
    }
  }

  /** For proper values it lists exactly the effective channels that differ anywhere. */
  lemma EntriesAreFaithful(d: Differences, local: Data, channels: Channels, m: string, f: Field, names: set<string>)
    requires ProperValues(channels)
    requires Reports(d, local, channels, m, f, names) && NamesDiffering(names, local, channels)
    ensures Entry(RowOf(d, m), f).Some? ==>
              var item := Entry(RowOf(d, m), f).value;
              && Truthful(item, local, channels, m, f)
              && forall c :: Effective(channels, c) ==> (c.name in item.upstreams <==> DiffersAnywhere(local, c))
  {
    EntriesAreTruthful(d, local, channels, m, f, names);
    if Entry(RowOf(d, m), f).Some? {
      ItemContents(local, channels, m, f, names);
      var item := Entry(RowOf(d, m), f).value;
      forall c | Effective(channels, c) ensures c.name in item.upstreams <==> DiffersAnywhere(local, c) {
        assert ChannelListed(item, local, c, f, m);
        ProperDifferencesShow(local, channels, c);
      }
    }
  }

  lemma ItemContents(local: Data, channels: Channels, m: string, f: Field, names: set<string>)
    requires NamesDiffering(names, local, channels)
    ensures var item := PrunedItem(RawItem(local, channels, f, m), names);
            && item.upstreams.Keys == item.confidence.Keys
            && (forall n :: n in item.upstreams ==> exists c :: Effective(channels, c) && c.name == n)
            && (forall c :: Effective(channels, c) ==> ChannelListed(item, local, c, f, m))
  {
    forall c | Effective(channels, c)
      ensures ChannelListed(PrunedItem(RawItem(local, channels, f, m), names), local, c, f, m)
    {
      ChannelContents(local, channels, m, f, names, c);
    }
    SameKeys(local, channels, f, m);
    forall n | n in UpstreamsOf(local, channels, f, m) ensures exists c :: Effective(channels, c) && c.name == n {
      var k := NamesAreEffective(local, channels, f, m, n);
      assert Effective(channels, channels[k]);
    }
  }

  /** How an entry treats one channel. */
  ghost predicate ChannelListed(item: Item, local: Data, c: Channel, f: Field, m: string) {
    && (c.name in item.upstreams <==> VisiblyDiffers(local, c))
    && (c.name in item.upstreams ==>
          c.name in item.confidence
          && item.upstreams[c.name] == Shown(local, c, f, m) && item.confidence[c.name] == Trusted(c, m))
  }

  lemma ChannelContents(local: Data, channels: Channels, m: string, f: Field, names: set<string>, c: Channel)
    requires Effective(channels, c)
    requires c.name in names <==> DiffersSomewhere(local, channels, c.name)
    ensures ChannelListed(PrunedItem(RawItem(local, channels, f, m), names), local, c, f, m)
  {
    var k :| LastOfName(channels, k) && channels[k] == c;
    UpstreamsByName(local, channels, f, m, k);
    SomewhereByChannel(local, channels, k);
  }

  lemma {:induction false} SameKeys(local: Data, channels: Channels, f: Field, m: string)
    ensures UpstreamsOf(local, channels, f, m).Keys == ConfidenceOf(channels, m).Keys
  {
    if channels == [] {
    } else {
      SameKeys(local, channels[..|channels| - 1], f, m);
    }
  }

  /** Null upstream values break it: the differences of a channel that supplies nothing else exist but
      are not reported. */
  lemma NullValuesAreLost(d: Differences, local: Data, c: Channel, m: string, f: Field, names: set<string>)
    requires forall g, k :: Supplied(c.data, g, k).Some? ==> Supplied(c.data, g, k).value == Null
    requires Supplied(c.data, f, m).Some? && LocalValue(local, f, m) != Null
    requires Reports(d, local, [c], m, f, names) && NamesDiffering(names, local, [c])
    ensures Differs(local, c, f, m) && Entry(RowOf(d, m), f).None?
  {
    ReportedExactlyWhen(d, local, [c], m, f, names);
    forall g, k ensures !Visible(Shown(local, c, g, k)) {
      assert Supplied(c.data, g, k).Some? ==> Supplied(c.data, g, k).value == Null;
    }
    assert forall e :: Effective([c], e) ==> e == c;
  }

  /** So does a name used twice: the later channel hides the earlier one. */
  lemma DuplicateNameIsLost(m: string, d: Differences, names: set<string>)
    requires var local, channels := map[ModelRatio := map[m := Num(1.0)]], TwoNamesakes(m);
             Reports(d, local, channels, m, ModelRatio, names) && NamesDiffering(names, local, channels)
    ensures var local, channels := map[ModelRatio := map[m := Num(1.0)]], TwoNamesakes(m);
            Differs(local, channels[0], ModelRatio, m) && Entry(RowOf(d, m), ModelRatio).None?
  {
    var local, channels := map[ModelRatio := map[m := Num(1.0)]], TwoNamesakes(m);
    assert channels[..1] == [channels[0]] && channels[..1][..0] == [];
    var raw := RawItem(local, channels, ModelRatio, m);
    assert UpstreamsOf(local, channels[..1], ModelRatio, m).Keys == {"a"};
    assert raw.upstreams.Keys == {"a"} && raw.upstreams["a"] == SAME;
  }

  function TwoNamesakes(m: string): (r: Channels)
    ensures |r| == 2 && r[0].name == r[1].name
  {
    [Channel("a", map[ModelRatio := map[m := Num(2.0)]]), Channel("a", map[ModelRatio := map[m := Num(1.0)]])]
  }
}
