/** The usage counters kept while bodies are stored and released (common/body_storage.go,
    common/disk_cache_config.go), for sequential runs under one configuration. */
module BodyAccounts {
  import opened Basics
  import opened BodyStorage

  datatype Config = Config(enabled: bool, thresholdMB: int, maxSizeMB: int)

  datatype Stats = Stats(diskFiles: int, diskBytes: int, memoryBuffers: int, memoryBytes: int)

  /** A storage that was created at some time. */
  datatype Stored = Stored(kind: Kind, size: nat, open: bool)

  datatype Accounts = Accounts(stats: Stats, storages: seq<Stored>)

  const EMPTY := Accounts(Stats(0, 0, 0, 0), [])

  /** What a request body delivers before it ends, and how it ends: at its end, in an error, or in that of a
      limiting reader that found it too large. */
  datatype Source = Source(length: nat, ending: Ending)
  datatype Ending = Complete | Broken | OverLimit

  datatype Outcome = Created | TooLarge | Failed

  // ----------------------------------------------------------------------- transitions

  /** `IsDiskCacheAvailable`. */
  predicate DiskAvailable(stats: Stats, config: Config, size: int) {
    config.enabled && stats.diskBytes + size <= config.maxSizeMB * MEGABYTE
  }

  function Opened(a: Accounts, kind: Kind, size: nat): Accounts {
    Accounts(
      if kind.Disk? then a.stats.(diskFiles := a.stats.diskFiles + 1, diskBytes := a.stats.diskBytes + size)
      else a.stats.(memoryBuffers := a.stats.memoryBuffers + 1, memoryBytes := a.stats.memoryBytes + size),
      a.storages + [Stored(kind, size, true)])
  }

  /** `CreateBodyStorage`: a failing disk falls back to memory. */
  function CreateKind(a: Accounts, config: Config, size: nat, diskWorks: bool): Kind {
    if config.enabled && size >= config.thresholdMB * MEGABYTE && DiskAvailable(a.stats, config, size) && diskWorks
    then Disk else Memory
  }

  function CreateFromBytes(a: Accounts, config: Config, size: nat, diskWorks: bool): Accounts {
    Opened(a, CreateKind(a, config, size, diskWorks), size)
  }

  predicate StreamsToDisk(a: Accounts, config: Config, contentLength: int) {
    config.enabled && contentLength > 0 && contentLength >= config.thresholdMB * MEGABYTE
    && DiskAvailable(a.stats, config, contentLength)
  }

  /** `CreateBodyStorageFromReader`. A body longer than allowed, or one that fails, leaves no trace. */
  function CreateFromReader(a: Accounts, config: Config, source: Source, contentLength: int, maxBytes: nat,
                            diskWorks: bool): (Accounts, Outcome)
  {
    var tooLarge := source.length > maxBytes || source.ending.OverLimit?;
    if StreamsToDisk(a, config, contentLength) then
      if !diskWorks || (source.ending.Broken? && !tooLarge) then (a, Failed)
      else if tooLarge then (a, TooLarge)
      else (Opened(a, Disk, source.length), Created)
    else if source.ending.Broken? && !tooLarge then (a, Failed)
    else if tooLarge then (a, TooLarge)
    else (CreateFromBytes(a, config, source.length, diskWorks), Created)
  }

  function ClampAtZero(n: int): int {
    if n < 0 then 0 else n
  }

  /** `Close`: only the first one counts; the disk counters stop at zero. */
  function Closed(a: Accounts, i: nat): Accounts {
    if i >= |a.storages| || !a.storages[i].open then a
    else
      var s := a.storages[i];
      Accounts(
        if s.kind.Disk?
        then a.stats.(diskFiles := ClampAtZero(a.stats.diskFiles - 1),
                      diskBytes := ClampAtZero(a.stats.diskBytes - s.size))
        else a.stats.(memoryBuffers := a.stats.memoryBuffers - 1, memoryBytes := a.stats.memoryBytes - s.size),
        a.storages[i := s.(open := false)])
  }

  /** The process-wide counters, next to the storages they count. */
  class BodyCache {
    const config: Config
    var stats: Stats
    var storages: seq<Stored>

    function State(): Accounts
      reads this
    {
      Accounts(stats, storages)
    }

    constructor (config: Config)
      ensures State() == EMPTY && this.config == config
    {
      this.config := config;
      stats, storages := Stats(0, 0, 0, 0), [];
    }

    method IncrementDiskFiles(size: nat)
      modifies this
      ensures State() == Opened(old(State()), Disk, size)
    {
      stats := stats.(diskFiles := stats.diskFiles + 1, diskBytes := stats.diskBytes + size);
      storages := storages + [Stored(Disk, size, true)];
    }

    method IncrementMemoryBuffers(size: nat)
      modifies this
      ensures State() == Opened(old(State()), Memory, size)
    {
      stats := stats.(memoryBuffers := stats.memoryBuffers + 1, memoryBytes := stats.memoryBytes + size);
      storages := storages + [Stored(Memory, size, true)];
    }

    method CreateBodyStorage(size: nat, diskWorks: bool)
      modifies this
      ensures State() == CreateFromBytes(old(State()), config, size, diskWorks)
    {
      if config.enabled && size >= config.thresholdMB * MEGABYTE && DiskAvailable(stats, config, size) {
        if !diskWorks {
          IncrementMemoryBuffers(size);
        } else {
          IncrementDiskFiles(size);
        }
      } else {
        IncrementMemoryBuffers(size);
      }
    }

    method CreateBodyStorageFromReader(source: Source, contentLength: int, maxBytes: nat, diskWorks: bool)
      returns (r: Outcome)
      modifies this
      ensures (State(), r) == CreateFromReader(old(State()), config, source, contentLength, maxBytes, diskWorks)
    {
      var read := if source.length <= maxBytes then source.length else maxBytes + 1;
      var err := if read <= maxBytes then source.ending else Complete;
      if config.enabled && contentLength > 0 && contentLength >= config.thresholdMB * MEGABYTE
         && DiskAvailable(stats, config, contentLength) {
        if !diskWorks || err.Broken? {
          return Failed;
        }
        if err.OverLimit? || read > maxBytes {
          return TooLarge;
        }
        IncrementDiskFiles(read);
        return Created;
      }
      if err.Broken? {
        return Failed;
      }
      if err.OverLimit? || read > maxBytes {
        return TooLarge;
      }
      CreateBodyStorage(read, diskWorks);
      return Created;
    }

    method Close(i: nat)
      modifies this
      ensures State() == Closed(old(State()), i)
    {
      if i < |storages| && storages[i].open {
        var s := storages[i];
        if s.kind.Disk? {
          var files, bytes := stats.diskFiles - 1, stats.diskBytes - s.size;
          if files < 0 { files := 0; }
          if bytes < 0 { bytes := 0; }
          stats := stats.(diskFiles := files, diskBytes := bytes);
        } else {
          stats := stats.(memoryBuffers := stats.memoryBuffers - 1, memoryBytes := stats.memoryBytes - s.size);
        }
        storages := storages[i := s.(open := false)];
      }
    }
  }

  // ------------------------------------------------------------------------- the invariant

  function Counts(s: Stored, kind: Kind): nat {
    if s.open && s.kind == kind then 1 else 0
  }

  function CountOpen(storages: seq<Stored>, kind: Kind): nat {
    if storages == [] then 0 else CountOpen(storages[..|storages| - 1], kind) + Counts(storages[|storages| - 1], kind)
  }

  function SizeOpen(storages: seq<Stored>, kind: Kind): nat {
    if storages == [] then 0
    else SizeOpen(storages[..|storages| - 1], kind)
         + Counts(storages[|storages| - 1], kind) * storages[|storages| - 1].size
  }

  /** The counters are the numbers and total sizes of the open storages. */
  ghost predicate Balanced(a: Accounts) {
    && a.stats.diskFiles == CountOpen(a.storages, Disk) && a.stats.diskBytes == SizeOpen(a.storages, Disk)
    && a.stats.memoryBuffers == CountOpen(a.storages, Memory) && a.stats.memoryBytes == SizeOpen(a.storages, Memory)
  }

  lemma OpenedBalanced(a: Accounts, kind: Kind, size: nat)
    requires Balanced(a)
    ensures Balanced(Opened(a, kind, size))
  {
    assert (a.storages + [Stored(kind, size, true)])[..|a.storages|] == a.storages;
  }

  /** Replacing one storage changes the totals by that one. */
  lemma {:induction false} ReplaceTotals(storages: seq<Stored>, i: nat, s: Stored, kind: Kind)
    requires i < |storages|
    ensures CountOpen(storages[i := s], kind) == CountOpen(storages, kind) - Counts(storages[i], kind) + Counts(s, kind)
    ensures SizeOpen(storages[i := s], kind) ==
            SizeOpen(storages, kind) - Counts(storages[i], kind) * storages[i].size + Counts(s, kind) * s.size
  {
    var init, next := storages[..|storages| - 1], storages[i := s];
    if i < |init| {
      ReplaceTotals(init, i, s, kind);
      assert next[..|storages| - 1] == init[i := s];
    } else {
      assert next[..|storages| - 1] == init;
    }
  }

  /** Closing an open storage: the clamp at zero has nothing to do. */
  lemma ClosedBalanced(a: Accounts, i: nat)
    requires Balanced(a)
    ensures Balanced(Closed(a, i))
    ensures i < |a.storages| && a.storages[i].open && a.storages[i].kind.Disk? ==>
              a.stats.diskFiles >= 1 && a.stats.diskBytes >= a.storages[i].size
  {
    if i < |a.storages| && a.storages[i].open {
      var s := a.storages[i].(open := false);
      ReplaceTotals(a.storages, i, s, Disk);
      ReplaceTotals(a.storages, i, s, Memory);
    }
  }

  // ------------------------------------------------------------------- where a body ends up

  /** The disk cache is on, a body of this size is large enough for it, and next to the open files there is
      room for it. */
  ghost predicate BelongsOnDisk(a: Accounts, config: Config, size: int) {
    && config.enabled && config.thresholdMB * 1024 * 1024 <= size
    && size <= config.maxSizeMB * 1024 * 1024 - SizeOpen(a.storages, Disk)
  }

  /** Bytes at hand go to disk exactly when they belong there and the disk works. */
  lemma BytesGoToDiskExactlyWhen(a: Accounts, config: Config, size: nat, diskWorks: bool)
    requires Balanced(a)
    ensures var kind := if BelongsOnDisk(a, config, size) && diskWorks then Disk else Memory;
            CreateFromBytes(a, config, size, diskWorks).storages == a.storages + [Stored(kind, size, true)]
  {
  }

  /** A body from the connection is refused when it is too long or the limiting reader says so, and fails when
      reading it fails within the allowed length, or when its declared length belongs on disk and the disk
      does not work. Otherwise it is stored with the length it turned out to have: on disk if its declared
      length belongs there, and else, declared or not, wherever its actual length belongs. A refusal leaves
      no trace. */
  lemma ReaderOutcome(
    a: Accounts, config: Config, source: Source, contentLength: int, maxBytes: nat, diskWorks: bool)
    requires Balanced(a)
    ensures var (after, r) := CreateFromReader(a, config, source, contentLength, maxBytes, diskWorks);
            var streams := contentLength > 0 && BelongsOnDisk(a, config, contentLength);
            var kind := if streams || (BelongsOnDisk(a, config, source.length) && diskWorks) then Disk else Memory;
            && (r.Failed? <==> (streams && !diskWorks) || (source.ending == Broken && source.length <= maxBytes))
            && (r.TooLarge? <==> (source.length > maxBytes || source.ending == OverLimit) && !r.Failed?)
            && (!r.Created? ==> after == a)
            && (r.Created? ==> after.storages == a.storages + [Stored(kind, source.length, true)])
  {
  }

  // --------------------------------------------------------------------------------- runs

  datatype Event =
    | FromBytes(size: nat, diskWorks: bool)
    | FromReader(source: Source, contentLength: int, maxBytes: nat, diskWorks: bool)
    | Release(i: nat)

  function Step(a: Accounts, config: Config, e: Event): Accounts {
    match e
    case FromBytes(size, diskWorks) => CreateFromBytes(a, config, size, diskWorks)
    case FromReader(source, contentLength, maxBytes, diskWorks) =>
      CreateFromReader(a, config, source, contentLength, maxBytes, diskWorks).0
    case Release(i) => Closed(a, i)
  }

  function Run(a: Accounts, config: Config, events: seq<Event>): Accounts
    decreases |events|
  {
    if events == [] then a else Run(Step(a, config, events[0]), config, events[1..])
  }

  lemma StepBalanced(a: Accounts, config: Config, e: Event)
    requires Balanced(a)
    ensures Balanced(Step(a, config, e))
  {
    match e {
      case FromBytes(size, diskWorks) => OpenedBalanced(a, CreateKind(a, config, size, diskWorks), size);
      case FromReader(source, contentLength, maxBytes, diskWorks) =>
        OpenedBalanced(a, Disk, source.length);
        OpenedBalanced(a, CreateKind(a, config, source.length, diskWorks), source.length);
      case Release(i) => ClosedBalanced(a, i);
    }
  }

  /** After every sequence of creations, failed creations and closes, repeated or not, the counters are
      the numbers and total sizes of the open storages. */
  lemma {:induction false} EveryRunBalanced(a: Accounts, config: Config, events: seq<Event>)
    requires Balanced(a)
    ensures Balanced(Run(a, config, events))
    decreases |events|
  {
    if events == [] {
    } else {
      StepBalanced(a, config, events[0]);
      EveryRunBalanced(Step(a, config, events[0]), config, events[1..]);
    }
  }

  /** Closing a storage closes it and no other, and takes it off the counters of its kind exactly if it was
      open. */
  lemma ReleaseCloses(a: Accounts, config: Config, i: nat)
    requires Balanced(a)
    ensures var after, before := Step(a, config, Release(i)), a.stats;
            && |after.storages| == |a.storages|
            && (forall j :: 0 <= j < |a.storages| ==>
                  after.storages[j] == if j == i then a.storages[j].(open := false) else a.storages[j])
            && after.stats ==
               if i >= |a.storages| || !a.storages[i].open then before
               else
                 var size := a.storages[i].size;
                 match a.storages[i].kind
                 case Disk =>
                   Stats(before.diskFiles - 1, before.diskBytes - size, before.memoryBuffers, before.memoryBytes)
                 case Memory =>
                   Stats(before.diskFiles, before.diskBytes, before.memoryBuffers - 1, before.memoryBytes - size)
  {
    ClosedBalanced(a, i);
  }

  /** What any other event does to the storages that are there: nothing. */
  lemma CreatingKeeps(a: Accounts, config: Config, e: Event)
    requires Balanced(a) && !e.Release?
    ensures a.storages <= Step(a, config, e).storages
    ensures forall j :: |a.storages| <= j < |Step(a, config, e).storages| ==> Step(a, config, e).storages[j].open
  {
  }

  /** The run closes storage i after creating it. */
  ghost predicate Releases(config: Config, events: seq<Event>, i: nat) {
    exists k :: 0 <= k < |events| && ReleasesAt(config, events, i, k)
  }

  ghost predicate ReleasesAt(config: Config, events: seq<Event>, i: nat, k: nat)
    requires k < |events|
  {
    events[k] == Release(i) && i < |Run(EMPTY, config, events[..k]).storages|
  }

  lemma {:induction false} RunSnoc(a: Accounts, config: Config, events: seq<Event>, e: Event)
    ensures Run(a, config, events + [e]) == Step(Run(a, config, events), config, e)
    decreases |events|
  {
    if events == [] {
      assert Run(a, config, [e]) == Run(Step(a, config, e), config, []);
    } else {
      RunSnoc(Step(a, config, events[0]), config, events[1..], e);
      assert (events + [e])[1..] == events[1..] + [e];
    }
  }

  lemma ReleasesSnoc(config: Config, events: seq<Event>, e: Event, i: nat)
    ensures Releases(config, events + [e], i) <==>
            || Releases(config, events, i)
            || (e == Release(i) && i < |Run(EMPTY, config, events).storages|)
  {
    var all := events + [e];
    assert all[..|events|] == events;
    forall k: nat | k < |events| ensures ReleasesAt(config, all, i, k) <==> ReleasesAt(config, events, i, k) {
      assert all[..k] == events[..k];
    }
    assert ReleasesAt(config, all, i, |events|) <==> e == Release(i) && i < |Run(EMPTY, config, events).storages|;
  }

  /** After every run a storage is open exactly if the run did not close it. */
  lemma {:induction false} OpenExactlyWhen(config: Config, events: seq<Event>, i: nat)
    ensures var end := Run(EMPTY, config, events);
            i < |end.storages| ==> (end.storages[i].open <==> !Releases(config, events, i))
    decreases |events|
  {
    if events == [] {
    } else {
      var init, e := events[..|events| - 1], events[|events| - 1];
      assert events == init + [e];
      var before := Run(EMPTY, config, init);
      OpenExactlyWhen(config, init, i);
      RunSnoc(EMPTY, config, init, e);
      ReleasesSnoc(config, init, e, i);
      NoEarlyReleases(config, init, i);
      EveryRunBalanced(EMPTY, config, init);
      if e.Release? {
        ReleaseCloses(before, config, e.i);
      } else {
        CreatingKeeps(before, config, e);
      }
    }
  }

  /** Only what was created is closed. */
  lemma {:induction false} NoEarlyReleases(config: Config, events: seq<Event>, i: nat)
    ensures Releases(config, events, i) ==> i < |Run(EMPTY, config, events).storages|
    decreases |events|
  {
    if events == [] {
    } else {
      var init, e := events[..|events| - 1], events[|events| - 1];
      assert events == init + [e];
      NoEarlyReleases(config, init, i);
      RunSnoc(EMPTY, config, init, e);
      ReleasesSnoc(config, init, e, i);
      EveryRunBalanced(EMPTY, config, init);
      if e.Release? {
        ReleaseCloses(Run(EMPTY, config, init), config, e.i);
      } else {
        CreatingKeeps(Run(EMPTY, config, init), config, e);
      }
    }
  }

  lemma {:induction false} NothingOpen(storages: seq<Stored>)
    ensures (forall i :: 0 <= i < |storages| ==> !storages[i].open) <==>
            CountOpen(storages, Disk) == 0 && CountOpen(storages, Memory) == 0
    ensures CountOpen(storages, Disk) == 0 ==> SizeOpen(storages, Disk) == 0
    ensures CountOpen(storages, Memory) == 0 ==> SizeOpen(storages, Memory) == 0
    decreases |storages|
  {
    if storages == [] {
    } else {
      var init, last := storages[..|storages| - 1], storages[|storages| - 1];
      NothingOpen(init);
      assert forall i :: 0 <= i < |init| ==> storages[i] == init[i];
      assert !last.open <==> Counts(last, Disk) == 0 && Counts(last, Memory) == 0;
    }
  }

  /** All four counters are back at zero after a run exactly if it closed every storage it created. */
  lemma CountersReturnToZeroExactlyWhen(config: Config, events: seq<Event>)
    ensures var end := Run(EMPTY, config, events);
            end.stats == Stats(0, 0, 0, 0) <==> forall i: nat :: i < |end.storages| ==> Releases(config, events, i)
  {
    var end := Run(EMPTY, config, events);
    EveryRunBalanced(EMPTY, config, events);
    NothingOpen(end.storages);
    forall i: nat | i < |end.storages| ensures end.storages[i].open <==> !Releases(config, events, i) {
      OpenExactlyWhen(config, events, i);
    }
  }

  /** No body is longer than its declared length says. */
  ghost predicate HonestLengths(events: seq<Event>) {
    forall i :: 0 <= i < |events| ==> Honest(events[i])
  }

  ghost predicate Honest(e: Event) {
    e.FromReader? && e.contentLength > 0 ==> e.source.length <= e.contentLength
  }

  lemma TailHonest(events: seq<Event>)
    requires events != [] && HonestLengths(events)
    ensures Honest(events[0]) && HonestLengths(events[1..])
  {
  }

  ghost predicate WithinLimit(a: Accounts, config: Config) {
    a.stats.diskBytes <= ClampAtZero(config.maxSizeMB * MEGABYTE)
  }

  lemma StepWithinLimit(a: Accounts, config: Config, e: Event)
    requires Balanced(a) && WithinLimit(a, config) && Honest(e)
    ensures WithinLimit(Step(a, config, e), config)
  {
    if e.Release? { ClosedBalanced(a, e.i); }
  }

  lemma {:induction false} EveryRunWithinLimit(a: Accounts, config: Config, events: seq<Event>)
    requires Balanced(a) && WithinLimit(a, config) && HonestLengths(events)
    ensures WithinLimit(Run(a, config, events), config)
    decreases |events|
  {
    if events == [] {
    } else {
      var e := events[0];
      StepBalanced(a, config, e);
      StepWithinLimit(a, config, e);
      TailHonest(events);
      EveryRunWithinLimit(Step(a, config, e), config, events[1..]);
    }
  }

  /** Disk usage stays within the configured maximum in every run with honest lengths; and for every
      declared length that a body outgrows there is a configuration and a run that exceeds it. A body
      without a declared length is measured before it is stored. */
  lemma WithinLimitExactlyWhen(contentLength: int, length: nat)
    ensures contentLength <= 0 || length <= contentLength <==>
            forall config, events, diskWorks, maxBytes ::
              HonestLengths(events) ==>
                WithinLimit(Run(EMPTY, config,
                  events + [FromReader(Source(length, Complete), contentLength, maxBytes, diskWorks)]), config)
  {
    if contentLength <= 0 || length <= contentLength {
      forall config, events, diskWorks, maxBytes | HonestLengths(events)
        ensures WithinLimit(Run(EMPTY, config,
                  events + [FromReader(Source(length, Complete), contentLength, maxBytes, diskWorks)]), config)
      {
        EveryRunWithinLimit(EMPTY, config,
          events + [FromReader(Source(length, Complete), contentLength, maxBytes, diskWorks)]);
      }
    } else {
      var config, events := Exceeding(contentLength, length);
      var last := FromReader(Source(length, Complete), contentLength, length, true);
      assert HonestLengths(events) && !WithinLimit(Run(EMPTY, config, events + [last]), config);
    }
  }

  /** Fill the cache up to exactly the declared length below the limit, then store the longer body. */
  lemma Exceeding(contentLength: int, length: nat) returns (config: Config, events: seq<Event>)
    requires contentLength > 0 && length > contentLength
    ensures HonestLengths(events)
    ensures var last := FromReader(Source(length, Complete), contentLength, length, true);
            !WithinLimit(Run(EMPTY, config, events + [last]), config)
  {
    var mb := contentLength / MEGABYTE + 1;
    config := Config(true, 0, mb);
    var limit := mb * MEGABYTE;
    var filler := FromBytes(limit - contentLength, true);
    var last := FromReader(Source(length, Complete), contentLength, length, true);
    events := [filler];
    assert events + [last] == [filler, last];
    assert [filler, last][1..] == [last] && [last][1..] == [];
    var filled := Step(EMPTY, config, filler);
    assert filled.stats.diskBytes == limit - contentLength;
    assert Step(filled, config, last).stats.diskBytes == limit - contentLength + length;
    assert Run(EMPTY, config, [filler, last]) == Run(filled, config, [last])
        == Run(Step(filled, config, last), config, []);
  }
}
