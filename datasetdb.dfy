/** The first generation's Redis store: one hash per dataset, keyed by the
    dataset directory, plus plain string keys (the saved initial state and
    the per-dataset locks). A hash field that was never written reads back
    as `undefined`, here `None`. The two key spaces are kept apart: a
    string command on a hash key, or a hash command on a string key, fails
    as Redis's WRONGTYPE error does. */
module DatasetDb {
  import opened Wrappers
  import opened Classify
  import opened Numbers

  const ADDED := "added"
  const QUEUED := "queued"
  const PROCESSING := "processing"
  const PROCESSED := "processed"
  const INITIAL_STATE := "initialState"
  /** A dataset is ready to queue two minutes after its last update. */
  const READY_AFTER_MS := 1000 * 120

  /** The fields of a dataset hash; `structure` is stored as JSON and
      parses back to the same structure. */
  datatype Dataset = Dataset(hash: Option<string>, structure: Option<Structure>, status: Option<string>,
                             lastUpdated: Option<string>)

  /** What the modification queue hands over: a dataset and its hash. */
  datatype QueueItem = QueueItem(structure: Structure, hash: string)

  /** One entry of a readiness scan: `{ key, ...dataset }` with the
      structure parsed. */
  datatype Listed = Listed(key: string, dataset: Dataset, structure: Structure)

  const EMPTY := Dataset(None, None, None, None)

  /** The corrected `lastUpdated` stamp for time `now`: the decimal
      millisecond count, which `parseInt` reads back, so the two-minute
      readiness delay holds. The source stamps an ISO date instead
      (`StampAsWritten`), of which `parseInt` reads only the year. */
  function Stamp(now: nat): string
  {
    Decimal(now)
  }

  /** The stamp as the source writes it: `new Date().toISOString()`. */
  function StampAsWritten(now: Millis): string
  {
    IsoString(now)
  }

  /** `parseInt(field, 10)`; an undefined field parses as the text
      "undefined", which is `NaN`. */
  function ParseField(field: Option<string>): Option<int>
  {
    if field.None? then None else ParseInt(field.value)
  }

  /** The readiness filter: status "added" and `parseInt(lastUpdated)`
      before `now` minus two minutes (`NaN` compares false). */
  predicate Ready(d: Dataset, now: int)
  {
    d.status == Some(ADDED) && ParseField(d.lastUpdated).Some? && ParseField(d.lastUpdated).value < now - READY_AFTER_MS
  }

  predicate IsQueued(d: Dataset)
  {
    d.status == Some(QUEUED)
  }

  /** The record `addDatasetsToProcessingQueue` writes for an item. */
  function AddedRecord(item: QueueItem, stamp: string): Dataset
  {
    Dataset(Some(item.hash), Some(item.structure), Some(ADDED), Some(stamp))
  }

  /** The datasets after the pipeline of `hSet`s for `items`, in order; an
      item whose directory holds a string fails alone. */
  function AddedAll(datasets: map<string, Dataset>, strings: set<string>, items: seq<QueueItem>, stamp: string)
    : map<string, Dataset>
    decreases |items|
  {
    if items == [] then datasets
    else
      var before := AddedAll(datasets, strings, items[..|items| - 1], stamp);
      var last := items[|items| - 1];
      if last.structure.dir in strings then before else before[last.structure.dir := AddedRecord(last, stamp)]
  }

  /** The keys after a pipeline: the old ones and every directory written. */
  lemma {:induction false} AddedAllKeys(datasets: map<string, Dataset>, strings: set<string>, items: seq<QueueItem>,
                                        stamp: string)
    ensures var r := AddedAll(datasets, strings, items, stamp);
      forall k :: k in r <==> k in datasets || exists i :: 0 <= i < |items| && items[i].structure.dir == k && k !in strings
    decreases |items|
  {
    if items != [] {
      var init := items[..|items| - 1];
      AddedAllKeys(datasets, strings, init, stamp);
      forall i | 0 <= i < |init| ensures init[i] == items[i] { }
    }
  }

  /** A key no item writes keeps its record. */
  lemma {:induction false} AddedAllKeeps(datasets: map<string, Dataset>, strings: set<string>, items: seq<QueueItem>,
                                         stamp: string, k: string)
    requires k in datasets && (k in strings || forall i :: 0 <= i < |items| ==> items[i].structure.dir != k)
    ensures var r := AddedAll(datasets, strings, items, stamp);
      k in r && r[k] == datasets[k]
    decreases |items|
  {
    if items != [] {
      var init := items[..|items| - 1];
      forall i | 0 <= i < |init| ensures init[i] == items[i] { }
      AddedAllKeeps(datasets, strings, init, stamp, k);
    }
  }

  /** A directory written holds the record of its last item. */
  lemma {:induction false} AddedAllLastWins(datasets: map<string, Dataset>, strings: set<string>, items: seq<QueueItem>,
                                            stamp: string, i: int)
    requires 0 <= i < |items| && items[i].structure.dir !in strings
    requires forall j :: i < j < |items| ==> items[j].structure.dir != items[i].structure.dir
    ensures var r := AddedAll(datasets, strings, items, stamp);
      items[i].structure.dir in r && r[items[i].structure.dir] == AddedRecord(items[i], stamp)
    decreases |items|
  {
    if i < |items| - 1 {
      var init := items[..|items| - 1];
      forall j | i <= j < |init| ensures init[j] == items[j] { }
      AddedAllLastWins(datasets, strings, init, stamp, i);
    }
  }

  /** The readiness test as the source writes the stamp: `parseInt` reads
      only the year of the ISO text, so once the clock is past the first
      hours of 1970 every "added" dataset is ready, even one written this
      very millisecond. */
  lemma IsoStampReadyAtOnce(d: Dataset, written: Millis, now: int)
    requires d.status == Some(ADDED) && d.lastUpdated == Some(StampAsWritten(written))
    requires now > 275_942 + READY_AFTER_MS
    ensures Ready(d, now)
  {
    ParseIsoReadsYear(written);
    YearBound(written);
  }

  /** A dataset added at 1 700 000 000 000 ms reads as ready at that same
      instant. */
  lemma IsoStampReadyAtOnceExample()
    ensures Ready(AddedRecord(QueueItem(Structure("acme", "2023", RASTER, Some("d1"), "files/acme/2023/raster/d1"), "h"),
                              StampAsWritten(1_700_000_000_000)), 1_700_000_000_000)
  {
    IsoStampReadyAtOnce(AddedRecord(QueueItem(Structure("acme", "2023", RASTER, Some("d1"), "files/acme/2023/raster/d1"), "h"),
                                    StampAsWritten(1_700_000_000_000)), 1_700_000_000_000, 1_700_000_000_000);
  }

  /** With the decimal stamp, an added dataset is ready exactly when it
      was written more than two minutes before `now`. */
  lemma StampedReadyAfterTwoMinutes(d: Dataset, written: nat, now: int)
    requires d.status == Some(ADDED) && d.lastUpdated == Some(Stamp(written))
    ensures Ready(d, now) <==> written < now - READY_AFTER_MS
  {
    ParseDecimal(written);
  }

  /** The initial-state cell as `getInitialState` reads it: a hash under
      its key is a WRONGTYPE error; a missing key is `null`. */
  function InitialStateRead(datasets: map<string, Dataset>, strings: map<string, string>): Outcome<Option<string>>
  {
    if INITIAL_STATE in datasets then Threw
    else if INITIAL_STATE in strings then Returned(Some(strings[INITIAL_STATE]))
    else Returned(None)
  }

  /** `getInitialState` after `saveInitialState(s)` returns `s`. */
  lemma InitialStateRoundTrip(datasets: map<string, Dataset>, strings: map<string, string>, s: string)
    ensures InitialStateRead(datasets - {INITIAL_STATE}, strings[INITIAL_STATE := s]) == Returned(Some(s))
  {
  }

  /** The structures of a listing that belong to a customer and year, in
      order. */
  method StructuresOf(listed: seq<Listed>, year: string, customer: string) returns (found: seq<Structure>)
    ensures forall s :: s in found <==>
      exists x :: x in listed && x.structure == s && s.year == year && s.customer == customer
  {
    found := [];
    var i := 0;
    while i < |listed|
      invariant 0 <= i <= |listed|
      invariant forall s :: s in found <==>
        exists j :: 0 <= j < i && listed[j].structure == s && s.year == year && s.customer == customer
    {
      var s := listed[i].structure;
      if s.year == year && s.customer == customer {
        found := found + [s];
      }
      i := i + 1;
    }
    forall s | s in found
      ensures exists x :: x in listed && x.structure == s && s.year == year && s.customer == customer
    {
      var j :| 0 <= j < |listed| && listed[j].structure == s && s.year == year && s.customer == customer;
      assert listed[j] in listed;
    }
  }

  class DatasetStore {
    var datasets: map<string, Dataset>
    var strings: map<string, string>

    /** A key holds either a hash or a string, and a dataset's structure
        names the key it is stored under. */
    ghost predicate Valid()
      reads this
    {
      && datasets.Keys !! strings.Keys
      && forall k :: k in datasets && datasets[k].structure.Some? ==> datasets[k].structure.value.dir == k
    }

    constructor()
      ensures Valid() && datasets == map[] && strings == map[]
    {
      datasets, strings := map[], map[];
    }

    /** `checkIfDatasetIsNew(key, hash)`: true when no key exists or the
        stored hash differs; reading the hash of a string key throws. */
    method CheckIfDatasetIsNew(key: string, hash: string) returns (r: Outcome<bool>)
      requires Valid()
      ensures r.Threw? <==> key in strings
      ensures r.Returned? ==> (r.value <==> key !in datasets || datasets[key].hash != Some(hash))
    {
      if key !in datasets && key !in strings {
        return Returned(true);
      }
      if key in strings {
        return Threw;
      }
      return Returned(datasets[key].hash != Some(hash));
    }

    /** `addDatasetsToProcessingQueue`, corrected: one `hSet` per item under
        its directory, as a pipeline, stamped with the decimal `Stamp`
        rather than the source's ISO date; `ok` is false when some command
        failed. */
    method AddDatasetsToProcessingQueue(items: seq<QueueItem>, now: nat) returns (ok: bool)
      requires Valid()
      modifies this
      ensures Valid() && strings == old(strings)
      ensures datasets == AddedAll(old(datasets), old(strings).Keys, items, Stamp(now))
      ensures ok <==> forall i :: 0 <= i < |items| ==> items[i].structure.dir !in strings
    {
      ok := true;
      var i := 0;
      while i < |items|
        invariant 0 <= i <= |items|
        invariant Valid() && strings == old(strings)
        invariant datasets == AddedAll(old(datasets), old(strings).Keys, items[..i], Stamp(now))
        invariant ok <==> forall j :: 0 <= j < i ==> items[j].structure.dir !in strings
      {
        assert items[..i + 1][..i] == items[..i];
        var dir := items[i].structure.dir;
        if dir in strings {
          ok := false;
        } else {
          datasets := datasets[dir := AddedRecord(items[i], Stamp(now))];
        }
        i := i + 1;
      }
      assert items[..i] == items;
    }

    /** The scan both readiness queries share: every hash key is read, the
        records `select` keeps are listed with their structure parsed, and
        a kept record without a structure makes the parse throw, which the
        source reports as `undefined`. */
    method ScanDatasets(select: Dataset -> bool) returns (r: Option<seq<Listed>>)
      ensures r.None? <==> exists k :: k in datasets && select(datasets[k]) && datasets[k].structure.None?
      ensures r.Some? ==> forall x :: x in r.value ==>
        x.key in datasets && x.dataset == datasets[x.key] && select(x.dataset) && Some(x.structure) == x.dataset.structure
      ensures r.Some? ==> forall k :: k in datasets && select(datasets[k]) ==> exists x :: x in r.value && x.key == k
      ensures r.Some? ==> forall i, j :: 0 <= i < j < |r.value| ==> r.value[i].key != r.value[j].key
    {
      var todo := datasets.Keys;
      var listed: seq<Listed> := [];
      var failed := false;
      while todo != {}
        invariant todo <= datasets.Keys
        invariant failed <==> exists k :: k in datasets && k !in todo && select(datasets[k]) && datasets[k].structure.None?
        invariant forall x :: x in listed ==>
          x.key in datasets && x.key !in todo && x.dataset == datasets[x.key] && select(x.dataset)
          && Some(x.structure) == x.dataset.structure
        invariant forall k :: k in datasets && k !in todo && select(datasets[k]) && datasets[k].structure.Some? ==>
          exists x :: x in listed && x.key == k
        invariant forall i, j :: 0 <= i < j < |listed| ==> listed[i].key != listed[j].key
        decreases todo
      {
        var k :| k in todo;
        var d := datasets[k];
        if select(d) {
          if d.structure.None? {
            failed := true;
          } else {
            listed := listed + [Listed(k, d, d.structure.value)];
          }
        }
        todo := todo - {k};
      }
      if failed {
        return None;
      }
      return Some(listed);
    }

    /** `checkForReadyToQueueDatasets`. */
    method CheckForReadyToQueueDatasets(now: int) returns (r: Option<seq<Listed>>)
      ensures r.None? <==> exists k :: k in datasets && Ready(datasets[k], now) && datasets[k].structure.None?
      ensures r.Some? ==> forall x :: x in r.value ==>
        x.key in datasets && x.dataset == datasets[x.key] && Ready(x.dataset, now) && Some(x.structure) == x.dataset.structure
      ensures r.Some? ==> forall k :: k in datasets && Ready(datasets[k], now) ==> exists x :: x in r.value && x.key == k
      ensures r.Some? ==> forall i, j :: 0 <= i < j < |r.value| ==> r.value[i].key != r.value[j].key
    {
      r := ScanDatasets(d => Ready(d, now));
    }

    /** `checkForQueuedDatasets`. */
    method CheckForQueuedDatasets() returns (r: Option<seq<Listed>>)
      ensures r.None? <==> exists k :: k in datasets && IsQueued(datasets[k]) && datasets[k].structure.None?
      ensures r.Some? ==> forall x :: x in r.value ==>
        x.key in datasets && x.dataset == datasets[x.key] && IsQueued(x.dataset) && Some(x.structure) == x.dataset.structure
      ensures r.Some? ==> forall k :: k in datasets && IsQueued(datasets[k]) ==> exists x :: x in r.value && x.key == k
      ensures r.Some? ==> forall i, j :: 0 <= i < j < |r.value| ==> r.value[i].key != r.value[j].key
    {
      r := ScanDatasets(IsQueued);
    }

    /** `changeDatasetStatus(key, status)`: sets the status field alone,
        creating the hash when the key is absent; a string key fails. */
    method ChangeDatasetStatus(key: string, status: string) returns (ok: bool)
      requires Valid()
      modifies this
      ensures Valid() && strings == old(strings)
      ensures ok <==> key !in strings
      ensures ok ==> datasets == old(datasets)[key := (if key in old(datasets) then old(datasets)[key] else EMPTY)
                                                        .(status := Some(status))]
      ensures !ok ==> datasets == old(datasets)
    {
      if key in strings {
        return false;
      }
      var d := if key in datasets then datasets[key] else EMPTY;
      datasets := datasets[key := d.(status := Some(status))];
      return true;
    }

    /** `del(key)`: `removeDatasetFromList`, and the release of a dataset
        lock. */
    method Del(key: string)
      requires Valid()
      modifies this
      ensures Valid() && datasets == old(datasets) - {key} && strings == old(strings) - {key}
    {
      datasets := datasets - {key};
      strings := strings - {key};
    }

    /** `set(key, value, { NX })`: written only when the key is free. */
    method SetIfAbsent(key: string, value: string) returns (acquired: bool)
      requires Valid()
      modifies this
      ensures Valid() && datasets == old(datasets)
      ensures acquired <==> key !in old(datasets) && key !in old(strings)
      ensures strings == if acquired then old(strings)[key := value] else old(strings)
    {
      acquired := key !in datasets && key !in strings;
      if acquired {
        strings := strings[key := value];
      }
    }

    /** `saveInitialState(s)`: SET replaces whatever the key held. */
    method SaveInitialState(s: string)
      requires Valid()
      modifies this
      ensures Valid()
      ensures datasets == old(datasets) - {INITIAL_STATE} && strings == old(strings)[INITIAL_STATE := s]
    {
      datasets := datasets - {INITIAL_STATE};
      strings := strings[INITIAL_STATE := s];
    }

    /** `getInitialState`. */
    method GetInitialState() returns (r: Outcome<Option<string>>)
      ensures r == InitialStateRead(datasets, strings)
    {
      if INITIAL_STATE in datasets {
        return Threw;
      }
      if INITIAL_STATE in strings {
        return Returned(Some(strings[INITIAL_STATE]));
      }
      return Returned(None);
    }

    /** `getAllDatasetsForYearAndCustomer`: reads every key as a hash, so
        any string key (the saved initial state, a lock) makes it throw, as
        does a record without a structure; otherwise the structures of the
        customer's datasets of that year. */
    method GetAllDatasetsForYearAndCustomer(year: string, customer: string) returns (r: Outcome<seq<Structure>>)
      ensures r.Threw? <==> |strings| > 0 || exists k :: k in datasets && datasets[k].structure.None?
      ensures r.Returned? ==> forall s :: s in r.value <==>
        exists k :: k in datasets && datasets[k].structure == Some(s) && s.year == year && s.customer == customer
    {
      if |strings| > 0 {
        return Threw;
      }
      var all := ScanDatasets(_ => true);
      if all.None? {
        return Threw;
      }
      var found := StructuresOf(all.value, year, customer);
      forall s ensures s in found <==>
        exists k :: k in datasets && datasets[k].structure == Some(s) && s.year == year && s.customer == customer
      {
        if exists k :: k in datasets && datasets[k].structure == Some(s) && s.year == year && s.customer == customer {
          var k :| k in datasets && datasets[k].structure == Some(s) && s.year == year && s.customer == customer;
          var x :| x in all.value && x.key == k;
        }
      }
      return Returned(found);
    }
  }
}
