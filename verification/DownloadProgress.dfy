/** The record of downloaded years, kept in a JSON object by symbol and by key. */
module DownloadProgress {
  import opened Options
  import opened Sorting
  import opened Text

  datatype Entry = InProgress | Completed(path: string) | Failed(error: string)

  type Progress = map<string, map<string, Entry>>

  const CURRENT := "_current"

  // ---- years as keys ----

  /** `str(year)`. */
  function Key(year: int): (key: string)
    ensures key != ""
  {
    if year < 0 then "-" + Digits(-year) else Digits(year)
  }

  predicate AllDigits(s: string) { s != "" && forall i :: 0 <= i < |s| ==> IsDigit(s[i]) }

  /** `int(key)` on an optional minus sign and digits; nothing where it raises. */
  function ReadYear(key: string): Option<int> {
    if AllDigits(key) then Some(ReadDigits(key))
    else if key != "" && key[0] == '-' && AllDigits(key[1..]) then
      var n: int := ReadDigits(key[1..]);
      Some(-n)
    else None
  }

  lemma ReadKey(year: int)
    ensures ReadYear(Key(year)) == Some(year) && Key(year)[0] != '_'
  {
    if year < 0 {
      ReadPrinted(-year);
      assert Key(year)[1..] == Digits(-year);
    } else {
      ReadPrinted(year);
    }
  }

  /** So different years have different keys, none of them the one for the current download. */
  lemma KeysAreDistinct(y: int, z: int)
    ensures Key(y) == Key(z) <==> y == z
    ensures Key(y) != CURRENT
  {
    ReadKey(y);
    ReadKey(z);
  }

  // ---- the record ----

  function Entries(progress: Progress, symbol: string): map<string, Entry> {
    if symbol in progress then progress[symbol] else map[]
  }

  function Put(progress: Progress, symbol: string, key: string, entry: Entry): Progress {
    progress[symbol := Entries(progress, symbol)[key := entry]]
  }

  predicate Done(progress: Progress, symbol: string, year: int) {
    Key(year) in Entries(progress, symbol) && Entries(progress, symbol)[Key(year)].Completed?
  }

  datatype Event =
    | MarkStarted(symbol: string)
    | MarkCompleted(symbol: string, year: int, path: string)
    | MarkFailed(symbol: string, error: string)

  function Apply(progress: Progress, e: Event): Progress {
    match e
    case MarkStarted(symbol) => Put(progress, symbol, CURRENT, InProgress)
    case MarkCompleted(symbol, year, path) => Put(progress, symbol, Key(year), Completed(path))
    case MarkFailed(symbol, error) => Put(progress, symbol, CURRENT, Failed(error))
  }

  function Run(events: seq<Event>): Progress {
    if events == [] then map[] else Apply(Run(events[..|events| - 1]), events[|events| - 1])
  }

  predicate Marks(e: Event, symbol: string, year: int) { e.MarkCompleted? && e.symbol == symbol && e.year == year }

  lemma ApplyAddsOnly(progress: Progress, e: Event, symbol: string, year: int)
    ensures Done(Apply(progress, e), symbol, year) <==> Done(progress, symbol, year) || Marks(e, symbol, year)
  {
    KeysAreDistinct(year, if e.MarkCompleted? then e.year else year);
  }

  /** A year counts as completed exactly when it was marked so at some time: starts and failures, of that
  symbol or another, never take it back. */
  lemma {:induction false} DoneIffMarked(events: seq<Event>, symbol: string, year: int)
    ensures Done(Run(events), symbol, year) <==> exists i :: 0 <= i < |events| && Marks(events[i], symbol, year)
  {
    if events != [] {
      var front := events[..|events| - 1];
      DoneIffMarked(front, symbol, year);
      ApplyAddsOnly(Run(front), events[|events| - 1], symbol, year);
      if exists i :: 0 <= i < |events| && Marks(events[i], symbol, year) {
        var i :| 0 <= i < |events| && Marks(events[i], symbol, year);
        if i < |front| { assert Marks(front[i], symbol, year); }
      }
    }
  }

  /** An event writes to one key of one symbol: the year's when a year is completed, that of the current download when
  one starts or fails. */
  predicate Writes(e: Event, symbol: string, key: string) {
    e.symbol == symbol && key == if e.MarkCompleted? then Key(e.year) else "_current"
  }

  function Written(e: Event): Entry {
    match e
    case MarkStarted(_) => InProgress
    case MarkCompleted(_, _, path) => Completed(path)
    case MarkFailed(_, error) => Failed(error)
  }

  lemma ApplyWrites(progress: Progress, e: Event, symbol: string, key: string)
    ensures var before, after := Entries(progress, symbol), Entries(Apply(progress, e), symbol);
      if Writes(e, symbol, key) then key in after && after[key] == Written(e)
      else (key in after <==> key in before) && (key in after ==> after[key] == before[key])
  {
  }

  /** The last event that wrote to the key, counted from one; zero if there was none. */
  function LastWrite(events: seq<Event>, symbol: string, key: string): (n: nat)
    ensures n <= |events| && (n > 0 ==> Writes(events[n - 1], symbol, key))
    ensures forall i :: n <= i < |events| ==> !Writes(events[i], symbol, key)
  {
    if events == [] then 0
    else
      var last := |events| - 1;
      if Writes(events[last], symbol, key) then |events| else LastWrite(events[..last], symbol, key)
  }

  /** After any run a key holds what the last event for it wrote, and nothing if there was none. */
  lemma {:induction false} LastWriteCounts(events: seq<Event>, symbol: string, key: string)
    ensures var n, entries := LastWrite(events, symbol, key), Entries(Run(events), symbol);
      if n == 0 then key !in entries else key in entries && entries[key] == Written(events[n - 1])
  {
    if events != [] {
      var last := |events| - 1;
      LastWriteCounts(events[..last], symbol, key);
      ApplyWrites(Run(events[..last]), events[last], symbol, key);
    }
  }

  /** Only year keys and the current download's are ever used. */
  predicate OwnKey(key: string) { key == CURRENT || (ReadYear(key).Some? && key == Key(ReadYear(key).value)) }

  ghost predicate OwnKeys(progress: Progress) {
    forall symbol, key :: symbol in progress && key in progress[symbol] ==> OwnKey(key)
  }

  lemma {:induction false} RunsUseOwnKeys(events: seq<Event>)
    ensures OwnKeys(Run(events))
  {
    if events != [] {
      RunsUseOwnKeys(events[..|events| - 1]);
      var e := events[|events| - 1];
      if e.MarkCompleted? { ReadKey(e.year); }
    }
  }

  // ---- sorting ----

  function Insert(years: seq<int>, year: int): seq<int> {
    if years == [] || years[|years| - 1] <= year then years + [year]
    else Insert(years[..|years| - 1], year) + [years[|years| - 1]]
  }

  function Sort(years: seq<int>): seq<int> {
    if years == [] then [] else Insert(Sort(years[..|years| - 1]), years[|years| - 1])
  }

  lemma {:induction false} InsertAdds(years: seq<int>, year: int)
    ensures multiset(Insert(years, year)) == multiset(years) + multiset{year}
    ensures forall y :: y in Insert(years, year) <==> y in years || y == year
  {
    if years != [] {
      assert years == years[..|years| - 1] + [years[|years| - 1]];
      InsertAdds(years[..|years| - 1], year);
    }
  }

  lemma LargestLast(years: seq<int>, year: int)
    requires Ascending(years) && forall y :: y in years ==> y <= year
    ensures Ascending(years + [year])
  {
    forall i | 0 <= i < |years| ensures years[i] <= year { assert years[i] in years; }
  }

  lemma {:induction false} InsertSorts(years: seq<int>, year: int)
    requires Ascending(years)
    ensures Ascending(Insert(years, year))
  {
    if years == [] || years[|years| - 1] <= year {
      LargestLast(years, year);
    } else {
      var front, last := years[..|years| - 1], years[|years| - 1];
      InsertSorts(front, year);
      InsertAdds(front, year);
      LargestLast(Insert(front, year), last);
    }
  }

  lemma {:induction false} SortSorts(years: seq<int>)
    ensures Ascending(Sort(years)) && multiset(Sort(years)) == multiset(years)
  {
    if years != [] {
      var front, last := years[..|years| - 1], years[|years| - 1];
      assert years == front + [last];
      SortSorts(front);
      InsertAdds(Sort(front), last);
      InsertSorts(Sort(front), last);
    }
  }

  lemma OnceMeansStrictly(years: seq<int>)
    requires Ascending(years) && forall y :: multiset(years)[y] <= 1
    ensures StrictlyAscending(years)
  {
    forall i, j | 0 <= i < j < |years| ensures years[i] < years[j] {
      assert years == years[..i] + [years[i]] + years[i + 1..j] + [years[j]] + years[j + 1..];
      assert years[i] == years[j] ==> multiset(years)[years[i]] >= 2;
    }
  }

  class ProgressTracker {
    var progress: Progress

    constructor ()
      ensures progress == Run([])
    {
      progress := map[];
    }

    method MarkStarted(symbol: string)
      modifies this
      ensures progress == Apply(old(progress), Event.MarkStarted(symbol))
    {
      if symbol !in progress { progress := progress[symbol := map[]]; }
      progress := progress[symbol := progress[symbol][CURRENT := InProgress]];
    }

    method MarkCompleted(symbol: string, year: int, path: string)
      modifies this
      ensures progress == Apply(old(progress), Event.MarkCompleted(symbol, year, path))
    {
      if symbol !in progress { progress := progress[symbol := map[]]; }
      progress := progress[symbol := progress[symbol][Key(year) := Completed(path)]];
    }

    method MarkFailed(symbol: string, error: string)
      modifies this
      ensures progress == Apply(old(progress), Event.MarkFailed(symbol, error))
    {
      if symbol !in progress { progress := progress[symbol := map[]]; }
      progress := progress[symbol := progress[symbol][CURRENT := Failed(error)]];
    }

    method IsCompleted(symbol: string, year: int) returns (completed: bool)
      ensures completed == Done(progress, symbol, year)
    {
      completed := symbol in progress && Key(year) in progress[symbol] && progress[symbol][Key(year)].Completed?;
    }

    /** A sorted list of the years that completed entries name. In a record that only this program has written,
    it names no year twice, and names a year exactly when it counts as completed. */
    method GetCompletedYears(symbol: string) returns (years: seq<int>)
      ensures Ascending(years)
      ensures forall year :: year in years <==> Named(Entries(progress, symbol), Entries(progress, symbol).Keys, year)
      ensures OwnKeys(progress) ==>
        StrictlyAscending(years) && forall year :: year in years <==> Done(progress, symbol, year)
    {
      if symbol !in progress { return []; }
      var entries := progress[symbol];
      var completed: seq<int> := [];
      var rest := entries.Keys;
      while rest != {}
        invariant rest <= entries.Keys
        invariant Listed(entries, entries.Keys - rest, completed)
        decreases rest
      {
        var key :| key in rest;
        Advance(entries, entries.Keys - rest, completed, key);
        assert entries.Keys - (rest - {key}) == entries.Keys - rest + {key};
        rest := rest - {key};
        if key != "" && key[0] == '_' { continue; }
        if entries[key].Completed? {
          var year := ReadYear(key);
          if year.Some? { completed := completed + [year.value]; }
        }
      }
      assert entries.Keys - rest == entries.Keys;
      SortSorts(completed);
      AllListed(entries, completed);
      years := Sort(completed);
    }
  }

  /** The year that an entry adds to the list, if any. */
  function Yield(entries: map<string, Entry>, key: string): Option<int>
    requires key in entries
  {
    if (key != "" && key[0] == '_') || !entries[key].Completed? then None else ReadYear(key)
  }

  predicate Named(entries: map<string, Entry>, keys: set<string>, year: int) {
    exists key :: key in keys && key in entries && Yield(entries, key) == Some(year)
  }

  ghost predicate Own(entries: map<string, Entry>) { forall key :: key in entries ==> OwnKey(key) }

  predicate DoneAmong(entries: map<string, Entry>, keys: set<string>, year: int) {
    Key(year) in keys && Key(year) in entries && entries[Key(year)].Completed?
  }

  /** The list after these keys. */
  ghost predicate Listed(entries: map<string, Entry>, keys: set<string>, completed: seq<int>) {
    && (forall year :: year in completed <==> Named(entries, keys, year))
    && (Own(entries) ==> forall year :: multiset(completed)[year] == if DoneAmong(entries, keys, year) then 1 else 0)
  }

  lemma OwnYield(entries: map<string, Entry>, key: string, year: int)
    requires key in entries && OwnKey(key)
    ensures Yield(entries, key) == Some(year) <==> key == Key(year) && entries[key].Completed?
  {
    ReadKey(year);
    KeysAreDistinct(year, year);
  }

  lemma Advance(entries: map<string, Entry>, keys: set<string>, completed: seq<int>, key: string)
    requires Listed(entries, keys, completed) && key in entries && key !in keys
    ensures var year := Yield(entries, key);
      Listed(entries, keys + {key}, if year.Some? then completed + [year.value] else completed)
  {
    var year := Yield(entries, key);
    var more := if year.Some? then completed + [year.value] else completed;
    forall y ensures y in more <==> Named(entries, keys + {key}, y) {
      if Named(entries, keys, y) {
        var k :| k in keys && k in entries && Yield(entries, k) == Some(y);
        assert k in keys + {key};
      }
    }
    if Own(entries) {
      assert OwnKey(key);
      forall y ensures multiset(more)[y] == if DoneAmong(entries, keys + {key}, y) then 1 else 0 {
        OwnYield(entries, key, y);
      }
    }
  }

  lemma AllListed(entries: map<string, Entry>, completed: seq<int>)
    requires Listed(entries, entries.Keys, completed)
    requires Ascending(Sort(completed)) && multiset(Sort(completed)) == multiset(completed)
    ensures forall year :: year in Sort(completed) <==> Named(entries, entries.Keys, year)
    ensures Own(entries) ==>
      && StrictlyAscending(Sort(completed))
      && forall year :: year in Sort(completed) <==> DoneAmong(entries, entries.Keys, year)
  {
    assert forall year :: year in Sort(completed) <==> year in multiset(Sort(completed));
    assert forall year :: year in completed <==> year in multiset(completed);
    if Own(entries) { OnceMeansStrictly(Sort(completed)); }
  }
}
