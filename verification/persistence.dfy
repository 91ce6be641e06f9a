/**
  Loading and saving the three JSON collections, over abstract documents
  rather than text and files.  A file is missing, unreadable, not valid JSON,
  or holds a parsed document; saving replaces the document with a snapshot of
  the whole collection unless the write fails.

  The three loaders differ in how they fall back:
  - warnings: the map is cleared and refilled from the file; any failure
    (including one after the clear) saves the map as it then is;
  - settings: the same refill, but only a missing file triggers a save; other
    failures are logged and leave the map as the failing step left it;
  - autoresponders: the list is cleared and refilled through the
    normalisation of the entries; any failure saves the list as it then is.
 */
module Persistence {
  import opened Text
  import opened Warnings
  import opened Settings
  import opened Autoresponders

  datatype Stored<D> = Missing | Unreadable | NotJson | Holds(doc: D)

  /** A parsed JSON value as the map loaders see it: an object, whose entries
      are read, or `null`, on which `Object.entries` throws. */
  datatype ObjectDoc<V> = Object(entries: map<string, V>) | Null

  /** A parsed JSON value as the autoresponder loader sees it: something
      iterable, giving its entries (a string iterates to characters, which
      carry no `trigger` and so are `RawEntry(None, None)`), or something
      `for ... of` cannot iterate, which throws. */
  datatype ListDoc = Entries(entries: seq<RawEntry>) | NotIterable

  /** What a loader leaves in memory, and whether it then called the saver. */
  datatype Loaded<M> = Loaded(memory: M, resaved: bool)

  // ---------------------------------------------------------------- saving

  /** `saveWarnings` / `saveSettings`: `Object.fromEntries` of the whole map;
      a failed write only logs, leaving the file as it was. */
  function SaveMap<V>(file: Stored<ObjectDoc<V>>, m: map<string, V>, writeOk: bool): (file': Stored<ObjectDoc<V>>)
    ensures writeOk ==> file' == Holds(Object(m))
    ensures !writeOk ==> file' == file
  {
    if writeOk then Holds(Object(m)) else file
  }

  /** `saveDynamicAutoresponders`: the list, one entry per rule. */
  function SaveRules(file: Stored<ListDoc>, rules: seq<DynamicRule>, writeOk: bool): (file': Stored<ListDoc>)
    ensures writeOk ==> file' == Holds(Entries(Export(rules)))
    ensures !writeOk ==> file' == file
  {
    if writeOk then Holds(Entries(Export(rules))) else file
  }

  // --------------------------------------------------------------- loading

  /** `loadWarnings`. */
  function LoadWarnings(current: Ledger, file: Stored<ObjectDoc<WarningRecord>>): (r: Loaded<Ledger>)
    ensures file.Holds? && file.doc.Object? ==> r == Loaded(file.doc.entries, false)
    ensures file.Holds? && file.doc.Null? ==> r == Loaded(map[], true)
    ensures !file.Holds? ==> r == Loaded(current, true)
    ensures r.resaved <==> !(file.Holds? && file.doc.Object?)
  {
    match file
    case Holds(Object(m)) => Loaded(m, false)
    case Holds(Null) => Loaded(map[], true)
    case _ => Loaded(current, true)
  }

  /** `loadSettings`. */
  function LoadSettings(current: Registry, file: Stored<ObjectDoc<GuildSettings>>): (r: Loaded<Registry>)
    ensures file.Holds? && file.doc.Object? ==> r == Loaded(file.doc.entries, false)
    ensures file.Holds? && file.doc.Null? ==> r == Loaded(map[], false)
    ensures !file.Holds? ==> r.memory == current
    ensures r.resaved <==> file.Missing?
  {
    match file
    case Holds(Object(m)) => Loaded(m, false)
    case Holds(Null) => Loaded(map[], false)
    case Missing => Loaded(current, true)
    case _ => Loaded(current, false)
  }

  /** `loadDynamicAutoresponders`. */
  function LoadAutoresponders(current: seq<DynamicRule>, file: Stored<ListDoc>): (r: Loaded<seq<DynamicRule>>)
    ensures file.Holds? && file.doc.Entries? ==> r.memory == Normalise(file.doc.entries).rules
    ensures file.Holds? && file.doc.Entries? ==> (r.resaved <==> !Normalise(file.doc.entries).complete)
    ensures file.Holds? && file.doc.NotIterable? ==> r == Loaded([], true)
    ensures !file.Holds? ==> r == Loaded(current, true)
  {
    match file
    case Holds(Entries(es)) =>
      var n := Normalise(es);
      Loaded(n.rules, !n.complete)
    case Holds(NotIterable) => Loaded([], true)
    case _ => Loaded(current, true)
  }

  // ---------------------------------------------------------------- lemmas

  /** Saving the ledger and loading it back gives the same map, with no
      further save. */
  lemma WarningsRoundTrip(file: Stored<ObjectDoc<WarningRecord>>, m: Ledger, other: Ledger)
    ensures LoadWarnings(other, SaveMap(file, m, true)) == Loaded(m, false)
  {
  }

  lemma SettingsRoundTrip(file: Stored<ObjectDoc<GuildSettings>>, reg: Registry, other: Registry)
    ensures LoadSettings(other, SaveMap(file, reg, true)) == Loaded(reg, false)
  {
  }

  /** Saving a normalised list and loading it back gives the same list, in the
      same order, with no further save. */
  lemma AutorespondersRoundTrip(file: Stored<ListDoc>, rules: seq<DynamicRule>, other: seq<DynamicRule>)
    requires Normalised(rules)
    ensures LoadAutoresponders(other, SaveRules(file, rules, true)) == Loaded(rules, false)
  {
    NormaliseExport(rules);
  }

  /** Whatever the file holds, a loaded list whose previous contents were
      normalised is normalised: every trigger non-empty and lowercase. */
  lemma LoadKeepsNormalised(current: seq<DynamicRule>, file: Stored<ListDoc>)
    requires Normalised(current)
    ensures Normalised(LoadAutoresponders(current, file).memory)
  {
  }
}
