/** The record store (services/storageService.ts): the history is one JSON blob
    under a fixed key of the browser's `localStorage`, most recent record first. */
module StorageService {
  import opened Wrappers
  import opened Types
  import Json

  const STORAGE_KEY: string := "future_doc_db_v1"

  /** The browser's `localStorage`: a string-to-string map that every page of the
      origin shares. */
  class LocalStorage {
    var items: map<string, string>

    constructor (initial: map<string, string>)
      ensures items == initial
    {
      items := initial;
    }

    /** `getItem`: null when the key is absent. */
    method GetItem(key: string) returns (value: Option<string>)
      ensures value.Some? <==> key in items
      ensures value.Some? ==> value.value == items[key]
    {
      value := if key in items then Some(items[key]) else None;
    }

    /** `setItem` */
    method SetItem(key: string, value: string)
      modifies this
      ensures items == old(items)[key := value]
    {
      items := items[key := value];
    }
  }

  /** What the store holds under STORAGE_KEY: `Some(list)` when it reads as a list
      (a missing or empty value reads as the empty list, since `existingData ? … : []`
      treats both as falsy), `None` when `JSON.parse` would throw. */
  function StoredList(items: map<string, string>): Option<seq<AnalysisRecord>> {
    if STORAGE_KEY !in items || items[STORAGE_KEY] == "" then Some([])
    else Json.DecodeRecords(items[STORAGE_KEY])
  }

  /** The list `getAllRecords` returns: the stored list, or the empty list when the
      stored value is missing or does not parse. */
  function LoadedRecords(items: map<string, string>): (records: seq<AnalysisRecord>)
    ensures STORAGE_KEY !in items ==> records == []
    ensures StoredList(items).None? ==> records == []
    ensures StoredList(items).Some? ==> records == StoredList(items).value
  {
    match StoredList(items)
    case Some(list) => list
    case None => []
  }

  /** The store after `saveRecord(record)`: the record is put at the front of the
      stored list, which is written back; a value that does not parse stays as it is
      and the record is lost. No other key is touched. */
  function SavedItems(items: map<string, string>, record: AnalysisRecord): (saved: map<string, string>)
    ensures forall k :: k != STORAGE_KEY ==> (k in saved <==> k in items)
    ensures forall k :: k != STORAGE_KEY && k in items ==> saved[k] == items[k]
    ensures StoredList(items).None? ==> saved == items
    ensures StoredList(items).Some? ==> STORAGE_KEY in saved
  {
    match StoredList(items)
    case Some(list) => items[STORAGE_KEY := Json.EncodeRecords([record] + list)]
    case None => items
  }

  /** `StorageService.saveRecord`. Every failure is caught and logged, so the method
      has no error outcome. */
  method SaveRecord(storage: LocalStorage, record: AnalysisRecord)
    modifies storage
    ensures storage.items == SavedItems(old(storage.items), record)
  {
    var existingData := storage.GetItem(STORAGE_KEY);
    var records: seq<AnalysisRecord>;
    if existingData.None? || existingData.value == "" {
      records := [];
    } else {
      var parsed := Json.DecodeRecords(existingData.value);
      if parsed.None? {
        // JSON.parse threw: the catch block only logs
        return;
      }
      records := parsed.value;
    }
    records := [record] + records;  // records.unshift(record)
    storage.SetItem(STORAGE_KEY, Json.EncodeRecords(records));
  }

  /** `StorageService.getAllRecords`. It has no modifies clause: reading leaves the
      store as it was, so two reads with no save between them agree. */
  method GetAllRecords(storage: LocalStorage) returns (records: seq<AnalysisRecord>)
    ensures records == LoadedRecords(storage.items)
    ensures STORAGE_KEY !in storage.items ==> records == []
  {
    var existingData := storage.GetItem(STORAGE_KEY);
    if existingData.None? || existingData.value == "" {
      records := [];
    } else {
      var parsed := Json.DecodeRecords(existingData.value);
      records := if parsed.Some? then parsed.value else [];
    }
  }

  /** Saving then loading gives the new record at the head and the earlier list,
      in its order, as the tail: the list grows by exactly one, with no check for
      a record of the same id. When the stored value does not parse, the save
      changes nothing and loading still gives the empty list. */
  lemma SaveThenLoad(items: map<string, string>, record: AnalysisRecord)
    ensures StoredList(items).Some? ==>
      StoredList(SavedItems(items, record)).Some? &&
      LoadedRecords(SavedItems(items, record)) == [record] + LoadedRecords(items)
    ensures StoredList(items).None? ==> LoadedRecords(SavedItems(items, record)) == []
  {
    if StoredList(items).Some? {
      Json.RecordsDocumentRoundTrip([record] + StoredList(items).value);
    }
  }

  /** A save never turns a readable store into an unreadable one. */
  lemma SaveKeepsStoreReadable(items: map<string, string>, record: AnalysisRecord)
    requires StoredList(items).Some?
    ensures StoredList(SavedItems(items, record)).Some?
    ensures |LoadedRecords(SavedItems(items, record))| == |LoadedRecords(items)| + 1
  {
    SaveThenLoad(items, record);
  }

  /** A store already holding two records holds three after one more save, newest
      first. */
  lemma ThirdSaveOrder(items: map<string, string>, older: AnalysisRecord, newer: AnalysisRecord,
                       newest: AnalysisRecord)
    requires StoredList(items) == Some([newer, older])
    ensures LoadedRecords(SavedItems(items, newest)) == [newest, newer, older]
  {
    SaveThenLoad(items, newest);
  }
}
