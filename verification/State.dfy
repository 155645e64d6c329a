/** The alert state store (internal/state/state.go): an in-memory map, saved whole to one file. */
module State {
  import opened Text

  datatype Entry = Entry(time: int, status: string)

  type Entries = map<string, Entry>

  function Lookup(entries: Entries, key: string): Option<Entry> {
    if key in entries then Some(entries[key]) else None
  }

  // What a state file can hold: JSON is the identity on entries, and Unreadable is any read
  // failure other than a missing file.
  datatype FileContent = Absent | Unreadable | Blank | Damaged | Saved(entries: Entries)

  // The entries a fresh Open starts from.
  function Loaded(content: FileContent): Option<Entries> {
    match content
    case Absent => Some(map[])
    case Unreadable => None
    case Blank => Some(map[])
    case Damaged => Some(map[])
    case Saved(entries) => Some(entries)
  }

  class StateFile {
    var content: FileContent

    constructor (content: FileContent)
      ensures this.content == content
    {
      this.content := content;
    }
  }

  class Store {
    // null for the in-memory store that an empty path yields
    const file: StateFile?
    var entries: Entries

    constructor (file: StateFile?, entries: Entries)
      ensures this.file == file && this.entries == entries
    {
      this.file := file;
      this.entries := entries;
    }

    static method Open(file: StateFile?) returns (store: Option<Store>)
      ensures store.None? <==> file != null && file.content.Unreadable?
      ensures store.Some? ==> fresh(store.value) && store.value.file == file && store.value.Synced()
      ensures store.Some? ==>
        store.value.entries == if file != null && file.content.Saved? then file.content.entries else map[]
    {
      if file == null {
        var s := new Store(null, map[]);
        return Some(s);
      }
      match file.content {
        case Unreadable =>
          return None;
        case Saved(entries) =>
          var s := new Store(file, entries);
          return Some(s);
        case _ =>
          var s := new Store(file, map[]);
          return Some(s);
      }
    }

    // A process that opened the file now would start from exactly these entries.
    ghost predicate Synced()
      reads this, file
    {
      file != null ==> Loaded(file.content) == Some(entries)
    }

    method Get(key: string) returns (entry: Option<Entry>)
      ensures entry == Lookup(entries, key)
      ensures entry.Some? <==> key in entries
      ensures key in entries ==> entry.value == entries[key]
    {
      entry := if key in entries then Some(entries[key]) else None;
    }

    method Set(key: string, entry: Entry)
      modifies this`entries
      ensures entries == old(entries)[key := entry]
    {
      entries := entries[key := entry];
    }

    // diskOk: whether the write to the temporary file and its rename succeed.
    method Flush(diskOk: bool) returns (ok: bool)
      modifies (if file == null then {} else {file})`content
      ensures ok <==> file == null || diskOk
      ensures file != null ==> file.content == if diskOk then Saved(entries) else old(file.content)
      ensures ok ==> Synced()
    {
      if file == null { return true; }
      if !diskOk { return false; }
      file.content := Saved(entries);
      ok := true;
    }
  }
}
