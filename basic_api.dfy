/** The first, in-memory variant of the journal API: a controller that keeps
    its entries in its own `HashMap<String, journalModel>` field. */
module BasicApi {
  import opened Common
  import Collections

  /** The request/response body. Its id is a nullable String chosen by the client. */
  datatype JournalModel = JournalModel(id: Option<string>, title: Option<string>, content: Option<string>)

  class JournalEntryController {
    /** The `JournalEntrys` map. Java's HashMap admits the null key, which is
        where an entry posted without an id ends up. */
    var journalEntrys: map<Option<string>, JournalModel>

    constructor ()
      ensures journalEntrys == map[]
    {
      journalEntrys := map[];
    }

    /** `getall`: a list holding the value stored under each key, one per key. */
    method GetAll() returns (r: seq<JournalModel>, ghost keys: seq<Option<string>>)
      ensures Collections.Enumerates(keys, journalEntrys.Keys)
      ensures |r| == |keys| == |journalEntrys|
      ensures forall i :: 0 <= i < |keys| ==> r[i] == journalEntrys[keys[i]]
      ensures forall e :: e in r <==> e in journalEntrys.Values
    {
      r, keys := Collections.ListValues(journalEntrys);
    }

    /** `CreatEntry`: puts the body under the body's own id, replacing any
        earlier value there, and answers true. */
    method CreatEntry(entry: JournalModel) returns (ok: bool)
      modifies this
      ensures ok
      ensures journalEntrys == old(journalEntrys)[entry.id := entry]
      ensures forall k :: k in old(journalEntrys) && k != entry.id ==>
                k in journalEntrys && journalEntrys[k] == old(journalEntrys)[k]
    {
      journalEntrys := journalEntrys[entry.id := entry];
      ok := true;
    }

    /** `getEntryById`: the value under the path id, or null. */
    method GetEntryById(id: string) returns (r: Option<JournalModel>)
      ensures Some(id) in journalEntrys ==> r == Some(journalEntrys[Some(id)])
      ensures Some(id) !in journalEntrys ==> r == None
    {
      r := if Some(id) in journalEntrys then Some(journalEntrys[Some(id)]) else None;
    }

    /** `deleteEntryById`: removes the key, present or not, and answers true. */
    method DeleteEntryById(id: string) returns (ok: bool)
      modifies this
      ensures ok
      ensures journalEntrys == old(journalEntrys) - {Some(id)}
      ensures Some(id) !in old(journalEntrys) ==> journalEntrys == old(journalEntrys)
    {
      journalEntrys := journalEntrys - {Some(id)};
      ok := true;
    }

    /** `updateEntryById`: replaces the whole value under the PATH id (the
        body's own id is ignored as a key) and returns what is now stored there. */
    method UpdateEntryById(id: string, entry: JournalModel) returns (r: Option<JournalModel>)
      modifies this
      ensures journalEntrys == old(journalEntrys)[Some(id) := entry]
      ensures r == Some(entry)
    {
      journalEntrys := journalEntrys[Some(id) := entry];
      r := GetEntryById(id);
    }
  }

  /** After `deleteEntryById(id)`, `getEntryById(id)` is null, and every other key is kept. */
  method DeleteThenGet(c: JournalEntryController, id: string) returns (ok: bool, got: Option<JournalModel>)
    modifies c
    ensures ok && got == None
    ensures forall k :: k in old(c.journalEntrys) && k != Some(id) ==>
              k in c.journalEntrys && c.journalEntrys[k] == old(c.journalEntrys)[k]
  {
    ok := c.DeleteEntryById(id);
    got := c.GetEntryById(id);
  }

  /** After `CreatEntry(e)` for an entry with a non-null id, `getEntryById` of that id returns e. */
  method CreateThenGet(c: JournalEntryController, e: JournalModel) returns (got: Option<JournalModel>)
    requires e.id.Some?
    modifies c
    ensures got == Some(e)
  {
    var _ := c.CreatEntry(e);
    got := c.GetEntryById(e.id.value);
  }
}
