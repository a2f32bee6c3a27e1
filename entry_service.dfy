/** The journal entry service (JournalEntryServices): create, list, get,
    delete and update over the entry repository, which is a map keyed by id. */
module EntryService {
  import opened Common
  import opened Entities
  import Collections

  /** The value `updateOneEntry` writes into one field: the incoming value
      when it is non-null and not "", otherwise the stored one. */
  function MergeField(incoming: Option<string>, stored: Option<string>): (r: Option<string>)
    ensures IsSet(incoming) ==> r == incoming
    ensures !IsSet(incoming) ==> r == stored
  {
    if IsSet(incoming) then incoming else stored
  }

  /** The entry `updateOneEntry` saves: the stored entry with content, then
      title, merged from the incoming body. The id is never taken from the body. */
  function Merge(stored: Entry, incoming: Entry): (r: Entry)
    ensures r.id == stored.id
    ensures r.title == (if IsSet(incoming.title) then incoming.title else stored.title)
    ensures r.content == (if IsSet(incoming.content) then incoming.content else stored.content)
    ensures !IsSet(incoming.title) && !IsSet(incoming.content) ==> r == stored
  {
    var withContent := stored.(content := MergeField(incoming.content, stored.content));
    withContent.(title := MergeField(incoming.title, withContent.title))
  }

  /** The key `save` writes an entry under: its own id, or the id the store
      generates for a new document. */
  function KeyFor(e: Entry, freshId: Id): (k: Id) {
    if e.id.Some? then e.id.value else freshId
  }

  class JournalEntryServices {
    /** The entry repository: ObjectId to stored document. */
    var repo: map<Id, Entry>

    /** Every stored document carries the id it is stored under. */
    ghost predicate Valid()
      reads this
    {
      forall k :: k in repo ==> repo[k].id == Some(k)
    }

    constructor ()
      ensures Valid() && repo == map[]
    {
      repo := map[];
    }

    /** `saveEntry`: an upsert under the entry's id; an entry without an id is
        inserted under `freshId`, the id the store generates. */
    method SaveEntry(e: Entry, freshId: Id)
      requires Valid()
      requires e.id.None? ==> freshId !in repo
      modifies this
      ensures Valid()
      ensures repo == old(repo)[KeyFor(e, freshId) := e.(id := Some(KeyFor(e, freshId)))]
    {
      var key := KeyFor(e, freshId);
      repo := repo[key := e.(id := Some(key))];
    }

    /** `getAllEntries`: every stored entry, one per id, and nothing else. */
    method GetAllEntries() returns (r: seq<Entry>, ghost ids: seq<Id>)
      requires Valid()
      ensures Collections.Enumerates(ids, repo.Keys)
      ensures |r| == |ids| == |repo|
      ensures forall i :: 0 <= i < |ids| ==> r[i] == repo[ids[i]] && r[i].id == Some(ids[i])
      ensures forall e :: e in r <==> e in repo.Values
    {
      r, ids := Collections.ListValues(repo);
    }

    /** `getOneEntry`: the stored entry, or empty when the id is absent. */
    method GetOneEntry(id: Id) returns (r: Option<Entry>)
      requires Valid()
      ensures id in repo ==> r == Some(repo[id]) && r.value.id == Some(id)
      ensures id !in repo ==> r == None
    {
      r := if id in repo then Some(repo[id]) else None;
    }

    /** `DeleteEntry`: returns the entry as it was before the delete, or empty
        when the id is absent; only that id leaves the repository. */
    method DeleteEntry(id: Id) returns (r: Option<Entry>)
      requires Valid()
      modifies this
      ensures Valid()
      ensures id in old(repo) ==> r == Some(old(repo)[id])
      ensures id !in old(repo) ==> r == None && repo == old(repo)
      ensures repo == old(repo) - {id}
    {
      r := if id in repo then Some(repo[id]) else None;
      if r.Some? {
        repo := repo - {id};
      }
    }

    /** `updateOneEntry`: merges the body into the stored entry and saves it.
        When the id is absent `updateOneEntry` calls `save(null)`, which throws. */
    method UpdateOneEntry(id: Id, incoming: Entry) returns (r: Result<Entry>)
      requires Valid()
      modifies this
      ensures Valid()
      ensures id in old(repo) ==>
        && r == Ok(Merge(old(repo)[id], incoming))
        && r.value.id == Some(id)
        && repo == old(repo)[id := r.value]
      ensures id !in old(repo) ==> r == Err(NullEntity) && repo == old(repo)
    {
      var oldEntry := if id in repo then Some(repo[id]) else None;
      if oldEntry.Some? {
        var e := oldEntry.value;
        e := e.(content := MergeField(incoming.content, e.content));
        e := e.(title := MergeField(incoming.title, e.title));
        oldEntry := Some(e);
      }
      if oldEntry.None? {
        r := Err(NullEntity);
      } else {
        var saved := oldEntry.value;
        repo := repo[saved.id.value := saved];
        r := Ok(saved);
      }
    }
  }

  /** Saving an entry and then fetching it by its key gives the entry back. */
  method SaveThenGet(s: JournalEntryServices, e: Entry, freshId: Id) returns (got: Option<Entry>)
    requires s.Valid()
    requires e.id.None? ==> freshId !in s.repo
    modifies s
    ensures s.Valid()
    ensures got == Some(e.(id := Some(KeyFor(e, freshId))))
    ensures e.id.Some? ==> got == Some(e)
  {
    s.SaveEntry(e, freshId);
    got := s.GetOneEntry(KeyFor(e, freshId));
  }

  /** Deleting the same id twice: the second call finds nothing and changes nothing. */
  method DeleteTwice(s: JournalEntryServices, id: Id) returns (first: Option<Entry>, second: Option<Entry>)
    requires s.Valid()
    modifies s
    ensures s.Valid()
    ensures first == (if id in old(s.repo) then Some(old(s.repo)[id]) else None)
    ensures second == None
    ensures s.repo == old(s.repo) - {id}
  {
    first := s.DeleteEntry(id);
    second := s.DeleteEntry(id);
  }
}
