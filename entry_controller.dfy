/** The journal entry handlers (JourenalEntryController): each one calls the
    entry service inside a try block and turns what came back, or what was
    thrown, into a Response. A handler declared to return a bare `Response`
    is always sent with HTTP status 200, whatever status its body carries;
    only `deleteOnEntry` returns a `ResponseEntity` with its own status. */
module EntryController {
  import opened Common
  import opened Entities
  import opened ResponseEnvelope
  import EntryService

  /** `createEntry`: the service's `saveEntry` returned, or threw. */
  function CreateEntry(saved: Result<()>): (r: Reply)
    ensures r.httpStatus == 200
    ensures r.body.data == None
    ensures r.body.success <==> saved.Ok?
    ensures saved.Ok? ==> r.body.status == 200 && r.body.error == None
    ensures saved.Err? ==> r.body.status == 0 && r.body.error == saved.exception.message
  {
    match saved
    case Ok(_) => Reply(200, Of3(200, true, "journal entry created succefully"))
    case Err(e) => Reply(200, Of4(0, false, "could not create entry", e.message))
  }

  /** `getAllEntries`: the list as data, or body status 400 on an exception. */
  function GetAllEntries(listed: Result<seq<Entry>>): (r: Reply)
    ensures r.httpStatus == 200
    ensures r.body.success <==> r.body.status == 200
    ensures r.body.success <==> listed.Ok?
    ensures listed.Ok? ==> r.body.error == None && r.body.data == Some(EntriesData(listed.value))
    ensures listed.Err? ==>
              r.body.status == 400 && r.body.error == listed.exception.message && r.body.data == None
  {
    match listed
    case Ok(entries) =>
      Reply(200, Of5(200, true, "journal entry fechted succefully", None, Some(EntriesData(entries))))
    case Err(e) => Reply(200, Of4(400, false, "couold not fetch entries", e.message))
  }

  /** `getEntry`: `orElse(null)` makes an absent entry a successful response
      with null data, not a not-found. */
  function GetEntry(found: Result<Option<Entry>>): (r: Reply)
    ensures r.httpStatus == 200
    ensures r.body.success <==> r.body.status == 200
    ensures r.body.success <==> found.Ok?
    ensures found.Ok? && found.value.Some? ==>
              r.body.error == None && r.body.data == Some(EntryData(found.value.value))
    ensures found.Ok? && found.value.None? ==> r.body.error == None && r.body.data == None
    ensures found.Err? ==>
              r.body.status == 400 && r.body.error == found.exception.message && r.body.data == None
  {
    match found
    case Ok(entry) =>
      Reply(200, Of5(200, true, "journal entry fechted succefully", None,
                     if entry.Some? then Some(EntryData(entry.value)) else None))
    case Err(e) => Reply(200, Of4(400, false, "could not fetch entry", e.message))
  }

  /** `deleteOnEntry`: 404 when nothing was deleted, 200 with the deleted
      entry, 400 for an IllegalArgumentException, 500 for any other. */
  function DeleteOnEntry(deleted: Result<Option<Entry>>): (r: Reply)
    ensures r.httpStatus == r.body.status
    ensures r.body.success <==> r.httpStatus == 200
    ensures deleted.Ok? && deleted.value.Some? ==>
              r.httpStatus == 200 && r.body.error == None && r.body.data == Some(EntryData(deleted.value.value))
    ensures deleted.Ok? && deleted.value.None? ==>
              r.httpStatus == 404 && r.body.error == None && r.body.data == None
    ensures deleted.Err? ==>
              && r.httpStatus == (if deleted.exception.kind == IllegalArgument then 400 else 500)
              && r.body.error == deleted.exception.message && r.body.data == None
  {
    match deleted
    case Ok(None) =>
      Reply(404, Of5(404, false, "Entry not found", None, None))
    case Ok(Some(entry)) =>
      Reply(200, Of5(200, true, "Entry deleted successfully", None, Some(EntryData(entry))))
    case Err(e) =>
      if e.kind == IllegalArgument then
        Reply(400, Of5(400, false, "Invalid ID format", e.message, None))
      else
        Reply(500, Of5(500, false, "Could not delete the Entry", e.message, None))
  }

  /** `updateEntry`: the merged entry, or body status 500 on any exception. */
  function UpdateEntry(updated: Result<Entry>): (r: Reply)
    ensures r.httpStatus == 200
    ensures r.body.success <==> r.body.status == 200
    ensures r.body.success <==> updated.Ok?
    ensures updated.Ok? ==> r.body.error == None && r.body.data == Some(EntryData(updated.value))
    ensures updated.Err? ==>
              r.body.status == 500 && r.body.error == updated.exception.message && r.body.data == None
  {
    match updated
    case Ok(entry) => Reply(200, Of5(200, true, "entry update succefully", None, Some(EntryData(entry))))
    case Err(e) => Reply(200, Of5(500, false, "could not update the Entry", e.message, None))
  }

  // The handlers wired to the in-memory entry service.

  method HandleCreateEntry(s: EntryService.JournalEntryServices, body: Entry, freshId: Id) returns (r: Reply)
    requires s.Valid()
    requires body.id.None? ==> freshId !in s.repo
    modifies s
    ensures s.Valid()
    ensures r.httpStatus == 200 && r.body.status == 200 && r.body.success && r.body.data == None
    ensures s.repo == old(s.repo)[EntryService.KeyFor(body, freshId) := body.(id := Some(EntryService.KeyFor(body, freshId)))]
  {
    s.SaveEntry(body, freshId);
    r := CreateEntry(Ok(()));
  }

  method HandleGetAllEntries(s: EntryService.JournalEntryServices) returns (r: Reply)
    requires s.Valid()
    ensures r.httpStatus == 200 && r.body.status == 200 && r.body.success
    ensures r.body.data.Some? && r.body.data.value.EntriesData?
    ensures |r.body.data.value.entries| == |s.repo|
    ensures forall e :: e in r.body.data.value.entries <==> e in s.repo.Values
  {
    var entries, ids := s.GetAllEntries();
    r := GetAllEntries(Ok(entries));
  }

  method HandleGetEntry(s: EntryService.JournalEntryServices, id: Id) returns (r: Reply)
    requires s.Valid()
    ensures r.httpStatus == 200 && r.body.status == 200 && r.body.success
    ensures id in s.repo ==> r.body.data == Some(EntryData(s.repo[id]))
    ensures id !in s.repo ==> r.body.data == None
  {
    var found := s.GetOneEntry(id);
    r := GetEntry(Ok(found));
  }

  method HandleDeleteOnEntry(s: EntryService.JournalEntryServices, id: Id) returns (r: Reply)
    requires s.Valid()
    modifies s
    ensures s.Valid()
    ensures r.httpStatus == r.body.status
    ensures id in old(s.repo) ==> r.httpStatus == 200 && r.body.data == Some(EntryData(old(s.repo)[id]))
    ensures id !in old(s.repo) ==> r.httpStatus == 404 && r.body.data == None
    ensures s.repo == old(s.repo) - {id}
  {
    var deleted := s.DeleteEntry(id);
    r := DeleteOnEntry(Ok(deleted));
  }

  method HandleUpdateEntry(s: EntryService.JournalEntryServices, id: Id, body: Entry) returns (r: Reply)
    requires s.Valid()
    modifies s
    ensures s.Valid()
    ensures r.httpStatus == 200
    ensures id in old(s.repo) ==>
              && r.body.status == 200 && r.body.success
              && r.body.data == Some(EntryData(EntryService.Merge(old(s.repo)[id], body)))
              && s.repo == old(s.repo)[id := EntryService.Merge(old(s.repo)[id], body)]
    ensures id !in old(s.repo) ==>
              && r.body.status == 500 && !r.body.success && r.body.error == NullEntity.message
              && s.repo == old(s.repo)
  {
    var updated := s.UpdateOneEntry(id, body);
    r := UpdateEntry(updated);
  }
}
