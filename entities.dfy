/** The two documents the journal application stores: a journal entry
    (journalEntryModel) and a user account (userModel). */
module Entities {
  import opened Common

  /** A journal entry. The id is null until the store assigns one; title and
      content are plain nullable Strings. */
  datatype Entry = Entry(id: Option<Id>, title: Option<string>, content: Option<string>)

  /** A user account. `userName` and `password` are declared non-null. The
      role list is null until the user service sets it. `journalEntries` holds
      the referenced entries as the document stores them. */
  datatype User = User(
    id: Option<Id>,
    userName: string,
    password: string,
    roles: Option<seq<string>>,
    journalEntries: seq<Entry>)

  /** A user as `new userModel()` followed by the two setters builds it: no id
      yet, no roles, and the entry list initialised to an empty list. */
  function NewUser(userName: string, password: string): (u: User)
    ensures u.id == None && u.roles == None
    ensures u.userName == userName && u.password == password
    ensures u.journalEntries == []
  {
    User(None, userName, password, None, [])
  }
}
