# Journal application: entry and user bookkeeping, modelled in Dafny

This project models the in-memory store behaviour of a Spring Boot journaling
application. It covers:

- the journal entry service (`JournalEntryServices`): create, list, get, delete and merge-update over an entry repository keyed by ObjectId;
- the older `HashMap`-backed journal controller of the `api_basic` project, where update is a full replace and delete always answers `true`;
- the user service (`UserServices`) over a user repository that has a unique index on `userName`, together with the `userModel` record;
- the `Response` envelope, with its three constructors, getters and setters;
- the entry and user controllers: each handler maps "returned a value / returned null / threw" to a status, a success flag and data.

Repositories are maps from an abstract `Id` (the ObjectId) to a document value.
Each stateful component is a class:

- `EntryService.JournalEntryServices`
- `BasicApi.JournalEntryController`
- `UserService.UserRepo`
- `UserService.UserServices`
- `ResponseEnvelope.Response`

Every method of these classes states the whole new state in terms of the old one. The invariants are:

- every stored document carries the id it is stored under;
- no two stored users share a `userName`.

The controller handlers are pure functions from an outcome to an envelope
(`Envelope`) or to an HTTP reply (`Reply`). Next to them, `Handle...` methods wire
each pure handler to the in-memory service. This shows end to end what a call
produces, for example that an update of an absent id answers with body status
500. A handler declared to return a bare `Response` is always sent with HTTP
status 200, whatever status its body carries; `Reply.httpStatus` records that.

Java `null` is `Option.None`. A thrown exception is `Result.Err`, carrying its class
(`IllegalArgument`, `DuplicateKey` or other) and its possibly-null message.

Inputs that come from outside the program become parameters:

- the ObjectId the store generates for a new document (`freshId`, required to be unused);
- the random salt BCrypt draws (`salt`);
- the password encoder itself (`encode`). Nothing here assumes it is injective or deterministic across salts;
- the authenticated principal's username (`principal`).

The model follows the code:

- no ownership scoping: `getAllEntries` and `getOneEntry` read the whole repository;
- a missing entry in `getEntry` answers 200 with null data;
- the default role is the list `["User"]`.

`userModel.java` declares no `role` field, but `UserServices.SaveUser` calls
`setRole`. The model follows the service and gives the record a nullable role list.

## Model

| member | source | states |
|---|---|---|
| `Collections.ListValues` | api_basic/src/main/java/com/manishkeer/Journal/apk/controller/JournalEntryController.java:28-31 | the listed values are exactly those stored under a duplicate-free enumeration of all keys, one per key; a value is listed iff it is stored |
| `Entities.NewUser` | jourenal_apk/jourenal_apk/src/main/java/com/ms19/jourenal_apk/entity/userModel.java:18-29 | `new userModel()` with its two setters: no id, null roles and an empty `journalEntries` list |
| `EntryService.MergeField` | jourenal_apk/jourenal_apk/src/main/java/com/ms19/jourenal_apk/Services/JournalEntryServices.java:47-51 | the incoming value is used iff it is non-null and not ""; otherwise the stored value is kept |
| `EntryService.Merge` | jourenal_apk/jourenal_apk/src/main/java/com/ms19/jourenal_apk/Services/JournalEntryServices.java:46-52 | the merged entry keeps its id; each of title and content follows the merge-skip rule; an update with both fields blank leaves the entry unchanged |
| `EntryService.JournalEntryServices.SaveEntry` | jourenal_apk/jourenal_apk/src/main/java/com/ms19/jourenal_apk/Services/JournalEntryServices.java:19-21 | the entry is upserted under its own id, or inserted under the generated id when it has none; no other id changes |
| `EntryService.JournalEntryServices.GetAllEntries` | jourenal_apk/jourenal_apk/src/main/java/com/ms19/jourenal_apk/Services/JournalEntryServices.java:23-25 | returns exactly the stored entries, one per id, each carrying its id; the store is not changed |
| `EntryService.JournalEntryServices.GetOneEntry` | jourenal_apk/jourenal_apk/src/main/java/com/ms19/jourenal_apk/Services/JournalEntryServices.java:27-29 | returns the stored entry when the id is present and empty when it is absent; the store is not changed |
| `EntryService.JournalEntryServices.DeleteEntry` | jourenal_apk/jourenal_apk/src/main/java/com/ms19/jourenal_apk/Services/JournalEntryServices.java:31-37 | a present id returns the prior snapshot and only that id leaves the store; an absent id returns empty and the store is unchanged |
| `EntryService.JournalEntryServices.UpdateOneEntry` | jourenal_apk/jourenal_apk/src/main/java/com/ms19/jourenal_apk/Services/JournalEntryServices.java:39-57 | a present id stores and returns the merged entry under the same id and changes no other id; an absent id reaches `save(null)` and fails with IllegalArgumentException, leaving the store unchanged |
| `EntryService.SaveThenGet` | jourenal_apk/jourenal_apk/src/main/java/com/ms19/jourenal_apk/Services/JournalEntryServices.java:19-29 | after `saveEntry(e)`, `getOneEntry` of e's key returns e (with the assigned id) |
| `EntryService.DeleteTwice` | jourenal_apk/jourenal_apk/src/main/java/com/ms19/jourenal_apk/Services/JournalEntryServices.java:31-37 | deleting the same id twice: the second call returns empty |
| `BasicApi.JournalEntryController.constructor` | api_basic/src/main/java/com/manishkeer/Journal/apk/controller/JournalEntryController.java:21 | the controller starts with an empty map |
| `BasicApi.JournalEntryController.GetAll` | api_basic/src/main/java/com/manishkeer/Journal/apk/controller/JournalEntryController.java:28-31 | one element per key currently in the map, each the value under its key; the map is not changed |
| `BasicApi.JournalEntryController.CreatEntry` | api_basic/src/main/java/com/manishkeer/Journal/apk/controller/JournalEntryController.java:33-37 | stores the body under its own (possibly null) id, overwriting any earlier value there, keeps every other key and answers true |
| `BasicApi.JournalEntryController.GetEntryById` | api_basic/src/main/java/com/manishkeer/Journal/apk/controller/JournalEntryController.java:39-42 | the value stored under the key, or null when the key is absent |
| `BasicApi.JournalEntryController.DeleteEntryById` | api_basic/src/main/java/com/manishkeer/Journal/apk/controller/JournalEntryController.java:44-48 | removes only that key and answers true even when the key was absent |
| `BasicApi.JournalEntryController.UpdateEntryById` | api_basic/src/main/java/com/manishkeer/Journal/apk/controller/JournalEntryController.java:50-54 | replaces the whole value under the path id, with no merge and not under the body's id, and returns the body |
| `BasicApi.DeleteThenGet` | api_basic/src/main/java/com/manishkeer/Journal/apk/controller/JournalEntryController.java:39-48 | after `deleteEntryById(id)`, `getEntryById(id)` is null and every other key keeps its value |
| `BasicApi.CreateThenGet` | api_basic/src/main/java/com/manishkeer/Journal/apk/controller/JournalEntryController.java:33-42 | after `CreatEntry(e)`, `getEntryById(e.id)` returns e |
| `UserService.PrepareForSave` | jourenal_apk/jourenal_apk/src/main/java/com/ms19/jourenal_apk/Services/UserServices.java:23-24 | the password is replaced by its encoding and the roles by exactly ["User"]; id, userName and entries are kept |
| `UserService.ApplyPatch` | jourenal_apk/jourenal_apk/src/main/java/com/ms19/jourenal_apk/Services/UserServices.java:38-39 | userName and password are copied from the body unconditionally, blank values included; everything else is the stored record's |
| `UserService.UserRepo.constructor` | jourenal_apk/jourenal_apk/src/main/java/com/ms19/jourenal_apk/entity/userModel.java:19-23 | an empty collection satisfies the id and unique-userName invariants |
| `UserService.UserRepo.Save` | jourenal_apk/jourenal_apk/src/main/java/com/ms19/jourenal_apk/entity/userModel.java:19-23 | upserts under the id (generated when absent); when another document holds the userName, it fails with a duplicate-key error and changes nothing; no two stored users ever share a userName |
| `UserService.UserRepo.FindByUserName` | jourenal_apk/jourenal_apk/src/main/java/com/ms19/jourenal_apk/Services/UserServices.java:34 | the one stored user with that userName, or null exactly when there is none |
| `UserService.UserRepo.FindAll` | jourenal_apk/jourenal_apk/src/main/java/com/ms19/jourenal_apk/Services/UserServices.java:30 | every stored user, one per id |
| `UserService.UserRepo.DeleteByUserName` | jourenal_apk/jourenal_apk/src/main/java/com/ms19/jourenal_apk/controller/UserController.java:80 | removes and returns the user with that userName; when there is none, it returns null and changes nothing |
| `UserService.UserServices.constructor` | jourenal_apk/jourenal_apk/src/main/java/com/ms19/jourenal_apk/Services/UserServices.java:17-20 | the service is wired to the given repository and encoder |
| `UserService.UserServices.SaveUser` | jourenal_apk/jourenal_apk/src/main/java/com/ms19/jourenal_apk/Services/UserServices.java:22-27 | stores and returns the user with password `encode(raw)` and roles exactly ["User"], or fails with the duplicate-key error and changes nothing |
| `UserService.UserServices.GetAllUser` | jourenal_apk/jourenal_apk/src/main/java/com/ms19/jourenal_apk/Services/UserServices.java:29-31 | returns all stored users, one per id; the store is not changed |
| `UserService.UserServices.UpdateUser` | jourenal_apk/jourenal_apk/src/main/java/com/ms19/jourenal_apk/Services/UserServices.java:33-42 | unknown username: null and no change. Otherwise the record found by the old username keeps its id and gets the body's userName and `encode(password)` with roles ["User"], through the save path. Keeping one's own userName never fails |
| `UserService.RegisterTwice` | jourenal_apk/jourenal_apk/src/main/java/com/ms19/jourenal_apk/entity/userModel.java:21-23 | registering the same userName twice: the first save succeeds exactly when the name was free; the second always fails with the duplicate-key error and leaves the store as the first left it |
| `ResponseEnvelope.Of3` | jourenal_apk/jourenal_apk/src/main/java/com/ms19/jourenal_apk/Response/Response.java:12-16 | sets status, success and message; error and data are null |
| `ResponseEnvelope.Of5` | jourenal_apk/jourenal_apk/src/main/java/com/ms19/jourenal_apk/Response/Response.java:19-25 | sets all five fields as given |
| `ResponseEnvelope.Of4` | jourenal_apk/jourenal_apk/src/main/java/com/ms19/jourenal_apk/Response/Response.java:26-32 | sets status, success, message and error; data is null |
| `ResponseEnvelope.Response.Make3` | jourenal_apk/jourenal_apk/src/main/java/com/ms19/jourenal_apk/Response/Response.java:12-16 | the new object holds the 3-argument envelope |
| `ResponseEnvelope.Response.Make5` | jourenal_apk/jourenal_apk/src/main/java/com/ms19/jourenal_apk/Response/Response.java:19-25 | the new object holds the 5-argument envelope |
| `ResponseEnvelope.Response.Make4` | jourenal_apk/jourenal_apk/src/main/java/com/ms19/jourenal_apk/Response/Response.java:26-32 | the new object holds the 4-argument envelope |
| `ResponseEnvelope.Response.GetStatus` | jourenal_apk/jourenal_apk/src/main/java/com/ms19/jourenal_apk/Response/Response.java:35-37 | returns the stored status |
| `ResponseEnvelope.Response.SetStatus` | jourenal_apk/jourenal_apk/src/main/java/com/ms19/jourenal_apk/Response/Response.java:39-41 | changes the status and no other field |
| `ResponseEnvelope.Response.IsSuccess` | jourenal_apk/jourenal_apk/src/main/java/com/ms19/jourenal_apk/Response/Response.java:43-45 | returns the stored success flag |
| `ResponseEnvelope.Response.SetSuccess` | jourenal_apk/jourenal_apk/src/main/java/com/ms19/jourenal_apk/Response/Response.java:47-49 | changes the success flag and no other field |
| `ResponseEnvelope.Response.GetMessage` | jourenal_apk/jourenal_apk/src/main/java/com/ms19/jourenal_apk/Response/Response.java:51-53 | returns the stored message |
| `ResponseEnvelope.Response.SetMessage` | jourenal_apk/jourenal_apk/src/main/java/com/ms19/jourenal_apk/Response/Response.java:55-57 | changes the message and no other field |
| `ResponseEnvelope.Response.GetError` | jourenal_apk/jourenal_apk/src/main/java/com/ms19/jourenal_apk/Response/Response.java:59-61 | returns the stored error |
| `ResponseEnvelope.Response.SetError` | jourenal_apk/jourenal_apk/src/main/java/com/ms19/jourenal_apk/Response/Response.java:63-65 | changes the error and no other field |
| `ResponseEnvelope.Response.GetData` | jourenal_apk/jourenal_apk/src/main/java/com/ms19/jourenal_apk/Response/Response.java:66-68 | returns the stored data |
| `ResponseEnvelope.Response.SetData` | jourenal_apk/jourenal_apk/src/main/java/com/ms19/jourenal_apk/Response/Response.java:70-72 | changes the data and no other field |
| `ResponseEnvelope.SettersAndGetters` | jourenal_apk/jourenal_apk/src/main/java/com/ms19/jourenal_apk/Response/Response.java:35-72 | after a constructor and some setters, each getter returns the value the constructor or the matching setter last stored |
| `EntryController.CreateEntry` | jourenal_apk/jourenal_apk/src/main/java/com/ms19/jourenal_apk/controller/JourenalEntryController.java:36-47 | always HTTP 200; success gives body (200, true) with null error and data; any exception gives body status 0, false, and the exception's message as error |
| `EntryController.GetAllEntries` | jourenal_apk/jourenal_apk/src/main/java/com/ms19/jourenal_apk/controller/JourenalEntryController.java:49-60 | always HTTP 200; success gives body (200, true) with the list as data; an exception gives body (400, false) with its message |
| `EntryController.GetEntry` | jourenal_apk/jourenal_apk/src/main/java/com/ms19/jourenal_apk/controller/JourenalEntryController.java:62-76 | always HTTP 200; a found entry gives body (200, true) with it as data; an absent one also gives (200, true), with null data; an exception gives body (400, false) |
| `EntryController.DeleteOnEntry` | jourenal_apk/jourenal_apk/src/main/java/com/ms19/jourenal_apk/controller/JourenalEntryController.java:78-103 | absent gives HTTP 404 with (404, false) and null data; present gives 200 with (200, true) and the deleted entry; IllegalArgumentException gives 400, any other exception 500; the body status always equals the HTTP status |
| `EntryController.UpdateEntry` | jourenal_apk/jourenal_apk/src/main/java/com/ms19/jourenal_apk/controller/JourenalEntryController.java:105-116 | always HTTP 200; success gives body (200, true) with the entry; any exception gives body (500, false) with its message and null data |
| `EntryController.HandleCreateEntry` | jourenal_apk/jourenal_apk/src/main/java/com/ms19/jourenal_apk/controller/JourenalEntryController.java:36-47 | with the in-memory store, creation always answers HTTP 200 with body (200, true) and upserts the entry under its key |
| `EntryController.HandleGetAllEntries` | jourenal_apk/jourenal_apk/src/main/java/com/ms19/jourenal_apk/controller/JourenalEntryController.java:49-60 | answers HTTP 200 with body (200, true) and exactly the stored entries as data |
| `EntryController.HandleGetEntry` | jourenal_apk/jourenal_apk/src/main/java/com/ms19/jourenal_apk/controller/JourenalEntryController.java:62-76 | answers HTTP 200 with body (200, true) whether or not the id is stored; the data is the entry or null |
| `EntryController.HandleDeleteOnEntry` | jourenal_apk/jourenal_apk/src/main/java/com/ms19/jourenal_apk/controller/JourenalEntryController.java:78-103 | a stored id answers 200 with the deleted entry and leaves the store; an absent id answers 404 |
| `EntryController.HandleUpdateEntry` | jourenal_apk/jourenal_apk/src/main/java/com/ms19/jourenal_apk/controller/JourenalEntryController.java:105-116 | always HTTP 200; a stored id gives body (200, true) with the merged entry, which replaces the stored one; an absent id gives body (500, false) with the `save(null)` message and leaves the store unchanged |
| `UserController.CreateUser` | jourenal_apk/jourenal_apk/src/main/java/com/ms19/jourenal_apk/controller/UserController.java:33-44 | always HTTP 200; success gives body (200, true) with null error and data; an exception gives body (400, false) with its message |
| `UserController.GetAllUser` | jourenal_apk/jourenal_apk/src/main/java/com/ms19/jourenal_apk/controller/UserController.java:46-59 | success gives (200, true) with the users; failure gives (400, false); the HTTP status equals the body status |
| `UserController.UpdateUser` | jourenal_apk/jourenal_apk/src/main/java/com/ms19/jourenal_apk/controller/UserController.java:61-74 | always HTTP 200; null from the service gives body (404, false) with null data; a user gives body (200, true) with it as data; an exception gives body (400, false) |
| `UserController.DeleteUser` | jourenal_apk/jourenal_apk/src/main/java/com/ms19/jourenal_apk/controller/UserController.java:76-84 | always HTTP 200 with (200, true) and data equal to what the delete returned, possibly null |
| `UserController.HandleCreateUser` | jourenal_apk/jourenal_apk/src/main/java/com/ms19/jourenal_apk/controller/UserController.java:33-44 | always HTTP 200; creation succeeds iff no other document holds the userName, and then the store gains the prepared user under its key; on failure the body status is 400 with the duplicate-key message and the store is unchanged |
| `UserController.HandleGetAllUser` | jourenal_apk/jourenal_apk/src/main/java/com/ms19/jourenal_apk/controller/UserController.java:46-59 | answers HTTP 200 with exactly the stored users |
| `UserController.HandleUpdateUser` | jourenal_apk/jourenal_apk/src/main/java/com/ms19/jourenal_apk/controller/UserController.java:61-74 | always HTTP 200; acts on the principal's record: no such record gives body status 404 and no change; a new userName held by another user gives body 400 and no change; otherwise body (200, true) with the patched, re-encoded record as data, stored under the same id with no other change |
| `UserController.HandleDeleteUser` | jourenal_apk/jourenal_apk/src/main/java/com/ms19/jourenal_apk/controller/UserController.java:76-84 | always HTTP 200 with body (200, true); the principal's record, when there is one, is the data and the only document removed; otherwise the data is null and the store is unchanged |

## Left out

- Resolving the principal from the security context happens outside the model: the handlers take the username as a parameter. The null dereference an unauthenticated call would cause is not modelled.
- Spring Security configuration, the BCrypt bean, `UserDetailServiceImpl`, `AdminController` (it calls a `saveAdmin` that `UserServices.java` does not have), the weather, mail, AI-chat and OAuth2 collaborators, the Mongo template repository and the React front ends are framework wiring or external I/O and are not modelled.
- The greeting handlers `goodMethod` and `greet` return constant strings and are not modelled; neither is the `System.out.println` logging.
- Password hashing is the parameter `encode` applied to the raw password and a salt drawn per call; BCrypt itself is not modelled.
- Store-generated ObjectIds are the parameter `freshId`; ObjectId parsing and format validation happen in the framework and are not modelled; only the IllegalArgumentException outcome reaches the handler functions.
- Exceptions the real database can raise (connection loss, timeouts) are not produced by the in-memory stores. The pure handler functions accept any exception as input, so those branches are still covered.
- The duplicate-key message is abbreviated to its error code; the handlers only copy it.
- `UserRepo.Save`: the unique index on `userName` is taken as enforced by the store; whether the deployment creates the index is not modelled.
- `Entities.User`: `userName` and `password` are non-null strings, as the record declares them; a request body with a null userName or password is not modelled.
- Side effects on the caller's object are not modelled: `SaveUser` sets the password and role on its argument, and `save` assigns an id to a new entry. Documents are values, so the model has no aliasing between a stored document and the request body (including the `api_basic` HashMap, which stores the body reference itself).
- The order in which `findAll` and `HashMap.values()` list documents is not modelled: the result is some duplicate-free enumeration of the keys.
- `journalModel.java` (the `api_basic` entity) is not part of this model; its body is taken to carry a nullable String id, a title and a content.
- Per-user entry ownership, the transactional boundary and the user-to-entry link beyond the `journalEntries` field are not in the modelled code and are not modelled.
- `deleteUser` has no try block, so any exception escapes the handler; that escape is not modelled.
- Concurrency is not modelled: every call runs alone, one after another. The `api_basic` controller is a singleton whose `HashMap` field (api_basic/src/main/java/com/manishkeer/Journal/apk/controller/JournalEntryController.java:21) is shared, without synchronisation, by concurrent requests; lost or torn updates from that sharing are not captured.
