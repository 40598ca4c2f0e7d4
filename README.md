# Student attendance canister — a Dafny model

This project models the backend of the D-CAMPUS attendance canister
(`src/student_attendance_backend/src/lib.rs`). The backend keeps two kinds of state:

- one id counter shared by every entity kind (starting at 0);
- four ordered stable maps from id to record: students, lectures, attendance records and messages.

Its endpoints do three things:

- create records under freshly allocated ids (`register_student`, `schedule_lecture`, `send_reminder_to_student`);
- overwrite whole records under caller-supplied ids (`update_*`) and remove records (`delete_*`);
- read the maps (`get_*`, `_get_*`, `list_*`).

Modules:

- `Records` (`records.dfy`): the record datatypes, `MultiMediaContent`, the `Error` type (`NotFound`, which keeps the id its message names, and `InvalidInput`) and the `Result` wrapper.
- `StableMap` (`stable_map.dfy`): the ordered-map behaviour the endpoints rely on.
  - `Get` is a point lookup.
  - `Insert` is an upsert that hands back the previous value.
  - `Remove` hands back the removed value.
  - `Values` is the full listing in ascending key order, built on `SortedKeys`.
  - Lemmas cover the listing: it is complete, the key order is unique, and storing under a key above all present keys appends to the listing.
- `Canister` (`canister.dfy`): class `Canister`, with the counter and the four maps as fields and one member per endpoint.
  - Mutating endpoints are methods whose `modifies` clause names exactly the fields they may change.
  - Read-only endpoints are functions that read the object.
  - The ghost field `issued` records every id handed out. `Valid()` says that issued ids are strictly increasing and below the counter, and that every stored record carries the id it is stored under. Every method preserves `Valid()`.
  - `KeysBelowCounter()` says that every stored key was issued by the counter. Creates and deletes preserve it. An update of a missing id preserves it exactly when that id is below the counter.
- `Scenarios` (`scenarios.dfy`): client call sequences on a fresh canister, whose results follow from the endpoint contracts alone.

Behaviour of the code worth knowing:

- The first id is 0: the counter is initialised to 0 (lib.rs:95), and `Cell::set` returns the previous value, so a create uses the value before the increment (lib.rs:145-150).
- `send_reminder_to_student` takes no sender argument and hard-codes sender 0. It checks for empty content before it checks that the student exists.
- `update_message` has no authorisation check. It replaces sender, receiver, content and attachments wholesale.
- No endpoint creates attendance records. `update_attendance_record` is their only writer, and it validates nothing.
- An update of a missing id stores the record and still reports `NotFound`. Once the counter reaches such an id, a later create silently replaces that record (`Scenarios.UpdateOfMissingIdIsOverwritten`).
- Every record kind is bounded at 1024 bytes (lib.rs:38, 63, 85, 410).

## Model

| member | source | states |
|---|---|---|
| `StableMap.Get` | src/student_attendance_backend/src/lib.rs:337-347 | a lookup yields the stored value exactly when the key is present, and `None` otherwise |
| `StableMap.Insert` | src/student_attendance_backend/src/lib.rs:219-224 | the key is bound to the new value whether or not it existed; other keys keep their values; the previous value is handed back (`None` if the key was new) |
| `StableMap.Remove` | src/student_attendance_backend/src/lib.rs:230-235 | exactly that key disappears; the removed value is handed back; an absent key leaves the map as it was; the size drops by one only if the key existed |
| `StableMap.SortedKeys` | src/student_attendance_backend/src/lib.rs:240-245 | the map's iteration order: strictly ascending, holding each key once and nothing else |
| `StableMap.SortedKeysUnique` | src/student_attendance_backend/src/lib.rs:240-245 | any strictly increasing enumeration of the keys is the iteration order, so the order is determined by the key set |
| `StableMap.Values` | src/student_attendance_backend/src/lib.rs:239-247 | the listing has one entry per key, and entry i is the value stored under the i-th key in ascending order |
| `StableMap.ValuesComplete` | src/student_attendance_backend/src/lib.rs:239-247 | every stored value appears in the listing |
| `StableMap.ValuesInsertMax` | src/student_attendance_backend/src/lib.rs:152-154 | storing under a key above every present key (what a create does while `KeysBelowCounter` holds) appends exactly that value to the end of the listing |
| `Canister.Canister.constructor` | src/student_attendance_backend/src/lib.rs:94-117 | initial state: counter 0, nothing issued, four empty maps; the invariants hold |
| `Canister.Canister.NextId` | src/student_attendance_backend/src/lib.rs:145-150 | the id is the counter before the call; the counter goes up by exactly one; the id exceeds every id issued before |
| `Canister.Canister.FindStudent` | src/student_attendance_backend/src/lib.rs:337-339 | `Some` exactly when the id is stored, carrying the stored record, whose id is the one asked for |
| `Canister.Canister.FindLecture` | src/student_attendance_backend/src/lib.rs:341-343 | as FindStudent, for lectures |
| `Canister.Canister.FindAttendanceRecord` | src/student_attendance_backend/src/lib.rs:345-347 | as FindStudent, for attendance records |
| `Canister.Canister.FindMessage` | src/student_attendance_backend/src/lib.rs:462-464 | as FindStudent, for messages |
| `Canister.Canister.GetStudent` | src/student_attendance_backend/src/lib.rs:126-134 | `Ok` with the stored record exactly when the id is stored, and `NotFound(id)` otherwise |
| `Canister.Canister.GetLecture` | src/student_attendance_backend/src/lib.rs:158-166 | as GetStudent, for lectures |
| `Canister.Canister.GetAttendanceRecord` | src/student_attendance_backend/src/lib.rs:197-205 | as GetStudent, for attendance records |
| `Canister.Canister.ListStudents` | src/student_attendance_backend/src/lib.rs:238-247 | length equals the number of stored students; each entry is the record stored under its own id; ids strictly ascend; every stored student appears |
| `Canister.Canister.ListLectures` | src/student_attendance_backend/src/lib.rs:287-296 | as ListStudents, for lectures |
| `Canister.Canister.ListAttendanceRecords` | src/student_attendance_backend/src/lib.rs:326-335 | as ListStudents, for attendance records |
| `Canister.Canister.ListMessages` | src/student_attendance_backend/src/lib.rs:451-460 | as ListStudents, for messages |
| `Canister.Canister.RegisterStudent` | src/student_attendance_backend/src/lib.rs:136-156 | an empty name gives `InvalidInput` with counter, issued ids and students unchanged; otherwise the record gets the pre-increment counter as id, the counter goes up by one, only the students map gains that key, and `GetStudent` on the id returns the same record; while all keys are issued ids, the new id exceeds every stored key and the student count grows by one; other maps are untouched |
| `Canister.Canister.ScheduleLecture` | src/student_attendance_backend/src/lib.rs:168-195 | as RegisterStudent, with the empty-topic check; the student and lecturer ids are stored unchecked |
| `Canister.Canister.SendReminderToStudent` | src/student_attendance_backend/src/lib.rs:349-388 | empty content gives `InvalidInput` (checked first); an unknown student gives `NotFound(student)`; neither allocates an id or stores a message; on success the stored message has the pre-increment id, sender 0 and the student as receiver |
| `Canister.Canister.UpdateStudent` | src/student_attendance_backend/src/lib.rs:207-225 | an empty name gives `InvalidInput` and changes nothing; otherwise the whole record under the id is replaced by the supplied fields with that id, whether the id existed or not; the result is `Ok` of that record if it existed and `NotFound(id)` if not; counter and other maps unchanged; key freshness survives exactly when the id is below the counter |
| `Canister.Canister.UpdateLecture` | src/student_attendance_backend/src/lib.rs:249-274 | as UpdateStudent, with the empty-topic check |
| `Canister.Canister.UpdateAttendanceRecord` | src/student_attendance_backend/src/lib.rs:298-313 | as UpdateStudent without any validation: every call stores the supplied record |
| `Canister.Canister.UpdateMessage` | src/student_attendance_backend/src/lib.rs:414-438 | as UpdateStudent, with the empty-content check; sender, receiver, content and attachments are all replaced without any check of the caller |
| `Canister.Canister.DeleteStudent` | src/student_attendance_backend/src/lib.rs:227-236 | `Ok(())` exactly when the id was stored, and then exactly that key is gone; `NotFound(id)` with nothing changed otherwise; a later `GetStudent` on the id gives `NotFound`; the count drops by one only on success |
| `Canister.Canister.DeleteLecture` | src/student_attendance_backend/src/lib.rs:276-285 | as DeleteStudent, for lectures |
| `Canister.Canister.DeleteAttendanceRecord` | src/student_attendance_backend/src/lib.rs:315-324 | as DeleteStudent, for attendance records |
| `Canister.Canister.DeleteMessage` | src/student_attendance_backend/src/lib.rs:440-449 | as DeleteStudent, for messages; a later lookup finds nothing |
| `Scenarios.RegisterGetDelete` | src/student_attendance_backend/src/lib.rs:136-156 | on a fresh canister, registering Alice yields id 0; reading it back gives the same record; deleting it succeeds; reading it again gives `NotFound(0)` |
| `Scenarios.ReminderToMissingStudent` | src/student_attendance_backend/src/lib.rs:358-363 | a reminder to id 999, which is not stored, gives `NotFound(999)`, and the message listing is unchanged |
| `Scenarios.EmptyReminderToMissingStudent` | src/student_attendance_backend/src/lib.rs:352-356 | empty content wins over the missing student (`InvalidInput`), and no id is allocated |
| `Scenarios.EmptyTopicLecture` | src/student_attendance_backend/src/lib.rs:171-175 | an empty topic gives `InvalidInput` and the lecture listing is unchanged |
| `Scenarios.SharedCounter` | src/student_attendance_backend/src/lib.rs:369-374 | a student, a lecture and a reminder created in turn get ids 0, 1 and 2; the reminder goes from sender 0 to the student |
| `Scenarios.UpdateOfMissingIdIsOverwritten` | src/student_attendance_backend/src/lib.rs:219-224 | updating missing id 1 reports `NotFound(1)` yet stores Bob; two registrations then get ids 0 and 1, and the second replaces Bob |
| `Scenarios.AttendanceWrittenByUpdate` | src/student_attendance_backend/src/lib.rs:299-313 | the first write of an attendance record reports `NotFound` yet stores it; the second write succeeds and the stored record is the second one |

## Left out

- Candid serialisation (`Storable`) and the 1024-byte `MAX_SIZE` bound (`BoundedStorable`) are not modelled. They depend on a foreign encoder, and an oversized record traps rather than returning an error.
- `MemoryManager`, the virtual memory regions, `thread_local!` and `RefCell` are not modelled. The counter and the four maps are plain fields of one `Canister` object.
- The `ic_cdk::query` / `ic_cdk::update` attributes and `export_candid!` are not modelled. They are interface generation and transport.
- Error message text is not modelled. `NotFound` keeps the id the message names, and `InvalidInput` has no payload.
- NextId: ids and the counter are unbounded naturals. The u64 overflow of `current_value + 1` and the trap on a failed counter write (`expect`) are not modelled.
- Record fields typed `u64` (`student_id`, `lecturer_id`, `date_time`, `sender_id`, `receiver_id`) are unbounded naturals.
- Canister.Canister.RegisterStudent, Canister.Canister.ScheduleLecture, Canister.Canister.SendReminderToStudent: none of them states "the listing gains the new record at its end" itself. That is the separate lemma `StableMap.ValuesInsertMax`, which applies because each create ensures that the new id exceeds every stored key while `KeysBelowCounter` holds. Keeping it out of the method contracts keeps the contracts cheap for callers.
- Canister-level concurrency is not modelled. The platform runs one message at a time, which is what sequential method calls on one object express.
