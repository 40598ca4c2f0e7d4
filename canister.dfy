/** The canister's state and endpoints: one id counter shared by every entity
    kind and four ordered maps from id to record, changed in place by the
    update endpoints and only read by the query endpoints. */
module Canister {
  import opened Records
  import StableMap

  /** The sender every reminder carries: the code fixes it to 0. */
  const SystemSenderId: nat := 0

  ghost predicate StudentsKeyedById(m: map<nat, Student>) {
    forall k :: k in m ==> m[k].id == k
  }

  ghost predicate LecturesKeyedById(m: map<nat, Lecture>) {
    forall k :: k in m ==> m[k].id == k
  }

  ghost predicate AttendanceRecordsKeyedById(m: map<nat, AttendanceRecord>) {
    forall k :: k in m ==> m[k].id == k
  }

  ghost predicate MessagesKeyedById(m: map<nat, Message>) {
    forall k :: k in m ==> m[k].id == k
  }

  class Canister {
    var counter: nat
    var students: map<nat, Student>
    var lectures: map<nat, Lecture>
    var attendanceRecords: map<nat, AttendanceRecord>
    var messages: map<nat, Message>

    /** Every id the counter has handed out, in the order it handed them out. */
    ghost var issued: seq<nat>

    /** Issued ids are strictly increasing and all below the counter, so no id
        is ever handed out twice, whatever kind of record it went to. */
    ghost predicate IdsIssuedInOrder()
      reads this
    {
      && StableMap.StrictlyIncreasing(issued)
      && forall i :: 0 <= i < |issued| ==> issued[i] < counter
    }

    /** Every stored record carries the id it is stored under. */
    ghost predicate KeysMatchIds()
      reads this
    {
      && StudentsKeyedById(students)
      && LecturesKeyedById(lectures)
      && AttendanceRecordsKeyedById(attendanceRecords)
      && MessagesKeyedById(messages)
    }

    ghost predicate Valid()
      reads this
    {
      IdsIssuedInOrder() && KeysMatchIds()
    }

    /** Every stored key is below the counter, i.e. every record was stored under
        an id the counter already issued. Creates and deletes keep this; an update
        of a missing id at or above the counter breaks it. */
    ghost predicate KeysBelowCounter()
      reads this
    {
      && StableMap.KeysBelow(students, counter)
      && StableMap.KeysBelow(lectures, counter)
      && StableMap.KeysBelow(attendanceRecords, counter)
      && StableMap.KeysBelow(messages, counter)
    }

    /** The freshly initialised canister: counter 0, four empty maps. */
    constructor ()
      ensures Valid() && KeysBelowCounter()
      ensures counter == 0 && issued == []
      ensures students == map[] && lectures == map[]
      ensures attendanceRecords == map[] && messages == map[]
    {
      counter := 0;
      students, lectures, attendanceRecords, messages := map[], map[], map[], map[];
      issued := [];
    }

    /** Id allocation: read the counter, store its successor, use the value
        the store hands back, which is the previous one. */
    method NextId() returns (id: nat)
      requires Valid()
      modifies this`counter, this`issued
      ensures Valid()
      ensures id == old(counter) && counter == old(counter) + 1
      ensures issued == old(issued) + [id]
      ensures forall i :: 0 <= i < |old(issued)| ==> old(issued)[i] < id
    {
      var current := counter;
      var previous := counter;
      counter := current + 1;
      id := previous;
      issued := issued + [id];
    }

    // ---------------------------------------------------------------- lookups

    function FindStudent(studentId: nat): (r: Option<Student>)
      reads this
      ensures r.Some? <==> studentId in students
      ensures r.Some? ==> r.value == students[studentId]
      ensures Valid() && r.Some? ==> r.value.id == studentId
    {
      StableMap.Get(students, studentId)
    }

    function FindLecture(lectureId: nat): (r: Option<Lecture>)
      reads this
      ensures r.Some? <==> lectureId in lectures
      ensures r.Some? ==> r.value == lectures[lectureId]
      ensures Valid() && r.Some? ==> r.value.id == lectureId
    {
      StableMap.Get(lectures, lectureId)
    }

    function FindAttendanceRecord(recordId: nat): (r: Option<AttendanceRecord>)
      reads this
      ensures r.Some? <==> recordId in attendanceRecords
      ensures r.Some? ==> r.value == attendanceRecords[recordId]
      ensures Valid() && r.Some? ==> r.value.id == recordId
    {
      StableMap.Get(attendanceRecords, recordId)
    }

    function FindMessage(messageId: nat): (r: Option<Message>)
      reads this
      ensures r.Some? <==> messageId in messages
      ensures r.Some? ==> r.value == messages[messageId]
      ensures Valid() && r.Some? ==> r.value.id == messageId
    {
      StableMap.Get(messages, messageId)
    }

    function GetStudent(studentId: nat): (r: Result<Student>)
      reads this
      ensures r.Ok? <==> studentId in students
      ensures r.Ok? ==> r.value == students[studentId]
      ensures r.Err? ==> r.error == NotFound(studentId)
    {
      match FindStudent(studentId)
      case Some(student) => Ok(student)
      case None => Err(NotFound(studentId))
    }

    function GetLecture(lectureId: nat): (r: Result<Lecture>)
      reads this
      ensures r.Ok? <==> lectureId in lectures
      ensures r.Ok? ==> r.value == lectures[lectureId]
      ensures r.Err? ==> r.error == NotFound(lectureId)
    {
      match FindLecture(lectureId)
      case Some(lecture) => Ok(lecture)
      case None => Err(NotFound(lectureId))
    }

    function GetAttendanceRecord(recordId: nat): (r: Result<AttendanceRecord>)
      reads this
      ensures r.Ok? <==> recordId in attendanceRecords
      ensures r.Ok? ==> r.value == attendanceRecords[recordId]
      ensures r.Err? ==> r.error == NotFound(recordId)
    {
      match FindAttendanceRecord(recordId)
      case Some(record) => Ok(record)
      case None => Err(NotFound(recordId))
    }

    // --------------------------------------------------------------- listings

    function ListStudents(): (r: seq<Student>)
      reads this
      requires Valid()
      ensures |r| == |students|
      ensures forall i :: 0 <= i < |r| ==> r[i].id in students && students[r[i].id] == r[i]
      ensures forall i, j :: 0 <= i < j < |r| ==> r[i].id < r[j].id
      ensures forall k :: k in students ==> students[k] in r
    {
      StableMap.ValuesComplete(students);
      StableMap.Values(students)
    }

    function ListLectures(): (r: seq<Lecture>)
      reads this
      requires Valid()
      ensures |r| == |lectures|
      ensures forall i :: 0 <= i < |r| ==> r[i].id in lectures && lectures[r[i].id] == r[i]
      ensures forall i, j :: 0 <= i < j < |r| ==> r[i].id < r[j].id
      ensures forall k :: k in lectures ==> lectures[k] in r
    {
      StableMap.ValuesComplete(lectures);
      StableMap.Values(lectures)
    }

    function ListAttendanceRecords(): (r: seq<AttendanceRecord>)
      reads this
      requires Valid()
      ensures |r| == |attendanceRecords|
      ensures forall i :: 0 <= i < |r| ==>
        r[i].id in attendanceRecords && attendanceRecords[r[i].id] == r[i]
      ensures forall i, j :: 0 <= i < j < |r| ==> r[i].id < r[j].id
      ensures forall k :: k in attendanceRecords ==> attendanceRecords[k] in r
    {
      StableMap.ValuesComplete(attendanceRecords);
      StableMap.Values(attendanceRecords)
    }

    function ListMessages(): (r: seq<Message>)
      reads this
      requires Valid()
      ensures |r| == |messages|
      ensures forall i :: 0 <= i < |r| ==> r[i].id in messages && messages[r[i].id] == r[i]
      ensures forall i, j :: 0 <= i < j < |r| ==> r[i].id < r[j].id
      ensures forall k :: k in messages ==> messages[k] in r
    {
      StableMap.ValuesComplete(messages);
      StableMap.Values(messages)
    }

    // ---------------------------------------------------------------- creates

    method RegisterStudent(name: string, contactDetails: string, attendanceHistory: string)
      returns (r: Result<Student>)
      requires Valid()
      modifies this`counter, this`issued, this`students
      ensures Valid()
      ensures name == [] ==> r == Err(InvalidInput)
      ensures name == [] ==> counter == old(counter) && issued == old(issued) && students == old(students)
      ensures name != [] ==> r == Ok(Student(old(counter), name, contactDetails, attendanceHistory))
      ensures name != [] ==> counter == old(counter) + 1 && issued == old(issued) + [old(counter)]
      ensures r.Ok? ==> students == old(students)[r.value.id := r.value]
      ensures r.Ok? ==> GetStudent(r.value.id) == r
      ensures r.Ok? && old(KeysBelowCounter()) ==>
        && KeysBelowCounter()
        && (forall k :: k in old(students) ==> k < r.value.id)
        && |students| == |old(students)| + 1
    {
      if name == [] {
        return Err(InvalidInput);
      }
      var id := NextId();
      var student := Student(id, name, contactDetails, attendanceHistory);
      students := StableMap.Insert(students, id, student).store;
      r := Ok(student);
    }

    method ScheduleLecture(studentId: nat, lecturerId: nat, dateTime: nat, topic: string,
                           multimediaContent: Option<MultiMediaContent>)
      returns (r: Result<Lecture>)
      requires Valid()
      modifies this`counter, this`issued, this`lectures
      ensures Valid()
      ensures topic == [] ==> r == Err(InvalidInput)
      ensures topic == [] ==> counter == old(counter) && issued == old(issued) && lectures == old(lectures)
      ensures topic != [] ==>
        r == Ok(Lecture(old(counter), studentId, lecturerId, dateTime, topic, multimediaContent))
      ensures topic != [] ==> counter == old(counter) + 1 && issued == old(issued) + [old(counter)]
      ensures r.Ok? ==> lectures == old(lectures)[r.value.id := r.value]
      ensures r.Ok? ==> GetLecture(r.value.id) == r
      ensures r.Ok? && old(KeysBelowCounter()) ==>
        && KeysBelowCounter()
        && (forall k :: k in old(lectures) ==> k < r.value.id)
        && |lectures| == |old(lectures)| + 1
    {
      if topic == [] {
        return Err(InvalidInput);
      }
      var id := NextId();
      var lecture := Lecture(id, studentId, lecturerId, dateTime, topic, multimediaContent);
      lectures := StableMap.Insert(lectures, id, lecture).store;
      r := Ok(lecture);
    }

    /** Content is checked before the student's existence; the sender is fixed. */
    method SendReminderToStudent(studentId: nat, content: string,
                                 multimediaContent: Option<MultiMediaContent>)
      returns (r: Result<Message>)
      requires Valid()
      modifies this`counter, this`issued, this`messages
      ensures Valid()
      ensures content == [] ==> r == Err(InvalidInput)
      ensures content != [] && studentId !in students ==> r == Err(NotFound(studentId))
      ensures r.Ok? <==> content != [] && studentId in students
      ensures r.Err? ==> counter == old(counter) && issued == old(issued) && messages == old(messages)
      ensures r.Ok? ==>
        && r.value == Message(old(counter), SystemSenderId, studentId, content, multimediaContent)
        && counter == old(counter) + 1
        && issued == old(issued) + [old(counter)]
        && messages == old(messages)[r.value.id := r.value]
        && FindMessage(r.value.id) == Some(r.value)
      ensures r.Ok? && old(KeysBelowCounter()) ==>
        && KeysBelowCounter()
        && (forall k :: k in old(messages) ==> k < r.value.id)
        && |messages| == |old(messages)| + 1
    {
      if content == [] {
        return Err(InvalidInput);
      }
      if FindStudent(studentId).None? {
        return Err(NotFound(studentId));
      }
      var senderId := SystemSenderId;
      var id := NextId();
      var message := Message(id, senderId, studentId, content, multimediaContent);
      messages := StableMap.Insert(messages, id, message).store;
      r := Ok(message);
    }

    // ---------------------------------------------------------------- updates
    // Each update stores the full replacement record first and only then looks
    // at the previous value: a missing id is stored AND reported as NotFound.

    method UpdateStudent(studentId: nat, name: string, contactDetails: string,
                         attendanceHistory: string)
      returns (r: Result<Student>)
      requires Valid()
      modifies this`students
      ensures Valid()
      ensures name == [] ==> r == Err(InvalidInput) && students == old(students)
      ensures name != [] ==>
        students == old(students)[studentId := Student(studentId, name, contactDetails, attendanceHistory)]
      ensures name != [] && studentId in old(students) ==>
        r == Ok(Student(studentId, name, contactDetails, attendanceHistory))
      ensures name != [] && studentId !in old(students) ==> r == Err(NotFound(studentId))
      ensures name != [] ==> GetStudent(studentId) == Ok(Student(studentId, name, contactDetails, attendanceHistory))
      ensures old(KeysBelowCounter()) ==> (KeysBelowCounter() <==> name == [] || studentId < counter)
    {
      if name == [] {
        return Err(InvalidInput);
      }
      var updated := Student(studentId, name, contactDetails, attendanceHistory);
      var upsert := StableMap.Insert(students, studentId, updated);
      students := upsert.store;
      match upsert.previous
      case Some(_) => r := Ok(updated);
      case None => r := Err(NotFound(studentId));
    }

    method UpdateLecture(lectureId: nat, studentId: nat, lecturerId: nat, dateTime: nat,
                         topic: string, multimediaContent: Option<MultiMediaContent>)
      returns (r: Result<Lecture>)
      requires Valid()
      modifies this`lectures
      ensures Valid()
      ensures topic == [] ==> r == Err(InvalidInput) && lectures == old(lectures)
      ensures topic != [] ==> lectures == old(lectures)[lectureId :=
        Lecture(lectureId, studentId, lecturerId, dateTime, topic, multimediaContent)]
      ensures topic != [] && lectureId in old(lectures) ==>
        r == Ok(Lecture(lectureId, studentId, lecturerId, dateTime, topic, multimediaContent))
      ensures topic != [] && lectureId !in old(lectures) ==> r == Err(NotFound(lectureId))
      ensures topic != [] ==>
        GetLecture(lectureId) == Ok(Lecture(lectureId, studentId, lecturerId, dateTime, topic, multimediaContent))
      ensures old(KeysBelowCounter()) ==> (KeysBelowCounter() <==> topic == [] || lectureId < counter)
    {
      if topic == [] {
        return Err(InvalidInput);
      }
      var updated := Lecture(lectureId, studentId, lecturerId, dateTime, topic, multimediaContent);
      var upsert := StableMap.Insert(lectures, lectureId, updated);
      lectures := upsert.store;
      match upsert.previous
      case Some(_) => r := Ok(updated);
      case None => r := Err(NotFound(lectureId));
    }

    /** The only writer of attendance records; it validates nothing. */
    method UpdateAttendanceRecord(recordId: nat, studentId: nat, attendanceStatus: string)
      returns (r: Result<AttendanceRecord>)
      requires Valid()
      modifies this`attendanceRecords
      ensures Valid()
      ensures attendanceRecords ==
        old(attendanceRecords)[recordId := AttendanceRecord(recordId, studentId, attendanceStatus)]
      ensures recordId in old(attendanceRecords) ==>
        r == Ok(AttendanceRecord(recordId, studentId, attendanceStatus))
      ensures recordId !in old(attendanceRecords) ==> r == Err(NotFound(recordId))
      ensures GetAttendanceRecord(recordId) == Ok(AttendanceRecord(recordId, studentId, attendanceStatus))
      ensures old(KeysBelowCounter()) ==> (KeysBelowCounter() <==> recordId < counter)
    {
      var updated := AttendanceRecord(recordId, studentId, attendanceStatus);
      var upsert := StableMap.Insert(attendanceRecords, recordId, updated);
      attendanceRecords := upsert.store;
      match upsert.previous
      case Some(_) => r := Ok(updated);
      case None => r := Err(NotFound(recordId));
    }

    /** No check of who asks: sender, receiver, content and attachments are all
        replaced by the caller's values. */
    method UpdateMessage(messageId: nat, senderId: nat, receiverId: nat, content: string,
                         multimediaContent: Option<MultiMediaContent>)
      returns (r: Result<Message>)
      requires Valid()
      modifies this`messages
      ensures Valid()
      ensures content == [] ==> r == Err(InvalidInput) && messages == old(messages)
      ensures content != [] ==> messages == old(messages)[messageId :=
        Message(messageId, senderId, receiverId, content, multimediaContent)]
      ensures content != [] && messageId in old(messages) ==>
        r == Ok(Message(messageId, senderId, receiverId, content, multimediaContent))
      ensures content != [] && messageId !in old(messages) ==> r == Err(NotFound(messageId))
      ensures content != [] ==>
        FindMessage(messageId) == Some(Message(messageId, senderId, receiverId, content, multimediaContent))
      ensures old(KeysBelowCounter()) ==> (KeysBelowCounter() <==> content == [] || messageId < counter)
    {
      if content == [] {
        return Err(InvalidInput);
      }
      var updated := Message(messageId, senderId, receiverId, content, multimediaContent);
      var upsert := StableMap.Insert(messages, messageId, updated);
      messages := upsert.store;
      match upsert.previous
      case Some(_) => r := Ok(updated);
      case None => r := Err(NotFound(messageId));
    }

    // ---------------------------------------------------------------- deletes

    method DeleteStudent(studentId: nat) returns (r: Result<()>)
      requires Valid()
      modifies this`students
      ensures Valid()
      ensures r == if studentId in old(students) then Ok(()) else Err(NotFound(studentId))
      ensures students == old(students) - {studentId}
      ensures r.Err? ==> students == old(students)
      ensures |students| == if r.Ok? then |old(students)| - 1 else |old(students)|
      ensures GetStudent(studentId) == Err(NotFound(studentId))
      ensures old(KeysBelowCounter()) ==> KeysBelowCounter()
    {
      var removal := StableMap.Remove(students, studentId);
      students := removal.store;
      match removal.removed
      case Some(_) => r := Ok(());
      case None => r := Err(NotFound(studentId));
    }

    method DeleteLecture(lectureId: nat) returns (r: Result<()>)
      requires Valid()
      modifies this`lectures
      ensures Valid()
      ensures r == if lectureId in old(lectures) then Ok(()) else Err(NotFound(lectureId))
      ensures lectures == old(lectures) - {lectureId}
      ensures r.Err? ==> lectures == old(lectures)
      ensures |lectures| == if r.Ok? then |old(lectures)| - 1 else |old(lectures)|
      ensures GetLecture(lectureId) == Err(NotFound(lectureId))
      ensures old(KeysBelowCounter()) ==> KeysBelowCounter()
    {
      var removal := StableMap.Remove(lectures, lectureId);
      lectures := removal.store;
      match removal.removed
      case Some(_) => r := Ok(());
      case None => r := Err(NotFound(lectureId));
    }

    method DeleteAttendanceRecord(recordId: nat) returns (r: Result<()>)
      requires Valid()
      modifies this`attendanceRecords
      ensures Valid()
      ensures r == if recordId in old(attendanceRecords) then Ok(()) else Err(NotFound(recordId))
      ensures attendanceRecords == old(attendanceRecords) - {recordId}
      ensures r.Err? ==> attendanceRecords == old(attendanceRecords)
      ensures |attendanceRecords| ==
        if r.Ok? then |old(attendanceRecords)| - 1 else |old(attendanceRecords)|
      ensures GetAttendanceRecord(recordId) == Err(NotFound(recordId))
      ensures old(KeysBelowCounter()) ==> KeysBelowCounter()
    {
      var removal := StableMap.Remove(attendanceRecords, recordId);
      attendanceRecords := removal.store;
      match removal.removed
      case Some(_) => r := Ok(());
      case None => r := Err(NotFound(recordId));
    }

    method DeleteMessage(messageId: nat) returns (r: Result<()>)
      requires Valid()
      modifies this`messages
      ensures Valid()
      ensures r == if messageId in old(messages) then Ok(()) else Err(NotFound(messageId))
      ensures messages == old(messages) - {messageId}
      ensures r.Err? ==> messages == old(messages)
      ensures |messages| == if r.Ok? then |old(messages)| - 1 else |old(messages)|
      ensures FindMessage(messageId) == None
      ensures old(KeysBelowCounter()) ==> KeysBelowCounter()
    {
      var removal := StableMap.Remove(messages, messageId);
      messages := removal.store;
      match removal.removed
      case Some(_) => r := Ok(());
      case None => r := Err(NotFound(messageId));
    }
  }
}
