/** Client call sequences on the canister: what a caller can conclude from the
    endpoint contracts alone, starting from a freshly initialised canister. */
module Scenarios {
  import opened Records
  import opened Canister

  /** Register, read back, delete, read again. The first id issued is 0. */
  method RegisterGetDelete()
    returns (created: Result<Student>, fetched: Result<Student>,
             deleted: Result<()>, refetched: Result<Student>)
    ensures created == Ok(Student(0, "Alice", "555-0100", ""))
    ensures fetched == created
    ensures deleted == Ok(())
    ensures refetched == Err(NotFound(0))
  {
    var c := new Canister();
    created := c.RegisterStudent("Alice", "555-0100", "");
    fetched := c.GetStudent(0);
    deleted := c.DeleteStudent(0);
    refetched := c.GetStudent(0);
  }

  /** A reminder to a student that does not exist is refused and stores nothing. */
  method ReminderToMissingStudent()
    returns (sent: Result<Message>, before: seq<Message>, after: seq<Message>)
    ensures sent == Err(NotFound(999))
    ensures after == before
  {
    var c := new Canister();
    var _ := c.RegisterStudent("Alice", "555-0100", "");
    before := c.ListMessages();
    sent := c.SendReminderToStudent(999, "hi", None);
    after := c.ListMessages();
  }

  /** Empty content is reported as invalid input even when the student is missing too. */
  method EmptyReminderToMissingStudent() returns (sent: Result<Message>, counter: nat)
    ensures sent == Err(InvalidInput)
    ensures counter == 0
  {
    var c := new Canister();
    sent := c.SendReminderToStudent(999, "", None);
    counter := c.counter;
  }

  /** A lecture with an empty topic is refused and the lecture list is unchanged. */
  method EmptyTopicLecture()
    returns (scheduled: Result<Lecture>, before: seq<Lecture>, after: seq<Lecture>)
    ensures scheduled == Err(InvalidInput)
    ensures after == before
  {
    var c := new Canister();
    before := c.ListLectures();
    scheduled := c.ScheduleLecture(1, 2, 1700000000, "", None);
    after := c.ListLectures();
  }

  /** One counter serves every kind: a student, a lecture and a reminder get 0, 1 and 2,
      and the reminder is sent by the system sender to the student. */
  method SharedCounter()
    returns (student: Result<Student>, lecture: Result<Lecture>, reminder: Result<Message>)
    ensures student.Ok? && student.value.id == 0
    ensures lecture.Ok? && lecture.value.id == 1
    ensures reminder == Ok(Message(2, SystemSenderId, 0, "Lecture tomorrow", None))
  {
    var c := new Canister();
    student := c.RegisterStudent("Alice", "555-0100", "");
    assert c.counter == 1 && 0 in c.students;
    lecture := c.ScheduleLecture(0, 7, 1700000000, "Algebra", None);
    assert c.counter == 2 && 0 in c.students;
    reminder := c.SendReminderToStudent(0, "Lecture tomorrow", None);
  }

  /** Updating a missing id reports NotFound yet stores the record; once the counter
      reaches that id, a registration silently replaces it. */
  method UpdateOfMissingIdIsOverwritten()
    returns (updated: Result<Student>, storedAfterUpdate: Result<Student>,
             first: Result<Student>, second: Result<Student>,
             storedAfterRegistrations: Result<Student>, count: nat)
    ensures updated == Err(NotFound(1))
    ensures storedAfterUpdate == Ok(Student(1, "Bob", "", ""))
    ensures first == Ok(Student(0, "Ann", "", ""))
    ensures second == Ok(Student(1, "Cy", "", ""))
    ensures storedAfterRegistrations == second
    ensures count == 2
  {
    var c := new Canister();
    updated := c.UpdateStudent(1, "Bob", "", "");
    storedAfterUpdate := c.GetStudent(1);
    first := c.RegisterStudent("Ann", "", "");
    assert c.counter == 1 && c.students.Keys == {0, 1};
    second := c.RegisterStudent("Cy", "", "");
    assert c.students.Keys == {0, 1};
    storedAfterRegistrations := c.GetStudent(1);
    count := |c.ListStudents()|;
  }

  /** An attendance record exists only once an update has written it, and that
      first write reports NotFound. */
  method AttendanceWrittenByUpdate()
    returns (first: Result<AttendanceRecord>, second: Result<AttendanceRecord>,
             fetched: Result<AttendanceRecord>)
    ensures first == Err(NotFound(5))
    ensures second == Ok(AttendanceRecord(5, 0, "present"))
    ensures fetched == second
  {
    var c := new Canister();
    first := c.UpdateAttendanceRecord(5, 0, "absent");
    second := c.UpdateAttendanceRecord(5, 0, "present");
    fetched := c.GetAttendanceRecord(5);
  }
}
