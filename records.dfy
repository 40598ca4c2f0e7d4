/** The records the canister stores, its error type and the result wrapper of
    its endpoints. Identifiers and the u64 fields are modelled as `nat`. */
module Records {

  datatype Option<+T> = None | Some(value: T)

  /** Optional attachments embedded in lectures and messages. */
  datatype MultiMediaContent = MultiMediaContent(
    imageUrl: Option<string>,
    videoUrl: Option<string>,
    audioUrl: Option<string>)

  datatype Student = Student(
    id: nat,
    name: string,
    contactDetails: string,
    attendanceHistory: string)

  /** `studentId` and `lecturerId` are informational: nothing checks that they exist. */
  datatype Lecture = Lecture(
    id: nat,
    studentId: nat,
    lecturerId: nat,
    dateTime: nat,
    topic: string,
    multimediaContent: Option<MultiMediaContent>)

  datatype AttendanceRecord = AttendanceRecord(
    id: nat,
    studentId: nat,
    attendanceStatus: string)

  datatype Message = Message(
    id: nat,
    senderId: nat,
    receiverId: nat,
    content: string,
    multimediaContent: Option<MultiMediaContent>)

  /** The two recoverable errors. The human-readable text is not modelled;
      `NotFound` keeps the id the text names. */
  datatype Error = NotFound(id: nat) | InvalidInput

  datatype Result<+T> = Ok(value: T) | Err(error: Error)
}
