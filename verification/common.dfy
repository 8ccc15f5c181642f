/** Values shared by every part of the export robot: optional values, results
    carrying an error, the errors the robot raises, and Python's truthiness of a
    text value read from a dictionary with `.get`.
 */
module Common {

  /** A value that may be absent (a missing key, or a JSON `null`). */
  datatype Option<+T> = None | Some(value: T)

  /** The outcome of a step that either returns a value or raises. */
  datatype Result<+T> = Ok(value: T) | Err(error: Error) {
    /** The raised error, if any, without the value. */
    function Failure(): Option<Error>
    {
      match this
      case Ok(_) => None
      case Err(e) => Some(e)
    }
  }

  /** The exceptions the robot raises. Failures raised by collaborators whose
      code is not part of the model (image export, zipping, reading the
      archive listing, the orchestrator's constants, deleting the workspace)
      are carried as `External`, with a description of the cause. */
  datatype Error =
    | NoPersonFound(externalId: string)
    | NoImagesFound(personId: string)
    | NoImageDataFound(imageIds: seq<string>)
    | MissingField(key: string)
    | MissingRecipient
    | MissingCaseNumber
    | MissingCallerName
    | TransportFailed(attempt: nat)
    | External(description: string)

  /** The data of a queue element: the case reference, the patient's CPR
      number, and the requester's address and name. A field is `None` when
      its key is absent or its value is `null`. */
  datatype QueueData = QueueData(
    requestNumberServiceNow: Option<string>,
    patientCpr: Option<string>,
    callerEmail: Option<string>,
    callerName: Option<string>)

  /** Python truthiness of an optional text value: `None` and `""` are false. */
  predicate Truthy(v: Option<string>)
  {
    v.Some? && v.value != ""
  }
}
