/** The robot's process step: read the queue element, log the case
    reference, then run the export with the hyphen-free CPR number inside a
    `try` whose `finally` deletes the temporary files. Deleting the files is
    one effect that either succeeds or raises; the orchestrator constant with
    the database connection string is an input that may be unavailable.
 */
module Process {
  import opened Common
  import ExportAndSend
  import EmailHandler

  /** What the process did, in order: the export call with its arguments,
      the stages the export entered, and the cleanup. */
  datatype Event =
    | ExportCalled(ssn: string, connectionString: string, data: QueueData)
    | StageRan(stage: ExportAndSend.Stage)
    | CleanupRan

  /** The events, the emails that went out, and the error that reached the
      caller. */
  datatype ProcessRun = ProcessRun(events: seq<Event>, sent: seq<EmailHandler.Email>, error: Option<Error>)

  /** `cpr.replace("-", "")`. */
  function StripHyphens(cpr: string): (ssn: string)
    ensures forall i :: 0 <= i < |ssn| ==> ssn[i] != '-'
    ensures forall c :: c != '-' ==> multiset(ssn)[c] == multiset(cpr)[c]
    ensures (forall i :: 0 <= i < |cpr| ==> cpr[i] != '-') ==> ssn == cpr
  {
    if |cpr| == 0 then ""
    else
      assert cpr == [cpr[0]] + cpr[1..];
      var rest := StripHyphens(cpr[1..]);
      if cpr[0] == '-' then rest else [cpr[0]] + rest
  }

  /** Stripping is idempotent. */
  lemma StripHyphensIdempotent(cpr: string)
    ensures StripHyphens(StripHyphens(cpr)) == StripHyphens(cpr)
  {
  }

  /** Stripping works piece by piece, so the order of the remaining
      characters is kept. */
  lemma {:induction false} StripHyphensConcat(a: string, b: string)
    ensures StripHyphens(a + b) == StripHyphens(a) + StripHyphens(b)
  {
    if |a| > 0 {
      assert (a + b)[0] == a[0];
      assert (a + b)[1..] == a[1..] + b;
      StripHyphensConcat(a[1..], b);
    } else {
      assert a + b == b;
    }
  }

  /** How many times the cleanup ran. */
  function CleanupCount(events: seq<Event>): nat
  {
    if |events| == 0 then 0
    else (if events[0].CleanupRan? then 1 else 0) + CleanupCount(events[1..])
  }

  lemma {:induction false} CleanupCountConcat(a: seq<Event>, b: seq<Event>)
    ensures CleanupCount(a + b) == CleanupCount(a) + CleanupCount(b)
  {
    if |a| > 0 {
      assert (a + b)[0] == a[0];
      assert (a + b)[1..] == a[1..] + b;
      CleanupCountConcat(a[1..], b);
    } else {
      assert a + b == b;
    }
  }

  /** The stages of an export, as events. */
  function StageEvents(trace: seq<ExportAndSend.Stage>): (events: seq<Event>)
    ensures |events| == |trace|
    ensures forall i :: 0 <= i < |trace| ==> events[i] == StageRan(trace[i])
    ensures CleanupCount(events) == 0
  {
    if |trace| == 0 then [] else [StageRan(trace[0])] + StageEvents(trace[1..])
  }

  /** The events of an export call with these arguments whose stages ran
      as `run` records. */
  function Attempt(ssn: string, conn: string, data: QueueData, run: ExportAndSend.Run): (r: ProcessRun)
    ensures CleanupCount(r.events) == 0
    ensures |r.events| == 1 + |run.trace|
    ensures r.events[0] == ExportCalled(ssn, conn, data)
    ensures r.events[1..] == StageEvents(run.trace)
    ensures forall i :: 0 <= i < |r.events| && r.events[i].ExportCalled? ==> i == 0
    ensures r.sent == run.sent && r.error == run.error
  {
    var events := [ExportCalled(ssn, conn, data)] + StageEvents(run.trace);
    CleanupCountConcat([ExportCalled(ssn, conn, data)], StageEvents(run.trace));
    assert events[1..] == StageEvents(run.trace);
    assert forall i :: 1 <= i < |events| ==> events[i] == StageRan(run.trace[i - 1]);
    ProcessRun(events, run.sent, run.error)
  }

  /** The body of the `try`: strip the CPR number, read the connection
      string, and run the export. A missing CPR number or an unavailable
      constant raises before the export is called. */
  function TryExport(env: ExportAndSend.Environment, data: QueueData, connectionString: Result<string>): (r: ProcessRun)
    ensures CleanupCount(r.events) == 0
    ensures data.patientCpr.None? ==> r == ProcessRun([], [], Some(MissingField("patient_cpr")))
    ensures (data.patientCpr.Some? && connectionString.Err?) ==> r == ProcessRun([], [], Some(connectionString.error))
    ensures (data.patientCpr.Some? && connectionString.Ok?) ==>
              var run := ExportAndSend.ExportAndSendImages(env, StripHyphens(data.patientCpr.value), data);
              && |r.events| == 1 + |run.trace|
              && r.events[0] == ExportCalled(StripHyphens(data.patientCpr.value), connectionString.value, data)
              && r.events[1..] == StageEvents(run.trace)
              && r.sent == run.sent
              && r.error == run.error
    ensures forall i :: 0 <= i < |r.events| && r.events[i].ExportCalled? ==>
              && i == 0 && data.patientCpr.Some? && connectionString.Ok?
              && r.events[i] == ExportCalled(StripHyphens(data.patientCpr.value), connectionString.value, data)
  {
    match data.patientCpr
    case None => ProcessRun([], [], Some(MissingField("patient_cpr")))
    case Some(cpr) =>
      match connectionString
      case Err(e) => ProcessRun([], [], Some(e))
      case Ok(conn) =>
        var ssn := StripHyphens(cpr);
        Attempt(ssn, conn, data, ExportAndSend.ExportAndSendImages(env, ssn, data))
  }

  /** The `try` is entered once the queue data is read and the case
      reference can be logged. */
  predicate TryEntered(queueData: Result<QueueData>)
  {
    queueData.Ok? && queueData.value.requestNumberServiceNow.Some?
  }

  /** The `finally`: the cleanup runs after the events of the `try`, and its
      own error, if any, replaces the one the `try` raised. */
  function WithCleanup(attempt: ProcessRun, cleanup: Option<Error>): (r: ProcessRun)
    ensures CleanupCount(r.events) == CleanupCount(attempt.events) + 1
    ensures |r.events| == |attempt.events| + 1
    ensures r.events[|r.events| - 1] == CleanupRan
    ensures r.events[..|r.events| - 1] == attempt.events
    ensures forall i :: 0 <= i < |r.events| && r.events[i].ExportCalled? ==> r.events[i] == attempt.events[i]
    ensures r.sent == attempt.sent
    ensures r.error == if cleanup.Some? then cleanup else attempt.error
  {
    var events := attempt.events + [CleanupRan];
    CleanupCountConcat(attempt.events, [CleanupRan]);
    assert events[..|attempt.events|] == attempt.events;
    ProcessRun(events, attempt.sent, if cleanup.Some? then cleanup else attempt.error)
  }

  /** `process`: steps before the `try` raise without cleanup; once the
      `try` is entered the cleanup runs exactly once, after everything else,
      and its own error replaces the export's. */
  function RunProcess(
    env: ExportAndSend.Environment, queueData: Result<QueueData>,
    connectionString: Result<string>, cleanup: Option<Error>): (r: ProcessRun)
    ensures queueData.Err? ==> r == ProcessRun([], [], Some(queueData.error))
    ensures (queueData.Ok? && !TryEntered(queueData))
              ==> r == ProcessRun([], [], Some(MissingField("requestNumberServiceNow")))
    ensures TryEntered(queueData) ==>
              && CleanupCount(r.events) == 1
              && |r.events| == |TryExport(env, queueData.value, connectionString).events| + 1
              && r.events[|r.events| - 1] == CleanupRan
              && r.events[..|r.events| - 1] == TryExport(env, queueData.value, connectionString).events
              && r.sent == TryExport(env, queueData.value, connectionString).sent
    ensures (TryEntered(queueData) && cleanup.Some?) ==> r.error == cleanup
    ensures (TryEntered(queueData) && cleanup.None?) ==> r.error == TryExport(env, queueData.value, connectionString).error
    ensures forall i :: 0 <= i < |r.events| && r.events[i].ExportCalled? ==>
              && queueData.Ok?
              && r.events[i].data == queueData.value
              && queueData.value.patientCpr.Some?
              && r.events[i].ssn == StripHyphens(queueData.value.patientCpr.value)
              && forall j :: 0 <= j < |r.events[i].ssn| ==> r.events[i].ssn[j] != '-'
  {
    match queueData
    case Err(e) => ProcessRun([], [], Some(e))
    case Ok(data) =>
      if data.requestNumberServiceNow.None? then ProcessRun([], [], Some(MissingField("requestNumberServiceNow")))
      else WithCleanup(TryExport(env, data, connectionString), cleanup)
  }

  /** An export error reaches the caller after the cleanup when the cleanup
      succeeds; the run succeeds only if the export and the cleanup both do. */
  lemma ExportErrorPropagates(
    env: ExportAndSend.Environment, data: QueueData, cpr: string, conn: string)
    requires data.requestNumberServiceNow.Some? && data.patientCpr == Some(cpr)
    ensures var run := ExportAndSend.ExportAndSendImages(env, StripHyphens(cpr), data);
            var r := RunProcess(env, Ok(data), Ok(conn), None);
            && r.error == run.error
            && r.events == [ExportCalled(StripHyphens(cpr), conn, data)] + StageEvents(run.trace) + [CleanupRan]
  {
  }
}
