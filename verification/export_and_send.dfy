/** The export orchestration: resolve the person, fetch the image data,
    export the images into the subject's workspace, clear the `.img` files,
    zip, and email the result. Image export, `.img` clearing and zipping are
    collaborators whose code is not part of the model; each is a function
    passed in through the `Environment` that either succeeds or raises.
 */
module ExportAndSend {
  import opened Common
  import DbHandler
  import EmailHandler
  import Text

  /** What `create_zip_from_images` returns: the zip's full path and its
      file name. */
  datatype ZipArtifact = ZipArtifact(fullPath: string, fileName: string)

  /** The configuration and collaborators of one run. */
  datatype Environment = Environment(
    tempRoot: string,
    db: DbHandler.Database,
    exportImages: (seq<DbHandler.ImageRecord>, string, string, string) -> Option<Error>,
    clearImgFiles: string -> Option<Error>,
    createZip: (string, string, string) -> Result<ZipArtifact>,
    processZip: string -> Result<EmailHandler.ZipLayout>,
    transport: EmailHandler.Transport)

  /** One stage entered by the orchestration, with the arguments it got. */
  datatype Stage =
    | ResolvePerson(ssn: string)
    | FetchImageData(personId: string)
    | ExportImages(images: seq<DbHandler.ImageRecord>, destination: string, ssn: string, personName: string)
    | ClearImgFiles(folder: string)
    | CreateZip(ssn: string, personName: string, sourceFolder: string)
    | SendEmail(zipPath: string, fileName: string, data: QueueData)
  {
    /** The stage's place in the fixed order, counting from 0. */
    function Position(): nat
    {
      match this
      case ResolvePerson(_) => 0
      case FetchImageData(_) => 1
      case ExportImages(_, _, _, _) => 2
      case ClearImgFiles(_) => 3
      case CreateZip(_, _, _) => 4
      case SendEmail(_, _, _) => 5
    }
  }

  /** The stages entered, the emails that went out, and the error raised. */
  datatype Run = Run(trace: seq<Stage>, sent: seq<EmailHandler.Email>, error: Option<Error>)

  predicate IsSeparator(c: char)
  {
    c == '\\' || c == '/'
  }

  /** `os.path.join(a, b)` on Windows (`ntpath.join`), for a relative
      component `b`: both `\` and `/` count as separators, and `\` is
      inserted unless `a` is empty or already ends in a separator. */
  function PathJoin(a: string, b: string): string
  {
    if |a| == 0 || IsSeparator(a[|a| - 1]) then a + b else a + "\\" + b
  }

  /** `os.path.join(TEMP_ROOT_PATH, ssn, "img")`. */
  function DestinationPath(tempRoot: string, ssn: string): string
  {
    PathJoin(PathJoin(tempRoot, ssn), "img")
  }

  /** A joined path starts with `a`, ends with `b`, and has a separator
      right before `b` unless `a` is empty; at most one character is added. */
  lemma PathJoinShape(a: string, b: string)
    ensures var path := PathJoin(a, b);
            && Text.StartsWith(path, a) && Text.EndsWith(path, b)
            && (|a| > 0 ==> |path| > |b| && IsSeparator(path[|path| - |b| - 1]))
            && |path| <= |a| + 1 + |b|
  {
    var path := PathJoin(a, b);
    if |a| > 0 && !IsSeparator(a[|a| - 1]) {
      assert path == a + ("\\" + b);
    }
  }

  /** The workspace lies under `TEMP_ROOT_PATH`. */
  lemma DestinationPathUnderRoot(tempRoot: string, ssn: string)
    ensures Text.StartsWith(DestinationPath(tempRoot, ssn), tempRoot)
  {
    var inner := PathJoin(tempRoot, ssn);
    assert Text.StartsWith(inner, tempRoot);
    var path := DestinationPath(tempRoot, ssn);
    assert path[..|inner|] == inner;
    assert path[..|tempRoot|] == inner[..|tempRoot|];
  }

  /** The workspace ends in `ssn\img` when the key does not end in a
      separator. */
  lemma DestinationPathEndsInKey(tempRoot: string, ssn: string)
    requires |ssn| > 0 && !IsSeparator(ssn[|ssn| - 1])
    ensures Text.EndsWith(DestinationPath(tempRoot, ssn), ssn + "\\img")
  {
    var inner := PathJoin(tempRoot, ssn);
    var head := if |tempRoot| == 0 || IsSeparator(tempRoot[|tempRoot| - 1]) then tempRoot else tempRoot + "\\";
    assert inner == head + ssn;
    assert inner[|inner| - 1] == ssn[|ssn| - 1];
    var path := DestinationPath(tempRoot, ssn);
    assert path == inner + "\\img";
    assert path == head + (ssn + "\\img");
  }



  /** Different subjects get different workspaces: the destination path
      determines the subject key when the key is a single path component. */
  lemma DestinationPathInjective(tempRoot: string, ssn: string, other: string)
    requires |ssn| > 0 && |other| > 0
    requires forall i :: 0 <= i < |ssn| ==> !IsSeparator(ssn[i])
    requires forall i :: 0 <= i < |other| ==> !IsSeparator(other[i])
    requires DestinationPath(tempRoot, ssn) == DestinationPath(tempRoot, other)
    ensures ssn == other
  {
    var prefix := if |tempRoot| == 0 || IsSeparator(tempRoot[|tempRoot| - 1]) then tempRoot else tempRoot + "\\";
    var tail := "\\img";
    assert PathJoin(tempRoot, ssn) == prefix + ssn;
    assert PathJoin(tempRoot, other) == prefix + other;
    assert DestinationPath(tempRoot, ssn) == prefix + ssn + tail;
    assert DestinationPath(tempRoot, other) == prefix + other + tail;
    MiddleEqual(prefix, ssn, other, tail);
  }

  /** Equal strings with the same prefix and suffix have the same middle. */
  lemma MiddleEqual(prefix: string, a: string, b: string, tail: string)
    requires prefix + a + tail == prefix + b + tail
    ensures a == b
  {
    assert |a| == |b|;
    assert (prefix + a + tail)[|prefix|..|prefix| + |a|] == a;
    assert (prefix + b + tail)[|prefix|..|prefix| + |b|] == b;
  }

  /** The error a stage raises when run on its recorded arguments. */
  function StageError(env: Environment, stage: Stage): Option<Error>
  {
    match stage
    case ResolvePerson(ssn) => DbHandler.GetPersonInfo(env.db, ssn).Failure()
    case FetchImageData(personId) => DbHandler.GetImageData(env.db, personId).Failure()
    case ExportImages(images, destination, ssn, personName) => env.exportImages(images, destination, ssn, personName)
    case ClearImgFiles(folder) => env.clearImgFiles(folder)
    case CreateZip(ssn, personName, folder) => env.createZip(ssn, personName, folder).Failure()
    case SendEmail(zipPath, fileName, data) =>
      EmailHandler.SendEmailWithAttachment(zipPath, fileName, data, env.processZip, env.transport).failure
  }

  /** The stages of `trace` hold the places `first`, `first + 1`, ... of
      the fixed order. */
  predicate InOrder(trace: seq<Stage>, first: nat)
  {
    forall i :: 0 <= i < |trace| ==> trace[i].Position() == first + i
  }

  /** Every stage of `trace` but the last succeeded, and the run raised
      exactly what the last stage raises. */
  predicate StoppedAtFirstError(env: Environment, r: Run)
  {
    && |r.trace| > 0
    && (forall i :: 0 <= i < |r.trace| - 1 ==> StageError(env, r.trace[i]) == None)
    && r.error == StageError(env, r.trace[|r.trace| - 1])
  }

  /** Enter `stage`, which succeeded, and continue with `rest`. */
  function Then(stage: Stage, rest: Run): (r: Run)
  {
    Run([stage] + rest.trace, rest.sent, rest.error)
  }

  /** A stage that raises ends the run with its error. */
  function Stop(stage: Stage, e: Error): (r: Run)
  {
    Run([stage], [], Some(e))
  }

  lemma ThenKeepsOrder(env: Environment, stage: Stage, rest: Run, first: nat)
    requires stage.Position() == first && InOrder(rest.trace, first + 1)
    requires StageError(env, stage) == None && StoppedAtFirstError(env, rest)
    ensures InOrder(Then(stage, rest).trace, first)
    ensures StoppedAtFirstError(env, Then(stage, rest))
  {
    var r := Then(stage, rest);
    forall i | 0 <= i < |r.trace| - 1
      ensures StageError(env, r.trace[i]) == None
    {
      if i > 0 {
        assert r.trace[i] == rest.trace[i - 1];
      }
    }
  }

  /** `export_and_send_images`: the six stages in order, each entered only
      when every earlier one succeeded; the first error is re-raised as it
      is. */
  function ExportAndSendImages(env: Environment, ssn: string, data: QueueData): (r: Run)
    ensures 1 <= |r.trace| <= 6
    ensures r.trace[0] == ResolvePerson(ssn)
    ensures InOrder(r.trace, 0)
    ensures StoppedAtFirstError(env, r)
    ensures r.error == None ==> |r.trace| == 6
    ensures |r.trace| < 6 ==> r.sent == []
  {
    var resolve := ResolvePerson(ssn);
    match DbHandler.GetPersonInfo(env.db, ssn)
    case Err(e) => Stop(resolve, e)
    case Ok(person) =>
      var rest := FetchOnwards(env, ssn, person, data);
      ThenKeepsOrder(env, resolve, rest, 0);
      Then(resolve, rest)
  }

  /** The stages after the person is resolved. */
  function FetchOnwards(env: Environment, ssn: string, person: DbHandler.Person, data: QueueData): (r: Run)
    ensures 1 <= |r.trace| <= 5
    ensures r.trace[0] == FetchImageData(person.id)
    ensures InOrder(r.trace, 1)
    ensures StoppedAtFirstError(env, r)
    ensures r.error == None ==> |r.trace| == 5
    ensures |r.trace| < 5 ==> r.sent == []
  {
    var fetch := FetchImageData(person.id);
    match DbHandler.GetImageData(env.db, person.id)
    case Err(e) => Stop(fetch, e)
    case Ok(images) =>
      var rest := ExportOnwards(env, ssn, person.name, images, data);
      ThenKeepsOrder(env, fetch, rest, 1);
      Then(fetch, rest)
  }

  /** The stages after the image data is fetched; they all work in the one
      destination folder of the subject. */
  function ExportOnwards(
    env: Environment, ssn: string, personName: string,
    images: seq<DbHandler.ImageRecord>, data: QueueData): (r: Run)
    ensures 1 <= |r.trace| <= 4
    ensures r.trace[0] == ExportImages(images, DestinationPath(env.tempRoot, ssn), ssn, personName)
    ensures InOrder(r.trace, 2)
    ensures StoppedAtFirstError(env, r)
    ensures r.error == None ==> |r.trace| == 4
    ensures |r.trace| < 4 ==> r.sent == []
  {
    var destination := DestinationPath(env.tempRoot, ssn);
    var exportStage := ExportImages(images, destination, ssn, personName);
    match env.exportImages(images, destination, ssn, personName)
    case Some(e) => Stop(exportStage, e)
    case None =>
      var rest := ClearOnwards(env, ssn, personName, destination, data);
      ThenKeepsOrder(env, exportStage, rest, 2);
      Then(exportStage, rest)
  }

  /** Clearing the `.img` files, zipping and sending. */
  function ClearOnwards(env: Environment, ssn: string, personName: string, destination: string, data: QueueData): (r: Run)
    ensures 1 <= |r.trace| <= 3
    ensures r.trace[0] == ClearImgFiles(destination)
    ensures |r.trace| > 1 ==> r.trace[1] == CreateZip(ssn, personName, destination)
    ensures InOrder(r.trace, 3)
    ensures StoppedAtFirstError(env, r)
    ensures r.error == None ==> |r.trace| == 3
    ensures |r.trace| < 3 ==> r.sent == []
  {
    var clear := ClearImgFiles(destination);
    match env.clearImgFiles(destination)
    case Some(e) => Stop(clear, e)
    case None =>
      var rest := ZipOnwards(env, ssn, personName, destination, data);
      assert StageError(env, clear) == None;
      ThenKeepsOrder(env, clear, rest, 3);
      Then(clear, rest)
  }

  /** The email stage alone: send the zip with the queue data. */
  function SendOnly(env: Environment, zipPath: string, fileName: string, data: QueueData): (r: Run)
    ensures r.trace == [SendEmail(zipPath, fileName, data)]
    ensures InOrder(r.trace, 5)
    ensures StoppedAtFirstError(env, r)
    ensures r.sent == EmailHandler.SendEmailWithAttachment(zipPath, fileName, data, env.processZip, env.transport).sent
  {
    var send := SendEmail(zipPath, fileName, data);
    var delivery := EmailHandler.SendEmailWithAttachment(zipPath, fileName, data, env.processZip, env.transport);
    var r := Run([send], delivery.sent, StageError(env, send));
    assert r.trace[|r.trace| - 1] == send;
    r
  }

  /** Zipping, then sending exactly the zip the zip stage returned. */
  function ZipOnwards(env: Environment, ssn: string, personName: string, destination: string, data: QueueData): (r: Run)
    ensures 1 <= |r.trace| <= 2
    ensures r.trace[0] == CreateZip(ssn, personName, destination)
    ensures InOrder(r.trace, 4)
    ensures StoppedAtFirstError(env, r)
    ensures r.error == None ==> |r.trace| == 2
    ensures |r.trace| < 2 ==> r.sent == []
    ensures |r.trace| == 2 ==>
              && env.createZip(ssn, personName, destination) == Ok(ZipArtifact(r.trace[1].zipPath, r.trace[1].fileName))
              && r.trace[1].data == data
              && r.sent == EmailHandler.SendEmailWithAttachment(
                   r.trace[1].zipPath, r.trace[1].fileName, data, env.processZip, env.transport).sent
  {
    var zip := CreateZip(ssn, personName, destination);
    match env.createZip(ssn, personName, destination)
    case Err(e) => Stop(zip, e)
    case Ok(artifact) =>
      var rest := SendOnly(env, artifact.fullPath, artifact.fileName, data);
      assert StageError(env, zip) == None;
      ThenKeepsOrder(env, zip, rest, 4);
      var r := Then(zip, rest);
      assert r.trace == [zip, SendEmail(artifact.fullPath, artifact.fileName, data)];
      assert ZipArtifact(artifact.fullPath, artifact.fileName) == artifact;
      r
  }

  /** The arguments handed from stage to stage: the resolved id to the image
      query, the image data, the one workspace path, the person's name and
      the subject key to export and zip, and the zip stage's result together
      with the unchanged queue data to the email stage. */
  lemma StagesShareArguments(env: Environment, ssn: string, data: QueueData)
    ensures var r := ExportAndSendImages(env, ssn, data);
            var destination := DestinationPath(env.tempRoot, ssn);
            && (|r.trace| > 1 ==>
                  && DbHandler.GetPersonInfo(env.db, ssn).Ok? && r.trace[1].FetchImageData?
                  && r.trace[1].personId == DbHandler.GetPersonInfo(env.db, ssn).value.id)
            && (|r.trace| > 2 ==>
                  && DbHandler.GetImageData(env.db, r.trace[1].personId).Ok? && r.trace[2].ExportImages?
                  && r.trace[2].images == DbHandler.GetImageData(env.db, r.trace[1].personId).value
                  && r.trace[2].destination == destination
                  && r.trace[2].ssn == ssn
                  && r.trace[2].personName == DbHandler.GetPersonInfo(env.db, ssn).value.name)
            && (|r.trace| > 3 ==> r.trace[3] == ClearImgFiles(destination))
            && (|r.trace| > 4 ==> r.trace[4] == CreateZip(ssn, r.trace[2].personName, destination))
            && (|r.trace| > 5 ==>
                  && r.trace[5].SendEmail?
                  && env.createZip(ssn, r.trace[4].personName, destination)
                       == Ok(ZipArtifact(r.trace[5].zipPath, r.trace[5].fileName))
                  && r.trace[5].data == data
                  && r.sent == EmailHandler.SendEmailWithAttachment(
                       r.trace[5].zipPath, r.trace[5].fileName, data, env.processZip, env.transport).sent)
  {
  }

  /** A stage that fails is the last one entered: no later stage runs. */
  lemma FailureStopsLaterStages(env: Environment, ssn: string, data: QueueData, i: nat)
    requires var r := ExportAndSendImages(env, ssn, data); i < |r.trace| && StageError(env, r.trace[i]).Some?
    ensures var r := ExportAndSendImages(env, ssn, data);
            && |r.trace| == i + 1
            && r.error == StageError(env, r.trace[i])
  {
  }
}
