# Romexis image-export robot — Dafny model

This project models the core of the robot that exports a patient's dental
images from the Romexis database and mails them to the person who asked for
them. Four pieces of the Python code are modelled as pure functions over
immutable datatypes:

- **Resolver** (`DbHandler`): looks up the person for a CPR number and builds
  their display name. It then fetches the image ids and the image rows, and
  fails when any of these lookups comes back empty. The database handler is a
  `Database` value holding three query functions.
- **Email dispatcher** (`EmailHandler`): turns the packaging result into the
  emails that are sent. The result is either one zip or a folder of zips.
  - Each email has a receiver, the fixed sender, a subject, a body kind and an
    attachment name.
  - The recipient, the case number and the caller name are checked in that
    order.
  - Folder parts are sent in sorted order, and each subject carries the part
    suffix `i/n`.
  - SMTP is a `Transport` that may raise on one send attempt. A dispatch yields
    the emails that went out and the error that stopped it.
- **Orchestration** (`ExportAndSend`): the six stages in their fixed order.
  These are resolve person, fetch image data, export images, clear `.img`
  files, zip, and send email. A run records its trace of stages and the
  arguments each stage received. Image export, `.img` clearing, zipping and
  `process_zip` are collaborators passed in as functions.
- **Process wrapper** (`Process`): strips hyphens from the CPR number and runs
  the export inside `try`/`finally`, with cleanup in the `finally`. Deleting
  the temporary files is one abstract effect that either succeeds or raises.
  Failures before the `try` skip the cleanup.

Supporting modules:
- `Common`: `Option`, `Result`, the error kinds, the queue data, and Python
  truthiness of a `.get` value.
- `Decimal`: `f"{n}"` and its parser.
- `Text`: `" ".join`, `str.split(" ")`, and prefix and suffix tests.
- `Ordering`: `str` ordering, `sorted`, and the uniqueness of a sorted
  rearrangement.

The model follows the code as written, including where a stricter behaviour
might be expected:
- `get_person_info` does not check that the id or the name is present. A
  first row with no truthy name fragment resolves to the empty name.
- Only a missing `person_id` key raises, as a `KeyError` (`MissingField`).
- A folder holding no zips sends nothing and raises nothing.

## Model

| member | source | states |
|---|---|---|
| `DbHandler.GetPersonInfo` | robot_framework/subprocesses/db_handler.py:6-26 | No person rows raise `NoPersonFound`, and only in that case. A first row without `person_id` raises `KeyError`. Resolution succeeds exactly when there is a first row and it has `person_id`; the id is then that `person_id` and the name is that row's display name. |
| `DbHandler.FirstRowOnly` | robot_framework/subprocesses/db_handler.py:12-13 | Databases that agree on the first person row resolve to the same person, whatever rows follow. |
| `DbHandler.KeepTruthy` | robot_framework/subprocesses/db_handler.py:14-24 | `filter(None, …)` keeps only non-empty fragments and never more than it was given. Nothing is kept exactly when no fragment is truthy. A single fragment is kept exactly when it is truthy. |
| `DbHandler.KeepTruthyMembers` | robot_framework/subprocesses/db_handler.py:14-24 | Every truthy fragment is kept, and everything kept is one of the fragments. |
| `DbHandler.KeepAllTruthy` | robot_framework/subprocesses/db_handler.py:14-24 | When every fragment is truthy, all of them are kept, in their order. |
| `DbHandler.KeepTruthyConcat` | robot_framework/subprocesses/db_handler.py:14-24 | Filtering a concatenation keeps each piece's fragments in order, so together with the one-fragment case the kept list is the truthy fragments in their original order and number. |
| `DbHandler.DisplayName` | robot_framework/subprocesses/db_handler.py:14-24 | The name is `""` exactly when no fragment is truthy. |
| `DbHandler.DisplayNameStartsWithFirst` | robot_framework/subprocesses/db_handler.py:14-24 | A present first name opens the display name. |
| `DbHandler.DisplayNameEmptyIff` | robot_framework/subprocesses/db_handler.py:12-26 | A first row with `person_id` always resolves, and the resolved name is `""` exactly when every fragment is absent, null or empty. No error is raised in that case. |
| `DbHandler.DisplayNameSplits` | robot_framework/subprocesses/db_handler.py:14-24 | If the fragments hold no spaces, splitting the name at its spaces gives back the truthy fragments in first, second, third, last order. |
| `DbHandler.DisplayNameOrder` | robot_framework/subprocesses/db_handler.py:14-24 | With all four fragments present, the name is first, second, third and last name, separated by single spaces. |
| `DbHandler.DisplayNameSkipsMissing` | robot_framework/subprocesses/db_handler.py:14-24 | Absent or empty middle fragments are skipped: first and last name alone give `"first last"`, never the reverse. |
| `DbHandler.GetImageData` | robot_framework/subprocesses/db_handler.py:29-39 | No ids raise `NoImagesFound`. Ids with no image rows raise `NoImageDataFound`. Success happens exactly when both lookups are non-empty, and the rows are then returned unchanged. |
| `DbHandler.NoImageDataQueryWithoutIds` | robot_framework/subprocesses/db_handler.py:31-35 | Without image ids the image-data query is never consulted: replacing it changes nothing. |
| `Text.SplitJoin` | robot_framework/subprocesses/db_handler.py:14-24 | `str.split(" ")` undoes `" ".join` on a non-empty list of space-free parts. |
| `Text.JoinEmptyIff` | robot_framework/subprocesses/db_handler.py:14-24 | Joining non-empty parts gives `""` exactly when there are no parts. |
| `Text.Join` | robot_framework/subprocesses/db_handler.py:14-24 | `" ".join` starts with the first part and, with more than one part, puts a space right after it. |
| `Decimal.ValueOfRender` | robot_framework/subprocesses/email_handler.py:50 | Reading back the decimal rendering of the part index or total gives the number. |
| `Decimal.RenderInjective` | robot_framework/subprocesses/email_handler.py:50 | Different numbers render differently. |
| `Decimal.Render` | robot_framework/subprocesses/email_handler.py:50 | `f"{n}"` is a non-empty run of digits with no leading zero. |
| `Ordering.Sort` | robot_framework/subprocesses/email_handler.py:36 | `sorted` returns a sorted permutation of the zip names. |
| `Ordering.SortedUnique` | robot_framework/subprocesses/email_handler.py:36 | Two sorted lists holding the same names are equal, so the sorted order is determined by the set of names. |
| `Ordering.BelowPrefix` | robot_framework/subprocesses/email_handler.py:36 | Under `str` ordering, used by `sorted`, a prefix comes before every extension of it. |
| `Ordering.BelowFirstDifference` | robot_framework/subprocesses/email_handler.py:36 | Otherwise the first differing code point decides: a larger one puts the name after the other. |
| `EmailHandler.SubjectSuffixRoundTrip` | robot_framework/subprocesses/email_handler.py:102-108 | The suffix can be read back from the subject: `""` when nothing was appended, and the text after `" "` otherwise. |
| `EmailHandler.Subject` | robot_framework/subprocesses/email_handler.py:102-108 | The subject starts with the base subject, which names the case number, and ends with the suffix. It is the bare base subject exactly when the suffix is empty. |
| `EmailHandler.SubjectSuffixExact` | robot_framework/subprocesses/email_handler.py:102-108 | A subject that reads back as a suffix is the subject built from that suffix, so `" "` is never appended for an empty suffix and distinct suffixes give distinct subjects. |
| `EmailHandler.PartSuffixRoundTrip` | robot_framework/subprocesses/email_handler.py:50 | `"{index}/{total}"` parses back to the pair `(index, total)`. |
| `EmailHandler.ZipNames` | robot_framework/subprocesses/email_handler.py:36 | `glob("*.zip")` keeps each name ending in `.zip` as often as the listing holds it, and no other name. |
| `EmailHandler.Parts` | robot_framework/subprocesses/email_handler.py:34-66 | A single zip is one part under `filename` with no suffix and the single-file body. Every part of a folder has the multi-file body. |
| `EmailHandler.FolderParts` | robot_framework/subprocesses/email_handler.py:34-52 | A folder's parts carry its zips in sorted order, each as often as the folder holds it, with 1-based `i/n` suffixes that parse back to `(i, n)`. |
| `EmailHandler.LetterFields` | robot_framework/subprocesses/email_handler.py:102-152 | The email goes to the recipient from the fixed sender, its subject reads back as the part's suffix and is the bare subject exactly when the suffix is empty, it greets the caller with the body for one or several files, and it attaches the part's file. |
| `EmailHandler.ComposeEmail` | robot_framework/subprocesses/email_handler.py:91-147 | The recipient is checked first, then the case number, then the caller name. The first one missing is the error, and the email is built exactly when all three are present. The email goes to the recipient from the fixed sender, carries the given suffix (the bare subject exactly when it is empty), greets the caller and has the body kind for single or multiple files. |
| `EmailHandler.ValidationIgnoresPart` | robot_framework/subprocesses/email_handler.py:91-100 | Validation depends only on the recipient and the queue data, so every part fails it the same way. |
| `EmailHandler.SendParts` | robot_framework/subprocesses/email_handler.py:38-52 | No parts give no emails and no error. With a field missing, the first part's validation error is raised and nothing is sent. Otherwise the emails before the failing send attempt go out in order, and that attempt's `TransportFailed` is raised. |
| `EmailHandler.SendEmailWithAttachment` | robot_framework/subprocesses/email_handler.py:14-69 | A `process_zip` error is re-raised before any send. |
| `EmailHandler.SendEmailWithAttachmentBound` | robot_framework/subprocesses/email_handler.py:14-69 | No more emails are sent than the layout has parts, and the emails sent are the first of the planned letters, in order. |
| `EmailHandler.SingleZipSendsOneEmail` | robot_framework/subprocesses/email_handler.py:53-66 | A single zip gives exactly one email. It has no suffix, the single-file body and the attachment named `filename`, and goes to `callerEmail` from the fixed sender. |
| `EmailHandler.FolderSendsEachZipInOrder` | robot_framework/subprocesses/email_handler.py:34-52 | A folder of n zips gives n emails. Their attachments are sorted and are exactly the folder's zips. Email i has suffix `"{i+1}/{n}"`, which parses back to `(i+1, n)`, and the multi-file body. |
| `EmailHandler.FolderLetters` | robot_framework/subprocesses/email_handler.py:36-52 | The planned emails for a folder follow the sorted zip names one to one, with 1-based `i/n` suffixes and the multi-file body. |
| `EmailHandler.EmptyFolderSendsNothing` | robot_framework/subprocesses/email_handler.py:36-38 | A folder without zips sends nothing and raises nothing, even when queue fields are missing. |
| `EmailHandler.MissingFieldSendsNothing` | robot_framework/subprocesses/email_handler.py:91-100 | A missing recipient, case number or caller name is raised, in that order of precedence, with zero emails sent. |
| `EmailHandler.SendFailureStopsDispatch` | robot_framework/subprocesses/email_handler.py:149-163 | If send attempt k raises, exactly the first k planned emails went out, and `TransportFailed(k)` is re-raised. |
| `EmailHandler.EveryEmailToCaller` | robot_framework/subprocesses/email_handler.py:149-152 | Every sent email goes to `callerEmail` from `no-reply@mbu.aarhus.dk`. |
| `EmailHandler.ListingOrderIrrelevant` | robot_framework/subprocesses/email_handler.py:36 | The emails do not depend on the order of the directory listing. |
| `ExportAndSend.DestinationPathInjective` | robot_framework/subprocesses/export_and_send_images.py:35 | Distinct single-component subject keys get distinct `TEMP_ROOT_PATH/ssn/img` workspaces. |
| `ExportAndSend.PathJoinShape` | robot_framework/subprocesses/export_and_send_images.py:35 | Windows `os.path.join` keeps the first component as a prefix and the second as a suffix, with a separator right before the second unless the first is empty, adding at most one character. |
| `ExportAndSend.DestinationPathUnderRoot` | robot_framework/subprocesses/export_and_send_images.py:35 | The workspace path starts with `TEMP_ROOT_PATH`. |
| `ExportAndSend.DestinationPathEndsInKey` | robot_framework/subprocesses/export_and_send_images.py:35 | The workspace path ends in `ssn\img` when the key does not end in a separator. |
| `ExportAndSend.ThenKeepsOrder` | robot_framework/subprocesses/export_and_send_images.py:29-58 | Putting a successful stage in front of a run that stopped at its first error keeps both the stage order and that property. |
| `ExportAndSend.ExportAndSendImages` | robot_framework/subprocesses/export_and_send_images.py:22-58 | The stages entered are a prefix of the fixed six-stage order, starting with resolving the given key. Every stage before the last succeeded on its recorded arguments. The error is exactly the last stage's own error. Success means all six stages ran, and nothing is sent unless the email stage ran. |
| `ExportAndSend.FetchOnwards` | robot_framework/subprocesses/export_and_send_images.py:33 | The image data is fetched for the resolved person id, and the later stages follow in order. |
| `ExportAndSend.ExportOnwards` | robot_framework/subprocesses/export_and_send_images.py:35-39 | Export receives the fetched images, the path `TEMP_ROOT_PATH/ssn/img`, the key and the person's name. |
| `ExportAndSend.ClearOnwards` | robot_framework/subprocesses/export_and_send_images.py:41-47 | Clearing and zipping receive the same destination folder, and zipping receives the key and the name. |
| `ExportAndSend.ZipOnwards` | robot_framework/subprocesses/export_and_send_images.py:44-54 | The email stage receives exactly the path and file name the zip stage returned, together with the queue data. The emails sent are that stage's emails. |
| `ExportAndSend.StagesShareArguments` | robot_framework/subprocesses/export_and_send_images.py:32-53 | Across a whole run, the arguments are threaded as above: id to image query, images and path to export, the same path to clear and zip, the person name to export and zip, and the zip result to email. |
| `ExportAndSend.FailureStopsLaterStages` | robot_framework/subprocesses/export_and_send_images.py:29-58 | A stage that fails is the last stage entered, and its error is the one re-raised. |
| `Process.StripHyphens` | robot_framework/process.py:28 | The result contains no `-` and keeps the count of every other character. A CPR number without hyphens is returned unchanged. |
| `Process.StripHyphensIdempotent` | robot_framework/process.py:28 | Stripping again changes nothing. |
| `Process.StripHyphensConcat` | robot_framework/process.py:28 | Stripping works piece by piece, so the remaining characters keep their order. |
| `Process.CleanupCountConcat` | robot_framework/process.py:39-40 | Cleanup counts add up over concatenated event lists. |
| `Process.TryExport` | robot_framework/process.py:26-38 | The `try` body never cleans up. A missing `patient_cpr` or an unavailable connection constant raises before export. Otherwise export is called once, with the hyphen-free key and the unchanged queue data. Its stages, emails and error are passed through. |
| `Process.RunProcess` | robot_framework/process.py:12-40 | An unreadable queue element or a missing `requestNumberServiceNow` raises with no export and no cleanup. Once the `try` is entered, cleanup runs exactly once and last, after the `try` body's events. A cleanup error replaces the export's error; otherwise the export's error propagates. Export always gets the queue data unchanged and a key with no `-`. |
| `Process.ExportErrorPropagates` | robot_framework/process.py:36-40 | With a successful cleanup, the caller sees exactly the export's error. The events are the export call, its stages, then the cleanup. |

## Left out

- `main.py`: it bootstraps a virtual environment and starts the robot, and holds no logic.
- `delete_temp_files_and_folders` (`shared_functions.py`) is one abstract effect, `cleanup: Option<Error>`. Its sweep over `TEMP_ROOT_PATH` and its partial deletions belong to the standard library and are not modelled.
- `zip_handler` (`create_zip_from_images`, `process_zip`) and `image_handler` (`process_images_threaded`, `clear_img_files_in_folder`) are not part of this model. They are opaque functions of the `Environment`, so no splitting, packing or worker pool is modelled.
- The SMTP transport becomes the `Transport` value, which accepts every email or raises on one send attempt.
- Reading each zip into `BytesIO` is not modelled, and neither is an `open` failure of a zip file.
- The HTML bodies become `SingleFileBody` / `MultiFileBody` carrying the caller's name. The exact Danish text is not modelled.
- The `RomexisDbHandler` constructor is assumed to succeed. The connection string is only an input that may be unavailable.
- Orchestrator logging, `print` output and `json.loads` are left out. The queue element arrives already parsed, as `Result<QueueData>`, whose error stands for a missing element or malformed JSON.
- JSON values that are not strings are not modelled. A queue field is a string, or `None` when absent or null. `"Reference: " + value` fails before the `try` on an absent or null `requestNumberServiceNow`.
- A null `person_id` value is not distinguished from a present one. Only an absent key raises.
- `EmailHandler.ZipNames` and `Ordering.Sort` match `*.zip` and compare names case-sensitively by code point. On Windows, glob matching and path comparison ignore case; that is not modelled.
- A directory whose name ends in `.zip` is not modelled.
- `ExportAndSend.PathJoin` is Windows `os.path.join`, because the robot runs on Windows: `\` is inserted and both `\` and `/` count as separators. It handles only relative components; an absolute or drive-qualified component is not modelled.
- `Process.RunProcess` and `Process.TryExport`: an absent key and a JSON null are merged into one `MissingField` error. Python raises `KeyError` for an absent `requestNumberServiceNow` or `patient_cpr`, but `TypeError` (`"Reference: " + None`) or `AttributeError` (`None.replace`) for a null one; both end the run before the export, with the same cleanup behaviour.
