/** The email dispatcher: turns the packaging result (one zip, or a folder of
    zips) into the emails sent to the requester. The SMTP transport is
    replaced by a `Transport` that either accepts every email or raises on
    one send attempt; the result of a dispatch is the list of emails that
    went out, and the error that stopped it, if any.
 */
module EmailHandler {
  import opened Common
  import Decimal
  import Text
  import Ordering

  /** The fixed sender of every email. */
  const Sender: string := "no-reply@mbu.aarhus.dk"

  /** The HTML body, reduced to its kind and the requester's name it greets:
      the multi-file body adds the warning that the material comes in
      several emails. */
  datatype Body = SingleFileBody(callerName: string) | MultiFileBody(callerName: string)

  datatype Email = Email(
    receiver: string,
    sender: string,
    subject: string,
    body: Body,
    attachmentName: string)

  /** What `process_zip` found at the zip path: one zip file, or a folder
      whose directory listing (in any order) holds the split zips. */
  datatype ZipLayout = SingleZip(path: string) | ZipFolder(path: string, listing: seq<string>)

  /** The mail transport: reliable, or raising on the send attempt with the
      given 0-based index. */
  datatype Transport = Reliable | FailsAt(attempt: nat) {
    predicate Fails(k: nat)
    {
      FailsAt? && attempt == k
    }
  }

  /** The emails sent, in order, and the error that ended the dispatch. */
  datatype Delivery = Delivery(sent: seq<Email>, failure: Option<Error>)

  /** The arguments of one `send_individual_email` call besides the
      recipient and the queue data. */
  datatype Part = Part(attachmentName: string, suffix: string, multipleFiles: bool)

  // ----------------------------------------------------------------------
  // Subject line

  function BaseSubject(caseNumber: string): string
  {
    "Sagsnummer: " + caseNumber + " | Eksporteret billedmateriale fra Romexis"
  }

  /** The subject, with `" " + suffix` appended when the suffix is not empty. */
  function Subject(caseNumber: string, suffix: string): (subject: string)
    ensures Text.StartsWith(subject, BaseSubject(caseNumber))
    ensures Text.EndsWith(subject, suffix)
    ensures subject == BaseSubject(caseNumber) <==> suffix == ""
  {
    if suffix != "" then BaseSubject(caseNumber) + " " + suffix else BaseSubject(caseNumber)
  }

  /** Reads the suffix back from a subject line: `""` for the bare subject,
      the non-empty text after the separating space otherwise. */
  function SubjectSuffix(caseNumber: string, subject: string): Option<string>
  {
    var base := BaseSubject(caseNumber);
    if subject == base then Some("")
    else if Text.StartsWith(subject, base + " ") && |subject| > |base| + 1 then Some(subject[|base| + 1..])
    else None
  }

  /** The reading is exact: a subject that reads back as a suffix is the
      subject built from that suffix, so no two subjects share a suffix. */
  lemma SubjectSuffixExact(caseNumber: string, subject: string, suffix: string)
    requires SubjectSuffix(caseNumber, subject) == Some(suffix)
    ensures subject == Subject(caseNumber, suffix)
  {
    var base := BaseSubject(caseNumber);
    if subject != base {
      assert subject == subject[..|base + " "|] + subject[|base| + 1..];
    }
  }

  lemma SubjectSuffixRoundTrip(caseNumber: string, suffix: string)
    ensures SubjectSuffix(caseNumber, Subject(caseNumber, suffix)) == Some(suffix)
  {
    var base := BaseSubject(caseNumber);
    if suffix != "" {
      var subject := base + " " + suffix;
      assert subject[..|base + " "|] == base + " ";
      assert subject[|base| + 1..] == suffix;
      assert |subject| > |base|;
    }
  }

  // ----------------------------------------------------------------------
  // Part suffix "i/n"

  /** `f"{index}/{total}"`. */
  function PartSuffix(index: nat, total: nat): string
  {
    Decimal.Render(index) + "/" + Decimal.Render(total)
  }

  /** The position of the first `/` in `s`, or `|s|` when there is none. */
  function SlashIndex(s: string): (k: nat)
    ensures k <= |s|
    ensures forall j :: 0 <= j < k ==> s[j] != '/'
    ensures k < |s| ==> s[k] == '/'
  {
    if |s| == 0 || s[0] == '/' then 0 else 1 + SlashIndex(s[1..])
  }

  /** Reads `"i/n"` back into the pair of numbers. */
  function ParsePartSuffix(s: string): Option<(nat, nat)>
  {
    var k := SlashIndex(s);
    if 0 < k < |s| - 1 && Decimal.AllDigits(s[..k]) && Decimal.AllDigits(s[k + 1..]) then
      Some((Decimal.Value(s[..k]), Decimal.Value(s[k + 1..])))
    else None
  }

  lemma PartSuffixRoundTrip(index: nat, total: nat)
    ensures ParsePartSuffix(PartSuffix(index, total)) == Some((index, total))
  {
    var a, b := Decimal.Render(index), Decimal.Render(total);
    var s := a + "/" + b;
    var k := SlashIndex(s);
    assert s[|a|] == '/';
    assert k == |a|;
    assert s[..k] == a;
    assert s[k + 1..] == b;
    Decimal.ValueOfRender(index);
    Decimal.ValueOfRender(total);
  }

  // ----------------------------------------------------------------------
  // The zips of a folder

  predicate IsZipName(name: string)
  {
    Text.EndsWith(name, ".zip")
  }

  /** `glob("*.zip")` over a directory listing: the names ending in `.zip`. */
  function ZipNames(listing: seq<string>): (zips: seq<string>)
    ensures forall x :: multiset(zips)[x] == if IsZipName(x) then multiset(listing)[x] else 0
  {
    if |listing| == 0 then []
    else
      assert listing == [listing[0]] + listing[1..];
      var rest := ZipNames(listing[1..]);
      if IsZipName(listing[0]) then [listing[0]] + rest else rest
  }

  /** `sorted(path.glob("*.zip"))`. */
  function SortedZipNames(listing: seq<string>): seq<string>
  {
    Ordering.Sort(ZipNames(listing))
  }

  /** The attachment names of the parts, in order. */
  function PartNames(parts: seq<Part>): (names: seq<string>)
    ensures |names| == |parts|
    ensures forall i :: 0 <= i < |parts| ==> names[i] == parts[i].attachmentName
  {
    seq(|parts|, i requires 0 <= i < |parts| => parts[i].attachmentName)
  }

  /** Every suffix `"i/n"` of an n-part dispatch reads back as `(i, n)`. */
  lemma PartSuffixesRoundTrip(total: nat)
    ensures forall i: nat :: 1 <= i <= total ==> ParsePartSuffix(PartSuffix(i, total)) == Some((i, total))
  {
    forall i: nat | 1 <= i <= total
      ensures ParsePartSuffix(PartSuffix(i, total)) == Some((i, total))
    {
      PartSuffixRoundTrip(i, total);
    }
  }

  /** The `send_individual_email` calls `send_email_with_attachment` makes
      for a layout: the single zip under the given file name with no suffix
      and the single-file body, or each zip of the folder in sorted order
      with suffix `"i/n"` and the multi-file body. */
  function Parts(layout: ZipLayout, filename: string): (parts: seq<Part>)
    ensures layout.SingleZip? ==> parts == [Part(filename, "", false)]
    ensures layout.ZipFolder? ==> forall i :: 0 <= i < |parts| ==> parts[i].multipleFiles
  {
    match layout
    case SingleZip(_) => [Part(filename, "", false)]
    case ZipFolder(_, listing) =>
      var zips := SortedZipNames(listing);
      seq(|zips|, i requires 0 <= i < |zips| => Part(zips[i], PartSuffix(i + 1, |zips|), true))
  }

  /** A folder's parts carry its zips in sorted order, each as often as the
      folder holds it, with suffixes `"i/n"` that read back as `(i, n)`. */
  lemma FolderParts(layout: ZipLayout, filename: string)
    requires layout.ZipFolder?
    ensures var parts := Parts(layout, filename);
            && |parts| == |ZipNames(layout.listing)|
            && Ordering.Sorted(PartNames(parts))
            && multiset(PartNames(parts)) == multiset(ZipNames(layout.listing))
            && forall i :: 0 <= i < |parts| ==> ParsePartSuffix(parts[i].suffix) == Some((i + 1, |parts|))
  {
    var zips := SortedZipNames(layout.listing);
    var n := |zips|;
    var parts := Parts(layout, filename);
    assert |parts| == n;
    forall i | 0 <= i < n
      ensures PartNames(parts)[i] == zips[i]
      ensures ParsePartSuffix(parts[i].suffix) == Some((i + 1, n))
    {
      assert parts[i] == Part(zips[i], PartSuffix(i + 1, n), true);
      PartSuffixRoundTrip(i + 1, n);
    }
    assert PartNames(parts) == zips;
  }

  // ----------------------------------------------------------------------
  // One email

  /** Every field `send_individual_email` checks is present. */
  predicate Deliverable(data: QueueData)
  {
    Truthy(data.callerEmail) && Truthy(data.requestNumberServiceNow) && Truthy(data.callerName)
  }

  /** The email composed for a part once the fields are known. */
  function Letter(recipient: string, caseNumber: string, callerName: string, part: Part): Email
  {
    Email(recipient, Sender, Subject(caseNumber, part.suffix),
          if part.multipleFiles then MultiFileBody(callerName) else SingleFileBody(callerName),
          part.attachmentName)
  }

  /** What a letter holds: it goes to the recipient from the fixed sender,
      its subject reads back as the part's suffix and is the bare subject
      exactly when that suffix is empty, it greets the caller with the body
      for one or several files, and it attaches the part's file. */
  lemma LetterFields(recipient: string, caseNumber: string, callerName: string, part: Part)
    ensures var email := Letter(recipient, caseNumber, callerName, part);
            && email.receiver == recipient && email.sender == Sender
            && SubjectSuffix(caseNumber, email.subject) == Some(part.suffix)
            && (part.suffix == "" <==> email.subject == BaseSubject(caseNumber))
            && email.body.callerName == callerName && email.body.MultiFileBody? == part.multipleFiles
            && email.attachmentName == part.attachmentName
  {
    SubjectSuffixRoundTrip(caseNumber, part.suffix);
  }

  /** `send_individual_email` up to the send: checks the recipient, then the
      case number, then the caller name, and composes the email. */
  function ComposeEmail(part: Part, recipient: Option<string>, data: QueueData): (r: Result<Email>)
    ensures !Truthy(recipient) ==> r == Err(MissingRecipient)
    ensures Truthy(recipient) && !Truthy(data.requestNumberServiceNow) ==> r == Err(MissingCaseNumber)
    ensures (Truthy(recipient) && Truthy(data.requestNumberServiceNow) && !Truthy(data.callerName))
              ==> r == Err(MissingCallerName)
    ensures r.Ok? <==> Truthy(recipient) && Truthy(data.requestNumberServiceNow) && Truthy(data.callerName)
    ensures r.Ok? ==> && r.value.receiver == recipient.value
                      && r.value.sender == Sender
                      && SubjectSuffix(data.requestNumberServiceNow.value, r.value.subject) == Some(part.suffix)
                      && (part.suffix == "" <==> r.value.subject == BaseSubject(data.requestNumberServiceNow.value))
                      && r.value.body.callerName == data.callerName.value
                      && r.value.body.MultiFileBody? == part.multipleFiles
                      && r.value.attachmentName == part.attachmentName
  {
    if !Truthy(recipient) then Err(MissingRecipient)
    else if !Truthy(data.requestNumberServiceNow) then Err(MissingCaseNumber)
    else if !Truthy(data.callerName) then Err(MissingCallerName)
    else
      LetterFields(recipient.value, data.requestNumberServiceNow.value, data.callerName.value, part);
      Ok(Letter(recipient.value, data.requestNumberServiceNow.value, data.callerName.value, part))
  }

  /** Validation reads only the recipient and the queue data, so it fails the
      same way for every part. */
  lemma ValidationIgnoresPart(part: Part, other: Part, recipient: Option<string>, data: QueueData)
    ensures ComposeEmail(part, recipient, data).Failure() == ComposeEmail(other, recipient, data).Failure()
  {
  }

  // ----------------------------------------------------------------------
  // Dispatch

  /** The emails the parts become when every field is present. */
  function Planned(parts: seq<Part>, data: QueueData): (emails: seq<Email>)
    requires Deliverable(data)
    ensures |emails| == |parts|
  {
    seq(|parts|, i requires 0 <= i < |parts| =>
      Letter(data.callerEmail.value, data.requestNumberServiceNow.value, data.callerName.value, parts[i]))
  }

  /** How many of `count` sends starting at attempt `first` go through. */
  function Delivered(transport: Transport, first: nat, count: nat): (k: nat)
    ensures k <= count
    ensures forall j :: first <= j < first + k ==> !transport.Fails(j)
    ensures k < count ==> transport.Fails(first + k)
  {
    if transport.FailsAt? && first <= transport.attempt < first + count then transport.attempt - first else count
  }

  /** The loop of `send_email_with_attachment`: for each part in turn,
      validate and compose, then send; the first error ends the loop and is
      re-raised. `attempt` numbers the sends. */
  function SendParts(parts: seq<Part>, data: QueueData, transport: Transport, attempt: nat): (d: Delivery)
    ensures |parts| == 0 ==> d == Delivery([], None)
    ensures (|parts| > 0 && !Deliverable(data))
              ==> d == Delivery([], ComposeEmail(parts[0], data.callerEmail, data).Failure())
    ensures Deliverable(data) ==>
              var k := Delivered(transport, attempt, |parts|);
              && d.sent == Planned(parts, data)[..k]
              && d.failure == (if k < |parts| then Some(TransportFailed(attempt + k)) else None)
    decreases |parts|
  {
    if |parts| == 0 then Delivery([], None)
    else
      match ComposeEmail(parts[0], data.callerEmail, data)
      case Err(e) => Delivery([], Some(e))
      case Ok(email) =>
        if transport.Fails(attempt) then Delivery([], Some(TransportFailed(attempt)))
        else
          var rest := SendParts(parts[1..], data, transport, attempt + 1);
          assert Deliverable(data);
          var k := Delivered(transport, attempt + 1, |parts| - 1);
          assert Delivered(transport, attempt, |parts|) == k + 1;
          PlannedCons(parts, data);
          assert ([email] + Planned(parts[1..], data))[..k + 1] == [email] + Planned(parts[1..], data)[..k];
          Delivery([email] + rest.sent, rest.failure)
  }

  /** The first planned email is the first part's letter. */
  lemma PlannedCons(parts: seq<Part>, data: QueueData)
    requires Deliverable(data) && |parts| > 0
    ensures Planned(parts, data)
            == [Letter(data.callerEmail.value, data.requestNumberServiceNow.value, data.callerName.value, parts[0])]
               + Planned(parts[1..], data)
  {
    var all, rest := Planned(parts, data), Planned(parts[1..], data);
    var first := Letter(data.callerEmail.value, data.requestNumberServiceNow.value, data.callerName.value, parts[0]);
    assert all[0] == first;
    forall i | 1 <= i < |parts|
      ensures all[i] == rest[i - 1]
    {
      assert parts[1..][i - 1] == parts[i];
    }
    assert all == [first] + rest;
  }

  /** `send_email_with_attachment`: resolve the zip path, then send one
      email per part. An error of `process_zip` is re-raised before any
      send. */
  function SendEmailWithAttachment(
    zipPath: string, filename: string, data: QueueData,
    processZip: string -> Result<ZipLayout>, transport: Transport): (d: Delivery)
    ensures processZip(zipPath).Err? ==> d == Delivery([], Some(processZip(zipPath).error))
  {
    match processZip(zipPath)
    case Err(e) => Delivery([], Some(e))
    case Ok(layout) => SendParts(Parts(layout, filename), data, transport, 0)
  }

  /** No more emails go out than the layout has parts, and those that go out
      are the first of the planned letters. */
  lemma SendEmailWithAttachmentBound(
    zipPath: string, filename: string, data: QueueData,
    processZip: string -> Result<ZipLayout>, transport: Transport)
    requires processZip(zipPath).Ok?
    ensures var d := SendEmailWithAttachment(zipPath, filename, data, processZip, transport);
            var parts := Parts(processZip(zipPath).value, filename);
            && |d.sent| <= |parts|
            && (Deliverable(data) ==> d.sent == Planned(parts, data)[..|d.sent|])
  {
  }

  // ----------------------------------------------------------------------
  // Properties of a dispatch

  function AttachmentNames(emails: seq<Email>): (names: seq<string>)
    ensures |names| == |emails|
    ensures forall i :: 0 <= i < |emails| ==> names[i] == emails[i].attachmentName
  {
    seq(|emails|, i requires 0 <= i < |emails| => emails[i].attachmentName)
  }

  /** A single zip becomes exactly one email without a suffix, with the
      single-file body and the given file name. */
  lemma SingleZipSendsOneEmail(
    zipPath: string, filename: string, data: QueueData,
    processZip: string -> Result<ZipLayout>, transport: Transport)
    requires processZip(zipPath).Ok? && processZip(zipPath).value.SingleZip?
    requires Deliverable(data) && !transport.Fails(0)
    ensures var d := SendEmailWithAttachment(zipPath, filename, data, processZip, transport);
            && d.failure == None
            && |d.sent| == 1
            && d.sent[0].subject == BaseSubject(data.requestNumberServiceNow.value)
            && d.sent[0].body == SingleFileBody(data.callerName.value)
            && d.sent[0].attachmentName == filename
            && d.sent[0].receiver == data.callerEmail.value
            && d.sent[0].sender == Sender
  {
  }

  /** A folder of n zips becomes n emails: the i-th carries the i-th zip in
      sorted order, suffix "i/n" and the multi-file body; the attachments
      are sorted and are exactly the folder's zips. */
  lemma {:induction false} FolderSendsEachZipInOrder(
    zipPath: string, filename: string, data: QueueData,
    processZip: string -> Result<ZipLayout>, transport: Transport)
    requires processZip(zipPath).Ok? && processZip(zipPath).value.ZipFolder?
    requires Deliverable(data)
    requires var n := |ZipNames(processZip(zipPath).value.listing)|;
             forall j :: 0 <= j < n ==> !transport.Fails(j)
    ensures var listing := processZip(zipPath).value.listing;
            var n := |ZipNames(listing)|;
            var d := SendEmailWithAttachment(zipPath, filename, data, processZip, transport);
            && d.failure == None
            && |d.sent| == n
            && Ordering.Sorted(AttachmentNames(d.sent))
            && multiset(AttachmentNames(d.sent)) == multiset(ZipNames(listing))
            && forall i :: 0 <= i < n ==>
                 && SubjectSuffix(data.requestNumberServiceNow.value, d.sent[i].subject) == Some(PartSuffix(i + 1, n))
                 && ParsePartSuffix(PartSuffix(i + 1, n)) == Some((i + 1, n))
                 && d.sent[i].body == MultiFileBody(data.callerName.value)
                 && d.sent[i].receiver == data.callerEmail.value
  {
    var layout := processZip(zipPath).value;
    var zips := SortedZipNames(layout.listing);
    var parts := Parts(layout, filename);
    assert |parts| == |zips|;
    var d := SendParts(parts, data, transport, 0);
    assert SendEmailWithAttachment(zipPath, filename, data, processZip, transport) == d;
    assert Delivered(transport, 0, |parts|) == |parts|;
    var letters := Planned(parts, data);
    assert letters[..|parts|] == letters;
    assert d.sent == letters;
    FolderLetters(layout, filename, data);
    assert AttachmentNames(d.sent) == zips;
  }

  /** The letters planned for a folder, one per zip in sorted order. */
  lemma FolderLetters(layout: ZipLayout, filename: string, data: QueueData)
    requires layout.ZipFolder? && Deliverable(data)
    ensures var zips := SortedZipNames(layout.listing);
            var n := |zips|;
            var letters := Planned(Parts(layout, filename), data);
            && |letters| == n
            && AttachmentNames(letters) == zips
            && forall i :: 0 <= i < n ==>
                 && SubjectSuffix(data.requestNumberServiceNow.value, letters[i].subject) == Some(PartSuffix(i + 1, n))
                 && ParsePartSuffix(PartSuffix(i + 1, n)) == Some((i + 1, n))
                 && letters[i].body == MultiFileBody(data.callerName.value)
                 && letters[i].receiver == data.callerEmail.value
  {
    var zips := SortedZipNames(layout.listing);
    var n := |zips|;
    var parts := Parts(layout, filename);
    assert |parts| == n;
    var letters := Planned(parts, data);
    forall i | 0 <= i < n
      ensures letters[i].attachmentName == zips[i]
      ensures SubjectSuffix(data.requestNumberServiceNow.value, letters[i].subject) == Some(PartSuffix(i + 1, n))
      ensures letters[i].body == MultiFileBody(data.callerName.value)
      ensures letters[i].receiver == data.callerEmail.value
    {
      assert parts[i] == Part(zips[i], PartSuffix(i + 1, n), true);
      LetterFields(data.callerEmail.value, data.requestNumberServiceNow.value, data.callerName.value, parts[i]);
    }
    PartSuffixesRoundTrip(n);
    assert AttachmentNames(letters) == zips;
  }

  /** A folder without zips sends nothing and raises nothing, whatever the
      queue data and the transport. */
  lemma EmptyFolderSendsNothing(
    zipPath: string, filename: string, data: QueueData,
    processZip: string -> Result<ZipLayout>, transport: Transport)
    requires processZip(zipPath).Ok? && processZip(zipPath).value.ZipFolder?
    requires |ZipNames(processZip(zipPath).value.listing)| == 0
    ensures SendEmailWithAttachment(zipPath, filename, data, processZip, transport) == Delivery([], None)
  {
  }

  /** A missing recipient, case number or caller name is reported in that
      order before any email is sent; for a folder the error comes from its
      first part. */
  lemma MissingFieldSendsNothing(
    zipPath: string, filename: string, data: QueueData,
    processZip: string -> Result<ZipLayout>, transport: Transport)
    requires processZip(zipPath).Ok?
    requires |Parts(processZip(zipPath).value, filename)| > 0
    ensures var d := SendEmailWithAttachment(zipPath, filename, data, processZip, transport);
            && (!Truthy(data.callerEmail) ==> d == Delivery([], Some(MissingRecipient)))
            && ((Truthy(data.callerEmail) && !Truthy(data.requestNumberServiceNow))
                  ==> d == Delivery([], Some(MissingCaseNumber)))
            && ((Truthy(data.callerEmail) && Truthy(data.requestNumberServiceNow) && !Truthy(data.callerName))
                  ==> d == Delivery([], Some(MissingCallerName)))
  {
  }

  /** A send that raises on attempt k re-raises at once: the first k emails
      went out, the rest are never attempted. */
  lemma SendFailureStopsDispatch(
    zipPath: string, filename: string, data: QueueData,
    processZip: string -> Result<ZipLayout>, k: nat)
    requires processZip(zipPath).Ok?
    requires Deliverable(data)
    requires k < |Parts(processZip(zipPath).value, filename)|
    ensures var parts := Parts(processZip(zipPath).value, filename);
            var d := SendEmailWithAttachment(zipPath, filename, data, processZip, FailsAt(k));
            && d.sent == Planned(parts, data)[..k]
            && |d.sent| == k
            && d.failure == Some(TransportFailed(k))
  {
  }

  /** Every email sent goes to `callerEmail` from the fixed sender. */
  lemma EveryEmailToCaller(
    zipPath: string, filename: string, data: QueueData,
    processZip: string -> Result<ZipLayout>, transport: Transport)
    ensures var d := SendEmailWithAttachment(zipPath, filename, data, processZip, transport);
            forall e :: e in d.sent ==>
              Truthy(data.callerEmail) && e.receiver == data.callerEmail.value && e.sender == Sender
  {
    var d := SendEmailWithAttachment(zipPath, filename, data, processZip, transport);
    if processZip(zipPath).Ok? && Deliverable(data) {
      var parts := Parts(processZip(zipPath).value, filename);
      var planned := Planned(parts, data);
      var k := Delivered(transport, 0, |parts|);
      assert d.sent == planned[..k];
      forall e | e in d.sent
        ensures e.receiver == data.callerEmail.value && e.sender == Sender
      {
        var i :| 0 <= i < k && d.sent[i] == e;
        assert e == planned[i];
      }
    }
  }

  /** The emails do not depend on the order the directory listing comes in. */
  lemma ListingOrderIrrelevant(
    zipPath: string, filename: string, data: QueueData, transport: Transport,
    listing: seq<string>, other: seq<string>)
    requires multiset(listing) == multiset(other)
    ensures SendParts(Parts(ZipFolder(zipPath, listing), filename), data, transport, 0)
         == SendParts(Parts(ZipFolder(zipPath, other), filename), data, transport, 0)
  {
    ZipNamesPermutation(listing, other);
    Ordering.SortedUnique(SortedZipNames(listing), SortedZipNames(other));
  }

  lemma ZipNamesPermutation(listing: seq<string>, other: seq<string>)
    requires multiset(listing) == multiset(other)
    ensures multiset(SortedZipNames(listing)) == multiset(SortedZipNames(other))
  {
    var a, b := ZipNames(listing), ZipNames(other);
    assert forall x :: multiset(a)[x] == multiset(b)[x];
    assert multiset(a) == multiset(b);
  }
}
