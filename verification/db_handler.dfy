/** The person and image-inventory resolver. The Romexis database handler is
    replaced by three functions passed in as a `Database`: the person rows for
    an external id, the image ids of a patient, and the image rows for a list
    of image ids.
 */
module DbHandler {
  import opened Common
  import Text

  /** One row of the person query. `personId` is `None` when the row lacks the
      `person_id` key; a name fragment is `None` when its key is absent or
      null. */
  datatype PersonRow = PersonRow(
    personId: Option<string>,
    firstName: Option<string>,
    secondName: Option<string>,
    thirdName: Option<string>,
    lastName: Option<string>)

  /** One row of the image-data query; its contents are not interpreted here. */
  datatype ImageRecord = ImageRecord(fields: map<string, string>)

  /** The three queries of the database handler. */
  datatype Database = Database(
    getPersonData: string -> seq<PersonRow>,
    getImageIds: string -> seq<string>,
    getImageData: seq<string> -> seq<ImageRecord>)

  /** The resolved person: database id and display name. */
  datatype Person = Person(id: string, name: string)

  /** The name fragments of a row, in the order they are joined. */
  function NameFragments(row: PersonRow): seq<Option<string>>
  {
    [row.firstName, row.secondName, row.thirdName, row.lastName]
  }

  /** `filter(None, fragments)`: the truthy fragments, in their order. */
  function KeepTruthy(fragments: seq<Option<string>>): (kept: seq<string>)
    ensures forall i :: 0 <= i < |kept| ==> kept[i] != ""
    ensures |kept| <= |fragments|
    ensures |kept| == 0 <==> forall i :: 0 <= i < |fragments| ==> !Truthy(fragments[i])
    ensures |fragments| == 1 ==> kept == (if Truthy(fragments[0]) then [fragments[0].value] else [])
  {
    if |fragments| == 0 then []
    else
      var rest := KeepTruthy(fragments[1..]);
      assert forall i :: 1 <= i < |fragments| ==> fragments[i] == fragments[1..][i - 1];
      if Truthy(fragments[0]) then [fragments[0].value] + rest else rest
  }

  /** Every truthy fragment is kept, and everything kept is one of the
      fragments. */
  lemma {:induction false} KeepTruthyMembers(fragments: seq<Option<string>>)
    ensures forall i :: 0 <= i < |fragments| && Truthy(fragments[i]) ==> fragments[i].value in KeepTruthy(fragments)
    ensures forall s :: s in KeepTruthy(fragments) ==> Some(s) in fragments
  {
    if |fragments| > 0 {
      KeepTruthyMembers(fragments[1..]);
      assert forall i :: 1 <= i < |fragments| ==> fragments[i] == fragments[1..][i - 1];
    }
  }

  /** Filtering works piece by piece: the fragments kept from a
      concatenation are those kept from each piece, in the same order. */
  lemma {:induction false} KeepTruthyConcat(a: seq<Option<string>>, b: seq<Option<string>>)
    ensures KeepTruthy(a + b) == KeepTruthy(a) + KeepTruthy(b)
  {
    if |a| > 0 {
      assert (a + b)[0] == a[0];
      assert (a + b)[1..] == a[1..] + b;
      KeepTruthyConcat(a[1..], b);
    } else {
      assert a + b == b;
    }
  }

  /** The display name: the truthy fragments joined by single spaces. It is
      empty exactly when no fragment is truthy. */
  function DisplayName(row: PersonRow): (name: string)
    ensures name == "" <==> forall i :: 0 <= i < 4 ==> !Truthy(NameFragments(row)[i])
  {
    var kept := KeepTruthy(NameFragments(row));
    Text.JoinEmptyIff(kept);
    Text.Join(kept)
  }

  /** A present first name opens the display name. */
  lemma DisplayNameStartsWithFirst(row: PersonRow)
    requires Truthy(row.firstName)
    ensures Text.StartsWith(DisplayName(row), row.firstName.value)
  {
    var f := NameFragments(row);
    assert f == [f[0]] + f[1..];
    KeepTruthyConcat([f[0]], f[1..]);
  }

  /** `get_person_info`: the first row's id and display name. No person rows
      raise `NoPersonFound`; a first row without `person_id` raises the
      `KeyError` of the dictionary lookup. The name is not checked. */
  function GetPersonInfo(db: Database, ssn: string): (r: Result<Person>)
    ensures |db.getPersonData(ssn)| == 0 <==> r == Err(NoPersonFound(ssn))
    ensures (|db.getPersonData(ssn)| > 0 && db.getPersonData(ssn)[0].personId.None?)
              ==> r == Err(MissingField("person_id"))
    ensures r.Ok? <==> |db.getPersonData(ssn)| > 0 && db.getPersonData(ssn)[0].personId.Some?
    ensures r.Ok? ==> |db.getPersonData(ssn)| > 0
                      && db.getPersonData(ssn)[0].personId == Some(r.value.id)
                      && r.value.name == DisplayName(db.getPersonData(ssn)[0])
  {
    var rows := db.getPersonData(ssn);
    if |rows| == 0 then Err(NoPersonFound(ssn))
    else
      var person := rows[0];
      match person.personId
      case None => Err(MissingField("person_id"))
      case Some(id) => Ok(Person(id, DisplayName(person)))
  }

  /** Only the first row matters: two databases that agree on the first
      person row resolve to the same person, whatever rows follow. */
  lemma FirstRowOnly(db: Database, other: Database, ssn: string)
    requires |db.getPersonData(ssn)| > 0 && |other.getPersonData(ssn)| > 0
    requires db.getPersonData(ssn)[0] == other.getPersonData(ssn)[0]
    ensures GetPersonInfo(db, ssn) == GetPersonInfo(other, ssn)
  {
  }

  /** A first row with a `person_id` always resolves. The name is empty
      exactly when no fragment is truthy, and an empty name is returned
      without an error. */
  lemma DisplayNameEmptyIff(db: Database, ssn: string)
    requires |db.getPersonData(ssn)| > 0 && db.getPersonData(ssn)[0].personId.Some?
    ensures GetPersonInfo(db, ssn).Ok?
    ensures GetPersonInfo(db, ssn).value.name == ""
            <==> forall i :: 0 <= i < 4 ==> !Truthy(NameFragments(db.getPersonData(ssn)[0])[i])
  {
  }

  /** Absent or empty fragments are skipped without disturbing the order of
      the others: first and last name alone give `"first last"`. */
  lemma DisplayNameSkipsMissing(row: PersonRow)
    requires Truthy(row.firstName) && Truthy(row.lastName)
    requires !Truthy(row.secondName) && !Truthy(row.thirdName)
    ensures DisplayName(row) == row.firstName.value + " " + row.lastName.value
  {
    var first, last := row.firstName.value, row.lastName.value;
    var f := NameFragments(row);
    var ab, abc := [f[0], f[1]], [f[0], f[1], f[2]];
    assert f == abc + [f[3]];
    assert abc == ab + [f[2]];
    assert ab == [f[0]] + [f[1]];
    KeepTruthyConcat([f[0]], [f[1]]);
    assert KeepTruthy(ab) == [first];
    KeepTruthyConcat(ab, [f[2]]);
    assert KeepTruthy(abc) == [first];
    KeepTruthyConcat(abc, [f[3]]);
    assert KeepTruthy(f) == [first, last];
    assert [first, last][1..] == [last];
    assert Text.Join([first, last]) == first + " " + last;
  }

  /** Splitting the display name at its spaces gives back the truthy
      fragments, first name to last name, when no fragment holds a space. */
  lemma DisplayNameSplits(row: PersonRow)
    requires forall i :: 0 <= i < 4 && Truthy(NameFragments(row)[i]) ==> Text.SpaceFree(NameFragments(row)[i].value)
    requires exists i :: 0 <= i < 4 && Truthy(NameFragments(row)[i])
    ensures Text.Split(DisplayName(row)) == KeepTruthy(NameFragments(row))
  {
    var kept := KeepTruthy(NameFragments(row));
    KeepTruthyMembers(NameFragments(row));
    forall i | 0 <= i < |kept|
      ensures Text.SpaceFree(kept[i])
    {
      assert Some(kept[i]) in NameFragments(row);
    }
    Text.SplitJoin(kept);
  }

  /** With every fragment present the name is first, second, third and last
      name in that order. */
  lemma DisplayNameOrder(row: PersonRow)
    requires Truthy(row.firstName) && Truthy(row.secondName)
    requires Truthy(row.thirdName) && Truthy(row.lastName)
    ensures DisplayName(row) == row.firstName.value + " " + row.secondName.value + " "
                                + row.thirdName.value + " " + row.lastName.value
  {
    var first, second, third, last := row.firstName.value, row.secondName.value, row.thirdName.value, row.lastName.value;
    var f := NameFragments(row);
    KeepFourInOrder(first, second, third, last);
    calc {
      DisplayName(row);
      Text.Join(KeepTruthy(f));
      Text.Join([first, second, third, last]);
      { JoinFour(first, second, third, last); }
      first + " " + second + " " + third + " " + last;
    }
  }

  /** Four truthy fragments are kept as they are, in order. */
  lemma KeepFourInOrder(a: string, b: string, c: string, d: string)
    requires a != "" && b != "" && c != "" && d != ""
    ensures KeepTruthy([Some(a), Some(b), Some(c), Some(d)]) == [a, b, c, d]
  {
    var cd, bcd := [Some(c), Some(d)], [Some(b), Some(c), Some(d)];
    assert KeepTruthy([Some(d)]) == [d];
    assert cd[1..] == [Some(d)];
    assert KeepTruthy(cd) == [c, d];
    assert bcd[1..] == cd;
    assert KeepTruthy(bcd) == [b, c, d];
    assert [Some(a), Some(b), Some(c), Some(d)][1..] == bcd;
  }

  lemma JoinFour(f: string, s: string, t: string, l: string)
    ensures Text.Join([f, s, t, l]) == f + " " + s + " " + t + " " + l
  {
    assert [f, s, t, l][1..] == [s, t, l];
    assert [s, t, l][1..] == [t, l];
    assert [t, l][1..] == [l];
    assert Text.Join([t, l]) == t + " " + l;
  }

  /** Fragments that are all truthy are all kept, in order. */
  lemma {:induction false} KeepAllTruthy(fragments: seq<Option<string>>)
    requires forall i :: 0 <= i < |fragments| ==> Truthy(fragments[i])
    ensures |KeepTruthy(fragments)| == |fragments|
    ensures forall i :: 0 <= i < |fragments| ==> KeepTruthy(fragments)[i] == fragments[i].value
  {
    if |fragments| > 0 {
      KeepAllTruthy(fragments[1..]);
    }
  }

  /** `get_image_data`: the image rows of a patient. No image ids raise
      `NoImagesFound` before image data is requested; ids without image rows
      raise `NoImageDataFound`; otherwise the rows are returned unchanged. */
  function GetImageData(db: Database, personId: string): (r: Result<seq<ImageRecord>>)
    ensures |db.getImageIds(personId)| == 0 ==> r == Err(NoImagesFound(personId))
    ensures (|db.getImageIds(personId)| > 0 && |db.getImageData(db.getImageIds(personId))| == 0)
              ==> r == Err(NoImageDataFound(db.getImageIds(personId)))
    ensures r.Ok? <==> |db.getImageIds(personId)| > 0 && |db.getImageData(db.getImageIds(personId))| > 0
    ensures r.Ok? ==> r.value == db.getImageData(db.getImageIds(personId))
  {
    var imageIds := db.getImageIds(personId);
    if |imageIds| == 0 then Err(NoImagesFound(personId))
    else
      var images := db.getImageData(imageIds);
      if |images| == 0 then Err(NoImageDataFound(imageIds)) else Ok(images)
  }

  /** Without image ids the image-data query is never consulted: replacing
      it by any other query leaves the outcome unchanged. */
  lemma NoImageDataQueryWithoutIds(db: Database, personId: string, query: seq<string> -> seq<ImageRecord>)
    requires |db.getImageIds(personId)| == 0
    ensures GetImageData(db.(getImageData := query), personId) == GetImageData(db, personId)
  {
  }
}
