/** Python's string operations that the robot relies on: `" ".join`, its
    inverse `str.split(" ")`, and prefix/suffix tests.
 */
module Text {

  predicate StartsWith(s: string, prefix: string)
  {
    |prefix| <= |s| && s[..|prefix|] == prefix
  }

  predicate EndsWith(s: string, suffix: string)
  {
    |suffix| <= |s| && s[|s| - |suffix|..] == suffix
  }

  predicate SpaceFree(s: string)
  {
    forall i :: 0 <= i < |s| ==> s[i] != ' '
  }

  /** `" ".join(parts)`: the parts, in order, with one space between neighbours. */
  function Join(parts: seq<string>): (s: string)
    ensures |parts| > 0 ==> StartsWith(s, parts[0])
    ensures |parts| > 1 ==> |s| > |parts[0]| && s[|parts[0]|] == ' '
  {
    if |parts| == 0 then ""
    else if |parts| == 1 then parts[0]
    else parts[0] + " " + Join(parts[1..])
  }

  /** `s.split(" ")`: the maximal space-free pieces, empty ones included. */
  function Split(s: string): (r: seq<string>)
    ensures |r| > 0
  {
    if |s| == 0 then [""]
    else
      var rest := Split(s[1..]);
      if s[0] == ' ' then [""] + rest else [[s[0]] + rest[0]] + rest[1..]
  }

  /** A space-free prefix belongs to the first piece. */
  lemma {:induction false} SplitSpaceFreePrefix(a: string, t: string)
    requires SpaceFree(a)
    ensures Split(a + t) == [a + Split(t)[0]] + Split(t)[1..]
  {
    if |a| > 0 {
      assert (a + t)[1..] == a[1..] + t;
      SplitSpaceFreePrefix(a[1..], t);
      assert [a[0]] + (a[1..] + Split(t)[0]) == a + Split(t)[0];
    } else {
      assert a + t == t;
      assert a + Split(t)[0] == Split(t)[0];
      assert Split(t) == [Split(t)[0]] + Split(t)[1..];
    }
  }

  /** Splitting undoes joining when no part holds a space. */
  lemma {:induction false} SplitJoin(parts: seq<string>)
    requires |parts| > 0
    requires forall i :: 0 <= i < |parts| ==> SpaceFree(parts[i])
    ensures Split(Join(parts)) == parts
  {
    if |parts| == 1 {
      SplitSpaceFreePrefix(parts[0], "");
      assert parts[0] + "" == parts[0];
    } else {
      var tail := Join(parts[1..]);
      SplitJoin(parts[1..]);
      assert parts[0] + " " + tail == parts[0] + (" " + tail);
      SplitSpaceFreePrefix(parts[0], " " + tail);
      assert (" " + tail)[1..] == tail;
      assert Split(" " + tail) == [""] + Split(tail);
      assert parts[0] + "" == parts[0];
      assert parts == [parts[0]] + parts[1..];
    }
  }

  /** Joining non-empty parts gives the empty string exactly when there are none. */
  lemma {:induction false} JoinEmptyIff(parts: seq<string>)
    requires forall i :: 0 <= i < |parts| ==> parts[i] != ""
    ensures Join(parts) == "" <==> |parts| == 0
  {
    if |parts| > 1 {
      assert |Join(parts)| >= |parts[0]| > 0;
    }
  }
}
