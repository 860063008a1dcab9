/** The change-log form (src/components/change-log-form.tsx): the list of people
    informed is edited as one text field, shown by joining the names with ", "
    and read back by splitting at every ',' and trimming each piece. */
module ChangeLogForm {
  import opened Data

  /** A change-log record, as far as the form reads it. */
  datatype ChangeLog = ChangeLog(change: string, informed: seq<string>, observations: Option<string>)

  /** The form's three text fields; `observations` is optional in the schema. */
  datatype FormValues = FormValues(change: string, informed: string, observations: Option<string>)

  datatype FormField = ChangeField | InformedField

  // ---------------------------------------------------------------------------
  // Array.prototype.join

  /** Total length of the pieces. */
  function PiecesLength(parts: seq<string>): nat {
    if |parts| == 0 then 0 else |parts[0]| + PiecesLength(parts[1..])
  }

  /** `parts.join(sep)`: the pieces in order, one separator between each two. */
  function Join(parts: seq<string>, sep: string): (r: string)
    ensures |parts| == 0 ==> r == ""
    ensures |parts| > 0 ==> |r| == PiecesLength(parts) + (|parts| - 1) * |sep|
    ensures |parts| > 0 ==> r[..|parts[0]|] == parts[0]
  {
    if |parts| == 0 then ""
    else if |parts| == 1 then parts[0]
    else parts[0] + sep + Join(parts[1..], sep)
  }

  /** `names.join(', ')`. The text is empty exactly for no names or a single
      empty name, the two lists the form then refuses. */
  function JoinNames(names: seq<string>): (r: string)
    ensures r == "" <==> |names| == 0 || (|names| == 1 && names[0] == "")
  {
    var r := Join(names, ", ");
    assert |names| > 1 ==> |r| >= |", "|;
    r
  }

  // ---------------------------------------------------------------------------
  // String.prototype.trim

  /** The characters `trim` removes: ECMAScript WhiteSpace and LineTerminator. */
  predicate IsJsWhitespace(c: char) {
    var n := c as int;
    (9 <= n <= 13) || n == 0x20 || n == 0xA0 || n == 0x1680 || (0x2000 <= n <= 0x200A)
    || n == 0x2028 || n == 0x2029 || n == 0x202F || n == 0x205F || n == 0x3000 || n == 0xFEFF
  }

  /** Neither end of `s` is whitespace. */
  predicate NoOuterSpace(s: string) {
    s == "" || (!IsJsWhitespace(s[0]) && !IsJsWhitespace(s[|s| - 1]))
  }

  function TrimStart(s: string): (r: string)
    ensures |r| <= |s| && r == s[|s| - |r|..]
    ensures r == "" || !IsJsWhitespace(r[0])
  {
    if |s| > 0 && IsJsWhitespace(s[0]) then TrimStart(s[1..]) else s
  }

  /** What `TrimStart` cuts is whitespace. */
  lemma {:induction false} TrimStartCuts(s: string)
    ensures forall i :: 0 <= i < |s| - |TrimStart(s)| ==> IsJsWhitespace(s[i])
  {
    if |s| > 0 && IsJsWhitespace(s[0]) {
      TrimStartCuts(s[1..]);
      assert forall i :: 1 <= i < |s| ==> s[i] == s[1..][i - 1];
    }
  }

  function TrimEnd(s: string): (r: string)
    ensures |r| <= |s| && r == s[..|r|]
    ensures r == "" || !IsJsWhitespace(r[|r| - 1])
  {
    if |s| > 0 && IsJsWhitespace(s[|s| - 1]) then TrimEnd(s[..|s| - 1]) else s
  }

  /** What `TrimEnd` cuts is whitespace. */
  lemma {:induction false} TrimEndCuts(s: string)
    ensures forall i :: |TrimEnd(s)| <= i < |s| ==> IsJsWhitespace(s[i])
  {
    if |s| > 0 && IsJsWhitespace(s[|s| - 1]) {
      TrimEndCuts(s[..|s| - 1]);
    }
  }

  /** `s.trim()`: no whitespace at either end, and no character that `s`
      does not hold. */
  function Trim(s: string): (r: string)
    ensures NoOuterSpace(r)
    ensures forall c :: c in r ==> c in s
  {
    var t := TrimStart(s);
    assert forall c :: c in t ==> c in s;
    TrimEnd(t)
  }

  /** `trim` cuts off whitespace only: the result is a middle slice of `s`,
      with only whitespace before and after it. */
  lemma TrimCutsOnlyWhitespace(s: string)
    ensures exists a, b :: (0 <= a <= b <= |s| && Trim(s) == s[a..b]
      && (forall i :: 0 <= i < a ==> IsJsWhitespace(s[i]))
      && (forall i :: b <= i < |s| ==> IsJsWhitespace(s[i])))
  {
    var a, b := TrimBounds(s);
    assert Trim(s) == TrimEnd(TrimStart(s));
    assert 0 <= a <= b <= |s| && Trim(s) == s[a..b]
      && (forall i :: 0 <= i < a ==> IsJsWhitespace(s[i]))
      && (forall i :: b <= i < |s| ==> IsJsWhitespace(s[i]));
  }

  /** Where `trim` cuts. */
  lemma TrimBounds(s: string) returns (a: nat, b: nat)
    ensures a <= b <= |s| && TrimEnd(TrimStart(s)) == s[a..b]
    ensures forall i :: 0 <= i < a ==> IsJsWhitespace(s[i])
    ensures forall i :: b <= i < |s| ==> IsJsWhitespace(s[i])
  {
    var t := TrimStart(s);
    a := |s| - |t|;
    b := a + |TrimEnd(t)|;
    SliceOfSuffix(s, a, |TrimEnd(t)|);
    TrimStartCuts(s);
    TrailingWhitespace(s, t, a);
  }

  lemma SliceOfSuffix(s: string, a: nat, k: nat)
    requires a + k <= |s|
    ensures s[a..][..k] == s[a..a + k]
  {
  }

  /** What `TrimEnd` cuts from a suffix of `s` is whitespace of `s`. */
  lemma TrailingWhitespace(s: string, t: string, a: nat)
    requires a <= |s| && t == s[a..]
    ensures forall i :: a + |TrimEnd(t)| <= i < |s| ==> IsJsWhitespace(s[i])
  {
    TrimEndCuts(t);
    forall i | a + |TrimEnd(t)| <= i < |s|
      ensures IsJsWhitespace(s[i])
    {
      assert s[i] == t[i - a];
    }
  }

  /** `trim` leaves a string alone exactly when neither end is whitespace, so
      trimming twice is trimming once. */
  lemma TrimFixesExactly(s: string)
    ensures Trim(s) == s <==> NoOuterSpace(s)
    ensures Trim(Trim(s)) == Trim(s)
  {
    if NoOuterSpace(s) {
      TrimOfNoOuterSpace(s);
    }
    TrimOfNoOuterSpace(Trim(s));
  }

  lemma TrimOfNoOuterSpace(s: string)
    requires NoOuterSpace(s)
    ensures TrimStart(s) == s && TrimEnd(s) == s && Trim(s) == s
  {
  }

  /** The space `join(', ')` puts before a name is trimmed away again. */
  lemma TrimAfterSpace(s: string)
    requires NoOuterSpace(s)
    ensures Trim(" " + s) == s
  {
    assert (" " + s)[1..] == s;
    TrimOfNoOuterSpace(s);
  }

  // ---------------------------------------------------------------------------
  // String.prototype.split(',')

  /** `s.split(',')`: the pieces between commas, empty ones kept; the empty
      text gives one empty piece. */
  function SplitComma(s: string): (r: seq<string>)
    ensures |r| >= 1
    ensures s == "" ==> r == [""]
  {
    if |s| == 0 then [""]
    else
      var rest := SplitComma(s[1..]);
      if s[0] == ',' then [""] + rest
      else [[s[0]] + rest[0]] + rest[1..]
  }

  /** There is one piece more than there are commas. */
  lemma {:induction false} SplitCount(s: string)
    ensures |SplitComma(s)| == multiset(s)[','] + 1
  {
    if |s| > 0 {
      SplitCount(s[1..]);
      assert s == [s[0]] + s[1..];
    }
  }

  /** No piece holds a comma. */
  lemma {:induction false} SplitPiecesCommaFree(s: string)
    ensures forall i :: 0 <= i < |SplitComma(s)| ==> ',' !in SplitComma(s)[i]
  {
    if |s| > 0 {
      SplitPiecesCommaFree(s[1..]);
    }
  }

  /** Splitting and joining again with ',' gives the text back. */
  lemma {:induction false} SplitThenJoin(s: string)
    ensures Join(SplitComma(s), ",") == s
  {
    if |s| > 0 {
      var c, t := s[0], s[1..];
      var rest := SplitComma(t);
      SplitThenJoin(t);
      assert s == [c] + t;
      if c == ',' {
        var r := [""] + rest;
        assert SplitComma(s) == r;
        assert r[0] == "" && r[1..] == rest;
        assert Join(r, ",") == "" + "," + Join(rest, ",");
      } else {
        var first := [c] + rest[0];
        var r := [first] + rest[1..];
        assert SplitComma(s) == r;
        if |rest| == 1 {
          assert Join(r, ",") == first;
        } else {
          assert r[0] == first && r[1..] == rest[1..];
          assert Join(r, ",") == first + "," + Join(rest[1..], ",");
          assert Join(rest, ",") == rest[0] + "," + Join(rest[1..], ",");
        }
      }
    }
  }

  lemma {:induction false} SplitNoComma(x: string)
    requires ',' !in x
    ensures SplitComma(x) == [x]
  {
    if |x| > 0 {
      SplitNoComma(x[1..]);
      assert x == [x[0]] + x[1..];
    }
  }

  lemma {:induction false} SplitAfter(x: string, t: string)
    requires ',' !in x
    ensures SplitComma(x + "," + t) == [x] + SplitComma(t)
  {
    if |x| == 0 {
      assert (x + "," + t)[1..] == t;
    } else {
      assert (x + "," + t)[1..] == x[1..] + "," + t;
      SplitAfter(x[1..], t);
      assert x == [x[0]] + x[1..];
    }
  }

  /** A character other than ',' in front only lengthens the first piece. */
  lemma SplitAfterChar(c: char, t: string)
    requires c != ','
    ensures SplitComma([c] + t) == [[c] + SplitComma(t)[0]] + SplitComma(t)[1..]
  {
    assert ([c] + t)[1..] == t;
  }

  /** Joining comma-free names with ',' and splitting gives the names back. */
  lemma {:induction false} JoinThenSplit(names: seq<string>)
    requires |names| >= 1
    requires forall i :: 0 <= i < |names| ==> ',' !in names[i]
    ensures SplitComma(Join(names, ",")) == names
  {
    if |names| == 1 {
      SplitNoComma(names[0]);
    } else {
      JoinThenSplit(names[1..]);
      SplitAfter(names[0], Join(names[1..], ","));
      assert names == [names[0]] + names[1..];
    }
  }

  // ---------------------------------------------------------------------------
  // The form

  /** `informed.split(',').map(s => s.trim())`. */
  function ParseInformed(s: string): (r: seq<string>)
    ensures |r| == multiset(s)[','] + 1
    ensures forall i :: 0 <= i < |r| ==> ',' !in r[i] && NoOuterSpace(r[i])
  {
    var pieces := SplitComma(s);
    SplitCount(s);
    SplitPiecesCommaFree(s);
    seq(|pieces|, i requires 0 <= i < |pieces| => Trim(pieces[i]))
  }

  /** "a,,b" is read as three names, the middle one empty. */
  lemma EmptyPiecesKept()
    ensures ParseInformed("a,,b") == ["a", "", "b"]
  {
    var pieces := SplitComma("a,,b");
    calc {
      pieces;
      { assert "a,,b" == "a" + "," + ",b"; SplitAfter("a", ",b"); }
      ["a"] + SplitComma(",b");
      { assert ",b" == "" + "," + "b"; SplitAfter("", "b"); }
      ["a"] + ([""] + SplitComma("b"));
      { SplitNoComma("b"); }
      ["a", "", "b"];
    }
    ParseOfTrimmedPieces("a,,b");
  }

  /** When every piece already has no whitespace at its ends, trimming leaves
      the pieces as they are. */
  lemma ParseOfTrimmedPieces(s: string)
    requires forall i :: 0 <= i < |SplitComma(s)| ==> NoOuterSpace(SplitComma(s)[i])
    ensures ParseInformed(s) == SplitComma(s)
  {
    var pieces := SplitComma(s);
    forall i | 0 <= i < |pieces|
      ensures ParseInformed(s)[i] == pieces[i]
    {
      TrimOfNoOuterSpace(pieces[i]);
    }
  }

  /** The pieces of a ", "-joined list: the first name, then every later name
      with the one space the separator leaves in front of it. */
  lemma {:induction false} SplitJoinedNames(names: seq<string>)
    requires |names| >= 1
    requires forall i :: 0 <= i < |names| ==> ',' !in names[i]
    ensures |SplitComma(JoinNames(names))| == |names|
    ensures SplitComma(JoinNames(names))[0] == names[0]
    ensures forall i :: 1 <= i < |names| ==> SplitComma(JoinNames(names))[i] == " " + names[i]
  {
    if |names| == 1 {
      SplitNoComma(names[0]);
    } else {
      var t := JoinNames(names[1..]);
      var q := SplitComma(t);
      SplitJoinedNames(names[1..]);
      assert JoinNames(names) == names[0] + "," + ([' '] + t);
      SplitAfter(names[0], [' '] + t);
      SplitAfterChar(' ', t);
      var p := SplitComma(JoinNames(names));
      assert p == [names[0]] + ([[' '] + q[0]] + q[1..]);
      forall i | 1 <= i < |names|
        ensures p[i] == " " + names[i]
      {
        if i == 1 {
          assert p[1] == [' '] + q[0];
        } else {
          assert p[i] == q[i - 1] && names[1..][i - 1] == names[i];
        }
      }
    }
  }

  /** The informed list survives a trip through the text field (joined for
      display, split and trimmed on submit) exactly when it is non-empty and
      no name holds a ',' or starts or ends with whitespace. */
  lemma InformedRoundTrip(names: seq<string>)
    ensures ParseInformed(JoinNames(names)) == names <==>
      |names| >= 1 && forall i :: 0 <= i < |names| ==> ',' !in names[i] && NoOuterSpace(names[i])
  {
    if |names| >= 1 && forall i :: 0 <= i < |names| ==> ',' !in names[i] && NoOuterSpace(names[i]) {
      var r := ParseInformed(JoinNames(names));
      var pieces := SplitComma(JoinNames(names));
      SplitJoinedNames(names);
      forall i | 0 <= i < |names|
        ensures r[i] == names[i]
      {
        if i == 0 {
          TrimOfNoOuterSpace(names[0]);
        } else {
          TrimAfterSpace(names[i]);
        }
      }
    }
  }

  /** `formSchema`: the fields whose check fails, in schema order — `change`
      and `informed` must be non-empty, `observations` may be anything. */
  function Validate(values: FormValues): (issues: seq<FormField>)
    ensures ChangeField in issues <==> values.change == ""
    ensures InformedField in issues <==> values.informed == ""
    ensures issues == [] <==> values.change != "" && values.informed != ""
  {
    (if values.change == "" then [ChangeField] else [])
    + (if values.informed == "" then [InformedField] else [])
  }

  /** `defaultValues`: the record being edited, with its names joined and a
      missing observation shown as ""; all fields empty for a new record. */
  function DefaultValues(log: Option<ChangeLog>): (v: FormValues)
    ensures log.None? ==> v == FormValues("", "", Some(""))
    ensures log.Some? ==> v.change == log.value.change && v.informed == JoinNames(log.value.informed)
    ensures log.Some? ==> v.observations == Some(if log.value.observations.Some? then log.value.observations.value else "")
  {
    match log
    case None => FormValues("", "", Some(""))
    case Some(l) => FormValues(l.change, JoinNames(l.informed), Some(l.observations.GetOr("")))
  }

  /** `onSubmit`: what it hands to `onSave` is the values as entered, with
      `informed` replaced by the list of names read from the text. */
  function OnSubmit(values: FormValues): (saved: ChangeLog)
    ensures saved.change == values.change && saved.observations == values.observations
    ensures saved.informed == ParseInformed(values.informed)
    ensures |saved.informed| == multiset(values.informed)[','] + 1
  {
    ChangeLog(values.change, ParseInformed(values.informed), values.observations)
  }

  /** Opening a record and saving it unedited writes it back unchanged, but
      for a missing observation (saved as "") — provided its informed list
      survives the text field. */
  lemma UneditedSaveKeepsRecord(log: ChangeLog)
    requires |log.informed| >= 1
    requires forall i :: 0 <= i < |log.informed| ==> ',' !in log.informed[i] && NoOuterSpace(log.informed[i])
    ensures OnSubmit(DefaultValues(Some(log)))
         == ChangeLog(log.change, log.informed, Some(log.observations.GetOr("")))
  {
    InformedRoundTrip(log.informed);
  }
}
