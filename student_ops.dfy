/**
 * The student registry: one list of `{roll_no, name, grade}` records, kept in
 * insertion order. Duplicate roll numbers are allowed; every lookup goes to
 * the first record with the roll number asked for.
 */
module StudentOps {
  import opened Wrappers
  import opened Text

  /** One registry record. */
  datatype Student = Student(rollNo: int, name: string, grade: string)

  /** The position of the first record with roll number `rollNo`, if any. */
  function FirstIndex(students: seq<Student>, rollNo: int): (r: Option<nat>)
    ensures r.None? <==> forall k :: 0 <= k < |students| ==> students[k].rollNo != rollNo
    ensures r.Some? ==> r.value < |students| && students[r.value].rollNo == rollNo
    ensures r.Some? ==> forall k :: 0 <= k < r.value ==> students[k].rollNo != rollNo
  {
    if students == [] then None
    else if students[0].rollNo == rollNo then Some(0)
    else match FirstIndex(students[1..], rollNo)
      case None => None
      case Some(i) => Some(i + 1)
  }

  /**
   * The list after the grade of the first record with roll number `rollNo` is
   * replaced; no roll number or name changes, and no other record changes.
   */
  function Regraded(students: seq<Student>, rollNo: int, newGrade: string): (r: seq<Student>)
    ensures |r| == |students|
    ensures forall k :: 0 <= k < |r| ==> r[k].rollNo == students[k].rollNo && r[k].name == students[k].name
    ensures FirstIndex(students, rollNo).None? ==> r == students
    ensures FirstIndex(students, rollNo).Some? ==>
      var i := FirstIndex(students, rollNo).value;
      r[i].grade == newGrade && forall k :: 0 <= k < |r| && k != i ==> r[k] == students[k]
  {
    match FirstIndex(students, rollNo)
    case None => students
    case Some(i) => students[i := students[i].(grade := newGrade)]
  }

  /**
   * The line `list_students` writes for one record: the roll number, " - ",
   * the name, " - Grade: ", the grade and a newline.
   */
  function StudentLine(s: Student): (line: string)
    ensures |line| == |Decimal(s.rollNo)| + |s.name| + |s.grade| + 14
    ensures var d := Decimal(s.rollNo);
      line[..|d|] == d && line[|d| + 3..|d| + 3 + |s.name|] == s.name &&
      line[|line| - 1 - |s.grade|..|line| - 1] == s.grade
    ensures line[|line| - 1] == '\n'
  {
    Decimal(s.rollNo) + " - " + s.name + " - Grade: " + s.grade + "\n"
  }

  /** The strings of `lines`, one after the other. */
  function Join(lines: seq<string>): string
    decreases |lines|
  {
    if lines == [] then "" else Join(lines[..|lines| - 1]) + lines[|lines| - 1]
  }

  /** One rendered line per record, in list order. */
  function Lines(students: seq<Student>): (lines: seq<string>)
    ensures |lines| == |students|
    ensures forall k :: 0 <= k < |students| ==> lines[k] == StudentLine(students[k])
  {
    seq(|students|, k requires 0 <= k < |students| => StudentLine(students[k]))
  }

  const EmptyMessage := "No students found."
  const Header := "Student List:\n"
  const NotFoundMessage := "Student not found."

  /**
   * The text `list_students` returns for the list `students`: the "no students"
   * message for an empty list, otherwise text that opens with the header.
   */
  function Listing(students: seq<Student>): (text: string)
    ensures students == [] ==> text == EmptyMessage
    ensures students != [] ==> |text| >= |Header| && text[..|Header|] == Header
  {
    if students == [] then EmptyMessage else Header + Join(Lines(students))
  }

  /** Joining a list of lines joins its two parts, one after the other. */
  lemma {:induction false} JoinConcat(a: seq<string>, b: seq<string>)
    ensures Join(a + b) == Join(a) + Join(b)
    decreases |b|
  {
    if b == [] {
      assert a + b == a;
    } else {
      var b', last := b[..|b| - 1], b[|b| - 1];
      assert (a + b)[..|a + b| - 1] == a + b';
      assert (a + b)[|a + b| - 1] == last;
      calc {
        Join(a + b);
        Join(a + b') + last;
        { JoinConcat(a, b'); }
        Join(a) + Join(b') + last;
        Join(a) + Join(b);
      }
    }
  }

  /** Rendering a list renders its two parts, one after the other. */
  lemma LinesConcat(a: seq<Student>, b: seq<Student>)
    ensures Lines(a + b) == Lines(a) + Lines(b)
  {
  }

  /**
   * Rendering one more record of a list, after any text already written, adds
   * that record's line at the end.
   */
  lemma JoinPrefixStep(written: string, students: seq<Student>, i: nat)
    requires i < |students|
    ensures written + Join(Lines(students[..i + 1])) == written + Join(Lines(students[..i])) + StudentLine(students[i])
  {
    var done, line := Lines(students[..i]), StudentLine(students[i]);
    assert students[..i + 1] == students[..i] + [students[i]];
    LinesConcat(students[..i], [students[i]]);
    assert Lines([students[i]]) == [line];
    assert (done + [line])[..|done|] == done;
    assert written + (Join(done) + line) == written + Join(done) + line;
  }

  /**
   * The listing of a list is the listing of any split of it, one part after the
   * other: records appear in insertion order, each exactly once.
   */
  lemma ListingInOrder(a: seq<Student>, b: seq<Student>)
    requires a != []
    ensures Listing(a + b) == Listing(a) + Join(Lines(b))
  {
    var la, lb := Lines(a), Lines(b);
    LinesConcat(a, b);
    JoinConcat(la, lb);
    var ja, jb := Join(la), Join(lb);
    assert Header + (ja + jb) == Header + ja + jb;
  }

  /** The "no students" message is given exactly for the empty list. */
  lemma ListingEmptyExactly(students: seq<Student>)
    ensures Listing(students) == EmptyMessage <==> students == []
  {
    if students != [] {
      assert Listing(students)[0] == 'S';
    }
  }

  class Registry {
    /** The records, in the order they were added. */
    var students: seq<Student>

    constructor ()
      ensures students == []
    {
      students := [];
    }

    /** `add_student`: append one record; an existing roll number is not checked. */
    method AddStudent(rollNo: int, name: string, grade: string) returns (message: string)
      modifies this
      ensures students == old(students) + [Student(rollNo, name, grade)]
      ensures message == "Student " + name + " added."
    {
      students := students + [Student(rollNo, name, grade)];
      message := "Student " + name + " added.";
    }

    /** `list_students`: the header and one line per record, or the "no students" message. */
    method ListStudents() returns (text: string)
      ensures text == Listing(students)
      ensures text == EmptyMessage <==> students == []
    {
      ListingEmptyExactly(students);
      if students == [] {
        return EmptyMessage;
      }
      text := Header;
      assert Join(Lines(students[..0])) == "";
      for i := 0 to |students|
        invariant text == Header + Join(Lines(students[..i]))
      {
        var line := StudentLine(students[i]);
        JoinPrefixStep(Header, students, i);
        text := text + line;
      }
      assert students[..|students|] == students;
      assert text == Header + Join(Lines(students));
    }

    /** `update_grade`: regrade the first record with the roll number, or report it missing. */
    method UpdateGrade(rollNo: int, newGrade: string) returns (message: string)
      modifies this
      ensures students == Regraded(old(students), rollNo, newGrade)
      ensures FirstIndex(old(students), rollNo).None? ==> message == NotFoundMessage
      ensures FirstIndex(old(students), rollNo).Some? ==>
        message == "Updated grade for " + old(students)[FirstIndex(old(students), rollNo).value].name + "."
    {
      for i := 0 to |students|
        invariant students == old(students)
        invariant forall k :: 0 <= k < i ==> students[k].rollNo != rollNo
      {
        if students[i].rollNo == rollNo {
          students := students[i := students[i].(grade := newGrade)];
          return "Updated grade for " + students[i].name + ".";
        }
      }
      return NotFoundMessage;
    }

    /** `find_student`: the first record with the roll number; `None` stands for "Student not found.". */
    method FindStudent(rollNo: int) returns (found: Option<Student>)
      ensures found.None? <==> forall k :: 0 <= k < |students| ==> students[k].rollNo != rollNo
      ensures found.Some? ==> found.value.rollNo == rollNo && found.value in students
      ensures found.Some? ==> found.value == students[FirstIndex(students, rollNo).value]
    {
      for i := 0 to |students|
        invariant forall k :: 0 <= k < i ==> students[k].rollNo != rollNo
      {
        if students[i].rollNo == rollNo {
          return Some(students[i]);
        }
      }
      return None;
    }
  }

  /**
   * The driver script: three records added, Bob regraded to "A+", then 103
   * looked up. (The listing it prints in between changes nothing.)
   */
  method DriverScenario() returns (updated: string, found: Option<Student>, final: seq<Student>)
    ensures updated == "Updated grade for Bob."
    ensures found == Some(Student(103, "Charlie", "C"))
    ensures final == [Student(101, "Alice", "A"), Student(102, "Bob", "A+"), Student(103, "Charlie", "C")]
  {
    var registry := new Registry();
    var added := registry.AddStudent(101, "Alice", "A");
    added := registry.AddStudent(102, "Bob", "B");
    added := registry.AddStudent(103, "Charlie", "C");
    ghost var three := [Student(101, "Alice", "A"), Student(102, "Bob", "B"), Student(103, "Charlie", "C")];
    assert registry.students == three;
    assert FirstIndex(three, 102) == Some(1);
    updated := registry.UpdateGrade(102, "A+");
    ghost var regraded := [Student(101, "Alice", "A"), Student(102, "Bob", "A+"), Student(103, "Charlie", "C")];
    assert registry.students == regraded;
    assert FirstIndex(regraded, 103) == Some(2);
    found := registry.FindStudent(103);
    final := registry.students;
  }
}
