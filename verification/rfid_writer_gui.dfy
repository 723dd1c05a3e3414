/**
 * The tag-writing kiosk: load a student roster, search it, pick a student
 * and write the student's id onto an RFID tag with a read-before-write and
 * a read-after-write check.
 *
 * The RC522 reader and the GPIO board become a `TagReader` object driven by a
 * script of read and write results; the yes/no dialogs become the answers
 * the operator would give; the status box becomes a sequence of `LogEvent`s.
 */
module RfidWriterGui {
  import opened Wrappers
  import opened PyStr

  // ---------------------------------------------------------------------
  // Pure helpers
  // ---------------------------------------------------------------------

  const ColId: string := "Student ID"
  const ColName: string := "Full Name"
  const ColGrade: string := "Grade"
  const ColEmail: string := "Email Address"

  /** The four headers a roster file must carry, in the order they are reported. */
  const RequiredHeaders: seq<string> := [ColId, ColName, ColGrade, ColEmail]

  /**
   * `clean_tag_text`: drop every NUL byte of the tag payload, then strip
   * whitespace; no payload at all reads as the empty string.
   */
  function CleanTagText(text: Option<string>): (r: string)
    ensures '\0' !in r
    ensures Trimmed(r)
    ensures text.None? ==> r == []
  {
    var t := if text.Some? then text.value else [];
    var u := RemoveChar(t, '\0');
    var r := Strip(u);
    assert '\0' !in r by {
      StripPiece(u);
      var i :| PaddedAt(u, r, i);
      forall k | 0 <= k < |r| ensures r[k] != '\0' {
        assert r[k] == u[i + k];
      }
    }
    r
  }

  /** Cleaning is idempotent: a cleaned payload cleans to itself. */
  lemma CleanTagTextIdempotent(text: Option<string>)
    ensures CleanTagText(Some(CleanTagText(text))) == CleanTagText(text)
  {
    var r := CleanTagText(text);
    RemoveAbsent(r, '\0');
    StripTrimmed(r);
  }

  /** Removing NULs from NUL-or-space padding leaves only whitespace. */
  lemma {:induction false} NulPaddingRemoved(pad: string)
    requires forall k :: 0 <= k < |pad| ==> pad[k] == '\0' || IsSpace(pad[k])
    ensures AllSpace(RemoveChar(pad, '\0'))
  {
    if pad != [] {
      NulPaddingRemoved(pad[1..]);
    }
  }

  /**
   * A tag holding a trimmed, NUL-free id followed by any mix of NUL and
   * whitespace padding reads back as exactly that id.
   */
  lemma CleanPadded(sid: string, pad: string)
    requires '\0' !in sid && Trimmed(sid)
    requires forall k :: 0 <= k < |pad| ==> pad[k] == '\0' || IsSpace(pad[k])
    ensures CleanTagText(Some(sid + pad)) == sid
  {
    RemoveCharAppend(sid, pad, '\0');
    RemoveAbsent(sid, '\0');
    NulPaddingRemoved(pad);
    StripPadded(sid, RemoveChar(pad, '\0'));
  }

  /**
   * `detect_delimiter`: a tab only when the sample clearly looks
   * tab-separated (more than twice as many tabs as commas, and more than
   * three tabs); a comma otherwise.
   */
  function DetectDelimiter(sample: string): (d: char)
    ensures d == '\t' || d == ','
    ensures d == '\t' <==> Count(sample, '\t') > 2 * Count(sample, ',') && Count(sample, '\t') > 3
  {
    var comma := Count(sample, ',');
    var tab := Count(sample, '\t');
    if tab > comma * 2 && tab > 3 then '\t' else ','
  }

  /** Samples without tabs, and samples with only a few tabs, are read as comma-separated. */
  lemma DelimiterDefaultsToComma(sample: string)
    requires Count(sample, '\t') <= 3
    ensures DetectDelimiter(sample) == ','
  {
  }

  // ---------------------------------------------------------------------
  // The roster
  // ---------------------------------------------------------------------

  /** One student record: the `{"id", "name", "grade", "email"}` dictionary. */
  datatype Student = Student(id: string, name: string, grade: string, email: string)

  /** A parsed roster row: column header to cell text; a missing cell is an absent key. */
  type Row = map<string, string>

  /** The headers of `RequiredHeaders` that `headers` lacks, in the required order. */
  function MissingHeaders(headers: seq<string>): (missing: seq<string>)
    ensures forall h :: h in missing <==> h in RequiredHeaders && h !in headers
    ensures |missing| <= |RequiredHeaders|
  {
    MissingFrom(RequiredHeaders, headers)
  }

  function MissingFrom(wanted: seq<string>, headers: seq<string>): (missing: seq<string>)
    ensures forall h :: h in missing <==> h in wanted && h !in headers
    ensures |missing| <= |wanted|
  {
    if wanted == [] then []
    else (if wanted[0] in headers then [] else [wanted[0]]) + MissingFrom(wanted[1..], headers)
  }

  /** `(row.get(col, "") or "").strip()`. */
  function Field(row: Row, col: string): (r: string)
    ensures Trimmed(r)
  {
    Strip(if col in row then row[col] else [])
  }

  function RowStudent(row: Row): Student
  {
    Student(Field(row, ColId), Field(row, ColName), Field(row, ColGrade), Field(row, ColEmail))
  }

  /** `if sid and name`: a row is kept when its stripped id and name are both non-empty. */
  predicate KeepsRow(row: Row)
  {
    Field(row, ColId) != [] && Field(row, ColName) != []
  }

  /** A record as `load_file` stores it: every field stripped, id and name present. */
  predicate WellFormed(s: Student)
  {
    s.id != [] && s.name != [] && Trimmed(s.id) && Trimmed(s.name) && Trimmed(s.grade) && Trimmed(s.email)
  }

  /** What one row adds to the roster: its student when it is kept, nothing otherwise. */
  function RowContribution(row: Row): (r: seq<Student>)
    ensures |r| <= 1
  {
    if KeepsRow(row) then [RowStudent(row)] else []
  }

  /** The students `load_file` keeps from `rows`, in input order. */
  function Roster(rows: seq<Row>): (r: seq<Student>)
    ensures |r| <= |rows|
  {
    if rows == [] then [] else Roster(rows[..|rows| - 1]) + RowContribution(rows[|rows| - 1])
  }

  /** Every stored record has its fields stripped and a non-empty id and name. */
  lemma {:induction false} RosterWellFormed(rows: seq<Row>)
    ensures forall s :: s in Roster(rows) ==> WellFormed(s)
  {
    if rows != [] {
      RosterWellFormed(rows[..|rows| - 1]);
    }
  }

  /** Rows are kept independently of each other, so reading more rows only appends. */
  lemma {:induction false} RosterAppend(a: seq<Row>, b: seq<Row>)
    ensures Roster(a + b) == Roster(a) + Roster(b)
    decreases |b|
  {
    if b == [] {
      assert a + b == a;
    } else {
      var b' := b[..|b| - 1];
      assert (a + b)[..|a + b| - 1] == a + b';
      assert (a + b)[|a + b| - 1] == b[|b| - 1];
      RosterAppend(a, b');
    }
  }

  /** A single row yields its own contribution, so with `RosterAppend` this pins `Roster` down. */
  lemma RosterSingle(row: Row)
    ensures Roster([row]) == RowContribution(row)
  {
    assert [row][..0] == [];
  }

  /** Every kept row's student is in the roster... */
  lemma {:induction false} RosterKept(rows: seq<Row>, k: nat)
    requires k < |rows| && KeepsRow(rows[k])
    ensures RowStudent(rows[k]) in Roster(rows)
  {
    var n := |rows| - 1;
    assert Roster(rows) == Roster(rows[..n]) + RowContribution(rows[n]);
    if k < n {
      RosterKept(rows[..n], k);
      assert rows[..n][k] == rows[k];
    } else {
      assert RowContribution(rows[n]) == [RowStudent(rows[k])];
    }
  }

  /** ...and every student in it comes from a kept row. */
  lemma {:induction false} RosterFromRows(rows: seq<Row>, s: Student)
    requires s in Roster(rows)
    ensures exists k :: 0 <= k < |rows| && KeepsRow(rows[k]) && s == RowStudent(rows[k])
  {
    var n := |rows| - 1;
    if s in Roster(rows[..n]) {
      RosterFromRows(rows[..n], s);
      var k :| 0 <= k < n && KeepsRow(rows[..n][k]) && s == RowStudent(rows[..n][k]);
      assert rows[..n][k] == rows[k];
    } else {
      assert KeepsRow(rows[n]) && s == RowStudent(rows[n]);
    }
  }

  // ---------------------------------------------------------------------
  // Search
  // ---------------------------------------------------------------------

  /** The query is a student number once hyphens are ignored. */
  predicate DigitQuery(q: string)
  {
    IsDigits(RemoveChar(q, '-'))
  }

  /**
   * The test `do_search` applies to one student for a lowercased, stripped
   * query `q`: a digit query is looked for in the id with hyphens removed on
   * both sides; any other query in the lowercased name or id.
   */
  predicate Matches(s: Student, q: string)
  {
    if DigitQuery(q) then Contains(RemoveChar(Lower(s.id), '-'), RemoveChar(q, '-'))
    else Contains(Lower(s.name), q) || Contains(Lower(s.id), q)
  }

  /** Hyphens in a digit query are ignored: dropping them changes no match. */
  lemma DigitQueryIgnoresHyphens(s: Student, q: string)
    requires DigitQuery(q)
    ensures DigitQuery(RemoveChar(q, '-'))
    ensures Matches(s, q) <==> Matches(s, RemoveChar(q, '-'))
  {
    RemoveCharIdempotent(q, '-');
  }

  /** The students that match `q`, in roster order. */
  function SearchFilter(xs: seq<Student>, q: string): (r: seq<Student>)
    ensures |r| <= |xs|
  {
    if xs == [] then []
    else
      var last := xs[|xs| - 1];
      SearchFilter(xs[..|xs| - 1], q) + (if Matches(last, q) then [last] else [])
  }

  /** `a` is `b` with some elements left out, the rest in their order. */
  predicate Subsequence<T(==)>(a: seq<T>, b: seq<T>)
    decreases |b|
  {
    if a == [] then true
    else if b == [] then false
    else if a[|a| - 1] == b[|b| - 1] then Subsequence(a[..|a| - 1], b[..|b| - 1])
    else Subsequence(a, b[..|b| - 1])
  }

  /** The search result keeps the roster order. */
  lemma {:induction false} SearchSubsequence(xs: seq<Student>, q: string)
    ensures Subsequence(SearchFilter(xs, q), xs)
  {
    if xs != [] {
      var init := xs[..|xs| - 1];
      SearchSubsequence(init, q);
      if Matches(xs[|xs| - 1], q) {
        var r := SearchFilter(xs, q);
        assert r[..|r| - 1] == SearchFilter(init, q) && r[|r| - 1] == xs[|xs| - 1];
        assert Subsequence(r[..|r| - 1], xs[..|xs| - 1]);
      } else {
        assert SearchFilter(xs, q) == SearchFilter(init, q);
        SubsequenceExtend(SearchFilter(init, q), xs);
      }
    }
  }

  /** A subsequence of all but the last element of `b` is a subsequence of `b`. */
  lemma {:induction false} SubsequenceExtend<T>(c: seq<T>, b: seq<T>)
    requires b != [] && Subsequence(c, b[..|b| - 1])
    ensures Subsequence(c, b)
    decreases |b|, 0
  {
    if c != [] && c[|c| - 1] == b[|b| - 1] {
      SubsequenceShrink(c, b[..|b| - 1]);
    }
  }

  /** Dropping the last element of a subsequence keeps it a subsequence. */
  lemma {:induction false} SubsequenceShrink<T>(a: seq<T>, b: seq<T>)
    requires a != [] && Subsequence(a, b)
    ensures Subsequence(a[..|a| - 1], b)
    decreases |b|, 1
  {
    if a[|a| - 1] != b[|b| - 1] {
      SubsequenceShrink(a, b[..|b| - 1]);
    }
    SubsequenceExtend(a[..|a| - 1], b);
  }

  /** A student is in the result exactly when it is in the roster and matches. */
  lemma {:induction false} SearchMember(xs: seq<Student>, q: string, s: Student)
    ensures s in SearchFilter(xs, q) <==> s in xs && Matches(s, q)
  {
    SearchFilterCount(xs, q, s);
  }

  /** One step of `SearchFilterCount`: appending `last` to the input. */
  lemma FilterCountStep(xs: seq<Student>, init: seq<Student>, last: Student, kept: seq<Student>,
                        filtered: seq<Student>, s: Student, keepLast: bool, keepS: bool)
    requires xs == init + [last]
    requires filtered == if keepLast then kept + [last] else kept
    requires multiset(kept)[s] == if keepS then multiset(init)[s] else 0
    requires s == last ==> keepS == keepLast
    ensures multiset(filtered)[s] == if keepS then multiset(xs)[s] else 0
  {
    assert multiset(init + [last]) == multiset(init) + multiset{last};
    assert multiset(kept + [last]) == multiset(kept) + multiset{last};
  }

  /** `SearchFilter` on a non-empty roster, one record at a time from the end. */
  lemma SearchFilterLast(xs: seq<Student>, q: string)
    requires xs != []
    ensures xs == xs[..|xs| - 1] + [xs[|xs| - 1]]
    ensures SearchFilter(xs, q) == if Matches(xs[|xs| - 1], q)
      then SearchFilter(xs[..|xs| - 1], q) + [xs[|xs| - 1]] else SearchFilter(xs[..|xs| - 1], q)
  {
  }

  /** The filter keeps every matching record as often as it occurs, and no other. */
  lemma {:induction false} SearchFilterCount(xs: seq<Student>, q: string, s: Student)
    ensures multiset(SearchFilter(xs, q))[s] == if Matches(s, q) then multiset(xs)[s] else 0
  {
    if xs != [] {
      var init, last := xs[..|xs| - 1], xs[|xs| - 1];
      SearchFilterCount(init, q, s);
      SearchFilterLast(xs, q);
      FilterCountStep(xs, init, last, SearchFilter(init, q), SearchFilter(xs, q), s, Matches(last, q), Matches(s, q));
    }
  }



  /** What `filtered` becomes after a search for `query` over a loaded roster. */
  function SearchResult(students: seq<Student>, query: string): (r: seq<Student>)
    ensures Strip(query) == [] ==> r == students
  {
    var q := Lower(Strip(query));
    if q == [] then students else SearchFilter(students, q)
  }

  // ---------------------------------------------------------------------
  // Selection
  // ---------------------------------------------------------------------

  /** The `(id, name, grade)` values of a row of the results table. */
  datatype TreeRow = TreeRow(id: string, name: string, grade: string)

  /** The first record of `xs` with exactly this id. */
  function FirstWithId(xs: seq<Student>, sid: string): (r: Option<Student>)
    ensures r.None? <==> forall s :: s in xs ==> s.id != sid
    ensures r.Some? ==> exists k :: 0 <= k < |xs| && xs[k] == r.value && r.value.id == sid
                                    && forall j :: 0 <= j < k ==> xs[j].id != sid
  {
    if xs == [] then None
    else if xs[0].id == sid then Some(xs[0])
    else
      var r := FirstWithId(xs[1..], sid);
      assert r.Some? ==> exists k :: 0 <= k < |xs[1..]| && xs[1..][k] == r.value && r.value.id == sid
                                     && forall j :: 0 <= j < k ==> xs[1..][j].id != sid;
      r
  }

  /**
   * `get_selected` for the rows `sel` currently selected in the table:
   * nothing when nothing is selected; otherwise the record of the first
   * selected row's id, looked up in the shown list, then in the whole
   * roster, and rebuilt from the row with an empty email as a last resort.
   */
  function Selected(filtered: seq<Student>, students: seq<Student>, sel: seq<TreeRow>): (r: Option<Student>)
    ensures r.None? <==> sel == []
    ensures r.Some? ==> r.value.id == sel[0].id
    ensures r.Some? && (exists s :: s in filtered && s.id == sel[0].id) ==> r == FirstWithId(filtered, sel[0].id)
    ensures (r.Some? && (forall s :: s in filtered ==> s.id != sel[0].id) && (exists s :: s in students && s.id == sel[0].id))
              ==> r == FirstWithId(students, sel[0].id)
    ensures (r.Some? && (forall s :: s in filtered + students ==> s.id != sel[0].id))
              ==> r.value == Student(sel[0].id, sel[0].name, sel[0].grade, [])
  {
    if sel == [] then None
    else
      var row := sel[0];
      var shown := FirstWithId(filtered, row.id);
      if shown.Some? then shown
      else
        var any := FirstWithId(students, row.id);
        if any.Some? then any
        else Some(Student(row.id, row.name, row.grade, []))
  }

  // ---------------------------------------------------------------------
  // The reader and the write protocol
  // ---------------------------------------------------------------------

  /** What one `reader.read()` gives: the tag's uid and text, or the error it raised. */
  datatype ReadResult = ReadOk(uid: nat, text: string) | ReadFail(error: string)

  /** What one `reader.write(text)` gives: success, or the error it raised. */
  datatype WriteResult = WriteOk | WriteFail(error: string)

  /** Stands for a call made after the script ran out. */
  const NoTag: string := "no tag presented"

  function NextRead(rs: seq<ReadResult>): ReadResult
  {
    if rs == [] then ReadFail(NoTag) else rs[0]
  }

  function NextWrite(ws: seq<WriteResult>): WriteResult
  {
    if ws == [] then WriteFail(NoTag) else ws[0]
  }

  function Rest<T>(s: seq<T>): seq<T>
  {
    if s == [] then [] else s[1..]
  }

  /** The lines the app appends to its status box, by kind. */
  datatype LogEvent =
    | ReaderNotInitialised(error: string)
    | Loaded(count: nat, tabs: bool)
    | WriteStarted(name: string, sid: string)
    | HoldForRead
    | TagCurrent(uid: nat, current: string)
    | WriteCanceled
    | Writing
    | HoldForVerify
    | VerifiedOk(value: string, uid: nat)
    | VerifyMismatch(value: string, uid: nat)
    | WriteError(error: string)
    | ReadPrompt
    | TagValue(uid: nat, value: string)
    | ReadError(error: string)

  /** How a write task ends. */
  datatype WriteOutcome = Cancelled | Verified | Mismatch | Failed(error: string)

  /**
   * One run of the write task: its outcome, the lines it logged, the texts
   * it wrote, the reader script left over, and whether it asked before
   * overwriting.
   */
  datatype TaskRun = TaskRun(outcome: WriteOutcome, log: seq<LogEvent>, written: seq<string>,
                             readsLeft: seq<ReadResult>, writesLeft: seq<WriteResult>, prompted: bool)

  /** The tag already carries some other non-empty value. */
  predicate Conflicts(first: ReadResult, sid: string)
  {
    first.ReadOk? && CleanTagText(Some(first.text)) != [] && CleanTagText(Some(first.text)) != sid
  }

  /**
   * The body of the write task for student `name` with id `sid`: read the
   * tag, ask before replacing another value, write, read again and compare.
   * Any failing reader call ends the run with an error line.
   */
  function WriteTask(name: string, sid: string, readScript: seq<ReadResult>, writeScript: seq<WriteResult>,
                     confirmOverwrite: bool): TaskRun
  {
    var tail := AfterFirstRead(sid, NextRead(readScript), Rest(readScript), writeScript, confirmOverwrite);
    tail.(log := [WriteStarted(name, sid), HoldForRead] + tail.log)
  }

  /**
   * The write task once the first read gave `first`: fail on a read error,
   * stop when the operator declines to replace another value, else go on
   * to write and verify.
   */
  function AfterFirstRead(sid: string, first: ReadResult, readScript: seq<ReadResult>, writeScript: seq<WriteResult>,
                          confirmOverwrite: bool): TaskRun
  {
    if first.ReadFail? then
      TaskRun(Failed(first.error), [WriteError(first.error)], [], readScript, writeScript, false)
    else
      var current := CleanTagText(Some(first.text));
      var seen := [TagCurrent(first.uid, current)];
      var conflict := current != [] && current != sid;
      if conflict && !confirmOverwrite then
        TaskRun(Cancelled, seen + [WriteCanceled], [], readScript, writeScript, true)
      else
        var tail := WriteVerify(sid, readScript, writeScript);
        tail.(log := seen + tail.log, prompted := conflict)
  }

  /**
   * The second half of the write task, from "Writing…" on: write the id,
   * then read the tag again and compare its cleaned text with the id.
   */
  function WriteVerify(sid: string, readScript: seq<ReadResult>, writeScript: seq<WriteResult>): TaskRun
  {
    var w := NextWrite(writeScript);
    if w.WriteFail? then
      TaskRun(Failed(w.error), [Writing, WriteError(w.error)], [sid], readScript, Rest(writeScript), false)
    else
      var second := NextRead(readScript);
      var asked := [Writing, HoldForVerify];
      if second.ReadFail? then
        TaskRun(Failed(second.error), asked + [WriteError(second.error)], [sid], Rest(readScript), Rest(writeScript), false)
      else
        var check := CleanTagText(Some(second.text));
        var line := if check == sid then VerifiedOk(check, second.uid) else VerifyMismatch(check, second.uid);
        TaskRun(if check == sid then Verified else Mismatch, asked + [line], [sid],
                Rest(readScript), Rest(writeScript), false)
  }

  /**
   * What every run of the write task guarantees: at most one write, and only
   * of the id; a prompt exactly when the tag holds another value; no write
   * after a declined prompt; Verified or Mismatch decided by the second read
   * alone; every failure logged last.
   */
  lemma WriteTaskProtocol(name: string, sid: string, readScript: seq<ReadResult>, writeScript: seq<WriteResult>,
                          confirmOverwrite: bool)
    ensures var run := WriteTask(name, sid, readScript, writeScript, confirmOverwrite);
            && (run.written == [] || run.written == [sid])
            && (|run.log| >= 3 && run.log[..2] == [WriteStarted(name, sid), HoldForRead])
            && (run.prompted <==> Conflicts(NextRead(readScript), sid))
            && (run.written == [sid] <==> NextRead(readScript).ReadOk? && (Conflicts(NextRead(readScript), sid) ==> confirmOverwrite))
            && (run.outcome == Cancelled <==> run.prompted && !confirmOverwrite)
            && (run.outcome == Cancelled ==> run.written == [] && run.log[|run.log| - 1] == WriteCanceled)
            && (run.outcome == Verified <==> run.written == [sid] && NextWrite(writeScript).WriteOk? && NextRead(Rest(readScript)).ReadOk? && CleanTagText(Some(NextRead(Rest(readScript)).text)) == sid)
            && (run.outcome == Mismatch <==> run.written == [sid] && NextWrite(writeScript).WriteOk? && NextRead(Rest(readScript)).ReadOk? && CleanTagText(Some(NextRead(Rest(readScript)).text)) != sid)
            && (run.outcome.Failed? ==> run.log[|run.log| - 1] == WriteError(run.outcome.error))
  {
  }

  /**
   * A blank tag, or one that already holds the id, is written without a
   * prompt; and when the tag then echoes the id back with its padding, the
   * run ends Verified.
   */
  lemma WriteEchoVerifies(name: string, sid: string, u1: nat, t1: string, u2: nat, pad: string,
                          rest: seq<ReadResult>, writeScript: seq<WriteResult>, confirm: bool)
    requires '\0' !in sid && Trimmed(sid)
    requires CleanTagText(Some(t1)) == [] || CleanTagText(Some(t1)) == sid
    requires writeScript != [] && writeScript[0] == WriteOk
    requires forall k :: 0 <= k < |pad| ==> pad[k] == '\0' || IsSpace(pad[k])
    ensures var r := WriteTask(name, sid, [ReadOk(u1, t1), ReadOk(u2, sid + pad)] + rest, writeScript, confirm);
            !r.prompted && r.outcome == Verified
  {
    CleanPadded(sid, pad);
    var readScript := [ReadOk(u1, t1), ReadOk(u2, sid + pad)] + rest;
    assert Rest(readScript)[0] == ReadOk(u2, sid + pad);
  }

  /** The `(uid, text)` the read task shows, or its error line. */
  function ReadTask(readScript: seq<ReadResult>): (log: seq<LogEvent>)
    ensures |log| == 2 && log[0] == ReadPrompt
    ensures NextRead(readScript).ReadOk? ==> log[1] == TagValue(NextRead(readScript).uid, CleanTagText(Some(NextRead(readScript).text)))
    ensures NextRead(readScript).ReadFail? ==> log[1] == ReadError(NextRead(readScript).error)
  {
    var r := NextRead(readScript);
    [ReadPrompt] + (if r.ReadOk? then [TagValue(r.uid, CleanTagText(Some(r.text)))] else [ReadError(r.error)])
  }

  /** What happens when the write button is pressed, before any task starts. */
  datatype Gate =
    | NoSelection
    | NonNumericDeclined
    | ReaderNotReady
    | Start(student: Student, sid: string)

  /**
   * `write_selected` up to `run_thread`: a selection is needed; an id that
   * is not all digits needs the operator's yes; the reader must be ready.
   */
  function WriteGate(student: Option<Student>, confirmNonNumeric: bool, ready: bool): (g: Gate)
    ensures g == NoSelection <==> student.None?
    ensures g == NonNumericDeclined <==> student.Some? && !IsDigits(Strip(student.value.id)) && !confirmNonNumeric
    ensures g == ReaderNotReady <==>
              student.Some? && (IsDigits(Strip(student.value.id)) || confirmNonNumeric) && !ready
    ensures g.Start? ==> ready && student == Some(g.student) && g.sid == Strip(g.student.id)
  {
    if student.None? then NoSelection
    else
      var sid := Strip(student.value.id);
      if !IsDigits(sid) && !confirmNonNumeric then NonNumericDeclined
      else if !ready then ReaderNotReady
      else Start(student.value, sid)
  }

  /**
   * The RC522 reader on its GPIO board, driven by a script: the results its
   * next `read()` and `write()` calls give, the texts written so far, and how
   * often `GPIO.cleanup()` ran.
   */
  class TagReader {
    var readScript: seq<ReadResult>
    var writeScript: seq<WriteResult>
    var written: seq<string>
    var cleanups: nat

    constructor (readScript: seq<ReadResult>, writeScript: seq<WriteResult>)
      ensures this.readScript == readScript && this.writeScript == writeScript && written == [] && cleanups == 0
    {
      this.readScript, this.writeScript := readScript, writeScript;
      written, cleanups := [], 0;
    }

    /** `reader.read()`: the next scripted result. */
    method Read() returns (r: ReadResult)
      modifies this`readScript
      ensures r == NextRead(old(readScript)) && readScript == Rest(old(readScript))
    {
      r := NextRead(readScript);
      readScript := Rest(readScript);
    }

    /** `reader.write(text)`: the text is sent whatever the scripted result is. */
    method Write(text: string) returns (r: WriteResult)
      modifies this`writeScript, this`written
      ensures r == NextWrite(old(writeScript)) && writeScript == Rest(old(writeScript))
      ensures written == old(written) + [text]
    {
      r := NextWrite(writeScript);
      writeScript := Rest(writeScript);
      written := written + [text];
    }

    /** `GPIO.cleanup()`. */
    method Cleanup()
      modifies this`cleanups
      ensures cleanups == old(cleanups) + 1
    {
      cleanups := cleanups + 1;
    }
  }

  // ---------------------------------------------------------------------
  // The application object
  // ---------------------------------------------------------------------

  class RFIDWriterApp {
    var students: seq<Student>
    var filtered: seq<Student>
    var query: string
    var log: seq<LogEvent>
    const reader: TagReader?
    const rfidReady: bool

    /** `__init__` with `_init_rfid` done: `reader` is null when the reader could not be set up. */
    constructor (reader: TagReader?, initError: string)
      ensures this.reader == reader && rfidReady == (reader != null)
      ensures students == [] && filtered == [] && query == []
      ensures log == if reader == null then [ReaderNotInitialised(initError)] else []
    {
      this.reader := reader;
      rfidReady := reader != null;
      students, filtered, query := [], [], [];
      log := if reader == null then [ReaderNotInitialised(initError)] else [];
    }

    /** The check `run_thread` makes before starting a reader task. */
    predicate Ready()
      reads this
    {
      rfidReady && reader != null
    }

    /** `clear_search`: empty query, every student shown. */
    method ClearSearch()
      modifies this`query, this`filtered
      ensures query == [] && filtered == students
    {
      query := [];
      filtered := students;
    }

    /**
     * `load_file` once the file is open and parsed: `sample` is its first
     * 4096 characters, `headers` the header row, `rows` the data rows.
     * Missing headers abort with the roster untouched; otherwise the roster
     * is rebuilt and the search cleared.
     */
    method LoadFile(sample: string, headers: seq<string>, rows: seq<Row>) returns (missing: seq<string>)
      modifies this`students, this`filtered, this`query, this`log
      ensures missing == MissingHeaders(headers)
      ensures missing != [] ==> students == old(students) && filtered == old(filtered)
                                && query == old(query) && log == old(log)
      ensures missing == [] ==> && students == Roster(rows) && filtered == students && query == []
                                && log == old(log) + [Loaded(|students|, DetectDelimiter(sample) == '\t')]
    {
      var delim := DetectDelimiter(sample);
      missing := MissingHeaders(headers);
      if missing != [] {
        return;
      }
      students := [];
      var i := 0;
      while i < |rows|
        invariant 0 <= i <= |rows|
        invariant students == Roster(rows[..i])
        invariant log == old(log)
      {
        var row := rows[i];
        var sid := Field(row, ColId);
        var name := Field(row, ColName);
        var grade := Field(row, ColGrade);
        var email := Field(row, ColEmail);
        if sid != [] && name != [] {
          students := students + [Student(sid, name, grade, email)];
        }
        assert rows[..i + 1][..i] == rows[..i];
        i := i + 1;
      }
      assert rows[..i] == rows;
      log := log + [Loaded(|students|, delim == '\t')];
      ClearSearch();
    }

    /**
     * `do_search` for the current query: refused while no roster is loaded;
     * an empty query shows everyone; otherwise the matching students.
     */
    method DoSearch() returns (searched: bool)
      modifies this`filtered
      ensures searched <==> students != []
      ensures searched ==> filtered == SearchResult(students, query)
      ensures !searched ==> filtered == old(filtered)
    {
      if students == [] {
        return false;
      }
      searched := true;
      var q := Lower(Strip(query));
      if q == [] {
        filtered := students;
        return;
      }
      var qDigits := IsDigits(RemoveChar(q, '-'));
      var out := [];
      var i := 0;
      while i < |students|
        invariant 0 <= i <= |students|
        invariant out == SearchFilter(students[..i], q)
      {
        var s := students[i];
        var sid := Lower(s.id);
        var name := Lower(s.name);
        if qDigits {
          if Contains(RemoveChar(sid, '-'), RemoveChar(q, '-')) {
            out := out + [s];
          }
        } else {
          if Contains(name, q) || Contains(sid, q) {
            out := out + [s];
          }
        }
        assert students[..i + 1][..i] == students[..i];
        i := i + 1;
      }
      assert students[..i] == students;
      filtered := out;
    }

    /** `get_selected` for the selected rows `sel`. */
    method GetSelected(sel: seq<TreeRow>) returns (student: Option<Student>)
      ensures student == Selected(filtered, students, sel)
    {
      if sel == [] {
        return None;
      }
      var sid := sel[0].id;
      var i := 0;
      while i < |filtered|
        invariant 0 <= i <= |filtered|
        invariant FirstWithId(filtered[i..], sid) == FirstWithId(filtered, sid)
      {
        if filtered[i].id == sid {
          return Some(filtered[i]);
        }
        assert filtered[i..][1..] == filtered[i + 1..];
        i := i + 1;
      }
      i := 0;
      while i < |students|
        invariant 0 <= i <= |students|
        invariant FirstWithId(students[i..], sid) == FirstWithId(students, sid)
      {
        if students[i].id == sid {
          return Some(students[i]);
        }
        assert students[i..][1..] == students[i + 1..];
        i := i + 1;
      }
      return Some(Student(sel[0].id, sel[0].name, sel[0].grade, []));
    }

    /**
     * The write task: the steps inside `try`, with `GPIO.cleanup()` once
     * at the end whichever way the steps ended.
     */
    method RunWriteTask(name: string, sid: string, confirmOverwrite: bool) returns (outcome: WriteOutcome)
      requires reader != null
      modifies this`log, reader
      ensures var run := WriteTask(name, sid, old(reader.readScript), old(reader.writeScript), confirmOverwrite);
              && outcome == run.outcome && log == old(log) + run.log
              && reader.written == old(reader.written) + run.written
              && reader.readScript == run.readsLeft && reader.writeScript == run.writesLeft
              && reader.cleanups == old(reader.cleanups) + 1
    {
      outcome := WriteSteps(name, sid, confirmOverwrite);
      reader.Cleanup();
    }

    /** The steps inside the `try` of the write task. */
    method WriteSteps(name: string, sid: string, confirmOverwrite: bool) returns (outcome: WriteOutcome)
      requires reader != null
      modifies this`log, reader`readScript, reader`writeScript, reader`written
      ensures var run := WriteTask(name, sid, old(reader.readScript), old(reader.writeScript), confirmOverwrite);
              && outcome == run.outcome && log == old(log) + run.log
              && reader.written == old(reader.written) + run.written
              && reader.readScript == run.readsLeft && reader.writeScript == run.writesLeft
    {
      ghost var tail := AfterFirstRead(sid, NextRead(reader.readScript), Rest(reader.readScript), reader.writeScript, confirmOverwrite);
      var start := [WriteStarted(name, sid), HoldForRead];
      assert WriteTask(name, sid, reader.readScript, reader.writeScript, confirmOverwrite) == tail.(log := start + tail.log);
      log := log + start;
      var first := reader.Read();
      outcome := CheckAndWrite(sid, first, confirmOverwrite);
      assert log == old(log) + (start + tail.log);
    }

    /** The steps after the first read: the overwrite question, then write and verify. */
    method CheckAndWrite(sid: string, first: ReadResult, confirmOverwrite: bool) returns (outcome: WriteOutcome)
      requires reader != null
      modifies this`log, reader`readScript, reader`writeScript, reader`written
      ensures var run := AfterFirstRead(sid, first, old(reader.readScript), old(reader.writeScript), confirmOverwrite);
              && outcome == run.outcome && log == old(log) + run.log
              && reader.written == old(reader.written) + run.written
              && reader.readScript == run.readsLeft && reader.writeScript == run.writesLeft
    {
      if first.ReadFail? {
        log := log + [WriteError(first.error)];
        return Failed(first.error);
      }
      var existing := CleanTagText(Some(first.text));
      log := log + [TagCurrent(first.uid, existing)];
      if existing != [] && existing != sid && !confirmOverwrite {
        log := log + [WriteCanceled];
        return Cancelled;
      }
      ghost var seen := log;
      ghost var tail := WriteVerify(sid, reader.readScript, reader.writeScript);
      outcome := WriteAndVerify(sid);
      assert log == seen + tail.log && seen == old(log) + [TagCurrent(first.uid, existing)];
    }

    /** The steps from "Writing…" to the verify line. */
    method WriteAndVerify(sid: string) returns (outcome: WriteOutcome)
      requires reader != null
      modifies this`log, reader`readScript, reader`writeScript, reader`written
      ensures var tail := WriteVerify(sid, old(reader.readScript), old(reader.writeScript));
              && outcome == tail.outcome && log == old(log) + tail.log
              && reader.written == old(reader.written) + tail.written
              && reader.readScript == tail.readsLeft && reader.writeScript == tail.writesLeft
    {
      log := log + [Writing];
      var w := reader.Write(sid);
      if w.WriteFail? {
        log := log + [WriteError(w.error)];
        return Failed(w.error);
      }
      log := log + [HoldForVerify];
      var second := reader.Read();
      if second.ReadFail? {
        log := log + [WriteError(second.error)];
        return Failed(second.error);
      }
      var check := CleanTagText(Some(second.text));
      if check == sid {
        log := log + [VerifiedOk(check, second.uid)];
        outcome := Verified;
      } else {
        log := log + [VerifyMismatch(check, second.uid)];
        outcome := Mismatch;
      }
    }

    /**
     * `write_selected` for the selected rows `sel`, with the answers the
     * operator gives to the non-numeric-id and overwrite questions.
     */
    method WriteSelected(sel: seq<TreeRow>, confirmNonNumeric: bool, confirmOverwrite: bool)
      returns (gate: Gate, outcome: Option<WriteOutcome>)
      modifies this`log, reader
      ensures gate == WriteGate(Selected(filtered, students, sel), confirmNonNumeric, Ready())
      ensures !gate.Start? ==> outcome.None? && log == old(log)
      ensures !gate.Start? && reader != null ==>
                reader.readScript == old(reader.readScript) && reader.writeScript == old(reader.writeScript)
                && reader.written == old(reader.written) && reader.cleanups == old(reader.cleanups)
      ensures gate.Start? ==> reader != null
      ensures gate.Start? && reader != null ==>
                var run := WriteTask(gate.student.name, gate.sid, old(reader.readScript), old(reader.writeScript), confirmOverwrite);
                && outcome == Some(run.outcome) && log == old(log) + run.log
                && reader.written == old(reader.written) + run.written
                && reader.readScript == run.readsLeft && reader.writeScript == run.writesLeft
                && reader.cleanups == old(reader.cleanups) + 1
    {
      var student := GetSelected(sel);
      if student.None? {
        return NoSelection, None;
      }
      var sid := Strip(student.value.id);
      if !IsDigits(sid) && !confirmNonNumeric {
        return NonNumericDeclined, None;
      }
      if !rfidReady || reader == null {
        return ReaderNotReady, None;
      }
      gate := Start(student.value, sid);
      var o := RunWriteTask(student.value.name, sid, confirmOverwrite);
      outcome := Some(o);
    }

    /** `read_tag`: when the reader is ready, read once, show the cleaned text, clean up. */
    method ReadTag() returns (started: bool)
      modifies this`log, reader
      ensures started <==> Ready()
      ensures !started ==> log == old(log)
      ensures !started && reader != null ==>
                reader.readScript == old(reader.readScript) && reader.writeScript == old(reader.writeScript)
                && reader.written == old(reader.written) && reader.cleanups == old(reader.cleanups)
      ensures started ==> reader != null && log == old(log) + ReadTask(old(reader.readScript))
                          && reader.readScript == Rest(old(reader.readScript))
                          && reader.writeScript == old(reader.writeScript) && reader.written == old(reader.written)
                          && reader.cleanups == old(reader.cleanups) + 1
    {
      if !rfidReady || reader == null {
        return false;
      }
      started := true;
      log := log + [ReadPrompt];
      var r := reader.Read();
      if r.ReadOk? {
        log := log + [TagValue(r.uid, CleanTagText(Some(r.text)))];
      } else {
        log := log + [ReadError(r.error)];
      }
      reader.Cleanup();
    }
  }
}
