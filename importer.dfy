/**
 * `Intern.import`, specified on values: each parsed CSV row writes two emails
 * and three links, builds a candidate intern wired to them, and saves it when
 * it validates; the rows that fail are reported with their 1-based number.
 *
 * The specification is stated over `messagesOf`, the full error messages
 * `save` leaves on a row's candidate (empty exactly when it saves);
 * `Messages` is that function for the Intern validations.
 */
module Importer {
  import opened Wrappers
  import opened Records
  import opened Validation
  import opened Tables

  /** `Intern.new(emp_id: row['emp_id'], ...)`; `parseDate` is the Date cast (nil when unparsable). */
  function Candidate(row: Row, parseDate: string -> Option<Day>): Attributes {
    var dob := Cell(row, "dob");
    Attributes(
      Cell(row, "emp_id"), Cell(row, "display_name"), Cell(row, "first_name"), Cell(row, "last_name"),
      Cell(row, "batch"), if dob.Some? then parseDate(dob.value) else None,
      Cell(row, "gender"), Cell(row, "phone_number"))
  }

  /** `intern.errors.full_messages` after `save` of a row's candidate. */
  function Messages(today: Day, parseDate: string -> Option<Day>): Row -> seq<string> {
    (row: Row) => FullMessages(Validate(Candidate(row, parseDate), today))
  }

  /** A row saves exactly when its candidate passes every validation. */
  lemma MessagesExactly(row: Row, today: Day, parseDate: string -> Option<Day>)
    ensures Messages(today, parseDate)(row) == FullMessages(Validate(Candidate(row, parseDate), today))
    ensures Messages(today, parseDate)(row) == [] <==> Acceptable(Candidate(row, parseDate), today)
  {
    ValidIffAcceptable(Candidate(row, parseDate), today);
  }

  /** The sub-records written for `row`, wired to the five rows appended last. */
  function Wire(db: Db): Wiring {
    Wiring(|db.emails|, |db.emails| + 1, |db.githubs|, |db.slacks|, |db.dropboxes|)
  }

  /**
   * One iteration: `Email.create` twice, `Github/Slack/Dropbox.create` from the
   * `username` column, then `save` of the candidate wired to those five rows.
   */
  function StepRow(db: Db, row: Row, parseDate: string -> Option<Day>, messagesOf: Row -> seq<string>): Db {
    var d1 := AddEmail(db, Email(None, "ThoughtWorks", Cell(row, "thoughtworks_email")));
    var d2 := AddEmail(d1, Email(None, "Personal", Cell(row, "personal_email")));
    var d3 := AddLink(d2, Github, Link(None, Cell(row, "username")));
    var d4 := AddLink(d3, Slack, Link(None, Cell(row, "username")));
    var d5 := AddLink(d4, Dropbox, Link(None, Cell(row, "username")));
    SaveDb(d5, Candidate(row, parseDate), Wire(db), messagesOf(row) == [])
  }

  /**
   * The net effect of one iteration: two emails and one link per provider
   * appended, owned by the new key when the row saves and by nobody when
   * it does not; the intern appended only when it saves.
   */
  function RowEffect(db: Db, row: Row, parseDate: string -> Option<Day>, messagesOf: Row -> seq<string>): Db {
    var saved := messagesOf(row) == [];
    var owner := if saved then Some(db.nextId) else None;
    var link := Link(owner, Cell(row, "username"));
    Db(db.interns + (if saved then [InternRow(db.nextId, Candidate(row, parseDate))] else []),
       db.emails + [Email(owner, "ThoughtWorks", Cell(row, "thoughtworks_email")),
                    Email(owner, "Personal", Cell(row, "personal_email"))],
       db.githubs + [link], db.slacks + [link], db.dropboxes + [link],
       if saved then db.nextId + 1 else db.nextId)
  }

  /** The state after importing `rows` in order, one row's effect after another. */
  function ImportDb(db: Db, rows: seq<Row>, parseDate: string -> Option<Day>, messagesOf: Row -> seq<string>): Db
    decreases |rows|
  {
    if rows == [] then db
    else RowEffect(ImportDb(db, rows[..|rows| - 1], parseDate, messagesOf), rows[|rows| - 1], parseDate, messagesOf)
  }

  /** `{row_number:, intern_details:, errors:}` of a row whose save failed. */
  datatype Failure = Failure(rowNumber: nat, details: Row, errors: seq<string>)

  /** `interns_records`: the failures, in row order. */
  function ImportFailures(rows: seq<Row>, messagesOf: Row -> seq<string>): (r: seq<Failure>)
    ensures |r| <= |rows|
    decreases |rows|
  {
    if rows == [] then []
    else
      var last := rows[|rows| - 1];
      ImportFailures(rows[..|rows| - 1], messagesOf)
      + (if messagesOf(last) == [] then [] else [Failure(|rows|, last, messagesOf(last))])
  }

  /** Importing one more row takes one more step and adds at most its own report. */
  lemma ImportOneMore(db: Db, rows: seq<Row>, parseDate: string -> Option<Day>, messagesOf: Row -> seq<string>, n: nat)
    requires n < |rows|
    ensures ImportDb(db, rows[..n + 1], parseDate, messagesOf)
      == StepRow(ImportDb(db, rows[..n], parseDate, messagesOf), rows[n], parseDate, messagesOf)
    ensures ImportFailures(rows[..n + 1], messagesOf)
      == ImportFailures(rows[..n], messagesOf)
         + (if messagesOf(rows[n]) == [] then [] else [Failure(n + 1, rows[n], messagesOf(rows[n]))])
  {
    assert rows[..n + 1][..n] == rows[..n];
    StepRowEffect(ImportDb(db, rows[..n], parseDate, messagesOf), rows[n], parseDate, messagesOf);
  }

  /** `f` reports row `f.rowNumber` (1-based) of `rows`, which was rejected, with its messages. */
  predicate Reports(rows: seq<Row>, f: Failure, messagesOf: Row -> seq<string>) {
    && 1 <= f.rowNumber <= |rows|
    && f.details == rows[f.rowNumber - 1]
    && f.errors == messagesOf(f.details)
    && f.errors != []
  }

  /** Every reported failure is a rejected row, numbered from 1, with its non-empty messages. */
  lemma {:induction false} ImportFailuresSound(rows: seq<Row>, messagesOf: Row -> seq<string>)
    ensures forall f <- ImportFailures(rows, messagesOf) :: Reports(rows, f, messagesOf)
    decreases |rows|
  {
    if rows != [] {
      var init := rows[..|rows| - 1];
      ImportFailuresSound(init, messagesOf);
      forall f <- ImportFailures(init, messagesOf) ensures Reports(rows, f, messagesOf) {
        assert init[f.rowNumber - 1] == rows[f.rowNumber - 1];
      }
    }
  }

  predicate Increasing(f: seq<Failure>) {
    forall k, l :: 0 <= k < l < |f| ==> f[k].rowNumber < f[l].rowNumber
  }

  /** Row numbers in the failure list strictly increase. */
  lemma {:induction false} ImportFailuresOrdered(rows: seq<Row>, messagesOf: Row -> seq<string>)
    ensures Increasing(ImportFailures(rows, messagesOf))
    decreases |rows|
  {
    if rows != [] {
      var init := rows[..|rows| - 1];
      ImportFailuresOrdered(init, messagesOf);
      ImportFailuresSound(init, messagesOf);
      var f0 := ImportFailures(init, messagesOf);
      var f := ImportFailures(rows, messagesOf);
      forall k, l | 0 <= k < l < |f| ensures f[k].rowNumber < f[l].rowNumber {
        if l < |f0| {
          assert f[k] == f0[k] && f[l] == f0[l];
          assert f0[k].rowNumber < f0[l].rowNumber;
        } else {
          var last := rows[|rows| - 1];
          assert f == f0 + [Failure(|rows|, last, messagesOf(last))];
          assert f[k] == f0[k] && f0[k] in f0 && Reports(init, f0[k], messagesOf);
        }
      }
    }
  }

  /** Every rejected row is in the failure list. */
  lemma {:induction false} ImportFailuresComplete(rows: seq<Row>, messagesOf: Row -> seq<string>, i: nat)
    requires i < |rows| && messagesOf(rows[i]) != []
    ensures exists f <- ImportFailures(rows, messagesOf) :: f.rowNumber == i + 1
    decreases |rows|
  {
    var init := rows[..|rows| - 1];
    var f0 := ImportFailures(init, messagesOf);
    var f := ImportFailures(rows, messagesOf);
    if i < |rows| - 1 {
      assert init[i] == rows[i];
      ImportFailuresComplete(init, messagesOf, i);
      var g :| g in f0 && g.rowNumber == i + 1;
      assert g in f;
    } else {
      assert f[|f| - 1] in f;
    }
  }

  /** The number of rows that were saved. */
  function Saved(rows: seq<Row>, messagesOf: Row -> seq<string>): nat {
    |rows| - |ImportFailures(rows, messagesOf)|
  }

  /**
   * Creating the five sub-records and then saving has the net effect of
   * `RowEffect`: rows that fail write the same five sub-records, only
   * without an owner.
   */
  lemma StepRowEffect(db: Db, row: Row, parseDate: string -> Option<Day>, messagesOf: Row -> seq<string>)
    ensures StepRow(db, row, parseDate, messagesOf) == RowEffect(db, row, parseDate, messagesOf)
  {
  }

  lemma StepRowKeepsWellFormed(db: Db, row: Row, parseDate: string -> Option<Day>, messagesOf: Row -> seq<string>)
    requires WellFormed(db)
    ensures WellFormed(StepRow(db, row, parseDate, messagesOf))
  {
    var d1 := AddEmail(db, Email(None, "ThoughtWorks", Cell(row, "thoughtworks_email")));
    var d2 := AddEmail(d1, Email(None, "Personal", Cell(row, "personal_email")));
    var d3 := AddLink(d2, Github, Link(None, Cell(row, "username")));
    var d4 := AddLink(d3, Slack, Link(None, Cell(row, "username")));
    var d5 := AddLink(d4, Dropbox, Link(None, Cell(row, "username")));
    AddEmailKeepsWellFormed(db, Email(None, "ThoughtWorks", Cell(row, "thoughtworks_email")));
    AddEmailKeepsWellFormed(d1, Email(None, "Personal", Cell(row, "personal_email")));
    AddLinkKeepsWellFormed(d2, Github, Link(None, Cell(row, "username")));
    AddLinkKeepsWellFormed(d3, Slack, Link(None, Cell(row, "username")));
    AddLinkKeepsWellFormed(d4, Dropbox, Link(None, Cell(row, "username")));
    SaveKeepsWellFormed(d5, Candidate(row, parseDate), Wire(db), messagesOf(row) == []);
  }

  /** Importing keeps the store invariant. */
  lemma {:induction false} ImportKeepsWellFormed(db: Db, rows: seq<Row>, parseDate: string -> Option<Day>, messagesOf: Row -> seq<string>)
    requires WellFormed(db)
    ensures WellFormed(ImportDb(db, rows, parseDate, messagesOf))
    decreases |rows|
  {
    if rows != [] {
      var init := rows[..|rows| - 1];
      ImportKeepsWellFormed(db, init, parseDate, messagesOf);
      StepRowKeepsWellFormed(ImportDb(db, init, parseDate, messagesOf), rows[|rows| - 1], parseDate, messagesOf);
      StepRowEffect(ImportDb(db, init, parseDate, messagesOf), rows[|rows| - 1], parseDate, messagesOf);
    }
  }

  /**
   * Every row writes two emails and one link per provider, even when it is
   * rejected; one intern is added, and one key handed out, per saved row.
   */
  lemma {:induction false} ImportSizes(db: Db, rows: seq<Row>, parseDate: string -> Option<Day>, messagesOf: Row -> seq<string>)
    ensures var d := ImportDb(db, rows, parseDate, messagesOf);
      && |d.emails| == |db.emails| + 2 * |rows|
      && (forall p :: |Links(d, p)| == |Links(db, p)| + |rows|)
      && |d.interns| == |db.interns| + Saved(rows, messagesOf)
      && d.nextId == db.nextId + Saved(rows, messagesOf)
    decreases |rows|
  {
    if rows != [] {
      var init := rows[..|rows| - 1];
      ImportSizes(db, init, parseDate, messagesOf);
      ImportFailuresSound(init, messagesOf);
    }
  }

  /** Later rows only append: the state after the first `j` rows is a prefix of the final one. */
  lemma {:induction false} ImportExtends(db: Db, rows: seq<Row>, parseDate: string -> Option<Day>, messagesOf: Row -> seq<string>, j: nat)
    requires j <= |rows|
    ensures var dj := ImportDb(db, rows[..j], parseDate, messagesOf);
      var d := ImportDb(db, rows, parseDate, messagesOf);
      && dj.interns <= d.interns
      && dj.emails <= d.emails
      && (forall p :: Links(dj, p) <= Links(d, p))
    decreases |rows|
  {
    if j < |rows| {
      var init := rows[..|rows| - 1];
      assert init[..j] == rows[..j];
      ImportExtends(db, init, parseDate, messagesOf, j);
    } else {
      assert rows[..j] == rows;
    }
  }

  /** The owner row `i`'s sub-records end with: the key it got when it saved, nobody otherwise. */
  function RowOwner(db: Db, rows: seq<Row>, messagesOf: Row -> seq<string>, i: nat): Option<nat>
    requires i < |rows|
  {
    if messagesOf(rows[i]) == [] then Some(db.nextId + Saved(rows[..i], messagesOf)) else None
  }

  /** Row `i` leaves its ThoughtWorks and Personal emails at positions 2i and 2i + 1 of the new emails. */
  lemma {:induction false} ImportRowEmails(db: Db, rows: seq<Row>, parseDate: string -> Option<Day>, messagesOf: Row -> seq<string>, i: nat)
    requires i < |rows|
    ensures var d := ImportDb(db, rows, parseDate, messagesOf);
      && |db.emails| + 2 * i + 1 < |d.emails|
      && d.emails[|db.emails| + 2 * i] == Email(RowOwner(db, rows, messagesOf, i), "ThoughtWorks", Cell(rows[i], "thoughtworks_email"))
      && d.emails[|db.emails| + 2 * i + 1] == Email(RowOwner(db, rows, messagesOf, i), "Personal", Cell(rows[i], "personal_email"))
    decreases |rows|
  {
    var init := rows[..|rows| - 1];
    var d0 := ImportDb(db, init, parseDate, messagesOf);
    ImportSizes(db, init, parseDate, messagesOf);
    if i < |rows| - 1 {
      ImportRowEmails(db, init, parseDate, messagesOf, i);
      assert init[..i] == rows[..i] && init[i] == rows[i];
    } else {
      assert init == rows[..i];
    }
  }

  /** Row `i` leaves its link of each provider, carrying the `username` cell, at position i of the new links. */
  lemma {:induction false} ImportRowLinks(db: Db, rows: seq<Row>, parseDate: string -> Option<Day>, messagesOf: Row -> seq<string>, i: nat, p: Provider)
    requires i < |rows|
    ensures var d := ImportDb(db, rows, parseDate, messagesOf);
      && |Links(db, p)| + i < |Links(d, p)|
      && Links(d, p)[|Links(db, p)| + i] == Link(RowOwner(db, rows, messagesOf, i), Cell(rows[i], "username"))
    decreases |rows|
  {
    var init := rows[..|rows| - 1];
    var d0 := ImportDb(db, init, parseDate, messagesOf);
    ImportSizes(db, init, parseDate, messagesOf);
    if i < |rows| - 1 {
      ImportRowLinks(db, init, parseDate, messagesOf, i, p);
      assert init[..i] == rows[..i] && init[i] == rows[i];
    } else {
      assert init == rows[..i];
    }
  }

  /** A row that saves leaves its candidate under its key, just after the interns saved before it. */
  lemma {:induction false} ImportRowIntern(db: Db, rows: seq<Row>, parseDate: string -> Option<Day>, messagesOf: Row -> seq<string>, i: nat)
    requires i < |rows| && messagesOf(rows[i]) == []
    ensures var d := ImportDb(db, rows, parseDate, messagesOf);
      var k := |db.interns| + Saved(rows[..i], messagesOf);
      && k < |d.interns|
      && d.interns[k] == InternRow(db.nextId + Saved(rows[..i], messagesOf), Candidate(rows[i], parseDate))
    decreases |rows|
  {
    var init := rows[..|rows| - 1];
    var d0 := ImportDb(db, init, parseDate, messagesOf);
    ImportSizes(db, init, parseDate, messagesOf);
    if i < |rows| - 1 {
      ImportRowIntern(db, init, parseDate, messagesOf, i);
      assert init[..i] == rows[..i] && init[i] == rows[i];
    } else {
      assert init == rows[..i];
    }
  }

  /** Every intern the import adds is the candidate of a row that saved. */
  lemma {:induction false} ImportSavesOnlyAccepted(db: Db, rows: seq<Row>, parseDate: string -> Option<Day>, messagesOf: Row -> seq<string>)
    ensures var d := ImportDb(db, rows, parseDate, messagesOf);
      && db.interns <= d.interns
      && forall x <- d.interns[|db.interns|..] :: exists i :: 0 <= i < |rows| && messagesOf(rows[i]) == [] && x.attrs == Candidate(rows[i], parseDate)
    decreases |rows|
  {
    if rows != [] {
      var n := |rows|;
      var init := rows[..n - 1];
      var d0 := ImportDb(db, init, parseDate, messagesOf);
      var d := ImportDb(db, rows, parseDate, messagesOf);
      ImportSavesOnlyAccepted(db, init, parseDate, messagesOf);
      forall x <- d.interns[|db.interns|..]
        ensures exists i :: 0 <= i < n && messagesOf(rows[i]) == [] && x.attrs == Candidate(rows[i], parseDate)
      {
        if x in d0.interns[|db.interns|..] {
          var i :| 0 <= i < n - 1 && messagesOf(init[i]) == [] && x.attrs == Candidate(init[i], parseDate);
          assert init[i] == rows[i];
        } else {
          assert messagesOf(rows[n - 1]) == [] && x.attrs == Candidate(rows[n - 1], parseDate);
        }
      }
    }
  }

  /** `m` lets a row through only when its candidate passes the Intern validations. */
  ghost predicate OnlyValidPass(m: Row -> seq<string>, today: Day, parseDate: string -> Option<Day>) {
    forall row :: m(row) == [] ==> Validate(Candidate(row, parseDate), today) == []
  }

  lemma MessagesOnlyValidPass(today: Day, parseDate: string -> Option<Day>)
    ensures OnlyValidPass(Messages(today, parseDate), today, parseDate)
  {
    forall row | Messages(today, parseDate)(row) == [] ensures Validate(Candidate(row, parseDate), today) == [] {
      var errors := Validate(Candidate(row, parseDate), today);
      assert |FullMessages(errors)| == |errors|;
    }
  }

  /** Interns persisted by an import whose check lets only valid rows through all pass the Intern validations. */
  lemma ImportedInternsValid(db: Db, rows: seq<Row>, today: Day, parseDate: string -> Option<Day>, m: Row -> seq<string>)
    requires OnlyValidPass(m, today, parseDate)
    ensures var d := ImportDb(db, rows, parseDate, m);
      db.interns <= d.interns && forall x <- d.interns[|db.interns|..] :: Validate(x.attrs, today) == []
  {
    ImportSavesOnlyAccepted(db, rows, parseDate, m);
  }
}
