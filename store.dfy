/**
 * The ActiveRecord store the Intern model writes to, as an object whose
 * tables the model's operations update in place. `Contents` is its value,
 * and every method is specified by the function of `Tables` or `Importer`
 * that gives the state it leaves.
 */
module Store {
  import opened Wrappers
  import opened Records
  import opened Validation
  import opened Tables
  import opened Importer

  class Store {
    var interns: seq<InternRow>
    var emails: seq<Email>
    var githubs: seq<Link>
    var slacks: seq<Link>
    var dropboxes: seq<Link>
    var nextId: nat

    function Contents(): Db
      reads this
    {
      Db(interns, emails, githubs, slacks, dropboxes, nextId)
    }

    predicate Valid()
      reads this
    {
      WellFormed(Contents())
    }

    constructor ()
      ensures Contents() == Empty && Valid()
    {
      interns, emails, githubs, slacks, dropboxes, nextId := [], [], [], [], [], 0;
    }

    /** `Email.create(category:, address:)`: an unowned email; its position is returned. */
    method CreateEmail(category: string, address: Option<string>) returns (index: nat)
      requires Valid()
      modifies this
      ensures Valid() && index == |old(emails)|
      ensures Contents() == AddEmail(old(Contents()), Email(None, category, address))
    {
      AddEmailKeepsWellFormed(Contents(), Email(None, category, address));
      index := |emails|;
      emails := emails + [Email(None, category, address)];
    }

    /** `Github.create` / `Slack.create` / `Dropbox.create`: an unowned link; its position is returned. */
    method CreateLink(p: Provider, username: Option<string>) returns (index: nat)
      requires Valid()
      modifies this
      ensures Valid() && index == |Links(old(Contents()), p)|
      ensures Contents() == AddLink(old(Contents()), p, Link(None, username))
    {
      AddLinkKeepsWellFormed(Contents(), p, Link(None, username));
      var l := Link(None, username);
      match p
      case Github => index := |githubs|; githubs := githubs + [l];
      case Slack => index := |slacks|; slacks := slacks + [l];
      case Dropbox => index := |dropboxes|; dropboxes := dropboxes + [l];
    }

    /**
     * `save` of a new intern with attributes `a` wired to the sub-records `w`:
     * it runs the validations, and only when none fails inserts the intern
     * under the next key and points the sub-records at it.
     */
    method Save(a: Attributes, w: Wiring, today: Day) returns (saved: bool, messages: seq<string>)
      requires Valid() && WiringFits(Contents(), w)
      modifies this
      ensures Valid()
      ensures saved <==> Validate(a, today) == []
      ensures messages == FullMessages(Validate(a, today))
      ensures Contents() == SaveDb(old(Contents()), a, w, saved)
    {
      var errors := Validate(a, today);
      messages := FullMessages(errors);
      saved := errors == [];
      SaveKeepsWellFormed(Contents(), a, w, saved);
      if saved {
        var id := nextId;
        interns := interns + [InternRow(id, a)];
        nextId := id + 1;
        emails := emails[w.thoughtworks := emails[w.thoughtworks].(owner := Some(id))];
        emails := emails[w.personal := emails[w.personal].(owner := Some(id))];
        githubs := githubs[w.github := githubs[w.github].(owner := Some(id))];
        slacks := slacks[w.slack := slacks[w.slack].(owner := Some(id))];
        dropboxes := dropboxes[w.dropbox := dropboxes[w.dropbox].(owner := Some(id))];
      }
    }

    /** `destroy` of intern `id`, deleting its emails and destroying its links. */
    method Destroy(id: nat)
      requires Valid()
      modifies this
      ensures Valid()
      ensures Contents() == DestroyDb(old(Contents()), id)
    {
      DestroyCascades(Contents(), id);
      var d := DestroyDb(Contents(), id);
      interns, emails, githubs, slacks, dropboxes := d.interns, d.emails, d.githubs, d.slacks, d.dropboxes;
    }

    /**
     * One row of `Intern.import`: create its two emails and three links,
     * build the candidate on them and save it.
     */
    method ImportRow(row: Row, today: Day, parseDate: string -> Option<Day>) returns (saved: bool, messages: seq<string>)
      requires Valid()
      modifies this
      ensures Valid()
      ensures Contents() == StepRow(old(Contents()), row, parseDate, Messages(today, parseDate))
      ensures saved == (Messages(today, parseDate)(row) == [])
      ensures messages == Messages(today, parseDate)(row)
    {
      var thoughtworks := CreateEmail("ThoughtWorks", Cell(row, "thoughtworks_email"));
      var personal := CreateEmail("Personal", Cell(row, "personal_email"));
      var github := CreateLink(Github, Cell(row, "username"));
      var slack := CreateLink(Slack, Cell(row, "username"));
      var dropbox := CreateLink(Dropbox, Cell(row, "username"));
      saved, messages := Save(Candidate(row, parseDate), Wiring(thoughtworks, personal, github, slack, dropbox), today);
      StepMatchesSave(row, today, parseDate, saved, messages);
    }

    /**
     * `Intern.import`: the rows in order, each counted and imported; a row
     * that does not save is reported with its number, its cells and its
     * messages.
     */
    method Import(rows: seq<Row>, today: Day, parseDate: string -> Option<Day>) returns (failures: seq<Failure>)
      requires Valid()
      modifies this
      ensures Valid()
      ensures Contents() == ImportDb(old(Contents()), rows, parseDate, Messages(today, parseDate))
      ensures failures == ImportFailures(rows, Messages(today, parseDate))
    {
      ghost var m := Messages(today, parseDate);
      failures := [];
      var n := 0;
      while n < |rows|
        invariant n <= |rows| && Valid()
        invariant Contents() == ImportDb(old(Contents()), rows[..n], parseDate, m)
        invariant failures == ImportFailures(rows[..n], m)
      {
        ImportOneMore(old(Contents()), rows, parseDate, m, n);
        var row := rows[n];
        var saved, messages := ImportRow(row, today, parseDate);
        n := n + 1;
        if !saved {
          failures := failures + [Failure(n, row, messages)];
        }
      }
      assert rows[..n] == rows;
    }
  }

  /** What `Save` reports on a row's candidate is what the import specification expects of it. */
  lemma StepMatchesSave(row: Row, today: Day, parseDate: string -> Option<Day>, saved: bool, messages: seq<string>)
    requires saved <==> Validate(Candidate(row, parseDate), today) == []
    requires messages == FullMessages(Validate(Candidate(row, parseDate), today))
    ensures (Messages(today, parseDate)(row) == []) == saved
    ensures Messages(today, parseDate)(row) == messages
  {
    assert |messages| == |Validate(Candidate(row, parseDate), today)|;
  }
}
