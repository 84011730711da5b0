/**
 * The persisted state: the interns table, the emails table and the three
 * identity-link tables, each a sequence of rows in primary-key order, plus
 * the next primary key of the interns table. Every write the Intern model
 * performs is a function from one state to the next.
 */
module Tables {
  import opened Wrappers
  import opened Records
  import opened Seqs

  datatype Db = Db(
    interns: seq<InternRow>,
    emails: seq<Email>,
    githubs: seq<Link>,
    slacks: seq<Link>,
    dropboxes: seq<Link>,
    nextId: nat)

  /** The table holding one provider's links (github_info, slack_info, dropbox_info). */
  function Links(db: Db, p: Provider): seq<Link> {
    match p
    case Github => db.githubs
    case Slack => db.slacks
    case Dropbox => db.dropboxes
  }

  /** Every owner is a key already handed out, and no intern has two links of the table. */
  predicate LinksWellFormed(ls: seq<Link>, nextId: nat) {
    && (forall i :: 0 <= i < |ls| && ls[i].owner.Some? ==> ls[i].owner.value < nextId)
    && (forall i, j :: 0 <= i < j < |ls| && ls[i].owner.Some? ==> ls[i].owner != ls[j].owner)
  }

  /**
   * The store invariant: intern keys are distinct and below nextId, every
   * foreign key is below nextId, and `has_one` holds for each link table.
   */
  predicate WellFormed(db: Db) {
    && (forall i :: 0 <= i < |db.interns| ==> db.interns[i].id < db.nextId)
    && (forall i, j :: 0 <= i < j < |db.interns| ==> db.interns[i].id != db.interns[j].id)
    && (forall i :: 0 <= i < |db.emails| && db.emails[i].owner.Some? ==> db.emails[i].owner.value < db.nextId)
    && LinksWellFormed(db.githubs, db.nextId)
    && LinksWellFormed(db.slacks, db.nextId)
    && LinksWellFormed(db.dropboxes, db.nextId)
  }

  /** The empty database. */
  const Empty: Db := Db([], [], [], [], [], 0)

  /** `Email.create`: an unowned email row is appended. */
  function AddEmail(db: Db, e: Email): Db {
    db.(emails := db.emails + [e])
  }

  /** `Github.create` / `Slack.create` / `Dropbox.create`: a link row is appended to its table. */
  function AddLink(db: Db, p: Provider, l: Link): Db {
    match p
    case Github => db.(githubs := db.githubs + [l])
    case Slack => db.(slacks := db.slacks + [l])
    case Dropbox => db.(dropboxes := db.dropboxes + [l])
  }

  /** The sub-records a candidate intern is wired to: two emails and one link of each provider. */
  datatype Wiring = Wiring(thoughtworks: nat, personal: nat, github: nat, slack: nat, dropbox: nat)

  predicate WiringFits(db: Db, w: Wiring) {
    w.thoughtworks < |db.emails| && w.personal < |db.emails|
    && w.github < |db.githubs| && w.slack < |db.slacks| && w.dropbox < |db.dropboxes|
  }

  /**
   * `save` of a new intern wired to `w`, given whether it validated: when it
   * did, the intern gets key nextId and its sub-records get it as foreign key;
   * otherwise nothing changes.
   */
  function SaveDb(db: Db, a: Attributes, w: Wiring, valid: bool): Db
    requires WiringFits(db, w)
  {
    if !valid then db
    else
      var id := db.nextId;
      var es := db.emails[w.thoughtworks := db.emails[w.thoughtworks].(owner := Some(id))];
      Db(db.interns + [InternRow(id, a)],
         es[w.personal := es[w.personal].(owner := Some(id))],
         db.githubs[w.github := db.githubs[w.github].(owner := Some(id))],
         db.slacks[w.slack := db.slacks[w.slack].(owner := Some(id))],
         db.dropboxes[w.dropbox := db.dropboxes[w.dropbox].(owner := Some(id))],
         id + 1)
  }

  /**
   * `destroy` of intern `id` with its dependents (`dependent: :delete_all` on
   * emails, `dependent: :destroy` on the links): every row owned by `id` goes.
   */
  function DestroyDb(db: Db, id: nat): Db {
    Db(Filter(db.interns, (x: InternRow) => x.id != id),
       Filter(db.emails, (e: Email) => e.owner != Some(id)),
       Filter(db.githubs, (l: Link) => l.owner != Some(id)),
       Filter(db.slacks, (l: Link) => l.owner != Some(id)),
       Filter(db.dropboxes, (l: Link) => l.owner != Some(id)),
       db.nextId)
  }

  lemma AddEmailKeepsWellFormed(db: Db, e: Email)
    requires WellFormed(db) && e.owner == None
    ensures WellFormed(AddEmail(db, e))
  {
  }

  lemma AddLinkKeepsWellFormed(db: Db, p: Provider, l: Link)
    requires WellFormed(db) && l.owner == None
    ensures WellFormed(AddLink(db, p, l))
  {
  }

  /** Handing out a fresh key keeps the owner bound and has_one. */
  lemma OwnFreshLink(ls: seq<Link>, k: nat, id: nat)
    requires LinksWellFormed(ls, id) && k < |ls|
    ensures LinksWellFormed(ls[k := ls[k].(owner := Some(id))], id + 1)
  {
    var ls' := ls[k := ls[k].(owner := Some(id))];
    forall i, j | 0 <= i < j < |ls'| && ls'[i].owner.Some? ensures ls'[i].owner != ls'[j].owner {
      if i != k && j != k {
        assert ls'[i] == ls[i] && ls'[j] == ls[j];
      }
    }
  }

  /** A save keeps the store invariant: the new key is fresh, so has_one survives. */
  lemma SaveKeepsWellFormed(db: Db, a: Attributes, w: Wiring, valid: bool)
    requires WellFormed(db) && WiringFits(db, w)
    ensures WellFormed(SaveDb(db, a, w, valid))
  {
    if valid {
      var id := db.nextId;
      OwnFreshLink(db.githubs, w.github, id);
      OwnFreshLink(db.slacks, w.slack, id);
      OwnFreshLink(db.dropboxes, w.dropbox, id);
      var d := SaveDb(db, a, w, valid);
      forall i | 0 <= i < |d.emails| && d.emails[i].owner.Some? ensures d.emails[i].owner.value < d.nextId {
        if i != w.thoughtworks && i != w.personal {
          assert d.emails[i] == db.emails[i];
        }
      }
    }
  }

  lemma FilterLinksWellFormed(ls: seq<Link>, n: nat, id: nat)
    requires LinksWellFormed(ls, n)
    ensures LinksWellFormed(Filter(ls, (l: Link) => l.owner != Some(id)), n)
  {
    var keep := (l: Link) => l.owner != Some(id);
    var rel := (l1: Link, l2: Link) => l1.owner.Some? ==> l1.owner != l2.owner;
    assert forall i, j :: 0 <= i < j < |ls| ==> rel(ls[i], ls[j]);
    FilterPairwise(ls, keep, rel);
    var r := Filter(ls, keep);
    forall i | 0 <= i < |r| && r[i].owner.Some? ensures r[i].owner.value < n {
      assert r[i] in ls;
    }
    forall i, j | 0 <= i < j < |r| && r[i].owner.Some? ensures r[i].owner != r[j].owner {
      assert rel(r[i], r[j]);
    }
  }

  /**
   * Destroying an intern keeps the invariant, and afterwards nothing is owned
   * by it while every row not owned by it is still there.
   */
  lemma DestroyCascades(db: Db, id: nat)
    requires WellFormed(db)
    ensures WellFormed(DestroyDb(db, id))
    ensures var d := DestroyDb(db, id);
      && (forall x :: x in d.interns <==> x in db.interns && x.id != id)
      && (forall e :: e in d.emails <==> e in db.emails && e.owner != Some(id))
      && (forall p, l :: l in Links(d, p) <==> l in Links(db, p) && l.owner != Some(id))
  {
    var d := DestroyDb(db, id);
    FilterPairwise(db.interns, (x: InternRow) => x.id != id,
                   (x: InternRow, y: InternRow) => x.id != y.id);
    FilterLinksWellFormed(db.githubs, db.nextId, id);
    FilterLinksWellFormed(db.slacks, db.nextId, id);
    FilterLinksWellFormed(db.dropboxes, db.nextId, id);
    forall i | 0 <= i < |d.interns| ensures d.interns[i].id < d.nextId {
      assert d.interns[i] in db.interns;
    }
    forall i | 0 <= i < |d.emails| && d.emails[i].owner.Some? ensures d.emails[i].owner.value < d.nextId {
      assert d.emails[i] in db.emails;
    }
  }
}
