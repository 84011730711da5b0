/**
 * The read side of the Intern model: the filter scopes and the free-text
 * search, each a selection over the tables of a database state.
 */
module Queries {
  import opened Wrappers
  import opened Text
  import opened Records
  import opened Tables
  import opened Seqs

  /** The link of table `ls` whose intern_id is `id` (the first, should there be several). */
  function LinkOf(ls: seq<Link>, id: nat): (r: Option<Link>)
    ensures r.Some? ==> r.value in ls && r.value.owner == Some(id)
    ensures r.None? ==> forall l :: l in ls ==> l.owner != Some(id)
  {
    if ls == [] then None
    else if ls[0].owner == Some(id) then Some(ls[0])
    else LinkOf(ls[1..], id)
  }

  /** Under has_one, the link `LinkOf` finds is the only one the intern owns. */
  lemma {:induction false} LinkOfIsTheLink(ls: seq<Link>, n: nat, id: nat, l: Link)
    requires LinksWellFormed(ls, n)
    ensures LinkOf(ls, id) == Some(l) <==> l in ls && l.owner == Some(id)
  {
    if ls != [] {
      assert LinksWellFormed(ls[1..], n) by {
        forall i, j | 0 <= i < j < |ls[1..]| && ls[1..][i].owner.Some? ensures ls[1..][i].owner != ls[1..][j].owner {
          assert ls[1..][i] == ls[i + 1] && ls[1..][j] == ls[j + 1];
        }
      }
      LinkOfIsTheLink(ls[1..], n, id, l);
    }
  }

  /** One row of `joins(:emails).joins(:github).joins(:slack).joins(:dropbox)`. */
  datatype Joined = Joined(intern: InternRow, email: Email, github: Link, slack: Link, dropbox: Link)

  /** One joined row per email the intern owns, in the emails table's order. */
  function JoinEmails(x: InternRow, g: Link, s: Link, d: Link, es: seq<Email>): (r: seq<Joined>)
    ensures forall j :: j in r <==>
      j.intern == x && j.github == g && j.slack == s && j.dropbox == d && j.email in es && j.email.owner == Some(x.id)
  {
    if es == [] then []
    else (if es[0].owner == Some(x.id) then [Joined(x, es[0], g, s, d)] else []) + JoinEmails(x, g, s, d, es[1..])
  }

  /** The joined rows of one intern: none unless it has all three links (inner joins). */
  function JoinIntern(db: Db, x: InternRow): seq<Joined> {
    match (LinkOf(db.githubs, x.id), LinkOf(db.slacks, x.id), LinkOf(db.dropboxes, x.id))
    case (Some(g), Some(s), Some(d)) => JoinEmails(x, g, s, d, db.emails)
    case _ => []
  }

  function JoinAll(db: Db, xs: seq<InternRow>): seq<Joined> {
    if xs == [] then [] else JoinIntern(db, xs[0]) + JoinAll(db, xs[1..])
  }

  /** The inner join of interns with emails, github_info, slack_info and dropbox_info. */
  function Joins(db: Db): seq<Joined> {
    JoinAll(db, db.interns)
  }

  /** A row as the model's lookup builds it: one owned email and the first link of each table. */
  ghost predicate LookedUp(db: Db, j: Joined) {
    && j.intern in db.interns
    && j.email in db.emails && j.email.owner == Some(j.intern.id)
    && LinkOf(db.githubs, j.intern.id) == Some(j.github)
    && LinkOf(db.slacks, j.intern.id) == Some(j.slack)
    && LinkOf(db.dropboxes, j.intern.id) == Some(j.dropbox)
  }

  /** The SQL join condition: an intern, and an email and a link of each table whose `intern_id` is its key. */
  ghost predicate JoinedIn(db: Db, j: Joined) {
    && j.intern in db.interns
    && j.email in db.emails && j.email.owner == Some(j.intern.id)
    && j.github in db.githubs && j.github.owner == Some(j.intern.id)
    && j.slack in db.slacks && j.slack.owner == Some(j.intern.id)
    && j.dropbox in db.dropboxes && j.dropbox.owner == Some(j.intern.id)
  }

  lemma {:induction false} JoinAllExactly(db: Db, xs: seq<InternRow>, j: Joined)
    ensures j in JoinAll(db, xs) <==> LookedUp(db.(interns := xs), j)
  {
    if xs != [] {
      JoinAllExactly(db, xs[1..], j);
      assert xs == [xs[0]] + xs[1..];
    }
  }

  /** Under has_one, looking up the first link of each table is the SQL join. */
  lemma LookedUpIsJoined(db: Db, j: Joined)
    requires WellFormed(db)
    ensures LookedUp(db, j) <==> JoinedIn(db, j)
  {
    LinkOfIsTheLink(db.githubs, db.nextId, j.intern.id, j.github);
    LinkOfIsTheLink(db.slacks, db.nextId, j.intern.id, j.slack);
    LinkOfIsTheLink(db.dropboxes, db.nextId, j.intern.id, j.dropbox);
  }

  /** A joined row is exactly an intern, one of its emails, and one link of its own per table. */
  lemma JoinsExactly(db: Db, j: Joined)
    requires WellFormed(db)
    ensures j in Joins(db) <==> JoinedIn(db, j)
  {
    JoinAllExactly(db, db.interns, j);
    LookedUpIsJoined(db, j);
  }

  /** What a search can look at: an intern column, the email address, or a username. */
  datatype Field = Attr(column: Column) | EmailAddress | Username(provider: Provider)

  /** `searchable_fields`, in order. */
  const SearchableFields: seq<Field> :=
    [Attr(EmpId), Attr(DisplayName), Attr(FirstName), Attr(LastName),
     EmailAddress, Username(Github), Username(Slack), Username(Dropbox)]

  function FieldValue(j: Joined, f: Field): Option<string> {
    match f
    case Attr(c) => Get(j.intern.attrs, c)
    case EmailAddress => j.email.address
    case Username(Github) => j.github.username
    case Username(Slack) => j.slack.username
    case Username(Dropbox) => j.dropbox.username
  }

  /** The column each field names in the SQL condition. */
  function FieldName(f: Field): string {
    match f
    case Attr(EmpId) => "emp_id"
    case Attr(DisplayName) => "display_name"
    case Attr(FirstName) => "first_name"
    case Attr(LastName) => "last_name"
    case Attr(Batch) => "batch"
    case Attr(PhoneNumber) => "phone_number"
    case Attr(Gender) => "gender"
    case EmailAddress => "emails.address"
    case Username(Github) => "github_info.username"
    case Username(Slack) => "slack_info.username"
    case Username(Dropbox) => "dropbox_info.username"
  }

  /** The `map` of `search_query`: one `LIKE` clause per field, in order. */
  function Clauses(fs: seq<Field>): (r: seq<string>)
    ensures |r| == |fs|
    ensures forall i :: 0 <= i < |fs| ==> r[i] == FieldName(fs[i]) + " LIKE :search_term"
  {
    if fs == [] then [] else [FieldName(fs[0]) + " LIKE :search_term"] + Clauses(fs[1..])
  }

  /** The semantics of `search_query`: some field's value is LIKE `%t%`. */
  predicate AnyLike(fs: seq<Field>, j: Joined, t: string) {
    fs != [] && (Like(FieldValue(j, fs[0]), t) || AnyLike(fs[1..], j, t))
  }

  predicate Matches(j: Joined, t: string) {
    AnyLike(SearchableFields, j, t)
  }

  lemma {:induction false} AnyLikeExactly(fs: seq<Field>, j: Joined, t: string)
    ensures AnyLike(fs, j, t) <==> exists f :: f in fs && Like(FieldValue(j, f), t)
  {
    if fs != [] {
      AnyLikeExactly(fs[1..], j, t);
      assert fs == [fs[0]] + fs[1..];
    }
  }

  /** The OR of the query holds iff one of the eight searchable fields contains the term. */
  lemma MatchesExactly(j: Joined, t: string)
    ensures Matches(j, t) <==> exists f :: f in SearchableFields && Like(FieldValue(j, f), t)
  {
    AnyLikeExactly(SearchableFields, j, t);
  }

  /** The intern of every matching joined row, in join order and without DISTINCT. */
  function Select(js: seq<Joined>, t: string): seq<InternRow> {
    if js == [] then [] else (if Matches(js[0], t) then [js[0].intern] else []) + Select(js[1..], t)
  }

  /** `Intern.search(t)`. */
  function Search(db: Db, t: string): seq<InternRow> {
    Select(Joins(db), t)
  }

  lemma {:induction false} SelectExactly(js: seq<Joined>, t: string, x: InternRow)
    ensures x in Select(js, t) <==> exists j :: j in js && j.intern == x && Matches(j, t)
  {
    if js != [] {
      SelectExactly(js[1..], t, x);
      assert js == [js[0]] + js[1..];
    }
  }

  lemma {:induction false} SelectAppend(a: seq<Joined>, b: seq<Joined>, t: string)
    ensures Select(a + b, t) == Select(a, t) + Select(b, t)
  {
    if a != [] {
      SelectAppend(a[1..], b, t);
      assert (a + b)[1..] == a[1..] + b;
    } else {
      assert a + b == b;
    }
  }

  /**
   * An intern is found iff it has an email and all three links (inner joins)
   * and one of the eight fields of one of its joined rows contains the term.
   */
  lemma SearchExactly(db: Db, t: string, x: InternRow)
    requires WellFormed(db)
    ensures x in Search(db, t) <==> exists j :: JoinedIn(db, j) && j.intern == x && Matches(j, t)
  {
    SelectExactly(Joins(db), t, x);
    forall j ensures j in Joins(db) <==> JoinedIn(db, j) {
      JoinsExactly(db, j);
    }
  }

  /** A found intern has at least one email and a github, slack and dropbox link. */
  lemma SearchNeedsAllDependents(db: Db, t: string, x: InternRow)
    requires WellFormed(db) && x in Search(db, t)
    ensures x in db.interns
    ensures exists e :: e in db.emails && e.owner == Some(x.id)
    ensures LinkOf(db.githubs, x.id).Some? && LinkOf(db.slacks, x.id).Some? && LinkOf(db.dropboxes, x.id).Some?
  {
    SearchExactly(db, t, x);
    var j :| JoinedIn(db, j) && j.intern == x && Matches(j, t);
    assert j.email in db.emails && j.email.owner == Some(x.id);
  }

  /** The emails table rows owned by intern `id`, in order. */
  function OwnedEmails(es: seq<Email>, id: nat): seq<Email> {
    Filter(es, (e: Email) => e.owner == Some(id))
  }

  lemma {:induction false} JoinEmailsLength(x: InternRow, g: Link, s: Link, d: Link, es: seq<Email>)
    ensures |JoinEmails(x, g, s, d, es)| == |OwnedEmails(es, x.id)|
  {
    if es != [] {
      JoinEmailsLength(x, g, s, d, es[1..]);
    }
  }

  lemma {:induction false} CountOfUniform(s: seq<InternRow>, y: InternRow, x: InternRow)
    requires forall z :: z in s ==> z == y
    ensures multiset(s)[x] == if x == y then |s| else 0
  {
    if s != [] {
      forall z | z in s[1..] ensures z == y {
        assert z in s;
      }
      CountOfUniform(s[1..], y, x);
      assert s == [s[0]] + s[1..];
      assert multiset(s) == multiset([s[0]]) + multiset(s[1..]);
      assert s[0] in s && s[0] == y;
    }
  }

  lemma {:induction false} SelectAllMatching(js: seq<Joined>, t: string)
    requires forall j :: j in js ==> Matches(j, t)
    ensures |Select(js, t)| == |js|
  {
    if js != [] {
      SelectAllMatching(js[1..], t);
    }
  }

  /** The rows selected from one intern's joins all carry that intern. */
  lemma SelectOnlyIntern(db: Db, y: InternRow, t: string)
    ensures forall z :: z in Select(JoinIntern(db, y), t) ==> z == y
  {
    forall z | z in Select(JoinIntern(db, y), t) ensures z == y {
      SelectExactly(JoinIntern(db, y), t, z);
    }
  }

  /** Counting `x` in a block of copies of `y` followed by the rest of a result. */
  lemma UniformThenRest(head: seq<InternRow>, tail: seq<InternRow>, y: InternRow, x: InternRow)
    requires forall z :: z in head ==> z == y
    ensures multiset(head + tail)[x] == (if x == y then |head| else 0) + multiset(tail)[x]
  {
    CountOfUniform(head, y, x);
    assert multiset(head + tail) == multiset(head) + multiset(tail);
  }

  lemma {:induction false} SearchCountFrom(db: Db, xs: seq<InternRow>, t: string, x: InternRow)
    requires forall i, j :: 0 <= i < j < |xs| ==> xs[i].id != xs[j].id
    ensures multiset(Select(JoinAll(db, xs), t))[x] == if x in xs then |Select(JoinIntern(db, x), t)| else 0
  {
    if xs != [] {
      var y, rest := xs[0], xs[1..];
      forall i, j | 0 <= i < j < |rest| ensures rest[i].id != rest[j].id {
        assert rest[i] == xs[i + 1] && rest[j] == xs[j + 1];
      }
      SearchCountFrom(db, rest, t, x);
      SelectAppend(JoinIntern(db, y), JoinAll(db, rest), t);
      SelectOnlyIntern(db, y, t);
      UniformThenRest(Select(JoinIntern(db, y), t), Select(JoinAll(db, rest), t), y, x);
      assert xs == [y] + rest;
      if x == y {
        forall k | 0 <= k < |rest| ensures rest[k] != x {
          assert rest[k] == xs[k + 1];
        }
      }
    }
  }

  /**
   * No DISTINCT: an intern occurs in the result once per joined row of its
   * own that matches, that is once per matching (intern, email) pair.
   */
  lemma SearchMultiplicity(db: Db, t: string, x: InternRow)
    requires WellFormed(db)
    ensures multiset(Search(db, t))[x] == if x in db.interns then |Select(JoinIntern(db, x), t)| else 0
  {
    SearchCountFrom(db, db.interns, t, x);
  }

  /**
   * When an intern column already matches, every one of the intern's emails
   * yields a row: the intern is returned as often as it has emails.
   */
  lemma InternMatchRepeatsPerEmail(db: Db, t: string, x: InternRow, c: Column)
    requires WellFormed(db) && x in db.interns
    requires Attr(c) in SearchableFields && Like(Get(x.attrs, c), t)
    requires LinkOf(db.githubs, x.id).Some? && LinkOf(db.slacks, x.id).Some? && LinkOf(db.dropboxes, x.id).Some?
    ensures multiset(Search(db, t))[x] == |OwnedEmails(db.emails, x.id)|
  {
    SearchMultiplicity(db, t, x);
    var js := JoinIntern(db, x);
    forall j | j in js ensures Matches(j, t) {
      MatchesExactly(j, t);
      assert FieldValue(j, Attr(c)) == Get(x.attrs, c);
    }
    SelectAllMatching(js, t);
    JoinEmailsLength(x, LinkOf(db.githubs, x.id).value, LinkOf(db.slacks, x.id).value,
                     LinkOf(db.dropboxes, x.id).value, db.emails);
  }

  /** The empty term selects every joined row with a non-NULL searchable field. */
  lemma EmptyTermMatches(j: Joined)
    ensures Matches(j, "") <==> exists f :: f in SearchableFields && FieldValue(j, f).Some?
    ensures j.intern.attrs.empId.Some? ==> Matches(j, "")
  {
    MatchesExactly(j, "");
    forall f ensures Like(FieldValue(j, f), "") <==> FieldValue(j, f).Some? {
      EmptyTermMatchesAnyValue(FieldValue(j, f));
    }
    assert FieldValue(j, Attr(EmpId)) == j.intern.attrs.empId;
  }

  /** Search ignores the case of the term. */
  lemma SearchIgnoresTermCase(j: Joined, t: string)
    ensures Matches(j, t) <==> Matches(j, Lower(t))
  {
    MatchesExactly(j, t);
    MatchesExactly(j, Lower(t));
    forall f ensures Like(FieldValue(j, f), t) <==> Like(FieldValue(j, f), Lower(t)) {
      LikeIgnoresTermCase(FieldValue(j, f), t);
    }
  }

  /** `scope :emp_id` to `scope :gender` (but `dob`): `where column: value`; nil means IS NULL. */
  function Where(xs: seq<InternRow>, c: Column, v: Option<string>): seq<InternRow> {
    Filter(xs, ColumnIs(c, v))
  }

  /** The condition `column = value` of a `where`. */
  function ColumnIs(c: Column, v: Option<string>): InternRow -> bool {
    (x: InternRow) => Get(x.attrs, c) == v
  }

  /** `scope :dob`. */
  function WhereDob(xs: seq<InternRow>, d: Option<Day>): seq<InternRow> {
    Filter(xs, (x: InternRow) => x.attrs.dob == d)
  }

  /** An attribute scope keeps exactly the interns whose column equals the value, each as often as before. */
  lemma WhereExactly(xs: seq<InternRow>, c: Column, v: Option<string>, x: InternRow)
    ensures x in Where(xs, c, v) <==> x in xs && Get(x.attrs, c) == v
    ensures multiset(Where(xs, c, v))[x] == if Get(x.attrs, c) == v then multiset(xs)[x] else 0
  {
    FilterCount(xs, ColumnIs(c, v), x);
  }

  lemma WhereDobExactly(xs: seq<InternRow>, d: Option<Day>, x: InternRow)
    ensures x in WhereDob(xs, d) <==> x in xs && x.attrs.dob == d
    ensures multiset(WhereDob(xs, d))[x] == if x.attrs.dob == d then multiset(xs)[x] else 0
  {
    FilterCount(xs, (x: InternRow) => x.attrs.dob == d, x);
  }

  /** Chained scopes are their conjunction, in either order. */
  lemma WhereChained(xs: seq<InternRow>, c: Column, v: Option<string>, d: Column, w: Option<string>)
    ensures Where(Where(xs, c, v), d, w) == Where(Where(xs, d, w), c, v)
    ensures forall x :: x in Where(Where(xs, c, v), d, w) <==> x in xs && Get(x.attrs, c) == v && Get(x.attrs, d) == w
  {
    FilterCommutes(xs, ColumnIs(c, v), ColumnIs(d, w));
    forall x ensures x in Where(Where(xs, c, v), d, w) <==> x in xs && Get(x.attrs, c) == v && Get(x.attrs, d) == w {
      WhereExactly(Where(xs, c, v), d, w, x);
      WhereExactly(xs, c, v, x);
    }
  }

  /** One copy of `x` per email of `x` with this address (`Email.address(address)`). */
  function EmailRows(x: InternRow, es: seq<Email>, address: Option<string>): seq<InternRow> {
    if es == [] then []
    else (if es[0].owner == Some(x.id) && es[0].address == address then [x] else [])
         + EmailRows(x, es[1..], address)
  }

  function EmailScopeFrom(xs: seq<InternRow>, es: seq<Email>, address: Option<string>): seq<InternRow> {
    if xs == [] then [] else EmailRows(xs[0], es, address) + EmailScopeFrom(xs[1..], es, address)
  }

  /** `scope :email`: `joins(:emails).merge(Email.address(address))`. */
  function EmailScope(db: Db, address: Option<string>): seq<InternRow> {
    EmailScopeFrom(db.interns, db.emails, address)
  }

  lemma {:induction false} EmailRowsExactly(x: InternRow, es: seq<Email>, address: Option<string>, y: InternRow)
    ensures y in EmailRows(x, es, address) <==> y == x && exists e :: e in es && e.owner == Some(x.id) && e.address == address
  {
    if es != [] {
      EmailRowsExactly(x, es[1..], address, y);
      assert es == [es[0]] + es[1..];
    }
  }

  lemma {:induction false} EmailScopeFromExactly(xs: seq<InternRow>, es: seq<Email>, address: Option<string>, y: InternRow)
    ensures y in EmailScopeFrom(xs, es, address) <==>
      y in xs && exists e :: e in es && e.owner == Some(y.id) && e.address == address
  {
    if xs != [] {
      EmailScopeFromExactly(xs[1..], es, address, y);
      EmailRowsExactly(xs[0], es, address, y);
      assert xs == [xs[0]] + xs[1..];
    }
  }

  /** The email filter returns the interns owning an email with that address; others are excluded. */
  lemma EmailScopeExactly(db: Db, address: Option<string>, x: InternRow)
    ensures x in EmailScope(db, address) <==>
      x in db.interns && exists e :: e in db.emails && e.owner == Some(x.id) && e.address == address
  {
    EmailScopeFromExactly(db.interns, db.emails, address, x);
  }

  /** The intern's link of table `ls` exists and carries this username. */
  predicate HasUsername(ls: seq<Link>, id: nat, u: Option<string>) {
    LinkOf(ls, id).Some? && LinkOf(ls, id).value.username == u
  }

  /** `scope :github_username` / `:slack_username` / `:dropbox_username`: `joins(:p).merge(P.username(u))`. */
  function UsernameScope(db: Db, p: Provider, u: Option<string>): seq<InternRow> {
    Filter(db.interns, (x: InternRow) => HasUsername(Links(db, p), x.id, u))
  }

  /** A username filter returns the interns whose link of that provider has the username. */
  lemma UsernameScopeExactly(db: Db, p: Provider, u: Option<string>, x: InternRow)
    requires WellFormed(db)
    ensures x in UsernameScope(db, p, u) <==>
      x in db.interns && exists l :: l in Links(db, p) && l.owner == Some(x.id) && l.username == u
  {
    assert LinksWellFormed(Links(db, p), db.nextId);
    if l :| l in Links(db, p) && l.owner == Some(x.id) && l.username == u {
      LinkOfIsTheLink(Links(db, p), db.nextId, x.id, l);
    }
  }
}
