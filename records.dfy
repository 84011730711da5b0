/**
 * The entities of the intern roster: an intern's scalar attributes, its
 * categorised emails, its three identity links, and an imported CSV row.
 */
module Records {
  import opened Wrappers

  /** A calendar day as a day number: a later day has a larger number. */
  type Day = int

  /** The string-valued columns of an intern. */
  datatype Column = EmpId | DisplayName | FirstName | LastName | Batch | PhoneNumber | Gender

  /** The attributes of an intern as they were assigned (nil when absent). */
  datatype Attributes = Attributes(
    empId: Option<string>,
    displayName: Option<string>,
    firstName: Option<string>,
    lastName: Option<string>,
    batch: Option<string>,
    dob: Option<Day>,
    gender: Option<string>,
    phoneNumber: Option<string>)

  /** The value of a string-valued column. */
  function Get(a: Attributes, c: Column): Option<string> {
    match c
    case EmpId => a.empId
    case DisplayName => a.displayName
    case FirstName => a.firstName
    case LastName => a.lastName
    case Batch => a.batch
    case PhoneNumber => a.phoneNumber
    case Gender => a.gender
  }

  /** A stored intern: its primary key and its attributes. */
  datatype InternRow = InternRow(id: nat, attrs: Attributes)

  /** An email row; `owner` is the intern_id foreign key (nil while unowned). */
  datatype Email = Email(owner: Option<nat>, category: string, address: Option<string>)

  /** The three identity providers an intern has at most one link with. */
  datatype Provider = Github | Slack | Dropbox

  /** A github, slack or dropbox row; `owner` is the intern_id foreign key. */
  datatype Link = Link(owner: Option<nat>, username: Option<string>)

  /** The email categories every intern is given, in order. */
  const Categories: seq<string> := ["ThoughtWorks", "Personal"]

  /** A parsed CSV data row: column name to cell (an empty cell is nil). */
  type Row = map<string, Option<string>>

  /** `row[key]`: nil when the header has no such column. */
  function Cell(row: Row, key: string): Option<string> {
    if key in row then row[key] else None
  }
}
