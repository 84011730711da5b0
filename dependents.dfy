/**
 * An Intern record in memory, with its associations, and `build_dependents`,
 * which the new-intern form uses to get one blank sub-record of each kind.
 */
module Dependents {
  import opened Wrappers
  import opened Records

  /** The emails `emails.build({category: c})` adds for `categories`, in order, owned by `owner`. */
  function DraftEmails(owner: Option<nat>, categories: seq<string>): (r: seq<Email>)
    ensures |r| == |categories|
    ensures forall k :: 0 <= k < |r| ==> r[k].owner == owner && r[k].category == categories[k] && r[k].address == None
    decreases |categories|
  {
    if categories == [] then []
    else DraftEmails(owner, categories[..|categories| - 1]) + [Email(owner, categories[|categories| - 1], None)]
  }

  class Intern {
    /** The primary key; None until the record is saved. */
    var id: Option<nat>
    var attrs: Attributes
    var emails: seq<Email>
    var github: Option<Link>
    var slack: Option<Link>
    var dropbox: Option<Link>

    /** `Intern.new`, as the `new` action calls it before `build_dependents`: unsaved, with no associated records. */
    constructor (attrs: Attributes)
      ensures this.id == None && this.attrs == attrs && emails == []
      ensures github == None && slack == None && dropbox == None
    {
      this.id := None;
      this.attrs := attrs;
      emails := [];
      github, slack, dropbox := None, None, None;
    }

    /**
     * `build_github`, `build_dropbox`, `build_slack` give the intern a new
     * blank link of each provider, replacing any it had; then one blank email
     * per category is appended, ThoughtWorks first. Each new record carries
     * the intern's key.
     */
    method BuildDependents()
      modifies this
      ensures id == old(id) && attrs == old(attrs)
      ensures github == Some(Link(id, None)) && slack == Some(Link(id, None)) && dropbox == Some(Link(id, None))
      ensures emails == old(emails) + [Email(id, "ThoughtWorks", None), Email(id, "Personal", None)]
    {
      github := Some(Link(id, None));
      dropbox := Some(Link(id, None));
      slack := Some(Link(id, None));
      var i := 0;
      while i < |Categories|
        invariant i <= |Categories|
        invariant id == old(id) && attrs == old(attrs)
        invariant github == Some(Link(id, None)) && slack == Some(Link(id, None)) && dropbox == Some(Link(id, None))
        invariant emails == old(emails) + DraftEmails(id, Categories[..i])
      {
        assert Categories[..i + 1][..i] == Categories[..i];
        emails := emails + [Email(id, Categories[i], None)];
        i := i + 1;
      }
      assert Categories[..i] == Categories;
    }
  }
}
