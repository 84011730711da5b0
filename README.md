# Intern roster model

A Dafny model of the `Intern` model (`app/models/intern.rb`) of the naming
service, the Rails application a team uses to keep its roster of interns.
Each intern has its attributes, any number of emails (`has_many`), and at most
one GitHub, Slack and Dropbox link (`has_one`). An imported intern gets exactly
two emails, ThoughtWorks and Personal, and one link of each kind. The model covers:

- the validations `save` runs;
- the full error messages it reports;
- the attribute and association scopes;
- the joined, case-insensitive `search`;
- `build_dependents`;
- the CSV `import` loop;
- the cascading delete declared on the associations.

Modules, one per file:

- `Wrappers`: `Option`.
- `Text`: Ruby's `blank?`; the numeric test that stands in for Rails' `numericality`; `LIKE '%t%'`, case-insensitive for ASCII letters as in SQLite, the database the model assumes (Rails' default; the repository does not name one).
- `Records`: the columns and rows of the tables, and a parsed CSV row as a map from header to optional cell.
- `Validation`: the declared validators as a list run in order (`Validator`, `Run`), each a function from a record (and `today`, the value of `Date.current`) to the errors in validator order. `Expected` is an independent key-by-key statement of the rules, and `Acceptable` states the conditions for a save.
- `Seqs`: `Filter` (SQL `where`) and its laws.
- `Tables`: the store as a value (`Db`), its invariant (`WellFormed`: keys fresh and distinct, foreign keys handed out, `has_one` per link table), and every write as a function: create, save, destroy.
- `Queries`: the inner joins, `search`, and the scopes.
- `Importer`: the import as functions of the rows. These say what the store becomes and which failures are reported. `StepRow` is one iteration as the source writes it (five creates, then `save`). `RowEffect` is its net effect, which `ImportDb` folds over the rows. `Messages` gives a row's full messages, empty exactly when it saves.
- `Store`: a class holding the tables. Its methods do what the source does step by step: create the sub-records, save, destroy, and the import loop with its `rows` counter and failure list. Each method is proved to leave the state the `Tables`/`Importer` function gives.
- `Dependents`: an in-memory intern with its associations, and `build_dependents` with its loop over the categories.

Notes on the code's behaviour:

- `search` is case-insensitive for ASCII letters. This assumes SQLite, Rails' default database, whose `LIKE` folds ASCII case; the repository does not name its database.
- `search` returns one row per (intern, email) pair, because the query applies no `DISTINCT`.
- Gender inclusion is case-sensitive, and the list is exactly `male`, `female`, `others`.
- The import takes each row's three links from its `username` column.

## Model

| member | source | states |
|---|---|---|
| Text.IsBlank | app/models/intern.rb:98-108 | Ruby's `blank?` on a nullable string: nil, or only whitespace characters; used by the `*_present?` guards |
| Text.IsNumeric | app/models/intern.rb:15-17 | the test `numericality` applies to a present value; fixed on samples by `NumericExamples` |
| Text.NotBlankWhenLeadingNonSpace | app/models/intern.rb:98-108 | a value that starts with a non-whitespace character is not `blank?` |
| Text.NumericExamples | spec/models/intern_spec.rb:38-65 | "ss" and "sa" are not numbers; "90212", "9000000000" and "-902123456" are |
| Text.LowerChar | app/models/intern.rb:45 | an upper-case ASCII letter maps to the lower-case letter at the same place in the alphabet ('A' to 'a'); every other character is kept |
| Text.Lower | app/models/intern.rb:45 | lower-casing keeps the length and folds each character |
| Text.Like | app/models/intern.rb:45 | `column LIKE '%t%'`: false on NULL, otherwise the term occurs ignoring ASCII case; characterised by `EmptyTermMatchesAnyValue`, `ContainsIgnoringCaseAt` and `LikeIgnoresTermCase` |
| Text.EmptyTermMatchesAnyValue | app/models/intern.rb:45 | `LIKE '%%'` holds for every non-NULL value and never for NULL |
| Text.ContainsIgnoringCaseAt | app/models/intern.rb:45 | a block of the value equal to the term up to ASCII case is a match |
| Text.LowerIdempotent | app/models/intern.rb:45 | folding case twice is folding it once |
| Text.LikeIgnoresTermCase | app/models/intern.rb:45 | the case of the term never changes whether `LIKE` holds |
| Text.LastFoundInLastName | spec/models/intern_spec.rb:170-174 | "last" is found in "Last Name" |
| Validation.FullMessages | app/models/intern.rb:74 | one full message per error, in order: the humanized key ("Emp" for emp_id), a space, the message |
| Validation.PresenceErrors | app/models/intern.rb:14 | the presence validator: one "can't be blank" per blank listed key, in order; characterised by `PresenceErrorsExactly` and `PresenceErrorsDistinct` |
| Validation.PresenceErrorsExactly | app/models/intern.rb:14 | the presence validator reports "can't be blank" for exactly the listed keys that are blank |
| Validation.PhoneErrors | app/models/intern.rb:15 | the guarded phone numericality and length checks; characterised by `PhoneErrorsExactly` and `PhoneChecks` |
| Validation.PhoneErrorsExactly | app/models/intern.rb:15 | phone errors are exactly: "is not a number" when present and not numeric, "wrong length" when present and not 10 long |
| Validation.EmpIdErrors | app/models/intern.rb:16 | the guarded emp_id numericality and maximum-length checks; characterised by `EmpIdErrorsExactly` and `EmpIdChecks` |
| Validation.BatchErrors | app/models/intern.rb:17 | the guarded batch numericality check; characterised by `CheckExactly` and `BatchChecks` |
| Validation.GenderErrors | app/models/intern.rb:18 | the unguarded gender inclusion check; characterised by `CheckExactly` and `GenderInclusion` |
| Validation.DobErrors | app/models/intern.rb:92-96 | `validate_dob`: "must be past" under 'Date of birth' for a dob on or after today; characterised by `CheckExactly` and `DobMustBePast` |
| Validation.EmpIdErrorsExactly | app/models/intern.rb:16 | emp_id errors are exactly: "is not a number" when present and not numeric, "too long" when present and over 10 |
| Validation.Run | app/models/intern.rb:14-19 | the validator chain: each listed validator's errors in turn; characterised by `RunExactly` and `RunDistinct` |
| Validation.Check | app/models/intern.rb:14-19 | the errors one declared validator adds; characterised by `CheckExactly` and `CheckDistinct` |
| Validation.RunExactly | app/models/intern.rb:14-19 | running a list of validators collects an error iff one of the listed validators adds it |
| Validation.CheckExactly | app/models/intern.rb:14-19 | each declared validator adds exactly the expected errors that belong to it, so no two validators report the same error |
| Validation.Validate | app/models/intern.rb:14-19 | `valid?`: the declared validators run in order; characterised by `ValidateExactly` and `ValidIffAcceptable` |
| Validation.ValidateExactly | app/models/intern.rb:14-19 | an error is reported iff the key-by-key rules call for it, for every key and message |
| Validation.CantBeBlankIffBlank | app/models/intern.rb:14 | "can't be blank" on a key iff the key has a presence rule and its value is blank |
| Validation.BlankValueSkipsConditionalChecks | app/models/intern.rb:98-108 | a blank phone number, emp_id or batch gets no error besides "can't be blank" |
| Validation.PhoneChecks | app/models/intern.rb:15 | a present phone number gets "is not a number" iff not numeric and "wrong length" iff not 10 long, independently; no other phone message |
| Validation.EmpIdChecks | app/models/intern.rb:16 | a present emp_id gets "is not a number" iff not numeric, and "too long" iff longer than 10 |
| Validation.BatchChecks | app/models/intern.rb:17 | a present batch gets "is not a number" iff not numeric |
| Validation.GenderInclusion | app/models/intern.rb:18 | "is not included in the list" iff gender is not exactly "male", "female" or "others" |
| Validation.BlankGenderGetsBothErrors | app/models/intern.rb:14-18 | a blank gender gets both "can't be blank" and "is not included in the list" |
| Validation.DobMustBePast | app/models/intern.rb:92-96 | "Date of birth must be past" iff dob is set and not before today; a nil dob gets only the presence error; a past dob gets none |
| Validation.NoErrorsImpliesAcceptable | app/models/intern.rb:14-19 | a record with no errors meets every rule |
| Validation.UnacceptableExpectsAnError | app/models/intern.rb:14-19 | a record that breaks any rule deserves at least one error |
| Validation.AcceptableExpectsNoError | app/models/intern.rb:14-19 | a record that keeps every rule deserves no error |
| Validation.ValidIffAcceptable | app/models/intern.rb:14-19 | no errors iff all six presences, the conditional number and length rules, the gender list and a past dob hold |
| Validation.DistinctConcat | app/models/intern.rb:14-19 | joining two duplicate-free error lists with no error in common is duplicate-free |
| Validation.PresenceErrorsDistinct | app/models/intern.rb:14 | the presence validator reports each key at most once |
| Validation.CheckDistinct | app/models/intern.rb:14-18 | a single validator never adds the same error twice |
| Validation.RunDistinct | app/models/intern.rb:14-19 | a run of distinct declared validators holds no error twice |
| Validation.ValidateDistinct | app/models/intern.rb:14-19 | no error is reported twice |
| Validation.PhoneExamples | spec/models/intern_spec.rb:45-58 | "ss" gets both phone errors, "90212" only the length error, "9000000000" neither |
| Validation.NonNumericAndGenderExamples | spec/models/intern_spec.rb:37-90 | emp_id "ss" and batch "sa" are not numbers; "oth" and "Male" are not in the gender list; "others" is |
| Seqs.Filter | app/models/intern.rb:21-28 | `where` keeps exactly the rows that satisfy the condition and never adds rows |
| Seqs.FilterCount | app/models/intern.rb:21-28 | `where` keeps each wanted row as many times as it occurred and drops the others |
| Seqs.FilterPairwise | app/models/intern.rb:4-7 | a relation between earlier and later rows survives a delete |
| Seqs.FilterCommutes | app/models/intern.rb:21-28 | two `where`s give the same rows in either order |
| Seqs.FilterAppend | app/models/intern.rb:21-28 | `where` on two tables run one after the other is `where` on each |
| Tables.AddEmail | app/models/intern.rb:52-53 | `Email.create`: an unowned email appended; `AddEmailKeepsWellFormed` and `Store.Store.CreateEmail` are about it |
| Tables.AddLink | app/models/intern.rb:54-56 | `Github/Slack/Dropbox.create`: an unowned link appended to that provider's table; `AddLinkKeepsWellFormed` and `Store.Store.CreateLink` are about it |
| Tables.SaveDb | app/models/intern.rb:72 | `save`: when valid, the record gets the next key and takes ownership of its wired emails and links; otherwise nothing changes; `SaveKeepsWellFormed` and `Store.Store.Save` are about it |
| Tables.AddEmailKeepsWellFormed | app/models/intern.rb:52-53 | creating an unowned email keeps the store invariant |
| Tables.AddLinkKeepsWellFormed | app/models/intern.rb:54-56 | creating an unowned link keeps the store invariant |
| Tables.OwnFreshLink | app/models/intern.rb:5-7 | giving a link to a fresh key keeps `has_one` and the key bound |
| Tables.SaveKeepsWellFormed | app/models/intern.rb:72 | a save, valid or not, keeps the store invariant |
| Tables.FilterLinksWellFormed | app/models/intern.rb:5-7 | destroying one intern's links keeps `has_one` for the others |
| Tables.DestroyDb | app/models/intern.rb:4-7 | `destroy` with its cascades: the intern, its emails and its links removed; characterised by `DestroyCascades` |
| Tables.DestroyCascades | app/models/intern.rb:4-7 | after a destroy the invariant holds; exactly the rows not owned by the intern remain, in every table |
| Queries.LinkOf | app/models/intern.rb:5-7 | the link found is the intern's; none is found only when it owns none |
| Queries.LinkOfIsTheLink | app/models/intern.rb:5-7 | under `has_one` the link found is exactly the one the intern owns |
| Queries.JoinEmails | app/models/intern.rb:45 | one joined row per email the intern owns, with its three links |
| Queries.JoinAllExactly | app/models/intern.rb:45 | a joined row is produced iff it combines a listed intern, one of its emails and the link of each table the lookup finds for it |
| Queries.LookedUpIsJoined | app/models/intern.rb:5-7 | under the store invariant (`has_one`), the model's link lookup gives exactly the rows of the SQL join condition |
| Queries.Joins | app/models/intern.rb:45 | `joins(:emails).joins(:github).joins(:slack).joins(:dropbox)` over the stored interns; characterised by `JoinsExactly` |
| Queries.JoinsExactly | app/models/intern.rb:45 | in a well-formed store, the joins are exactly the rows of the SQL inner-join condition: an intern, an email and one link of each table whose `intern_id` is its key |
| Queries.Clauses | app/models/intern.rb:81-85 | the query has one `LIKE :search_term` clause per searchable field, in order |
| Queries.AnyLikeExactly | app/models/intern.rb:81-85 | the OR of the clauses holds iff one listed field's value is LIKE the term |
| Queries.Matches | app/models/intern.rb:81-89 | the `search_query` condition on one joined row: some field of `SearchableFields` (the list of lines 87-89) is `LIKE` the term; characterised by `MatchesExactly` |
| Queries.MatchesExactly | app/models/intern.rb:81-89 | a joined row matches iff one of the eight searchable fields contains the term |
| Queries.Select | app/models/intern.rb:45 | `where(search_query, …)` over joined rows, one intern per matching row, in row order; characterised by `SelectExactly`, `SelectAppend` and `SearchCountFrom` |
| Queries.SelectExactly | app/models/intern.rb:44-46 | an intern is selected iff one of the joined rows is its own and matches |
| Queries.SelectAppend | app/models/intern.rb:44-46 | selection runs row by row: on two blocks of rows it is the selection of each |
| Queries.Search | app/models/intern.rb:44-46 | `search(t)`: the interns of the joined rows that match, in row order; characterised by `SearchExactly` and `SearchMultiplicity` |
| Queries.SearchExactly | app/models/intern.rb:44-46 | in a well-formed store, `search(t)` holds an intern iff some row of the SQL join for it contains `t` in one of the searchable fields |
| Queries.SearchNeedsAllDependents | app/models/intern.rb:45 | in a well-formed store, every intern found is stored, owns an email and has a GitHub, Slack and Dropbox link |
| Queries.JoinEmailsLength | app/models/intern.rb:45 | an intern with its three links joins once per email it owns |
| Queries.CountOfUniform | app/models/intern.rb:44-46 | a result made of one intern holds it as many times as its length |
| Queries.SelectAllMatching | app/models/intern.rb:44-46 | when every joined row matches, every one is returned |
| Queries.SelectOnlyIntern | app/models/intern.rb:44-46 | the rows found among one intern's joins are all that intern |
| Queries.SearchCountFrom | app/models/intern.rb:44-46 | over interns with distinct keys, each intern appears as often as its own joined rows match |
| Queries.SearchMultiplicity | app/models/intern.rb:44-46 | no `DISTINCT`: an intern appears once per matching (intern, email) row, and not at all when not stored |
| Queries.InternMatchRepeatsPerEmail | app/models/intern.rb:45 | an intern whose own column matches appears once per email it owns |
| Queries.EmptyTermMatches | app/models/intern.rb:45 | the empty term matches a joined row iff a searchable field is non-NULL, so every row with an emp_id |
| Queries.SearchIgnoresTermCase | app/models/intern.rb:45 | searching for `t` and for its lower-case form match the same rows |
| Queries.Where | app/models/intern.rb:21-28 | the attribute scopes of lines 21-25 and 27-28 (all but `dob`, which `WhereDob` models) as a selection on one column; characterised by `WhereExactly` |
| Queries.WhereDob | app/models/intern.rb:26 | the `dob` scope as a selection on the day value; characterised by `WhereDobExactly` |
| Queries.EmailScope | app/models/intern.rb:29 | `email(a)` over the store's interns; characterised by `EmailScopeExactly` |
| Queries.UsernameScope | app/models/intern.rb:30-32 | the three username scopes over the store's interns; characterised by `UsernameScopeExactly` |
| Queries.WhereExactly | app/models/intern.rb:21-28 | an attribute scope keeps exactly the interns whose column equals the value, NULL for nil |
| Queries.WhereDobExactly | app/models/intern.rb:26 | the dob scope keeps exactly the interns with that date of birth |
| Queries.WhereChained | app/models/intern.rb:21-28 | chained scopes mean the conjunction and commute |
| Queries.EmailRowsExactly | app/models/intern.rb:29 | one intern joined to its emails yields it iff it owns an email with the address |
| Queries.EmailScopeFromExactly | app/models/intern.rb:29 | over a list of interns, the email scope yields those owning an email with the address |
| Queries.EmailScopeExactly | app/models/intern.rb:29 | `email(a)` yields exactly the stored interns that own an email with address `a`; no other field counts |
| Queries.UsernameScopeExactly | app/models/intern.rb:30-32 | `github_username`, `slack_username` and `dropbox_username` yield exactly the interns whose link of that provider has the username |
| Importer.Messages | app/models/intern.rb:72-74 | the full messages `save` leaves on a row's candidate; characterised by `MessagesExactly` and `MessagesOnlyValidPass` |
| Importer.MessagesExactly | app/models/intern.rb:72-74 | a row's messages are the full messages of its candidate's errors, empty iff the candidate meets every rule |
| Importer.ImportFailures | app/models/intern.rb:49-77 | there are never more failures than rows |
| Importer.Candidate | app/models/intern.rb:57-65 | the attributes `Intern.new` reads from a row's cells, `dob` through the date cast |
| Importer.StepRow | app/models/intern.rb:52-72 | one iteration as written: two `Email.create`, three link creates, then `save` wired to them; related to its net effect by `StepRowEffect` |
| Importer.ImportDb | app/models/intern.rb:51-76 | the store after the rows one after another; characterised by `ImportSizes`, `ImportRowEmails`, `ImportRowLinks`, `ImportRowIntern` and `ImportSavesOnlyAccepted` |
| Importer.ImportOneMore | app/models/intern.rb:51-76 | importing one more row is one more step and adds at most that row's report, numbered by the counter |
| Importer.ImportFailuresSound | app/models/intern.rb:71-74 | each failure carries a row number from 1 to the row count, that row's cells, and that row's messages, which are non-empty |
| Importer.ImportFailuresOrdered | app/models/intern.rb:71-74 | row numbers in the failure list strictly increase |
| Importer.ImportFailuresComplete | app/models/intern.rb:72-74 | every row that does not save is reported under its 1-based number |
| Importer.RowEffect | app/models/intern.rb:52-72 | the net effect of one row: five sub-records appended, owned by the new key only when the row saves, and the intern appended only then; tied to the source's order of operations by `StepRowEffect` |
| Importer.StepRowEffect | app/models/intern.rb:52-72 | creating the two emails and three links and then saving has the net effect `RowEffect` gives: all five sub-records appended whether or not the row saves, owned by the new key only when it saves, and the intern appended only then |
| Importer.StepRowKeepsWellFormed | app/models/intern.rb:52-72 | one row keeps the store invariant |
| Importer.ImportKeepsWellFormed | app/models/intern.rb:51-76 | the whole import keeps the store invariant |
| Importer.ImportSizes | app/models/intern.rb:52-72 | the emails grow by two per row, each link table by one per row, the interns and keys by one per saved row |
| Importer.ImportExtends | app/models/intern.rb:51-76 | rows are processed in order: later rows only append to the tables |
| Importer.ImportRowEmails | app/models/intern.rb:52-72 | row i puts its ThoughtWorks and Personal emails, with the row's addresses, at positions 2i and 2i+1 after the existing emails, owned by the intern it saved and by nobody when it failed |
| Importer.ImportRowLinks | app/models/intern.rb:54-72 | row i puts a github, a slack and a dropbox link, each with the row's `username`, at position i of each table, owned as its emails are |
| Importer.ImportRowIntern | app/models/intern.rb:57-72 | a row that saves becomes the next intern after those saved by the rows before it, with the next id and the attributes read from the row |
| Importer.ImportSavesOnlyAccepted | app/models/intern.rb:57-72 | every intern added is the candidate of a row that saved |
| Importer.MessagesOnlyValidPass | app/models/intern.rb:72 | a row with no messages has a candidate with no errors |
| Importer.ImportedInternsValid | app/models/intern.rb:72 | every intern the import persists passes the validations |
| Store.Store.constructor | app/models/intern.rb:4-7 | a new store is empty and meets the invariant |
| Store.Store.CreateEmail | app/models/intern.rb:52-53 | `Email.create` appends one unowned email and returns its position |
| Store.Store.CreateLink | app/models/intern.rb:54-56 | `Github/Slack/Dropbox.create` appends one unowned link to its table and returns its position |
| Store.Store.Save | app/models/intern.rb:72 | saved iff no validation fails; the messages are the full messages; the state is the save of the record |
| Store.Store.Destroy | app/models/intern.rb:4-7 | destroy removes the intern and every row it owns, keeping the invariant |
| Store.Store.ImportRow | app/models/intern.rb:52-72 | one iteration: the state after one row, and whether it saved with its messages |
| Store.Store.Import | app/models/intern.rb:48-78 | the loop leaves the import's state and returns exactly its failure list |
| Store.StepMatchesSave | app/models/intern.rb:72-74 | what `save` reports on a row is what the import specification expects of it |
| Dependents.DraftEmails | app/models/intern.rb:39-41 | one blank email per category, in order, owned by the intern |
| Dependents.Intern.constructor | app/controllers/interns_controller.rb:8 | the bare `Intern.new` that `build_dependents` is called on: unsaved, with the given attributes and no associations |
| Dependents.Intern.BuildDependents | app/models/intern.rb:34-42 | one blank GitHub, Slack and Dropbox link each; exactly two emails appended, ThoughtWorks then Personal; existing emails and attributes kept |

## Left out

- Dependents.Intern.BuildDependents: on a saved intern that already has a link, Rails' `build_github`, `build_slack` and `build_dropbox` replace the `has_one` record, and `dependent: :destroy` deletes the old row at once. The model only replaces the field, so that delete is not modelled. The only caller builds on a fresh `Intern.new`, which has no links.
- Type casting: attributes are the raw strings given, never cast to the column's type. emp_id's length is therefore measured on the string before Rails casts it to a number. The `emp_id` and `batch` scopes, and `LIKE` on emp_id, likewise compare the string, where Rails compares the cast integer. For example, `Intern.emp_id('112233')` finds a row imported as "0112233" in Rails but not in the model.
- Numericality: Rails parses with `Float`. The model accepts an optional sign, digits, and an optional fraction with digits on both sides. Exponents, underscores, surrounding whitespace, a leading `.` and hexadecimal forms are not covered.
- Date parsing and the clock: `dob` is a day number, `parseDate` stands for the Date cast of the CSV cell (None when it does not parse), and `today` for `Date.current`.
- CSV parsing and file access: the import takes rows already parsed into maps from header to optional cell.
- The `Email`, `Github`, `Slack` and `Dropbox` models are not part of this model. Their scopes `address` and `username` are taken to be equality, and they are taken to have no validations of their own.
- `Github.create(row['username'])` (and the Slack and Dropbox creates): when the CSV has no `username` column, as with the headers the application uses, the cell is nil, and `create(nil)` makes a link with a nil username, exactly as the model does. When the column exists, the call passes a string where Rails expects a hash and raises. The model then creates a link carrying that username, as the code evidently intends, rather than raising.
- Store.Store.Save: Rails casts emp_id and batch to integers, and an insert of a value outside the integer column's range raises `ActiveModel::RangeError`. `batch` has no length rule, so a long all-digit batch such as "99999999999999999999" passes every validation, and its `save` would raise out of `import`. The earlier rows and that row's five sub-records would stay written, and no failure list would be returned. The model saves such a record like any other valid one.
- Store.Store.Save: `full_messages` groups messages by attribute in the order the attributes first received an error. The model keeps validator order, which differs only when an attribute has errors from two validators, such as a blank gender.
- Search: `%` and `_` inside the term are matched literally rather than as wildcards, and the database's row order is taken to be the interns' key order followed by emails in table order.
- Queries.LinkOf: when `has_one` is violated it picks the first link, where the SQL join would yield a row per link. The lemmas that state the search in terms of the SQL join condition (`JoinsExactly`, `SearchExactly`, `SearchNeedsAllDependents`, and those built on them) require the store invariant, which rules this out. `JoinAllExactly` holds without it, but speaks of the lookup.
- The SQL text of `search_query` (joining the clauses with ` OR `) is not modelled. `Clauses` gives the clauses, and `AnyLike` stands for the meaning of their disjunction.
- Behaviour some tests expect but the model's code does not implement: header validation (`invalid_header`), `Intern.csv`, the summary counts, the "must be Male, Female or Other" gender message, the first/last-name character rule, and the " must be numbers" phone message. Under the code, `-902123456` is a valid phone number.
- The controllers, routes, sessions and the batches migration: HTTP handling with no model logic.
- Concurrency, transactions and database constraints: each write is one atomic step.
- `accepts_nested_attributes_for`: only the association builders used by `build_dependents` and `import` are modelled.
