/**
 * The validations of the Intern model: presence of six attributes,
 * numericality and length of phone number, emp_id and batch when present,
 * inclusion of gender, and a date of birth in the past.
 */
module Validation {
  import opened Wrappers
  import opened Text
  import opened Records

  /** The key an error is recorded under: an attribute, or the custom 'Date of birth'. */
  datatype Key = Col(column: Column) | Dob | DateOfBirth

  datatype Message = CantBeBlank | NotANumber | WrongLength | TooLong | NotIncluded | MustBePast

  datatype Error = Error(key: Key, message: Message)

  /** `length: { is: 10 }` on phone_number. */
  const PhoneLength: nat := 10
  /** `length: { maximum: 10 }` on emp_id. */
  const EmpIdMaximum: nat := 10
  /** `inclusion: { in: %w(male female others) }` on gender. */
  const Genders: seq<string> := ["male", "female", "others"]

  /** The attributes with a presence validation, in declaration order. */
  const PresenceKeys: seq<Key> :=
    [Col(EmpId), Col(DisplayName), Col(FirstName), Dob, Col(Batch), Col(Gender)]

  /** The text Rails gives each message. */
  function MessageText(m: Message): string {
    match m
    case CantBeBlank => "can't be blank"
    case NotANumber => "is not a number"
    case WrongLength => "is the wrong length (should be 10 characters)"
    case TooLong => "is too long (maximum is 10 characters)"
    case NotIncluded => "is not included in the list"
    case MustBePast => "must be past"
  }

  /** The humanized attribute name; humanize drops the `_id` suffix, so emp_id reads "Emp". */
  function Label(k: Key): string {
    match k
    case Col(EmpId) => "Emp"
    case Col(DisplayName) => "Display name"
    case Col(FirstName) => "First name"
    case Col(LastName) => "Last name"
    case Col(Batch) => "Batch"
    case Col(PhoneNumber) => "Phone number"
    case Col(Gender) => "Gender"
    case Dob => "Dob"
    case DateOfBirth => "Date of birth"
  }

  /** `errors.full_messages` for one error: label, a space, the message. */
  function FullMessage(e: Error): string {
    Label(e.key) + " " + MessageText(e.message)
  }

  function FullMessages(es: seq<Error>): (r: seq<string>)
    ensures |r| == |es|
    ensures forall i :: 0 <= i < |es| ==> r[i] == FullMessage(es[i])
  {
    if es == [] then [] else [FullMessage(es[0])] + FullMessages(es[1..])
  }

  /** `blank?` of the attribute behind a key (`dob` is blank when nil). */
  predicate Blank(a: Attributes, k: Key) {
    match k
    case Col(c) => IsBlank(Get(a, c))
    case Dob => a.dob.None?
    case DateOfBirth => false
  }

  /** `validates ..., presence: true`: one error per blank key, in order. */
  function PresenceErrors(a: Attributes, keys: seq<Key>): seq<Error> {
    if keys == [] then []
    else (if Blank(a, keys[0]) then [Error(keys[0], CantBeBlank)] else [])
         + PresenceErrors(a, keys[1..])
  }

  /** `numericality: true` on a present value. */
  function Numericality(c: Column, s: string): seq<Error> {
    if IsNumeric(s) then [] else [Error(Col(c), NotANumber)]
  }

  /** Line 15: numericality and `length: { is: 10 }`, only `if: :phone_number_present?`. */
  function PhoneErrors(a: Attributes): seq<Error> {
    if IsBlank(a.phoneNumber) then []
    else Numericality(PhoneNumber, a.phoneNumber.value)
         + (if |a.phoneNumber.value| == PhoneLength then [] else [Error(Col(PhoneNumber), WrongLength)])
  }

  /** Line 16: numericality and `length: { maximum: 10 }`, only `if: :emp_id_present?`. */
  function EmpIdErrors(a: Attributes): seq<Error> {
    if IsBlank(a.empId) then []
    else Numericality(EmpId, a.empId.value)
         + (if |a.empId.value| <= EmpIdMaximum then [] else [Error(Col(EmpId), TooLong)])
  }

  /** Line 17: numericality, only `if: :batch_present?`. */
  function BatchErrors(a: Attributes): seq<Error> {
    if IsBlank(a.batch) then [] else Numericality(Batch, a.batch.value)
  }

  /** Line 18: inclusion, not conditional, so nil is not in the list either. */
  function GenderErrors(a: Attributes): seq<Error> {
    if a.gender.Some? && a.gender.value in Genders then [] else [Error(Col(Gender), NotIncluded)]
  }

  /** `validate_dob`: a dob on or after today is rejected. */
  function DobErrors(a: Attributes, today: Day): seq<Error> {
    if a.dob != None && a.dob.value >= today then [Error(DateOfBirth, MustBePast)] else []
  }

  /** The validators the model declares (lines 14-19); `Presence` carries its attributes. */
  datatype Validator = Presence(keys: seq<Key>) | PhoneRule | EmpIdRule | BatchRule | GenderRule | DobRule

  /** The validators in declaration order, the order `valid?` runs them in. */
  const Validators: seq<Validator> :=
    [Presence(PresenceKeys), PhoneRule, EmpIdRule, BatchRule, GenderRule, DobRule]

  /** The errors one validator adds. */
  function Check(v: Validator, a: Attributes, today: Day): seq<Error> {
    match v
    case Presence(keys) => PresenceErrors(a, keys)
    case PhoneRule => PhoneErrors(a)
    case EmpIdRule => EmpIdErrors(a)
    case BatchRule => BatchErrors(a)
    case GenderRule => GenderErrors(a)
    case DobRule => DobErrors(a, today)
  }

  /** Run validators in order, collecting their errors. */
  function Run(vs: seq<Validator>, a: Attributes, today: Day): seq<Error> {
    if vs == [] then [] else Check(vs[0], a, today) + Run(vs[1..], a, today)
  }

  /** `valid?` collects the errors of every validator; `today` is `Date.current`. */
  function Validate(a: Attributes, today: Day): seq<Error> {
    Run(Validators, a, today)
  }

  /** An error is collected iff one of the validators adds it. */
  lemma {:induction false} RunExactly(vs: seq<Validator>, a: Attributes, today: Day, e: Error)
    ensures e in Run(vs, a, today) <==> exists v :: v in vs && e in Check(v, a, today)
  {
    if vs != [] {
      RunExactly(vs[1..], a, today, e);
      assert vs == [vs[0]] + vs[1..];
    }
  }

  /** The keys that carry a numericality validation. */
  predicate NumericKey(k: Key) {
    k == Col(PhoneNumber) || k == Col(EmpId) || k == Col(Batch)
  }

  /**
   * Reference definition of the error rules, key by key: which (key, message)
   * pairs a record deserves, stated without the validator chain.
   */
  ghost predicate Expected(a: Attributes, today: Day, e: Error) {
    match e.message
    case CantBeBlank => e.key in PresenceKeys && Blank(a, e.key)
    case NotANumber =>
      NumericKey(e.key) && !Blank(a, e.key) && !IsNumeric(Get(a, e.key.column).value)
    case WrongLength => e.key == Col(PhoneNumber) && !IsBlank(a.phoneNumber) && |a.phoneNumber.value| != 10
    case TooLong => e.key == Col(EmpId) && !IsBlank(a.empId) && |a.empId.value| > 10
    case NotIncluded => e.key == Col(Gender) && a.gender !in {Some("male"), Some("female"), Some("others")}
    case MustBePast => e.key == DateOfBirth && a.dob.Some? && a.dob.value >= today
  }

  lemma {:induction false} PresenceErrorsExactly(a: Attributes, keys: seq<Key>, e: Error)
    ensures e in PresenceErrors(a, keys) <==> e.message == CantBeBlank && e.key in keys && Blank(a, e.key)
  {
    if keys != [] {
      PresenceErrorsExactly(a, keys[1..], e);
      assert keys == [keys[0]] + keys[1..];
    }
  }

  lemma PhoneErrorsExactly(a: Attributes, e: Error)
    ensures e in PhoneErrors(a) <==>
      e.key == Col(PhoneNumber) && !IsBlank(a.phoneNumber)
      && ((e.message == NotANumber && !IsNumeric(a.phoneNumber.value))
          || (e.message == WrongLength && |a.phoneNumber.value| != PhoneLength))
  {
  }

  lemma EmpIdErrorsExactly(a: Attributes, e: Error)
    ensures e in EmpIdErrors(a) <==>
      e.key == Col(EmpId) && !IsBlank(a.empId)
      && ((e.message == NotANumber && !IsNumeric(a.empId.value))
          || (e.message == TooLong && |a.empId.value| > EmpIdMaximum))
  {
  }

  /** The one validator that can add a given error. */
  function Reporter(e: Error): Validator {
    match e.message
    case CantBeBlank => Presence(PresenceKeys)
    case NotANumber =>
      if e.key == Col(PhoneNumber) then PhoneRule else if e.key == Col(EmpId) then EmpIdRule else BatchRule
    case WrongLength => PhoneRule
    case TooLong => EmpIdRule
    case NotIncluded => GenderRule
    case MustBePast => DobRule
  }

  /** Each declared validator adds exactly its share of the expected errors. */
  lemma CheckExactly(v: Validator, a: Attributes, today: Day, e: Error)
    requires v in Validators
    ensures e in Check(v, a, today) <==> Reporter(e) == v && Expected(a, today, e)
  {
    match v
    case Presence(keys) =>
      assert keys == PresenceKeys;
      PresenceErrorsExactly(a, PresenceKeys, e);
    case PhoneRule => PhoneErrorsExactly(a, e);
    case EmpIdRule => EmpIdErrorsExactly(a, e);
    case BatchRule =>
    case GenderRule =>
    case DobRule =>
  }

  /** The validator reports exactly the errors the rules call for. */
  lemma ValidateExactly(a: Attributes, today: Day, e: Error)
    ensures e in Validate(a, today) <==> Expected(a, today, e)
  {
    RunExactly(Validators, a, today, e);
    if e in Validate(a, today) {
      var v :| v in Validators && e in Check(v, a, today);
      CheckExactly(v, a, today, e);
    }
    if Expected(a, today, e) {
      var v := Reporter(e);
      assert v in Validators;
      CheckExactly(v, a, today, e);
    }
  }

  /** Presence: "can't be blank" is reported for a key iff it has a presence rule and is blank. */
  lemma CantBeBlankIffBlank(a: Attributes, today: Day, k: Key)
    ensures Error(k, CantBeBlank) in Validate(a, today) <==> k in PresenceKeys && Blank(a, k)
  {
    ValidateExactly(a, today, Error(k, CantBeBlank));
  }

  /** A blank phone number, emp_id or batch gets no numericality or length error. */
  lemma BlankValueSkipsConditionalChecks(a: Attributes, today: Day, k: Key, m: Message)
    requires NumericKey(k) && Blank(a, k)
    requires m != CantBeBlank
    ensures Error(k, m) !in Validate(a, today)
  {
    ValidateExactly(a, today, Error(k, m));
  }

  /**
   * The two phone checks are independent: "is not a number" depends only on
   * the digits and "is the wrong length" only on the length.
   */
  lemma PhoneChecks(a: Attributes, today: Day)
    ensures Error(Col(PhoneNumber), NotANumber) in Validate(a, today)
      <==> !IsBlank(a.phoneNumber) && !IsNumeric(a.phoneNumber.value)
    ensures Error(Col(PhoneNumber), WrongLength) in Validate(a, today)
      <==> !IsBlank(a.phoneNumber) && |a.phoneNumber.value| != PhoneLength
    ensures forall m :: Error(Col(PhoneNumber), m) in Validate(a, today) ==> m == NotANumber || m == WrongLength
  {
    ValidateExactly(a, today, Error(Col(PhoneNumber), NotANumber));
    ValidateExactly(a, today, Error(Col(PhoneNumber), WrongLength));
    forall m | Error(Col(PhoneNumber), m) in Validate(a, today)
      ensures m == NotANumber || m == WrongLength
    {
      ValidateExactly(a, today, Error(Col(PhoneNumber), m));
    }
  }

  /** emp_id, when present, must be numeric and at most 10 characters long. */
  lemma EmpIdChecks(a: Attributes, today: Day)
    ensures Error(Col(EmpId), NotANumber) in Validate(a, today)
      <==> !IsBlank(a.empId) && !IsNumeric(a.empId.value)
    ensures Error(Col(EmpId), TooLong) in Validate(a, today)
      <==> !IsBlank(a.empId) && |a.empId.value| > EmpIdMaximum
  {
    ValidateExactly(a, today, Error(Col(EmpId), NotANumber));
    ValidateExactly(a, today, Error(Col(EmpId), TooLong));
  }

  /** batch, when present, must be numeric. */
  lemma BatchChecks(a: Attributes, today: Day)
    ensures Error(Col(Batch), NotANumber) in Validate(a, today)
      <==> !IsBlank(a.batch) && !IsNumeric(a.batch.value)
  {
    ValidateExactly(a, today, Error(Col(Batch), NotANumber));
  }

  /** Gender passes inclusion iff it is exactly one of the three words (case-sensitive). */
  lemma GenderInclusion(a: Attributes, today: Day)
    ensures Error(Col(Gender), NotIncluded) in Validate(a, today)
      <==> a.gender != Some("male") && a.gender != Some("female") && a.gender != Some("others")
  {
    ValidateExactly(a, today, Error(Col(Gender), NotIncluded));
  }

  /** A blank gender is reported twice: once as blank, once as not in the list. */
  lemma BlankGenderGetsBothErrors(a: Attributes, today: Day)
    requires IsBlank(a.gender)
    ensures Error(Col(Gender), CantBeBlank) in Validate(a, today)
    ensures Error(Col(Gender), NotIncluded) in Validate(a, today)
  {
    BlankIsNoGender(a.gender);
    CantBeBlankIffBlank(a, today, Col(Gender));
    GenderInclusion(a, today);
  }

  /** None of the three gender words is blank. */
  lemma BlankIsNoGender(g: Option<string>)
    requires IsBlank(g)
    ensures g != Some("male") && g != Some("female") && g != Some("others")
  {
    NotBlankWhenLeadingNonSpace("male");
    NotBlankWhenLeadingNonSpace("female");
    NotBlankWhenLeadingNonSpace("others");
  }

  /** "Date of birth must be past" iff dob is set and not strictly before today. */
  lemma DobMustBePast(a: Attributes, today: Day)
    ensures Error(DateOfBirth, MustBePast) in Validate(a, today) <==> a.dob.Some? && a.dob.value >= today
    ensures a.dob.None? ==> Error(Dob, CantBeBlank) in Validate(a, today)
    ensures a.dob.None? ==>
      forall e :: e in Validate(a, today) && (e.key == Dob || e.key == DateOfBirth) ==> e == Error(Dob, CantBeBlank)
    ensures a.dob.Some? && a.dob.value < today ==>
      forall e :: e in Validate(a, today) ==> e.key != Dob && e.key != DateOfBirth
  {
    var v := Validate(a, today);
    ValidateExactly(a, today, Error(DateOfBirth, MustBePast));
    ValidateExactly(a, today, Error(Dob, CantBeBlank));
    forall e | e in v && (e.key == Dob || e.key == DateOfBirth)
      ensures a.dob.None? ==> e == Error(Dob, CantBeBlank)
      ensures a.dob.Some? ==> a.dob.value >= today
    {
      ValidateExactly(a, today, e);
      DobKeyErrors(a, today, e);
    }
  }

  /** The expected errors under the two dob keys. */
  lemma DobKeyErrors(a: Attributes, today: Day, e: Error)
    requires Expected(a, today, e) && (e.key == Dob || e.key == DateOfBirth)
    ensures a.dob.None? ==> e == Error(Dob, CantBeBlank)
    ensures a.dob.Some? ==> a.dob.value >= today
  {
  }

  /** The conditions under which a record is saved, stated rule by rule. */
  predicate Acceptable(a: Attributes, today: Day) {
    && !IsBlank(a.empId) && !IsBlank(a.displayName) && !IsBlank(a.firstName)
    && a.dob.Some? && !IsBlank(a.batch) && !IsBlank(a.gender)
    && (!IsBlank(a.phoneNumber) ==> IsNumeric(a.phoneNumber.value) && |a.phoneNumber.value| == PhoneLength)
    && IsNumeric(a.empId.value) && |a.empId.value| <= EmpIdMaximum
    && IsNumeric(a.batch.value)
    && a.gender.value in Genders
    && a.dob.value < today
  }

  /** A record that breaks a rule deserves at least one error. */
  lemma UnacceptableExpectsAnError(a: Attributes, today: Day)
    requires !Acceptable(a, today)
    ensures exists e :: Expected(a, today, e)
  {
    var e :=
      if IsBlank(a.empId) then Error(Col(EmpId), CantBeBlank)
      else if IsBlank(a.displayName) then Error(Col(DisplayName), CantBeBlank)
      else if IsBlank(a.firstName) then Error(Col(FirstName), CantBeBlank)
      else if a.dob.None? then Error(Dob, CantBeBlank)
      else if IsBlank(a.batch) then Error(Col(Batch), CantBeBlank)
      else if IsBlank(a.gender) then Error(Col(Gender), CantBeBlank)
      else if !IsBlank(a.phoneNumber) && !IsNumeric(a.phoneNumber.value) then Error(Col(PhoneNumber), NotANumber)
      else if !IsBlank(a.phoneNumber) && |a.phoneNumber.value| != PhoneLength then Error(Col(PhoneNumber), WrongLength)
      else if !IsNumeric(a.empId.value) then Error(Col(EmpId), NotANumber)
      else if |a.empId.value| > EmpIdMaximum then Error(Col(EmpId), TooLong)
      else if !IsNumeric(a.batch.value) then Error(Col(Batch), NotANumber)
      else if a.gender.value !in Genders then Error(Col(Gender), NotIncluded)
      else Error(DateOfBirth, MustBePast);
    assert Expected(a, today, e);
  }

  /** A record that keeps every rule deserves no error at all. */
  lemma AcceptableExpectsNoError(a: Attributes, today: Day, e: Error)
    requires Acceptable(a, today)
    ensures !Expected(a, today, e)
  {
  }

  lemma NoErrorsImpliesAcceptable(a: Attributes, today: Day)
    requires Validate(a, today) == []
    ensures Acceptable(a, today)
  {
    if !Acceptable(a, today) {
      UnacceptableExpectsAnError(a, today);
      var e :| Expected(a, today, e);
      ValidateExactly(a, today, e);
    }
  }

  /** A record has no errors exactly when every rule holds. */
  lemma ValidIffAcceptable(a: Attributes, today: Day)
    ensures Validate(a, today) == [] <==> Acceptable(a, today)
  {
    var v := Validate(a, today);
    if v == [] {
      NoErrorsImpliesAcceptable(a, today);
    } else if Acceptable(a, today) {
      assert v[0] in v;
      ValidateExactly(a, today, v[0]);
      AcceptableExpectsNoError(a, today, v[0]);
    }
  }

  /** No element occurs twice. */
  predicate Distinct<T(==)>(s: seq<T>) {
    forall i, j :: 0 <= i < j < |s| ==> s[i] != s[j]
  }

  lemma DistinctConcat<T>(x: seq<T>, y: seq<T>)
    requires Distinct(x) && Distinct(y)
    requires forall e :: e in x ==> e !in y
    ensures Distinct(x + y)
  {
    forall i, j | 0 <= i < j < |x + y| ensures (x + y)[i] != (x + y)[j] {
      if i < |x| && j >= |x| {
        assert (x + y)[i] in x && (x + y)[j] in y;
      }
    }
  }

  lemma {:induction false} PresenceErrorsDistinct(a: Attributes, keys: seq<Key>)
    requires Distinct(keys)
    ensures Distinct(PresenceErrors(a, keys))
  {
    if keys != [] {
      PresenceErrorsDistinct(a, keys[1..]);
      var head: seq<Error> := if Blank(a, keys[0]) then [Error(keys[0], CantBeBlank)] else [];
      forall e | e in head ensures e !in PresenceErrors(a, keys[1..]) {
        PresenceErrorsExactly(a, keys[1..], e);
      }
      DistinctConcat(head, PresenceErrors(a, keys[1..]));
    }
  }

  /** No error is reported twice for one record. */
  lemma ValidateDistinct(a: Attributes, today: Day)
    ensures Distinct(Validate(a, today))
  {
    RunDistinct(Validators, a, today);
  }

  /** One validator never adds the same error twice. */
  lemma CheckDistinct(v: Validator, a: Attributes, today: Day)
    requires v in Validators
    ensures Distinct(Check(v, a, today))
  {
    if v.Presence? {
      assert v.keys == PresenceKeys;
      PresenceErrorsDistinct(a, PresenceKeys);
    }
  }

  /** Distinct declared validators add disjoint errors, so their run holds no error twice. */
  lemma {:induction false} RunDistinct(vs: seq<Validator>, a: Attributes, today: Day)
    requires Distinct(vs)
    requires forall v :: v in vs ==> v in Validators
    ensures Distinct(Run(vs, a, today))
  {
    if vs != [] {
      var rest := vs[1..];
      assert Distinct(rest) by {
        forall i, j | 0 <= i < j < |rest| ensures rest[i] != rest[j] {
          assert rest[i] == vs[i + 1] && rest[j] == vs[j + 1];
        }
      }
      RunDistinct(rest, a, today);
      CheckDistinct(vs[0], a, today);
      forall w | w in rest ensures w != vs[0] {
        var j :| 0 <= j < |rest| && rest[j] == w;
        assert rest[j] == vs[j + 1];
      }
      forall e | e in Check(vs[0], a, today) ensures e !in Run(rest, a, today) {
        CheckExactly(vs[0], a, today, e);
        RunExactly(rest, a, today, e);
        forall w | w in rest ensures e !in Check(w, a, today) {
          CheckExactly(w, a, today, e);
        }
      }
      DistinctConcat(Check(vs[0], a, today), Run(rest, a, today));
    }
  }

  /** Phone samples: "ss" fails both checks, "90212" only the length, "9000000000" neither. */
  lemma PhoneExamples(a: Attributes, today: Day)
    ensures var v := Validate(a.(phoneNumber := Some("ss")), today);
      Error(Col(PhoneNumber), NotANumber) in v && Error(Col(PhoneNumber), WrongLength) in v
    ensures var v := Validate(a.(phoneNumber := Some("90212")), today);
      Error(Col(PhoneNumber), NotANumber) !in v && Error(Col(PhoneNumber), WrongLength) in v
    ensures forall m :: Error(Col(PhoneNumber), m) !in Validate(a.(phoneNumber := Some("9000000000")), today)
  {
    NumericExamples();
    NotBlankWhenLeadingNonSpace("ss");
    NotBlankWhenLeadingNonSpace("90212");
    NotBlankWhenLeadingNonSpace("9000000000");
    PhoneChecks(a.(phoneNumber := Some("ss")), today);
    PhoneChecks(a.(phoneNumber := Some("90212")), today);
    PhoneChecks(a.(phoneNumber := Some("9000000000")), today);
  }

  /** "ss" as emp_id and "sa" as batch are reported as not numbers; "oth" is not a gender. */
  lemma NonNumericAndGenderExamples(a: Attributes, today: Day)
    ensures var v := Validate(a.(empId := Some("ss"), batch := Some("sa")), today);
      Error(Col(EmpId), NotANumber) in v && Error(Col(Batch), NotANumber) in v
    ensures Error(Col(Gender), NotIncluded) in Validate(a.(gender := Some("oth")), today)
    ensures Error(Col(Gender), NotIncluded) in Validate(a.(gender := Some("Male")), today)
    ensures Error(Col(Gender), NotIncluded) !in Validate(a.(gender := Some("others")), today)
  {
    var b := a.(empId := Some("ss"), batch := Some("sa"));
    NumericExamples();
    NotBlankWhenLeadingNonSpace("ss");
    NotBlankWhenLeadingNonSpace("sa");
    EmpIdChecks(b, today);
    BatchChecks(b, today);
    GenderInclusion(a.(gender := Some("oth")), today);
    GenderInclusion(a.(gender := Some("Male")), today);
    GenderInclusion(a.(gender := Some("others")), today);
  }
}
