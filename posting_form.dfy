/**
 * The "create job" dialog (`src/components/createJob.tsx`): a declarative
 * schema of eight per-field rules that gates Publish, the record Publish hands
 * on (with its derived salary string), Save Draft, and the rule by which the
 * deadline calendar greys out dates.
 */
module PostingForm {
  import opened Wrappers

  /** A calendar date as JavaScript compares it: milliseconds since the Unix epoch. */
  type Date = int

  /** The form values. The deadline is unset until a date is picked. */
  datatype JobDraft = JobDraft(
    jobTitle: string,
    companyName: string,
    location: string,
    jobType: string,
    salaryMin: string,
    salaryMax: string,
    applicationDeadline: Option<Date>,
    jobDescription: string)

  /** The eight fields of the schema. */
  datatype Field = JobTitle | CompanyName | Location | JobType | SalaryMin | SalaryMax | ApplicationDeadline | JobDescription

  const AllFields: set<Field> :=
    {JobTitle, CompanyName, Location, JobType, SalaryMin, SalaryMax, ApplicationDeadline, JobDescription}

  /** One rule of the schema: a minimum string length, or a required date. */
  datatype Rule = MinLength(min: nat, message: string) | RequiredDate(message: string)

  /** The schema: each field's rule and the message shown when it fails. */
  function Schema(f: Field): Rule {
    match f
    case JobTitle => MinLength(2, "Job title must be at least 2 characters.")
    case CompanyName => MinLength(2, "Company name must be at least 2 characters.")
    case Location => MinLength(1, "Please select a location.")
    case JobType => MinLength(1, "Please select a job type.")
    case SalaryMin => MinLength(1, "Minimum salary is required.")
    case SalaryMax => MinLength(1, "Maximum salary is required.")
    case ApplicationDeadline => RequiredDate("Application deadline is required.")
    case JobDescription => MinLength(10, "Job description must be at least 10 characters.")
  }

  /** The value a field holds in a draft. */
  datatype FieldValue = Text(text: string) | DateValue(date: Option<Date>)

  function ValueOf(d: JobDraft, f: Field): FieldValue {
    match f
    case JobTitle => Text(d.jobTitle)
    case CompanyName => Text(d.companyName)
    case Location => Text(d.location)
    case JobType => Text(d.jobType)
    case SalaryMin => Text(d.salaryMin)
    case SalaryMax => Text(d.salaryMax)
    case ApplicationDeadline => DateValue(d.applicationDeadline)
    case JobDescription => Text(d.jobDescription)
  }

  /** Whether a value passes a rule. */
  predicate Satisfies(rule: Rule, v: FieldValue) {
    match rule
    case MinLength(n, _) => v.Text? && |v.text| >= n
    case RequiredDate(_) => v.DateValue? && v.date.Some?
  }

  predicate FieldValid(d: JobDraft, f: Field) {
    Satisfies(Schema(f), ValueOf(d, f))
  }

  /** Every field's rule, written out: the three minimum lengths, non-emptiness
      (and nothing more) for the two drop-downs and the two salary strings,
      and presence of the deadline. */
  lemma FieldRules(d: JobDraft)
    ensures FieldValid(d, JobTitle) <==> |d.jobTitle| >= 2
    ensures FieldValid(d, CompanyName) <==> |d.companyName| >= 2
    ensures FieldValid(d, Location) <==> d.location != ""
    ensures FieldValid(d, JobType) <==> d.jobType != ""
    ensures FieldValid(d, SalaryMin) <==> d.salaryMin != ""
    ensures FieldValid(d, SalaryMax) <==> d.salaryMax != ""
    ensures FieldValid(d, ApplicationDeadline) <==> d.applicationDeadline.Some?
    ensures FieldValid(d, JobDescription) <==> |d.jobDescription| >= 10
  {
  }

  /** The errors the resolver reports: one entry per failing field, carrying
      that field's message, and none for a field that passes. */
  function Validate(d: JobDraft): (errors: map<Field, string>)
    ensures forall f :: f in errors <==> !FieldValid(d, f)
    ensures forall f :: f in errors ==> errors[f] == Schema(f).message
  {
    map f | f in AllFields && !FieldValid(d, f) :: Schema(f).message
  }

  /** Publish runs only when the resolver reports no error. */
  predicate IsSubmittable(d: JobDraft) {
    Validate(d) == map[]
  }

  /** A draft is submittable exactly when all eight rules hold. */
  lemma SubmittableIffAllRules(d: JobDraft)
    ensures IsSubmittable(d) <==>
      && |d.jobTitle| >= 2
      && |d.companyName| >= 2
      && d.location != ""
      && d.jobType != ""
      && d.salaryMin != ""
      && d.salaryMax != ""
      && d.applicationDeadline.Some?
      && |d.jobDescription| >= 10
  {
    FieldRules(d);
    if forall f :: FieldValid(d, f) {
      assert Validate(d).Keys == {};
    } else {
      var f :| !FieldValid(d, f);
      assert f in Validate(d);
    }
  }

  /** The form's initial values: every text field empty, no deadline. */
  function DefaultDraft(): JobDraft {
    JobDraft("", "", "", "", "", "", None, "")
  }

  /** Opened and published untouched, the form reports an error on every field. */
  lemma DefaultsFailEveryField()
    ensures Validate(DefaultDraft()).Keys == AllFields
    ensures !IsSubmittable(DefaultDraft())
  {
    FieldRules(DefaultDraft());
    assert JobTitle in Validate(DefaultDraft());
  }

  /** Only the deadline is missing: the draft is held back with that one error,
      and picking any date makes it submittable. */
  lemma DeadlineAloneFlips(d: JobDraft, date: Date)
    requires forall f :: f != ApplicationDeadline ==> FieldValid(d, f)
    requires d.applicationDeadline == None
    ensures Validate(d) == map[ApplicationDeadline := "Application deadline is required."]
    ensures !IsSubmittable(d)
    ensures IsSubmittable(d.(applicationDeadline := Some(date)))
  {
    var d' := d.(applicationDeadline := Some(date));
    FieldRules(d);
    SubmittableIffAllRules(d');
    assert ApplicationDeadline in Validate(d);
    assert Validate(d).Keys == {ApplicationDeadline};
  }

  /** The cities the location drop-down offers; each passes the location rule. */
  function FormLocations(): (r: seq<string>)
    ensures forall i :: 0 <= i < |r| ==> Satisfies(Schema(Location), Text(r[i]))
  {
    ["Bangalore", "Mumbai", "Delhi", "Hyderabad", "Pune", "Chennai", "Kolkata", "Gurgaon", "Noida", "Ahmedabad"]
  }

  /** The job types the drop-down offers; each passes the job-type rule. */
  function FormJobTypes(): (r: seq<string>)
    ensures forall i :: 0 <= i < |r| ==> Satisfies(Schema(JobType), Text(r[i]))
  {
    ["FullTime", "PartTime", "Contract", "Freelance", "Internship"]
  }

  /** The location and job-type rules do not check membership in the offered
      lists, and the salary rules neither parse nor order the two amounts: a
      draft with an unlisted city, an unlisted job type and a numeric minimum
      above the numeric maximum passes. */
  lemma NoMembershipOrNumericCheck(d: JobDraft)
    requires |d.jobTitle| >= 2 && |d.companyName| >= 2 && |d.jobDescription| >= 10
    requires d.applicationDeadline.Some?
    requires d.location == "Atlantis" && d.jobType == "Astronaut"
    requires d.salaryMin == "900" && d.salaryMax == "10"
    ensures d.location !in FormLocations() && d.jobType !in FormJobTypes()
    ensures IsSubmittable(d)
  {
    SubmittableIffAllRules(d);
  }

  /** `new Date("1900-01-01")`: a date-only ISO string is read as UTC midnight. */
  const CalendarFloor: Date := -2208988800000

  /** The deadline calendar greys out a date before now or before 1900-01-01. */
  predicate PickerDisables(now: Date, date: Date) {
    date < now || date < CalendarFloor
  }

  /** Once the clock is past 1900 the floor is redundant: exactly the dates
      before now are greyed out, so every pickable date is now or later. */
  lemma PickerDisablesPast(now: Date, date: Date)
    requires now >= CalendarFloor
    ensures PickerDisables(now, date) <==> date < now
  {
  }

  /** The calendar's rule is applied at selection time only: validation does
      not look at it, so a deadline that is (or has become) in the past does
      not hold a draft back. */
  lemma DeadlineNotRechecked(d: JobDraft, now: Date, date: Date)
    requires forall f :: f != ApplicationDeadline ==> FieldValid(d, f)
    requires PickerDisables(now, date)
    ensures IsSubmittable(d.(applicationDeadline := Some(date)))
  {
    FieldRules(d);
    SubmittableIffAllRules(d.(applicationDeadline := Some(date)));
  }

  /** What separates the two amounts in the salary string. */
  const Separator: string := " - ₹"

  /** The salary string Publish derives: `₹{salaryMin} - ₹{salaryMax}`. */
  function SalaryDisplay(salaryMin: string, salaryMax: string): (s: string)
    ensures |s| == |salaryMin| + |salaryMax| + 5
    ensures s[0] == '₹' && s[1..|salaryMin| + 1] == salaryMin
    ensures s[|salaryMin| + 1..|salaryMin| + 5] == Separator && s[|salaryMin| + 5..] == salaryMax
  {
    ['₹'] + salaryMin + Separator + salaryMax
  }

  predicate SeparatorAt(s: string, k: int) {
    0 <= k && k + |Separator| <= |s| && s[k..k + |Separator|] == Separator
  }

  /** The first place at or after `from` where the separator occurs, if any. */
  function FindSeparator(s: string, from: nat): (r: Option<nat>)
    requires from <= |s|
    ensures r.Some? ==> from <= r.value && SeparatorAt(s, r.value)
    ensures r.Some? ==> forall k :: from <= k < r.value ==> !SeparatorAt(s, k)
    ensures r.None? ==> forall k :: from <= k ==> !SeparatorAt(s, k)
    decreases |s| - from
  {
    if from + |Separator| > |s| then None
    else if s[from..from + |Separator|] == Separator then Some(from)
    else FindSeparator(s, from + 1)
  }

  /** Reads the two amounts back out of a salary string, splitting at the
      first separator. The form never parses the string; this read-back (and
      `FindSeparator`) exists only to state that the string loses nothing. */
  function ParseSalaryDisplay(s: string): Option<(string, string)> {
    if |s| == 0 || s[0] != '₹' then None
    else match FindSeparator(s, 1)
      case None => None
      case Some(k) => Some((s[1..k], s[k + |Separator|..]))
  }

  /** The exact condition for the read-back: the salary string gives back both
      amounts if and only if no separator starts inside the minimum (at or
      before its last character). */
  lemma {:induction false} SalaryDisplayRoundTripExactly(salaryMin: string, salaryMax: string)
    ensures ParseSalaryDisplay(SalaryDisplay(salaryMin, salaryMax)) == Some((salaryMin, salaryMax))
        <==> forall k :: 1 <= k <= |salaryMin| ==> !SeparatorAt(SalaryDisplay(salaryMin, salaryMax), k)
  {
    var s := SalaryDisplay(salaryMin, salaryMax);
    var n := |salaryMin| + 1;
    assert SeparatorAt(s, n);
    var r := FindSeparator(s, 1);
    if forall k :: 1 <= k <= |salaryMin| ==> !SeparatorAt(s, k) {
      assert r == Some(n);
    } else {
      var k :| 1 <= k <= |salaryMin| && SeparatorAt(s, k);
      assert r.Some? && r.value <= k;
      assert |s[1..r.value]| < |salaryMin|;
    }
  }

  /** A simple sufficient condition: a minimum with no space in it (the
      separator starts with a space). The condition is conservative: "10 000"
      reads back too (`SpacedMinimumReadsBack`). */
  lemma {:induction false} SalaryDisplayRoundTrip(salaryMin: string, salaryMax: string)
    requires ' ' !in salaryMin
    ensures ParseSalaryDisplay(SalaryDisplay(salaryMin, salaryMax)) == Some((salaryMin, salaryMax))
  {
    var s := SalaryDisplay(salaryMin, salaryMax);
    forall k | 1 <= k <= |salaryMin| ensures !SeparatorAt(s, k) {
      assert s[k] == salaryMin[k - 1];
    }
    SalaryDisplayRoundTripExactly(salaryMin, salaryMax);
  }

  /** A minimum with a space but no separator in it still reads back. */
  lemma SpacedMinimumReadsBack(salaryMin: string, salaryMax: string)
    requires salaryMin == "10 000" && salaryMax == "20"
    ensures ParseSalaryDisplay(SalaryDisplay(salaryMin, salaryMax)) == Some((salaryMin, salaryMax))
  {
    var s := SalaryDisplay(salaryMin, salaryMax);
    forall k | 1 <= k <= |salaryMin| ensures !SeparatorAt(s, k) {
      assert s[k] == salaryMin[k - 1];
      if k < |salaryMin| {
        assert s[k + 1] == salaryMin[k];
      }
      assert Separator[0] == ' ' && Separator[1] == '-';
      assert s[k..k + |Separator|][0] == s[k] && s[k..k + |Separator|][1] == s[k + 1];
    }
    SalaryDisplayRoundTripExactly(salaryMin, salaryMax);
  }

  /** Without that proviso the salary string is ambiguous: two different
      pairs of amounts give the same string. */
  lemma SalaryDisplayAmbiguous()
    ensures SalaryDisplay("1 - ₹2", "3") == SalaryDisplay("1", "2 - ₹3")
  {
  }

  /** The record Publish logs: the form values, the derived salary string, the
      formatted deadline and the publication time. */
  datatype PublishedPosting = PublishedPosting(
    jobTitle: string,
    companyName: string,
    location: string,
    jobType: string,
    salaryMin: string,
    salaryMax: string,
    jobDescription: string,
    salaryRange: string,
    applicationDeadline: string,
    publishedAt: string)

  /** What pressing Publish does: the posting, or the errors shown instead. */
  datatype PublishOutcome = Published(posting: PublishedPosting) | Rejected(errors: map<Field, string>)

  /** Publish. The date formatter and the clock reading are passed in. It
      succeeds exactly when the draft is submittable; on success the posting
      keeps the form values, its deadline is the formatted date, and its
      salary string reads back as the two amounts exactly when no separator
      starts inside the minimum (in particular when the minimum has no space);
      otherwise every failing field's message is reported. */
  function Publish(d: JobDraft, formatDate: Date -> string, publishedAt: string): (o: PublishOutcome)
    ensures o.Published? <==> IsSubmittable(d)
    ensures o.Rejected? ==> o.errors == Validate(d) && o.errors != map[]
    ensures o.Published? ==>
      && d.applicationDeadline.Some?
      && o.posting.jobTitle == d.jobTitle && o.posting.companyName == d.companyName
      && o.posting.location == d.location && o.posting.jobType == d.jobType
      && o.posting.salaryMin == d.salaryMin && o.posting.salaryMax == d.salaryMax
      && o.posting.jobDescription == d.jobDescription
      && o.posting.salaryRange == SalaryDisplay(d.salaryMin, d.salaryMax)
      && o.posting.applicationDeadline == formatDate(d.applicationDeadline.value)
      && o.posting.publishedAt == publishedAt
    ensures o.Published? ==>
      ((ParseSalaryDisplay(o.posting.salaryRange) == Some((d.salaryMin, d.salaryMax)))
       <==> (forall k :: 1 <= k <= |d.salaryMin| ==> !SeparatorAt(o.posting.salaryRange, k)))
    ensures o.Published? && ' ' !in d.salaryMin ==>
      ParseSalaryDisplay(o.posting.salaryRange) == Some((d.salaryMin, d.salaryMax))
  {
    var errors := Validate(d);
    if errors != map[] then Rejected(errors)
    else
      assert ApplicationDeadline !in errors;
      var salaryRange := SalaryDisplay(d.salaryMin, d.salaryMax);
      assert (ParseSalaryDisplay(salaryRange) == Some((d.salaryMin, d.salaryMax)))
             <==> (forall k :: 1 <= k <= |d.salaryMin| ==> !SeparatorAt(salaryRange, k)) by {
        SalaryDisplayRoundTripExactly(d.salaryMin, d.salaryMax);
      }
      assert ' ' !in d.salaryMin ==> ParseSalaryDisplay(salaryRange) == Some((d.salaryMin, d.salaryMax)) by {
        if ' ' !in d.salaryMin {
          SalaryDisplayRoundTrip(d.salaryMin, d.salaryMax);
        }
      }
      Published(PublishedPosting(
        d.jobTitle, d.companyName, d.location, d.jobType, d.salaryMin, d.salaryMax, d.jobDescription,
        salaryRange, formatDate(d.applicationDeadline.value), publishedAt))
  }

  /** Save Draft: a snapshot of the current values, taken without validation. */
  function SaveDraft(d: JobDraft): JobDraft {
    d
  }

  /** Save Draft accepts any draft, even one Publish rejects. */
  lemma SaveDraftSkipsValidation(d: JobDraft, formatDate: Date -> string, publishedAt: string)
    ensures SaveDraft(d) == d
    ensures Publish(d, formatDate, publishedAt).Rejected? <==> !IsSubmittable(d)
  {
  }
}
