/**
 * The job catalog and its live filter (`src/app/page.tsx`): four criteria held
 * as page state, and the visible list recomputed from them as an order-keeping
 * filter over the catalog.
 */
module CatalogFilter {
  import opened JsString

  /** A posting as the filter sees it; the catalog's display-only fields are not
      read by the filter. `salaryRange` is the numeric monthly salary in
      thousands. */
  datatype Job = Job(title: string, company: string, location: string, jobType: string, salaryRange: int)

  /** The filter state: the search box, the two drop-downs and the two thumbs
      of the salary slider (`salaryRange[0]` and `salaryRange[1]`). */
  datatype Criteria = Criteria(searchTerm: string, location: string, jobType: string, salaryMin: int, salaryMax: int)

  /** The state the page starts in. */
  function InitialCriteria(): Criteria {
    Criteria("", "", "", 10, 40)
  }

  /** The bounds of the salary slider. */
  const SliderMin: int := 10
  const SliderMax: int := 100

  /** A drop-down value that constrains nothing. */
  predicate Unconstrained(choice: string) {
    choice == "" || choice == "all"
  }

  /** The values offered by the location drop-down: the sentinel "all" first,
      and after it only cities, each of which constrains the list. */
  function LocationOptions(): (r: seq<string>)
    ensures |r| > 0 && r[0] == "all"
    ensures forall i :: 1 <= i < |r| ==> !Unconstrained(r[i])
  {
    ["all", "Bangalore", "Mumbai", "Delhi", "Hyderabad", "Pune", "Chennai", "Kolkata", "Gurgaon"]
  }

  /** The values offered by the job-type drop-down, in the same shape. */
  function JobTypeOptions(): (r: seq<string>)
    ensures |r| > 0 && r[0] == "all"
    ensures forall i :: 1 <= i < |r| ==> !Unconstrained(r[i])
  {
    ["all", "Full Time", "Part Time", "Contract", "Freelance"]
  }

  /** A blank term matches everything; otherwise the lowered term must occur
      in the lowered title or the lowered company. The term is trimmed only
      for the blank test: the substring test uses it untrimmed. */
  predicate MatchesSearch(term: string, job: Job) {
    IsBlank(term)
    || Includes(ToLower(job.title), ToLower(term))
    || Includes(ToLower(job.company), ToLower(term))
  }

  /** The location and job-type rule: the sentinel or an exact, case-sensitive match. */
  predicate MatchesChoice(choice: string, value: string) {
    Unconstrained(choice) || value == choice
  }

  /** Inclusive at both ends. */
  predicate MatchesSalary(lo: int, hi: int, job: Job) {
    lo <= job.salaryRange <= hi
  }

  /** The filter callback: all four predicates together. */
  predicate Matches(c: Criteria, job: Job) {
    && MatchesSearch(c.searchTerm, job)
    && MatchesChoice(c.location, job.location)
    && MatchesChoice(c.jobType, job.jobType)
    && MatchesSalary(c.salaryMin, c.salaryMax, job)
  }

  /** `a` can be obtained from `b` by deleting elements: the elements of `a`
      appear in `b` in the same relative order. */
  ghost predicate SubseqOf<T>(a: seq<T>, b: seq<T>)
    decreases |b|
  {
    a == [] || (b != [] && ((a[0] == b[0] && SubseqOf(a[1..], b[1..])) || SubseqOf(a, b[1..])))
  }

  /** `jobsData.filter(...)`: the visible list. It keeps the catalog's order
      and holds exactly the matching postings. */
  function FilterJobs(jobs: seq<Job>, c: Criteria): (r: seq<Job>)
    ensures SubseqOf(r, jobs)
    ensures forall j :: j in r <==> j in jobs && Matches(c, j)
  {
    if jobs == [] then []
    else
      var rest := FilterJobs(jobs[1..], c);
      assert jobs == [jobs[0]] + jobs[1..];
      if Matches(c, jobs[0]) then
        assert ([jobs[0]] + rest)[1..] == rest;
        [jobs[0]] + rest
      else rest
  }

  /** Filtering a catalog that starts with `job` decides `job` first, then the rest. */
  lemma FilterCons(job: Job, rest: seq<Job>, c: Criteria)
    ensures FilterJobs([job] + rest, c) == (if Matches(c, job) then [job] else []) + FilterJobs(rest, c)
  {
    assert ([job] + rest)[1..] == rest;
  }

  /** The visible list holds each matching posting exactly as many times as
      the catalog does, and no other posting. */
  lemma {:induction false} FilterCounts(jobs: seq<Job>, c: Criteria)
    ensures forall j :: multiset(FilterJobs(jobs, c))[j] == if Matches(c, j) then multiset(jobs)[j] else 0
  {
    if jobs != [] {
      FilterCounts(jobs[1..], c);
      FilterCons(jobs[0], jobs[1..], c);
      assert jobs == [jobs[0]] + jobs[1..];
    }
  }

  /** A subsequence is never longer than the sequence it came from. */
  lemma {:induction false} SubseqLength<T>(a: seq<T>, b: seq<T>)
    requires SubseqOf(a, b)
    ensures |a| <= |b|
    decreases |b|
  {
    if a != [] {
      if a[0] == b[0] && SubseqOf(a[1..], b[1..]) {
        SubseqLength(a[1..], b[1..]);
      } else {
        SubseqLength(a, b[1..]);
      }
    }
  }

  /** A subsequence keeps every element at most as often as the original. */
  lemma {:induction false} SubseqMultiset<T>(a: seq<T>, b: seq<T>)
    requires SubseqOf(a, b)
    ensures multiset(a) <= multiset(b)
    decreases |b|
  {
    if a != [] {
      assert b == [b[0]] + b[1..];
      if a[0] == b[0] && SubseqOf(a[1..], b[1..]) {
        SubseqMultiset(a[1..], b[1..]);
        assert a == [a[0]] + a[1..];
      } else {
        SubseqMultiset(a, b[1..]);
      }
    }
  }

  /** Filtering never adds or duplicates a posting and never lengthens the list. */
  lemma FilterNeverGrows(jobs: seq<Job>, c: Criteria)
    ensures |FilterJobs(jobs, c)| <= |jobs|
    ensures multiset(FilterJobs(jobs, c)) <= multiset(jobs)
  {
    SubseqLength(FilterJobs(jobs, c), jobs);
    SubseqMultiset(FilterJobs(jobs, c), jobs);
  }

  /** A catalog whose every posting matches passes through unchanged. */
  lemma {:induction false} FilterKeepsAllMatching(jobs: seq<Job>, c: Criteria)
    requires forall k :: 0 <= k < |jobs| ==> Matches(c, jobs[k])
    ensures FilterJobs(jobs, c) == jobs
  {
    if jobs != [] {
      FilterKeepsAllMatching(jobs[1..], c);
      assert jobs == [jobs[0]] + jobs[1..];
    }
  }

  /** Filtering the visible list again with the same criteria changes nothing. */
  lemma FilterIdempotent(jobs: seq<Job>, c: Criteria)
    ensures FilterJobs(FilterJobs(jobs, c), c) == FilterJobs(jobs, c)
  {
    var r := FilterJobs(jobs, c);
    assert forall k :: 0 <= k < |r| ==> r[k] in r;
    FilterKeepsAllMatching(r, c);
  }

  /** Two criteria that accept the same postings show the same list. */
  lemma {:induction false} FilterCongruent(jobs: seq<Job>, c1: Criteria, c2: Criteria)
    requires forall j :: Matches(c1, j) == Matches(c2, j)
    ensures FilterJobs(jobs, c1) == FilterJobs(jobs, c2)
  {
    if jobs != [] {
      FilterCongruent(jobs[1..], c1, c2);
    }
  }

  /** If every posting `c2` accepts is accepted by `c1`, the list under `c2` is
      a subsequence of the list under `c1`, so never longer. */
  lemma {:induction false} FilterMonotone(jobs: seq<Job>, c1: Criteria, c2: Criteria)
    requires forall j :: Matches(c2, j) ==> Matches(c1, j)
    ensures SubseqOf(FilterJobs(jobs, c2), FilterJobs(jobs, c1))
    ensures |FilterJobs(jobs, c2)| <= |FilterJobs(jobs, c1)|
  {
    if jobs != [] {
      FilterMonotone(jobs[1..], c1, c2);
      var r1, r2 := FilterJobs(jobs[1..], c1), FilterJobs(jobs[1..], c2);
      if Matches(c2, jobs[0]) {
        assert ([jobs[0]] + r2)[1..] == r2;
        assert ([jobs[0]] + r1)[1..] == r1;
      } else if Matches(c1, jobs[0]) {
        assert ([jobs[0]] + r1)[1..] == r1;
      }
    }
    SubseqLength(FilterJobs(jobs, c2), FilterJobs(jobs, c1));
  }

  /** The search term was blank or has been extended by typing more
      characters after it. */
  predicate SearchNarrows(t1: string, t2: string) {
    IsBlank(t1) || t1 <= t2
  }

  /** `c2` is at least as strict as `c1` on every criterion: the search term
      was blank or was extended, a drop-down was unconstrained or is unchanged,
      and the salary band shrank (or stayed). */
  predicate Narrows(c1: Criteria, c2: Criteria) {
    && SearchNarrows(c1.searchTerm, c2.searchTerm)
    && (Unconstrained(c1.location) || c1.location == c2.location)
    && (Unconstrained(c1.jobType) || c1.jobType == c2.jobType)
    && c1.salaryMin <= c2.salaryMin
    && c2.salaryMax <= c1.salaryMax
  }

  /** Extending a non-blank search term only removes matches. */
  lemma SearchNarrowingImplies(t1: string, t2: string, job: Job)
    requires SearchNarrows(t1, t2) && MatchesSearch(t2, job)
    ensures MatchesSearch(t1, job)
  {
    if !IsBlank(t1) {
      BlankIffAllWhiteSpace(t1);
      BlankIffAllWhiteSpace(t2);
      var i :| 0 <= i < |t1| && !IsWhiteSpace(t1[i]);
      assert t2[i] == t1[i];
      ToLowerPrefix(t1, t2);
      if Includes(ToLower(job.title), ToLower(t2)) {
        IncludesPrefix(ToLower(job.title), ToLower(t1), ToLower(t2));
      } else {
        IncludesPrefix(ToLower(job.company), ToLower(t1), ToLower(t2));
      }
    }
  }

  /** Narrowing the criteria (shrinking the salary band, fixing a drop-down
      that was unconstrained, typing into the search box) never grows the
      visible list, and what remains keeps its order. */
  lemma NarrowingNeverGrows(jobs: seq<Job>, c1: Criteria, c2: Criteria)
    requires Narrows(c1, c2)
    ensures SubseqOf(FilterJobs(jobs, c2), FilterJobs(jobs, c1))
    ensures |FilterJobs(jobs, c2)| <= |FilterJobs(jobs, c1)|
  {
    forall j | Matches(c2, j) ensures Matches(c1, j) {
      SearchNarrowingImplies(c1.searchTerm, c2.searchTerm, j);
    }
    FilterMonotone(jobs, c1, c2);
  }

  /** "" and "all" are the same unconstrained location, and the same
      unconstrained job type. */
  lemma SentinelsEquivalent(jobs: seq<Job>, c: Criteria)
    ensures FilterJobs(jobs, c.(location := "")) == FilterJobs(jobs, c.(location := "all"))
    ensures FilterJobs(jobs, c.(jobType := "")) == FilterJobs(jobs, c.(jobType := "all"))
  {
    FilterCongruent(jobs, c.(location := ""), c.(location := "all"));
    FilterCongruent(jobs, c.(jobType := ""), c.(jobType := "all"));
  }

  /** Any other location is an exact, case-sensitive match. */
  lemma ChoiceIsExact(choice: string, value: string)
    requires !Unconstrained(choice)
    ensures MatchesChoice(choice, value) <==> value == choice
  {
  }

  /** The search is case-insensitive: terms that lower to the same string show
      the same list ("FULL STACK" and "full stack", say). */
  lemma SearchCaseInsensitive(jobs: seq<Job>, c: Criteria, term: string)
    requires ToLower(term) == ToLower(c.searchTerm)
    ensures FilterJobs(jobs, c.(searchTerm := term)) == FilterJobs(jobs, c)
  {
    SameLoweringSameBlankness(term, c.searchTerm);
    FilterCongruent(jobs, c.(searchTerm := term), c);
  }

  /** "FULL STACK" and "full stack" select the same postings. */
  lemma FullStackEitherCase(jobs: seq<Job>, c: Criteria, upper: string)
    requires c.searchTerm == "full stack" && upper == "FULL STACK"
    ensures FilterJobs(jobs, c.(searchTerm := upper)) == FilterJobs(jobs, c)
  {
    ExampleUpperLowered(upper);
    ExampleTermLowered(c.searchTerm);
    SearchCaseInsensitive(jobs, c, upper);
  }

  /** The upper-case example term lowers to the lower-case one. */
  lemma ExampleUpperLowered(upper: string)
    requires upper == "FULL STACK"
    ensures ToLower(upper) == "full stack"
  {
    LowerPointwise(upper, "full stack");
  }

  /** A posting titled "Full Stack Developer" matches the term "full stack". */
  lemma FullStackDeveloperMatches(job: Job, term: string)
    requires job.title == "Full Stack Developer" && term == "full stack"
    ensures MatchesSearch(term, job)
  {
    ExampleTitleLowered(job.title);
    ExampleTermLowered(term);
    ExampleTermOccurs();
    TitleMatchSuffices(term, job);
  }

  /** The example title, lowered. */
  lemma ExampleTitleLowered(title: string)
    requires title == "Full Stack Developer"
    ensures ToLower(title) == "full stack developer"
  {
    LowerPointwise(title, "full stack developer");
  }

  /** The example term is already lower case. */
  lemma ExampleTermLowered(term: string)
    requires term == "full stack"
    ensures ToLower(term) == "full stack"
  {
    LowerPointwise(term, "full stack");
  }

  /** The lowered term starts the lowered title. */
  lemma ExampleTermOccurs()
    ensures OccursAt("full stack developer", "full stack", 0)
  {
  }

  /** A term found in the lowered title is a match. */
  lemma TitleMatchSuffices(term: string, job: Job)
    requires Includes(ToLower(job.title), ToLower(term))
    ensures MatchesSearch(term, job)
  {
  }

  /** A blank term (after trimming) lets every posting through the search. */
  lemma BlankSearchMatchesAll(term: string, job: Job)
    requires forall i :: 0 <= i < |term| ==> IsWhiteSpace(term[i])
    ensures MatchesSearch(term, job)
  {
    BlankIffAllWhiteSpace(term);
  }

  /** A non-blank term is matched untrimmed: a term with a leading space
      (" dev") matches no posting whose title and company have no space in
      them, although the trimmed term might. */
  lemma SearchTermNotTrimmed(term: string, job: Job)
    requires !IsBlank(term) && |term| > 0 && term[0] == ' '
    requires ' ' !in job.title && ' ' !in job.company
    ensures !MatchesSearch(term, job)
  {
    NoSpaceNoMatch(job.title, term);
    NoSpaceNoMatch(job.company, term);
  }

  /** A lowered text without spaces includes no lowered term that starts with one. */
  lemma NoSpaceNoMatch(text: string, term: string)
    requires |term| > 0 && term[0] == ' ' && ' ' !in text
    ensures !Includes(ToLower(text), ToLower(term))
  {
  }

  /** Boundaries are inclusive: salary 40 passes under [10,40] and fails under [10,35]. */
  lemma SalaryBoundsInclusive(job: Job)
    requires job.salaryRange == 40
    ensures MatchesSalary(10, 40, job)
    ensures !MatchesSalary(10, 35, job)
  {
  }

  /** The first view: with the initial criteria exactly the postings paid
      10 to 40 are shown. */
  lemma InitialView(jobs: seq<Job>)
    ensures forall j :: j in FilterJobs(jobs, InitialCriteria()) <==> j in jobs && 10 <= j.salaryRange <= 40
  {
    EmptyIsBlank();
    SalaryOnlyView(jobs, InitialCriteria());
  }

  /** The empty search term is blank. */
  lemma EmptyIsBlank()
    ensures IsBlank("")
  {
    assert TrimStart("") == "";
  }

  /** With a blank term and both drop-downs unconstrained, only the salary
      band decides what is shown. */
  lemma SalaryOnlyView(jobs: seq<Job>, c: Criteria)
    requires IsBlank(c.searchTerm) && Unconstrained(c.location) && Unconstrained(c.jobType)
    ensures forall j :: j in FilterJobs(jobs, c) <==> j in jobs && MatchesSalary(c.salaryMin, c.salaryMax, j)
  {
  }

  /** With nothing constrained and the whole slider selected, a catalog whose
      salaries lie within the slider passes through unchanged. */
  lemma UnconstrainedPassThrough(jobs: seq<Job>)
    requires forall k :: 0 <= k < |jobs| ==> SliderMin <= jobs[k].salaryRange <= SliderMax
    ensures FilterJobs(jobs, Criteria("", "", "", SliderMin, SliderMax)) == jobs
  {
    EmptyIsBlank();
    UnconstrainedCriteriaPassThrough(jobs, Criteria("", "", "", SliderMin, SliderMax));
  }

  /** Any criteria that constrain nothing (blank term, "" or "all" in both
      drop-downs, a band that covers the slider) pass such a catalog through. */
  lemma UnconstrainedCriteriaPassThrough(jobs: seq<Job>, c: Criteria)
    requires forall k :: 0 <= k < |jobs| ==> SliderMin <= jobs[k].salaryRange <= SliderMax
    requires IsBlank(c.searchTerm) && Unconstrained(c.location) && Unconstrained(c.jobType)
    requires c.salaryMin <= SliderMin && SliderMax <= c.salaryMax
    ensures FilterJobs(jobs, c) == jobs
  {
    FilterKeepsAllMatching(jobs, c);
  }

  /** A posting paid outside the slider's bounds is shown under no slider position. */
  lemma OutOfSliderUnreachable(jobs: seq<Job>, c: Criteria, job: Job)
    requires SliderMin <= c.salaryMin && c.salaryMax <= SliderMax
    requires job.salaryRange < SliderMin || job.salaryRange > SliderMax
    ensures job !in FilterJobs(jobs, c)
  {
  }

  /** Thumbs crossed (lower bound above upper bound) show nothing. */
  lemma CrossedRangeShowsNothing(jobs: seq<Job>, c: Criteria)
    requires c.salaryMin > c.salaryMax
    ensures FilterJobs(jobs, c) == []
  {
  }

  /** A term no title or company contains gives the empty list, the
      "no jobs found" state. */
  lemma NoMatchEmpty(jobs: seq<Job>, c: Criteria)
    requires forall k :: 0 <= k < |jobs| ==> !MatchesSearch(c.searchTerm, jobs[k])
    ensures FilterJobs(jobs, c) == []
  {
  }

  /** Three postings paid 12, 35 and 60: the initial view shows the first two,
      in catalog order. */
  lemma ThreePostingScenario(a: Job, b: Job, d: Job)
    requires a.salaryRange == 12 && b.salaryRange == 35 && d.salaryRange == 60
    ensures FilterJobs([a, b, d], InitialCriteria()) == [a, b]
  {
    var c := InitialCriteria();
    EmptyIsBlank();
    OnlySalaryDecides(c, a);
    OnlySalaryDecides(c, b);
    OnlySalaryDecides(c, d);
    KeepKeepDrop(a, b, d, c);
  }

  /** With a blank term and both drop-downs unconstrained, a posting matches
      iff its salary lies in the band. */
  lemma OnlySalaryDecides(c: Criteria, j: Job)
    requires IsBlank(c.searchTerm) && Unconstrained(c.location) && Unconstrained(c.jobType)
    ensures Matches(c, j) <==> MatchesSalary(c.salaryMin, c.salaryMax, j)
  {
  }

  /** Of three postings, the first two match and the third does not. */
  lemma KeepKeepDrop(a: Job, b: Job, d: Job, c: Criteria)
    requires Matches(c, a) && Matches(c, b) && !Matches(c, d)
    ensures FilterJobs([a, b, d], c) == [a, b]
  {
    FilterCons(d, [], c);
    assert [d] + [] == [d];
    PrependKept(b, [d], [], c);
    PrependKept(a, [b, d], [b], c);
  }

  /** A matching posting put in front of a catalog is put in front of its view. */
  lemma PrependKept(job: Job, rest: seq<Job>, view: seq<Job>, c: Criteria)
    requires Matches(c, job) && FilterJobs(rest, c) == view
    ensures FilterJobs([job] + rest, c) == [job] + view
  {
    FilterCons(job, rest, c);
  }
}
