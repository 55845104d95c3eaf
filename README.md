# Job board: catalog filter and posting form

This project models the two pieces of the job board that hold logic.

- **The catalog filter** (`src/app/page.tsx`). The page holds four criteria:
  a search term, a location, a job type and a two-thumb salary range. The
  visible list is recomputed as `jobsData.filter(...)`. A posting stays when
  all four predicates hold:
  - the trimmed term is blank, or the lowered term occurs in the lowered
    title or the lowered company;
  - the location is `""` or `"all"`, or equals the posting's exactly;
  - the job type follows the same rule;
  - the salary lies in the range, inclusive at both ends.
- **The "create job" form** (`src/components/createJob.tsx`). A schema of
  eight per-field rules decides whether Publish runs. Publish derives the
  salary string `₹{min} - ₹{max}`. Save Draft snapshots the values without
  validation. The deadline calendar greys out dates before now or before
  1900-01-01.

Modules:
- `CatalogFilter` (`catalog_filter.dfy`): postings, criteria, the filter and its properties.
- `JsString` (`js_string.dfy`): the JavaScript `trim`, `toLowerCase` and `includes` the filter uses.
- `PostingForm` (`posting_form.dfy`): the draft, the schema, validation, Publish, Save Draft and the calendar rule.
- `Vocabulary` (`vocabulary.dfy`): how the filter's drop-down values and the form's disagree.
- `Wrappers` (`wrappers.dfy`): `Option`.

Both source files are pure computations over values, so the model is
functions, datatypes and lemmas. The page's state setters only replace a
criterion wholesale, so they are not modelled as operations.

Where the code does less than its own lists and labels suggest, the model follows the code:
- The form checks location and job type only for non-emptiness. It does not
  check membership in the lists it offers.
- The two drop-down vocabularies are not unified. The filter offers
  `"Full Time"`/`"Part Time"`, the form `"FullTime"`/`"PartTime"`, and the
  form offers two cities (Noida, Ahmedabad) that the filter does not.
  `Vocabulary` states the consequences.
- The page starts with the salary range `[10, 40]`, not the whole slider.
- The numeric salary field of a posting is called `salaryRange`, as in the code.
- The form never parses the salary string it builds. The read-back
  `ParseSalaryDisplay` (with `FindSeparator`) has no counterpart in the code:
  it exists only to state that the string loses nothing.
- Dates are numbers of milliseconds, which is how JavaScript compares `Date`
  values. `new Date("1900-01-01")` reads as UTC midnight, -2208988800000.

## Model

| member | source | states |
|---|---|---|
| CatalogFilter.InitialCriteria | src/app/page.tsx:21-24 | the page starts with an empty search term, both drop-downs at "" and the salary band [10, 40] |
| CatalogFilter.LocationOptions | src/app/page.tsx:72-80 | the location drop-down offers "all" first and then eight cities, each of which constrains the list |
| CatalogFilter.JobTypeOptions | src/app/page.tsx:95-99 | the job-type drop-down offers "all" first and then four job types, each of which constrains the list |
| CatalogFilter.Unconstrained | src/app/page.tsx:32-36 | a drop-down value constrains nothing exactly when it is "" or "all" |
| CatalogFilter.MatchesSearch | src/app/page.tsx:27-30 | a posting passes the search when the trimmed term is blank, or the lowered untrimmed term occurs in the lowered title or the lowered company |
| CatalogFilter.MatchesChoice | src/app/page.tsx:32-36 | a posting passes a drop-down when its value is unconstrained or equals the posting's field exactly |
| CatalogFilter.MatchesSalary | src/app/page.tsx:38-39 | a posting passes the slider when its salary lies in the band, both ends included |
| CatalogFilter.Matches | src/app/page.tsx:27-41 | the filter callback is the conjunction of the search, location, job-type and salary tests |
| CatalogFilter.FilterJobs | src/app/page.tsx:26-42 | the visible list is a subsequence of the catalog in catalog order; a posting is in it iff it is in the catalog and all four predicates hold |
| CatalogFilter.FilterCounts | src/app/page.tsx:26-42 | each matching posting appears exactly as often as in the catalog, and no other posting appears |
| CatalogFilter.FilterCons | src/app/page.tsx:26-42 | the first posting is decided by the predicate, then the rest of the catalog is filtered |
| CatalogFilter.FilterNeverGrows | src/app/page.tsx:26-42 | the list is never longer than the catalog and adds or duplicates no posting |
| CatalogFilter.FilterKeepsAllMatching | src/app/page.tsx:26-42 | a catalog whose every posting matches passes through unchanged |
| CatalogFilter.FilterIdempotent | src/app/page.tsx:26-42 | filtering the visible list again with the same criteria gives the same list |
| CatalogFilter.FilterCongruent | src/app/page.tsx:26-42 | criteria that accept the same postings give the same list |
| CatalogFilter.FilterMonotone | src/app/page.tsx:26-42 | if every posting accepted by the stricter criteria is accepted by the looser ones, the stricter list is a subsequence of the looser one and no longer |
| CatalogFilter.SearchNarrowingImplies | src/app/page.tsx:27-30 | typing more characters after a non-blank term, or typing into a blank box, only removes search matches |
| CatalogFilter.NarrowingNeverGrows | src/app/page.tsx:26-42 | narrowing the criteria never grows the list and keeps its order: shrinking the salary band, fixing a drop-down that was "" or "all", or extending the term |
| CatalogFilter.SentinelsEquivalent | src/app/page.tsx:32-36 | location "" and "all" give identical lists, and so do job type "" and "all" |
| CatalogFilter.ChoiceIsExact | src/app/page.tsx:32-36 | any other drop-down value needs exact, case-sensitive equality |
| CatalogFilter.SearchCaseInsensitive | src/app/page.tsx:27-30 | two terms with the same lowering give the same list |
| CatalogFilter.FullStackEitherCase | src/app/page.tsx:29-30 | the terms "FULL STACK" and "full stack" select the same postings |
| CatalogFilter.FullStackDeveloperMatches | src/app/page.tsx:29-30 | a posting titled "Full Stack Developer" matches the term "full stack" |
| CatalogFilter.BlankSearchMatchesAll | src/app/page.tsx:27-28 | a term that is all white space lets every posting through the search |
| CatalogFilter.SearchTermNotTrimmed | src/app/page.tsx:27-30 | trimming is used only for the blank test: a term with a leading space matches no posting whose title and company contain no space |
| CatalogFilter.SalaryBoundsInclusive | src/app/page.tsx:38-39 | salary 40 passes under [10,40] and fails under [10,35] |
| CatalogFilter.CrossedRangeShowsNothing | src/app/page.tsx:38-39 | a lower bound above the upper bound shows nothing |
| CatalogFilter.InitialView | src/app/page.tsx:21-24 | with the initial criteria ("", "", "", [10,40]) a posting is shown iff it is in the catalog and paid 10 to 40 |
| CatalogFilter.OnlySalaryDecides | src/app/page.tsx:26-42 | with a blank term and both drop-downs unconstrained, a posting matches iff its salary is in the band |
| CatalogFilter.SalaryOnlyView | src/app/page.tsx:26-42 | with a blank term and both drop-downs unconstrained, only the salary band decides |
| CatalogFilter.ThreePostingScenario | src/app/page.tsx:21-42 | postings paid 12, 35 and 60 give exactly the first two, in order, in the initial view |
| CatalogFilter.UnconstrainedCriteriaPassThrough | src/app/page.tsx:26-42 | criteria that constrain nothing pass a catalog within the slider bounds through unchanged |
| CatalogFilter.UnconstrainedPassThrough | src/app/page.tsx:114-121 | ("", "", "", [10,100]) passes a catalog within the slider bounds through unchanged |
| CatalogFilter.OutOfSliderUnreachable | src/app/page.tsx:114-121 | a posting paid outside 10..100 is shown under no slider position |
| CatalogFilter.NoMatchEmpty | src/app/page.tsx:26-42 | a term no title or company contains gives the empty list |
| JsString.IsWhiteSpace | src/app/page.tsx:28 | the characters `trim` removes are ECMAScript's WhiteSpace and LineTerminator characters |
| JsString.TrimStart | src/app/page.tsx:28 | the result is the longest suffix of the input that does not start with white space |
| JsString.TrimEnd | src/app/page.tsx:28 | the result is the longest prefix of the input that does not end with white space |
| JsString.Trim | src/app/page.tsx:28 | `trim()` removes the leading white space, then the trailing white space |
| JsString.IsBlank | src/app/page.tsx:28 | the blank test is `trim() === ""` |
| JsString.BlankIffAllWhiteSpace | src/app/page.tsx:28 | `trim()` gives "" iff every character is white space |
| JsString.ToLower | src/app/page.tsx:29-30 | the lowering has the same length and lowers each character |
| JsString.SameLoweringSameBlankness | src/app/page.tsx:28-30 | terms with the same lowering are blank together |
| JsString.Includes | src/app/page.tsx:29-30 | `includes` holds when the needle occurs as a contiguous slice of the haystack |
| JsString.IncludesPrefix | src/app/page.tsx:29-30 | a string that includes a term includes each prefix of it |
| PostingForm.Schema | src/components/createJob.tsx:18-43 | each field has its rule (minimum length 2, 2, 1, 1, 1, 1 or 10, or a required date) and the message the schema gives for it |
| PostingForm.FieldRules | src/components/createJob.tsx:18-43 | jobTitle and companyName need length at least 2, jobDescription at least 10; location, jobType, salaryMin and salaryMax need only be non-empty; the deadline must be set |
| PostingForm.Validate | src/components/createJob.tsx:18-43 | the error map has an entry exactly for each failing field, carrying that field's message |
| PostingForm.IsSubmittable | src/components/createJob.tsx:98 | `handleSubmit` calls Publish only when the resolver reports no error |
| PostingForm.SubmittableIffAllRules | src/components/createJob.tsx:18-43 | a draft is submittable iff all eight rules hold |
| PostingForm.DefaultDraft | src/components/createJob.tsx:65-73 | the form starts with every text field empty and no deadline |
| PostingForm.DefaultsFailEveryField | src/components/createJob.tsx:65-73 | the default values fail all eight rules |
| PostingForm.DeadlineAloneFlips | src/components/createJob.tsx:37-39 | a draft missing only its deadline has exactly that one error, and picking any date makes it submittable |
| PostingForm.FormLocations | src/components/createJob.tsx:47-58 | the form offers ten cities, and each passes the location rule |
| PostingForm.FormJobTypes | src/components/createJob.tsx:60 | the form offers five job types, and each passes the job-type rule |
| PostingForm.NoMembershipOrNumericCheck | src/components/createJob.tsx:25-60 | a city and a job type outside the offered lists, and a numeric minimum ("900") above the numeric maximum ("10"), are all accepted |
| PostingForm.PickerDisables | src/components/createJob.tsx:243 | the calendar greys out a date before now or before 1900-01-01, read as UTC midnight |
| PostingForm.PickerDisablesPast | src/components/createJob.tsx:243 | once now is past 1900-01-01, a date is greyed out iff it is before now |
| PostingForm.DeadlineNotRechecked | src/components/createJob.tsx:243 | validation does not apply the calendar rule: a past deadline does not hold a draft back |
| PostingForm.SalaryDisplay | src/components/createJob.tsx:79 | the salary string is "₹", the minimum, " - ₹", then the maximum, at those positions |
| PostingForm.SalaryDisplayRoundTripExactly | src/components/createJob.tsx:79 | splitting the salary string at its first " - ₹" gives back both amounts iff no separator starts inside the minimum |
| PostingForm.SalaryDisplayRoundTrip | src/components/createJob.tsx:79 | a minimum without a space always reads back; this is a sufficient condition, not a necessary one |
| PostingForm.SpacedMinimumReadsBack | src/components/createJob.tsx:79 | the minimum "10 000", which has a space, still reads back |
| PostingForm.SalaryDisplayAmbiguous | src/components/createJob.tsx:79 | without that condition two different pairs of amounts give the same salary string |
| PostingForm.Publish | src/components/createJob.tsx:76-86 | Publish succeeds iff the draft is submittable; on failure it reports every failing field's message; on success it keeps the form values, adds the salary string, formats the deadline and stamps the time; the salary string reads back as the two amounts exactly when no " - ₹" starts inside the minimum, in particular when the minimum has no space |
| PostingForm.SaveDraft | src/components/createJob.tsx:88-92 | Save Draft takes the current values as they are |
| PostingForm.SaveDraftSkipsValidation | src/components/createJob.tsx:88-92 | Save Draft returns the values unchanged for any draft, including one that Publish rejects |
| Vocabulary.SharedJobTypes | src/components/createJob.tsx:60 | only "Contract" and "Freelance" appear in both job-type lists; "FullTime" is not a filter option and "Full Time" is not a form option |
| Vocabulary.SharedLocations | src/components/createJob.tsx:47-58 | the form's cities missing from the filter are exactly Noida and Ahmedabad |
| Vocabulary.UnlistedJobTypeOnlyUnderAll | src/app/page.tsx:95-99 | a posting with a form-only job type matches a filter option iff that option is "all" |
| Vocabulary.UnlistedLocationOnlyUnderAll | src/app/page.tsx:72-80 | a posting in a form-only city matches a filter option iff that option is "all" |

## Left out

- Rendering is not modelled: the JSX, styling, icons and the logo chosen by company name. Neither are the navigation bar and the root layout. None of them holds logic.
- React state and the react-hook-form/zod machinery are not modelled: re-validation timing and error propagation. Validation is the function from a draft to its error map.
- `console.log` and `alert` output is left out.
- The clock reading `new Date().toISOString()` becomes the `publishedAt` parameter of `Publish`.
- The date-fns `format(..., "PPP")` becomes the `formatDate` parameter.
- The contents of `jobsData` are not part of this model. Every lemma holds for any catalog. Display-only fields of a posting are not modelled.
- The slider's step of 5 and its bounds are enforced by the UI component. The filter is modelled for any pair of bounds, crossed ones included.
- The calendar compares local-midnight dates with the current instant. Time zones are not modelled: dates are plain millisecond counts.
- `z.date()` also rejects an invalid `Date`. The calendar never produces one, so the deadline is modelled as set or unset.
- JsString.ToLower: uses the ASCII case mapping only ('A'..'Z' to 'a'..'z'). `toLowerCase` applies full Unicode case mapping, so non-ASCII letters are not folded.
- CatalogFilter.SearchNarrowingImplies: its search clause (a longer term only removes matches) rests on the ASCII lowering. Unicode's context-sensitive final-sigma rule breaks it in JavaScript: "ΑΣ" lowers to "ας" but "ΑΣΑ" to "ασα", so a posting titled "ΑΣΑ" is rejected under "ΑΣ" and accepted under "ΑΣΑ".
- CatalogFilter.NarrowingNeverGrows: its term-extension clause depends on the ASCII lowering in the same way and fails in JavaScript for the same final-sigma input. The drop-down and salary clauses do not depend on it.
- PostingForm.FieldRules: lengths count characters (Unicode scalar values). zod counts UTF-16 code units, so strings with characters outside the Basic Multilingual Plane are measured shorter than zod measures them.
- The form's dialog lifecycle (empty, editing, submitted) does not exist in the code. After Publish the form is not reset, so no lifecycle is modelled.
- The catalog does not flag postings whose salary lies outside the slider's range. The model only proves that such postings can never be shown (`OutOfSliderUnreachable`).
