/**
 * The catalog filter and the posting form each hard-code their own drop-down
 * values (`src/app/page.tsx` and `src/components/createJob.tsx`), and the two
 * lists disagree. Nothing unifies them; these lemmas state the consequences.
 */
module Vocabulary {
  import CF = CatalogFilter
  import PF = PostingForm

  /** Only "Contract" and "Freelance" are spelt the same in both job-type lists:
      the form's "FullTime", "PartTime" and "Internship" are not filter options,
      and the filter's "Full Time" and "Part Time" are not form options. */
  lemma SharedJobTypes()
    ensures (set t | t in PF.FormJobTypes() && t in CF.JobTypeOptions()) == {"Contract", "Freelance"}
    ensures "FullTime" !in CF.JobTypeOptions() && "Full Time" !in PF.FormJobTypes()
  {
  }

  /** Only eight of the form's ten cities are filter options: "Noida" and
      "Ahmedabad" are missing. */
  lemma SharedLocations()
    ensures (set l | l in PF.FormLocations() && l !in CF.LocationOptions()) == {"Noida", "Ahmedabad"}
  {
  }

  /** A posting whose job type the form offers but the filter does not is
      shown under no job-type option except "all". */
  lemma UnlistedJobTypeOnlyUnderAll(job: CF.Job, option: string)
    requires job.jobType in PF.FormJobTypes() && job.jobType !in CF.JobTypeOptions()
    requires option in CF.JobTypeOptions()
    ensures CF.MatchesChoice(option, job.jobType) <==> option == "all"
  {
  }

  /** Likewise for a city the form offers but the filter does not. */
  lemma UnlistedLocationOnlyUnderAll(job: CF.Job, option: string)
    requires job.location in PF.FormLocations() && job.location !in CF.LocationOptions()
    requires option in CF.LocationOptions()
    ensures CF.MatchesChoice(option, job.location) <==> option == "all"
  {
  }
}
