/** The job record shared by the front end and the Python backend (src/types/job.ts). */
module JobModel {

  datatype Option<T> = None | Some(value: T)

  /** `applicationStatus`: 'not_applied' | 'applied' | 'interview' | 'rejected'. */
  datatype Status = NotApplied | Applied | Interview | Rejected

  /** A job posting. `postedDate` is the instant the date string denotes, in milliseconds
      since the epoch, or None when the string does not parse (JS `new Date` gives NaN). */
  datatype Job = Job(
    id: string,
    title: string,
    company: string,
    location: string,
    salary: string,
    postedDate: Option<int>,
    source: string,
    description: string,
    requirements: seq<string>,
    isRemote: bool,
    relevanceScore: int,
    applicationStatus: Status,
    tags: seq<string>,
    url: string)
}
