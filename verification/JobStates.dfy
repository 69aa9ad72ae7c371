/** The states of a job, in the order the database's enumeration puts them. */
module JobStates {
  datatype JobState = Created | Retry | Active | Completed | Cancelled | Failed

  /** `state < 'completed'` */
  predicate Unfinished(state: JobState)
  {
    state == Created || state == Retry || state == Active
  }
}
