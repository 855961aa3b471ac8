/** The tag lists the mention classifier searches for. */
module Config {
  /** Accelerator-brand tags. */
  const YcTags: seq<string> := ["yc", "ycombinator", "y combinator"]

  /** Cohort tags for the summer 2025 batch. */
  const S25Tags: seq<string> := ["s25", "summer 2025", "summer2025", "2025summer", "2025 summer"]
}
