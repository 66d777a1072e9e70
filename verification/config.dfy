/** The constants of the dashboard's configuration the views depend on. */
module Config {

  /** `BEBAN_KERJA_WEIGHTS`: the workload tiers and the weight the table sorts them by. */
  const BebanKerjaWeights: map<string, int> :=
    map["Critical" := 4, "High" := 3, "Balanced" := 2, "Low" := 1]

  /** Milliseconds in a day, `1000 * 60 * 60 * 24`. */
  const DayMs: int := 86_400_000
}
