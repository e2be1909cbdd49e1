/** One entry of the experiment log's "Experiments" array. */
module Records {

  /** The ComputationTime field: a JSON string, or any other JSON value
      (a number, null, ...). */
  datatype TimeField = TimeString(text: string) | NotAString

  /** Configuration, AlgorithmType, Makespan, ComputationTime and TaskCount of
      one run. */
  datatype Experiment = Experiment(
    configuration: string,
    algorithmType: string,
    makespan: real,
    computationTime: TimeField,
    taskCount: int)
}
