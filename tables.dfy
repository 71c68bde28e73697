/** The relations the audition core reads and writes. Train end times are
    modelled as integers (only their order and equality matter); values are
    reals. */
module Tables {
  import opened Results

  /** One row of `results.evaluations` joined with the models table: the
      evaluation source the distance table is built from. */
  datatype Evaluation = Evaluation(
    modelGroupId: int,
    modelId: int,
    trainEndTime: int,
    metric: string,
    parameter: string,
    value: real)

  /** One row of the distance-from-best table. `belowBestNextTime` is SQL
      NULL (None) for a model group's latest row. */
  datatype Row = Row(
    modelGroupId: int,
    modelId: int,
    trainEndTime: int,
    metric: string,
    parameter: string,
    rawValue: real,
    belowBest: real,
    belowBestNextTime: Option<real>)

  /** A row of the frame a selection rule sees: the distance row without
      its `below_best_next_time` column. */
  datatype ViewRow = ViewRow(
    modelGroupId: int,
    modelId: int,
    trainEndTime: int,
    metric: string,
    parameter: string,
    rawValue: real,
    belowBest: real)

  /** `del df['below_best_next_time']` applied to one row. */
  function View(r: Row): ViewRow {
    ViewRow(r.modelGroupId, r.modelId, r.trainEndTime, r.metric, r.parameter, r.rawValue, r.belowBest)
  }
}
