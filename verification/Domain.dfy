/** The values the autoscaler passes around (common/basetype/type.go, api/v1/aom_types.go)
    and the two ways a Go call can end without a value. */
module Domain {

  /** How a modelled call ends: with a value, with an error value the caller sees,
      or with a run-time panic (index out of range, division by zero, double close). */
  datatype Outcome<+T> = Ok(value: T) | Failed | Panicked

  datatype Option<+T> = None | Some(value: T)

  datatype ScaleDownConf = ScaleDownConf(threshold: string, duration: int)

  datatype Metric = Metric(
    scaleDownConf: ScaleDownConf,
    target: string,
    weight: int,
    name: string,
    unit: string,
    query: string)

  datatype Model = Model(
    modelType: string,
    needTrain: bool,
    updateInterval: int,
    attr: map<string, string>)

  /** The part of AOMSpec the reconciler diffs: metrics by spec id, and models by the id
      of the metric they predict. */
  datatype Spec = Spec(metrics: map<string, Metric>, models: map<string, seq<Model>>)
}
