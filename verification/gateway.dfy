/**
 * The per-model wrapper `ModelArtifact` of raw.py. The Ersilia model service it
 * drives is outside this model: how a load or a run of one model ends is given
 * by a `Service` value, decided by the environment.
 */
module Gateway {
  import opened Wrappers

  type ModelId = string

  /** How the steps of `ModelArtifact.run` end: serve, reading the input table,
      the model run and close all return, or one of them raises. Either way an
      output file may or may not have been written: `model.run` returning does
      not by itself mean the output exists. */
  datatype Execution = Completes(wroteOutput: bool) | Aborts(wroteOutput: bool)

  /** What the external service does for one model id: whether constructing the
      Ersilia model succeeds, how running it ends, and whether the summary table
      can be derived from an existing output file. */
  datatype Service = Service(loads: bool, execution: Execution, summarises: bool)

  /** A loaded Ersilia model, reduced to how running it ends. */
  datatype Handle = Handle(modelId: ModelId, execution: Execution)

  /** Why the work for one id raised. */
  datatype RunError =
    | NoModel          // `self.model.serve()` with `self.model = None`
    | ExecutionFailed  // serve, input projection, the model run or close raised
    | SummaryFailed    // the output file is missing, or deriving its summary table raised

  /** Whether a call returned or raised. */
  datatype Outcome = Returned | Raised(error: RunError)

  /** How a run ended and whether an output artifact was left at its path. */
  datatype RunReport = RunReport(outcome: Outcome, wroteOutput: bool)

  datatype ModelArtifact = ModelArtifact(modelId: ModelId, model: Option<Handle>)
  {
    /** `ModelArtifact.run`: fails at once, before any output exists, when no
        model was loaded; otherwise returns exactly when the model's execution
        completes, and leaves output exactly when the execution wrote it. */
    function Run(): (r: RunReport)
      ensures model.None? ==> r == RunReport(Raised(NoModel), false)
      ensures r.outcome.Returned? <==> model.Some? && model.value.execution.Completes?
      ensures r.outcome.Raised? ==> r.outcome.error == (if model.None? then NoModel else ExecutionFailed)
      ensures r.wroteOutput <==> model.Some? && model.value.execution.wroteOutput
    {
      match model
      case None => RunReport(Raised(NoModel), false)
      case Some(h) =>
        match h.execution
        case Completes(wrote) => RunReport(Returned, wrote)
        case Aborts(wrote) => RunReport(Raised(ExecutionFailed), wrote)
    }
  }

  /** `ModelArtifact(model_id)`: a failure to load the model is swallowed and
      leaves no model, instead of raising. */
  function NewModelArtifact(modelId: ModelId, service: Service): (ma: ModelArtifact)
    ensures ma.modelId == modelId
    ensures ma.model.None? <==> !service.loads
    ensures ma.model.Some? ==> ma.model.value == Handle(modelId, service.execution)
  {
    if service.loads then ModelArtifact(modelId, Some(Handle(modelId, service.execution)))
    else ModelArtifact(modelId, None)
  }
}
