/**
 * `RawDescriptors` of raw.py: choosing the working set of model ids, running
 * every id that has no output artifact yet with its failures absorbed, and
 * overwriting the completion manifest `done_eos.json` with the ids that
 * completed. The output directory is modelled by the set of ids whose artifact
 * exists there, and the manifest file by an optional list of ids.
 */
module Raw {
  import opened Wrappers
  import opened Seqs
  import opened Gateway
  import Batch

  /** Whether the ambient run context is a training or a prediction run. */
  datatype Mode = Train | Predict

  /** The errors that escape `run`. */
  datatype ConfigError =
    | MissingHubKey           // `self.params["ersilia_hub"]` raises KeyError
    | MissingTrainedManifest  // the trained run's done_eos.json cannot be opened

  datatype Status = Completed | Failed(error: ConfigError)

  /** `RawDescriptors.eos_ids`: the configured ids with duplicates collapsed, in
      the order `setOrder` in which iterating `set(hub)` yields them, followed by
      `reference` when the configuration does not list it. */
  function EosIds(hub: seq<ModelId>, reference: ModelId, setOrder: seq<ModelId>): (ids: seq<ModelId>)
    requires IsEnumeration(setOrder, Elems(hub))
    ensures NoDup(ids)
    ensures Elems(ids) == Elems(hub) + {reference}
    ensures multiset(ids)[reference] == 1
    ensures setOrder <= ids
    ensures |ids| == |setOrder| + (if reference in hub then 0 else 1)
  {
    if reference in setOrder then
      NoDupCount(setOrder, reference);
      setOrder
    else
      NoDupAppend(setOrder, reference);
      setOrder + [reference]
  }

  /** The working set `run` iterates: `eos_ids()` in a training run, the
      trained run's manifest read back verbatim (`done_eos_ids()`) in a
      prediction run. The prediction branch never looks at `hub`. */
  function SelectWorkingSet(mode: Mode, hub: Option<seq<ModelId>>, trainedManifest: Option<seq<ModelId>>,
                            reference: ModelId, setOrder: seq<ModelId>): (r: Result<seq<ModelId>, ConfigError>)
    requires mode == Train && hub.Some? ==> IsEnumeration(setOrder, Elems(hub.value))
    ensures mode == Predict ==>
              (r.Success? <==> trainedManifest.Some?) &&
              (r.Success? ==> r.value == trainedManifest.value) &&
              (r.Failure? ==> r.error == MissingTrainedManifest)
    ensures mode == Train ==>
              (r.Success? <==> hub.Some?) &&
              (r.Failure? ==> r.error == MissingHubKey) &&
              (r.Success? ==> NoDup(r.value) && Elems(r.value) == Elems(hub.value) + {reference} &&
                              multiset(r.value)[reference] == 1)
  {
    match mode
    case Predict =>
      if trainedManifest.Some? then Success(trainedManifest.value) else Failure(MissingTrainedManifest)
    case Train =>
      if hub.Some? then Success(EosIds(hub.value, reference, setOrder)) else Failure(MissingHubKey)
  }

  class RawDescriptors {
    /** The run context, fixed at construction. */
    const mode: Mode
    /** `params["ersilia_hub"]`, or None when the parameters lack that key. */
    const hub: Option<seq<ModelId>>
    /** The trained run's done_eos.json, or None when it cannot be read. */
    const trainedManifest: Option<seq<ModelId>>
    /** REFERENCE_DESCRIPTOR. */
    const reference: ModelId
    /** What the external model service does for each id. */
    const services: ModelId -> Service

    /** The ids whose output artifact exists in the current output directory. */
    var artifacts: set<ModelId>
    /** The current output directory's done_eos.json, None while it does not exist. */
    var manifest: Option<seq<ModelId>>
    /** The ids `_run_eos` was called for, in call order. */
    ghost var invoked: seq<ModelId>

    constructor (mode: Mode, hub: Option<seq<ModelId>>, trainedManifest: Option<seq<ModelId>>,
                 reference: ModelId, services: ModelId -> Service,
                 artifacts: set<ModelId>, manifest: Option<seq<ModelId>>)
      ensures this.mode == mode && this.hub == hub && this.trainedManifest == trainedManifest
      ensures this.reference == reference && this.services == services
      ensures this.artifacts == artifacts && this.manifest == manifest && invoked == []
    {
      this.mode := mode;
      this.hub := hub;
      this.trainedManifest := trainedManifest;
      this.reference := reference;
      this.services := services;
      this.artifacts := artifacts;
      this.manifest := manifest;
      invoked := [];
    }

    /** `_run_eos(id)`: runs the model for `id`, which may leave its artifact
        behind even when it fails, and reports whether it raised. */
    method RunEos(id: ModelId) returns (outcome: Outcome)
      modifies this
      ensures outcome == Batch.RunEos(id, services(id)).outcome
      ensures artifacts == if Batch.RunEos(id, services(id)).wroteOutput then old(artifacts) + {id} else old(artifacts)
      ensures manifest == old(manifest) && invoked == old(invoked) + [id]
    {
      invoked := invoked + [id];
      var report := Batch.RunEos(id, services(id));
      if report.wroteOutput {
        artifacts := artifacts + {id};
      }
      outcome := report.outcome;
    }

    /** `run`: a configuration error raises before anything is touched;
        otherwise every id of the working set without an artifact is run, its
        failure swallowed, and the manifest is overwritten with the ids that
        completed, in working-set order. */
    method Run(setOrder: seq<ModelId>) returns (status: Status)
      requires mode == Train && hub.Some? ==> IsEnumeration(setOrder, Elems(hub.value))
      modifies this
      ensures var sel := SelectWorkingSet(mode, hub, trainedManifest, reference, setOrder);
              && (sel.Failure? ==> status == Failed(sel.error) && unchanged(this))
              && (sel.Success? ==>
                    var pass := Batch.Pass(sel.value, old(artifacts), services);
                    && status == Completed
                    && manifest == Some(pass.done)
                    && artifacts == pass.artifacts
                    && invoked == old(invoked) + pass.invoked)
      ensures status == Completed ==>
                var ws := SelectWorkingSet(mode, hub, trainedManifest, reference, setOrder).value;
                && manifest.Some?
                && IsSubsequence(manifest.value, ws)
                && NoDup(manifest.value)
                && Elems(manifest.value) <= artifacts
                && old(artifacts) <= artifacts
                && Elems(invoked[|old(invoked)|..]) == Elems(ws) - old(artifacts)
    {
      var sel := SelectWorkingSet(mode, hub, trainedManifest, reference, setOrder);
      if sel.Failure? {
        return Failed(sel.error);
      }
      var ws := sel.value;
      ghost var existing, calls := artifacts, invoked;
      var done: seq<ModelId> := [];
      for i := 0 to |ws|
        invariant done == Batch.Pass(ws[..i], existing, services).done
        invariant artifacts == Batch.Pass(ws[..i], existing, services).artifacts
        invariant invoked == calls + Batch.Pass(ws[..i], existing, services).invoked
        invariant manifest == old(manifest)
      {
        var id := ws[i];
        assert ws[..i + 1] == ws[..i] + [id];
        assert ws[..i + 1][..i] == ws[..i];
        if id !in artifacts {
          var outcome := RunEos(id);
          if outcome.Returned? {
            done := done + [id];
          }
          // a raised exception is swallowed: `id` is dropped and the loop goes on
        }
      }
      assert ws[..|ws|] == ws;
      manifest := Some(done);
      status := Completed;
      Batch.PassSubsequence(ws, existing, services);
      Batch.PassManifestNoDup(ws, existing, services);
      Batch.PassManifestHasArtifacts(ws, existing, services);
      Batch.PassArtifacts(ws, existing, services);
      Batch.PassInvoked(ws, existing, services);
      assert invoked[|calls|..] == Batch.Pass(ws, existing, services).invoked;
    }
  }

  /** The three-model scenario: configured ids modelA and modelB, reference
      modelR, modelB fails to load, nothing was computed before. One training
      run records modelA and modelR, in some order, and leaves artifacts for
      them but none for modelB. */
  lemma ModelBLoadFailureScenario(setOrder: seq<ModelId>, services: ModelId -> Service)
    requires IsEnumeration(setOrder, Elems(["modelA", "modelB"]))
    requires !services("modelB").loads
    requires services("modelA") == Service(true, Completes(true), true)
    requires services("modelR") == Service(true, Completes(true), true)
    ensures var ws := SelectWorkingSet(Train, Some(["modelA", "modelB"]), None, "modelR", setOrder);
            && ws.Success?
            && var pass := Batch.Pass(ws.value, {}, services);
            && Elems(pass.done) == {"modelA", "modelR"}
            && |pass.done| == 2
            && "modelA" in pass.artifacts && "modelR" in pass.artifacts && "modelB" !in pass.artifacts
  {
    var hub: seq<ModelId> := ["modelA", "modelB"];
    assert Elems(hub) == {"modelA", "modelB"} by {
      assert hub[0] == "modelA" && hub[1] == "modelB";
    }
    var ws := EosIds(hub, "modelR", setOrder);
    ScenarioOutcome(ws, services);
  }

  /** The scenario's pass over its working set, whatever order it has. */
  lemma ScenarioOutcome(ws: seq<ModelId>, services: ModelId -> Service)
    requires NoDup(ws) && Elems(ws) == {"modelA", "modelB", "modelR"}
    requires !services("modelB").loads
    requires services("modelA") == Service(true, Completes(true), true)
    requires services("modelR") == Service(true, Completes(true), true)
    ensures var pass := Batch.Pass(ws, {}, services);
            && Elems(pass.done) == {"modelA", "modelR"}
            && |pass.done| == 2
            && "modelA" in pass.artifacts && "modelR" in pass.artifacts && "modelB" !in pass.artifacts
  {
    Batch.PassArtifacts(ws, {}, services);
    Batch.PassManifestNoDup(ws, {}, services);
    var pass := Batch.Pass(ws, {}, services);
    forall id ensures id in Elems(pass.done) <==> id == "modelA" || id == "modelR" {
      Batch.PassManifestMembers(ws, {}, services, id);
      assert id in ws <==> id in Elems(ws);
    }
    NoDupCard(pass.done);
  }
}
