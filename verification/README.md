# Raw descriptor batch orchestrator

A Dafny model of `RawDescriptors` in `raw.py`. This component computes raw
molecular descriptors by running one external Ersilia model per descriptor id.
It does four things:

- It chooses the working set of ids. In a training run, this is the configured
  `ersilia_hub` ids with duplicates collapsed, plus the reference descriptor. In
  a prediction run, it is the list in the trained run's `done_eos.json`.
- It skips every id whose output artifact already exists.
- It runs every other id through `ModelArtifact`. Any exception is swallowed, so
  one failing model never stops the batch.
- It overwrites the current output directory's `done_eos.json` with the ids that
  completed during this run.

Files:

- `wrappers.dfy`: Option and Result.
- `seqs.dfy`: facts about sequences. These cover duplicates, element sets,
  subsequences (stated with a selection mask) and removing an element.
- `gateway.dfy`: `ModelArtifact`. A failed load leaves no model, and a later run
  of that artifact fails before it writes any output. How a model behaves is
  given by a `Service` value: whether it loads, whether its execution returns or
  raises, whether it wrote an output file either way, and whether a summary
  table can be derived from that file. The summary step is assumed to raise
  when the file is missing (see "Left out"), so a run that returns without
  writing its file is not recorded.
- `batch.dfy`: the per-id loop as a pure function `Pass` over the working set,
  the ids with existing artifacts and the services, plus the lemmas about it.
- `raw.dfy`: working-set selection and the class `RawDescriptors`. Its fields
  are the set of ids with artifacts and the manifest. Its `Run` method runs the
  loop imperatively and is proved equal to `Batch.Pass`.

Inputs that come from the environment are parameters:

- `mode`: the ambient train/predict context.
- `hub`: `params["ersilia_hub"]`, or None when that key is missing.
- `trainedManifest`: the trained run's `done_eos.json`, or None when it cannot
  be read.
- `reference`: `REFERENCE_DESCRIPTOR`, whose value is defined in
  `zairabase.vars`. That file is not part of this model.
- `services`: the model service's behaviour for each id.
- `setOrder`: the order in which Python iterates `set(hub)`. It is unspecified,
  so the model takes it as any duplicate-free listing of the configured ids.

`run` also overwrites the current output directory's `done_eos.json` in a
prediction run (raw.py:102-105), so `Run` writes the manifest in both modes.

## Model

| member | source | states |
|---|---|---|
| Gateway.NewModelArtifact | raw.py:21-37 | Constructing the artifact never fails. It has a model exactly when loading succeeds; a load failure leaves `model` as None. |
| Gateway.ModelArtifact.Run | raw.py:39-45 | With no model, the run fails at once (at `serve`) with the no-model error and leaves no output. Otherwise it returns exactly when the execution completes, raises the execution error otherwise, and leaves output exactly when the execution wrote it; returning does not imply the output exists. |
| Batch.RunEos | raw.py:82-86 | `_run_eos` returns exactly when the model loads, executes completely, wrote its output file and the summary can be derived from it. Success therefore implies the artifact exists. A load failure is reported as the no-model failure with no artifact. An artifact exists afterwards exactly when the model loaded and its execution wrote the file, whether or not it then raised. |
| Batch.Step | raw.py:95-100 | One iteration: an id with an artifact is skipped and changes nothing. Otherwise `_run_eos` is called once, and the id is recorded only if its artifact now exists and it had none before. The only artifact that can appear is the id's own, and none disappears. |
| Batch.Pass | raw.py:94-100 | The loop over the working set never removes an artifact. It records at most as many ids as it makes calls, and makes at most one call per working-set entry. |
| Batch.PassArtifacts | raw.py:94-97 | After the loop, the artifacts are the earlier ones plus those of ids whose call left output. None are ever removed. |
| Batch.PassManifestHasArtifacts | raw.py:94-98 | Every id recorded in `done_eos` has an artifact at its path when the manifest is written. |
| Batch.PassSubsequence | raw.py:94-98 | The manifest is an order-preserving subsequence of the working set. |
| Batch.PassManifestMembers | raw.py:94-100 | An id is on the manifest if and only if it is in the working set, had no artifact at the start and its `_run_eos` returns. An id whose artifact already existed is never recorded, even though the artifact exists. |
| Batch.PassManifestNoDup | raw.py:94-98 | The manifest has no duplicates, even when the working set does, as a prediction-run list may. |
| Batch.PassInvoked | raw.py:94-97 | `_run_eos` is called for exactly the ids of the working set that had no artifact at the start. Ids whose artifact exists are never invoked. |
| Batch.PassFresh | raw.py:94-98 | For a duplicate-free working set with no prior artifacts: every id is invoked once, in order, and the manifest is the successful ids in working-set order. |
| Batch.AllSucceed | raw.py:94-98 | With no prior artifacts and every id succeeding, the manifest equals the working set in iteration order. |
| Batch.OneFailure | raw.py:94-100 | With no prior artifacts and exactly one failing id, the manifest is the working set without that id, one entry shorter. |
| Batch.StepIsolationArtifacts | raw.py:95-97 | One iteration keeps two states whose artifacts agree away from an id `m` in that agreement, when their services agree away from `m`. |
| Batch.StepIsolationManifest | raw.py:95-100 | One iteration keeps two states whose recorded ids other than `m` agree in that agreement. |
| Batch.PassIsolation | raw.py:94-100 | Changing what happens for one id `m` (its service or its prior artifact) changes neither the other ids recorded, nor their order, nor their artifacts. A failure is absorbed without affecting the remaining ids. |
| Batch.RerunInvokesOnlyFailuresWithoutOutput | raw.py:94-97 | A second run over the first run's artifacts, iterating any working set drawn from the same ids and in any order (as a new process re-enumerating `set(hub)` at raw.py:67 does), invokes exactly its ids that had no prior artifact and left none. Only those can be recorded. |
| Batch.RerunWritesEmptyManifest | raw.py:94-105 | With the same services, a second run over any working set drawn from the same ids, in any order, writes an empty manifest. When every id of it has an artifact after the first run, it invokes no model at all. |
| Raw.EosIds | raw.py:66-70 | The training working set has no duplicates. Its elements are the configured ids plus the reference. The reference occurs exactly once, whether the configuration lists it zero, one or several times. It starts with the set's iteration order, and the reference is appended only when missing. |
| Raw.SelectWorkingSet | raw.py:88-93 | In prediction, the working set is exactly the trained manifest (`done_eos_ids`, raw.py:72-75), and a missing file is an error. The hub is not consulted. In training, it is `eos_ids()`, and a missing `ersilia_hub` key is an error. |
| Raw.RawDescriptors.constructor | raw.py:52-59 | The context, parameters, trained manifest, reference and services are fixed. The output directory's artifacts and manifest are as given. |
| Raw.RawDescriptors.RunEos | raw.py:82-86 | Calls `_run_eos`, records the call, and adds the id's artifact exactly when the call leaves output. It reports the call's outcome. |
| Raw.RawDescriptors.Run | raw.py:88-105 | A configuration error escapes and nothing changes. Otherwise `run` completes without raising (a failure to write the manifest file is not modelled; see "Left out"), overwrites the manifest with `Batch.Pass`'s list and leaves `Batch.Pass`'s artifacts. The manifest is then a duplicate-free subsequence of the working set whose ids all have artifacts. No artifact is removed. Exactly the working-set ids without prior artifacts are invoked. |
| Raw.ModelBLoadFailureScenario | raw.py:88-105 | Configured modelA and modelB, reference modelR, and modelB fails to load: one training run records exactly modelA and modelR (two entries, in either order). It leaves artifacts for those two and none for modelB. |
| Raw.ScenarioOutcome | raw.py:94-105 | The same outcome for any duplicate-free order of the three ids. |

## Left out

- Ersilia model serving, docker pulls, and the internals of `serve`, `run`, `close` and `info` (raw.py:30-49) are outside the model. Their combined effect for an id is the `Service` value, which is fixed per id: calling the same id twice in one run behaves the same both times.
- Batch.PassIsolation: a run that raises after `serve()` skips `close()` (raw.py:40-45), so that model may stay served while the next id runs. The model does not capture this: the `Service` value of an id is assumed independent of the ids run before it. `PassIsolation` and "a failure does not affect the remaining ids" rely on this assumption.
- `ModelArtifact.info` is not modelled; it only forwards to the external model.
- The pandas CSV read and the `smiles`/`bin` projection are not modelled. This includes the temporary path built without a separator (raw.py:41-43). Any failure there is an aborted execution.
- The HDF5 store and `save_summary_as_csv` are not modelled (raw.py:19, raw.py:86). `Hdf5` comes from `zairabase.utils.matrices`, which is not part of this model.
- Batch.RunEos: `save_summary_as_csv` is assumed to raise when the output file is missing. So `_run_eos` fails with the summary error when the run left no file, whatever `summarises` says. When the file exists, the `summarises` flag decides. "Every recorded id has an artifact" (`Batch.PassManifestHasArtifacts`, `Raw.RawDescriptors.Run`) relies on this assumption.
- `RawLoader` (raw.py:12-19) is not modelled; it only opens a file.
- The logger is not modelled.
- JSON reading and writing, `os.path.join`, and the `os.makedirs` in `output_h5_filename` are not modelled. Each id is assumed to have its own artifact path. The configured hub and the trained manifest are assumed to be lists of strings.
- A failure while writing the manifest, and a failure to read the parameter file in the constructor, are not modelled; both are file I/O.
- Raw.RawDescriptors.Run: the only `os.makedirs` is in `output_h5_filename` (raw.py:79), which runs only when some id is attempted. When no id is attempted, for instance in a prediction run whose trained manifest is empty, the `descriptors` directory may not exist. Opening `done_eos.json` for writing (raw.py:102-103) then raises, unless something outside this file created the directory. The model always writes the manifest.
- The `ZairaBase` ambient context (output directory, `is_predict`, trained directory) is replaced by explicit fields. The value of `REFERENCE_DESCRIPTOR` is a constructor parameter.
