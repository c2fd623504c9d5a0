/**
 * The per-id loop of `RawDescriptors.run` as a function of its inputs: the
 * working set, the ids that already have an output artifact, and what the
 * model service does for each id. The class in module Raw runs this loop
 * imperatively and is proved equal to `Pass`.
 */
module Batch {
  import opened Seqs
  import opened Gateway

  /** `RawDescriptors._run_eos`: construct the model artifact, run it, then
      derive the summary table from the output file, which fails when the run
      left no file. */
  function RunEos(id: ModelId, service: Service): (r: RunReport)
    ensures r.outcome.Returned? <==>
              service.loads && service.execution.Completes? && service.execution.wroteOutput && service.summarises
    ensures r.outcome.Returned? ==> r.wroteOutput
    ensures !service.loads ==> r == RunReport(Raised(NoModel), false)
    ensures r.wroteOutput <==> service.loads && service.execution.wroteOutput
  {
    var report := NewModelArtifact(id, service).Run();
    if report.outcome.Raised? then report
    else if report.wroteOutput && service.summarises then report
    else RunReport(Raised(SummaryFailed), report.wroteOutput)
  }

  /** `_run_eos(id)` returns without raising. */
  predicate Succeeds(id: ModelId, services: ModelId -> Service)
  {
    RunEos(id, services(id)).outcome.Returned?
  }

  /** `_run_eos(id)` leaves an artifact at the id's output path, whether or not it raises. */
  predicate LeavesOutput(id: ModelId, services: ModelId -> Service)
  {
    RunEos(id, services(id)).wroteOutput
  }

  /** The loop's state: the in-memory `done_eos` list, the ids whose output
      artifact exists, and the ids `_run_eos` was called for, in call order. */
  datatype PassState = PassState(done: seq<ModelId>, artifacts: set<ModelId>, invoked: seq<ModelId>)

  /** One iteration for `id`: skipped when its artifact exists; otherwise
      `_run_eos` is called, any exception is swallowed, and `id` is recorded
      only when the call returned. */
  function Step(st: PassState, id: ModelId, services: ModelId -> Service): (next: PassState)
    ensures id in st.artifacts ==> next == st
    ensures id !in st.artifacts ==> next.invoked == st.invoked + [id]
    ensures next.done == st.done || (next.done == st.done + [id] && id !in st.artifacts && id in next.artifacts)
    ensures st.artifacts <= next.artifacts <= st.artifacts + {id}
  {
    if id in st.artifacts then st
    else
      var r := RunEos(id, services(id));
      PassState(if r.outcome.Returned? then st.done + [id] else st.done,
                if r.wroteOutput then st.artifacts + {id} else st.artifacts,
                st.invoked + [id])
  }

  /** The loop over the working set `ws`, starting from the artifacts `existing`. */
  function Pass(ws: seq<ModelId>, existing: set<ModelId>, services: ModelId -> Service): (final: PassState)
    ensures existing <= final.artifacts
    ensures |final.done| <= |final.invoked| <= |ws|
  {
    if ws == [] then PassState([], existing, [])
    else Step(Pass(ws[..|ws| - 1], existing, services), ws[|ws| - 1], services)
  }

  /** The ids of `ws` whose `_run_eos` returns, in the order of `ws`. */
  function Successes(ws: seq<ModelId>, services: ModelId -> Service): (ok: seq<ModelId>)
  {
    if ws == [] then []
    else Successes(ws[..|ws| - 1], services) + (if Succeeds(ws[|ws| - 1], services) then [ws[|ws| - 1]] else [])
  }

  /** The ids of `ws` for which `_run_eos` leaves an artifact. */
  function Outputs(ws: seq<ModelId>, services: ModelId -> Service): (written: set<ModelId>)
  {
    set id | id in ws && LeavesOutput(id, services)
  }

  // ---------------------------------------------------------------------------
  // What the loop writes to disk

  /** An artifact exists after the loop exactly when it existed before, or some
      call for that id left one behind; artifacts are never removed. */
  lemma {:induction false} PassArtifacts(ws: seq<ModelId>, existing: set<ModelId>, services: ModelId -> Service)
    ensures Pass(ws, existing, services).artifacts == existing + Outputs(ws, services)
  {
    if ws != [] {
      var init, id := ws[..|ws| - 1], ws[|ws| - 1];
      assert ws == init + [id];
      PassArtifacts(init, existing, services);
      assert Outputs(ws, services) == Outputs(init, services) + (if LeavesOutput(id, services) then {id} else {});
    }
  }

  /** Every id on the manifest has an artifact at its path. */
  lemma {:induction false} PassManifestHasArtifacts(ws: seq<ModelId>, existing: set<ModelId>, services: ModelId -> Service)
    ensures Elems(Pass(ws, existing, services).done) <= Pass(ws, existing, services).artifacts
  {
    if ws != [] {
      PassManifestHasArtifacts(ws[..|ws| - 1], existing, services);
    }
  }

  // ---------------------------------------------------------------------------
  // What the manifest holds

  /** The manifest is an order-preserving subsequence of the working set. */
  lemma {:induction false} PassSubsequence(ws: seq<ModelId>, existing: set<ModelId>, services: ModelId -> Service)
    ensures IsSubsequence(Pass(ws, existing, services).done, ws)
  {
    if ws == [] {
      SubsequenceOfEmpty<ModelId>();
    } else {
      var init, id := ws[..|ws| - 1], ws[|ws| - 1];
      assert ws == init + [id];
      var before := Pass(init, existing, services);
      PassSubsequence(init, existing, services);
      SubsequenceExtend(before.done, init, id, id !in before.artifacts && Succeeds(id, services));
    }
  }

  /** An id is on the manifest exactly when it is in the working set, had no
      artifact before the loop, and its `_run_eos` returns. In particular an id
      whose artifact already existed is never recorded. */
  lemma {:induction false} PassManifestMembers(ws: seq<ModelId>, existing: set<ModelId>, services: ModelId -> Service, id: ModelId)
    ensures id in Pass(ws, existing, services).done <==> id in ws && id !in existing && Succeeds(id, services)
  {
    if ws != [] {
      var init, last := ws[..|ws| - 1], ws[|ws| - 1];
      assert ws == init + [last];
      PassManifestMembers(init, existing, services, id);
      PassArtifacts(init, existing, services);
    }
  }

  /** The manifest never lists an id twice, even when the working set does. */
  lemma {:induction false} PassManifestNoDup(ws: seq<ModelId>, existing: set<ModelId>, services: ModelId -> Service)
    ensures NoDup(Pass(ws, existing, services).done)
  {
    if ws != [] {
      var init, id := ws[..|ws| - 1], ws[|ws| - 1];
      var before := Pass(init, existing, services);
      PassManifestNoDup(init, existing, services);
      PassManifestHasArtifacts(init, existing, services);
      if id !in before.artifacts {
        NoDupAppend(before.done, id);
      }
    }
  }

  // ---------------------------------------------------------------------------
  // Which models are invoked

  /** `_run_eos` is called for exactly the ids of the working set that had no
      artifact before the loop; an id with an existing artifact is never invoked. */
  lemma {:induction false} PassInvoked(ws: seq<ModelId>, existing: set<ModelId>, services: ModelId -> Service)
    ensures Elems(Pass(ws, existing, services).invoked) == Elems(ws) - existing
  {
    if ws != [] {
      var init, id := ws[..|ws| - 1], ws[|ws| - 1];
      assert ws == init + [id];
      var before := Pass(init, existing, services);
      PassInvoked(init, existing, services);
      PassArtifacts(init, existing, services);
      assert Elems(ws) == Elems(init) + {id};
      if id !in before.artifacts {
        assert Elems(before.invoked + [id]) == Elems(before.invoked) + {id};
      }
    }
  }

  /** With a duplicate-free working set none of whose ids has an artifact yet,
      every id is invoked once, in order, and the manifest lists the ids whose
      `_run_eos` returns, in working-set order. */
  lemma {:induction false} PassFresh(ws: seq<ModelId>, existing: set<ModelId>, services: ModelId -> Service)
    requires NoDup(ws)
    requires Elems(ws) !! existing
    ensures Pass(ws, existing, services).invoked == ws
    ensures Pass(ws, existing, services).done == Successes(ws, services)
  {
    if ws != [] {
      var init, id := ws[..|ws| - 1], ws[|ws| - 1];
      assert ws == init + [id];
      assert Elems(init) <= Elems(ws);
      PassFresh(init, existing, services);
      PassArtifacts(init, existing, services);
      assert id !in init;
    }
  }

  lemma {:induction false} SuccessesAll(ws: seq<ModelId>, services: ModelId -> Service)
    requires forall i :: 0 <= i < |ws| ==> Succeeds(ws[i], services)
    ensures Successes(ws, services) == ws
  {
    if ws != [] {
      SuccessesAll(ws[..|ws| - 1], services);
    }
  }

  lemma {:induction false} SuccessesAllBut(ws: seq<ModelId>, services: ModelId -> Service, m: ModelId)
    requires !Succeeds(m, services)
    requires forall i :: 0 <= i < |ws| && ws[i] != m ==> Succeeds(ws[i], services)
    ensures Successes(ws, services) == Without(ws, m)
  {
    if ws != [] {
      SuccessesAllBut(ws[..|ws| - 1], services, m);
    }
  }

  /** No artifacts beforehand and every id succeeds: the manifest is the working set, in order. */
  lemma AllSucceed(ws: seq<ModelId>, existing: set<ModelId>, services: ModelId -> Service)
    requires NoDup(ws)
    requires Elems(ws) !! existing
    requires forall i :: 0 <= i < |ws| ==> Succeeds(ws[i], services)
    ensures Pass(ws, existing, services).done == ws
  {
    PassFresh(ws, existing, services);
    SuccessesAll(ws, services);
  }

  /** No artifacts beforehand and exactly one id `m` fails: the manifest is the
      working set without `m`, in order, one entry shorter. */
  lemma OneFailure(ws: seq<ModelId>, existing: set<ModelId>, services: ModelId -> Service, m: ModelId)
    requires NoDup(ws)
    requires Elems(ws) !! existing
    requires m in ws && !Succeeds(m, services)
    requires forall i :: 0 <= i < |ws| && ws[i] != m ==> Succeeds(ws[i], services)
    ensures Pass(ws, existing, services).done == Without(ws, m)
    ensures |Pass(ws, existing, services).done| == |ws| - 1
  {
    PassFresh(ws, existing, services);
    SuccessesAllBut(ws, services, m);
    WithoutLength(ws, m);
  }

  // ---------------------------------------------------------------------------
  // Failure isolation

  /** One iteration for `id` keeps two states whose artifacts agree away from `m` in agreement. */
  lemma StepIsolationArtifacts(st1: PassState, st2: PassState, id: ModelId,
                               services1: ModelId -> Service, services2: ModelId -> Service, m: ModelId)
    requires st1.artifacts - {m} == st2.artifacts - {m}
    requires id != m ==> services1(id) == services2(id)
    ensures Step(st1, id, services1).artifacts - {m} == Step(st2, id, services2).artifacts - {m}
  {
    var q1, q2 := Step(st1, id, services1), Step(st2, id, services2);
    if id == m {
      assert q1.artifacts - {m} == st1.artifacts - {m};
      assert q2.artifacts - {m} == st2.artifacts - {m};
    } else {
      assert (id in st1.artifacts) == (id in st1.artifacts - {m}) == (id in st2.artifacts - {m}) == (id in st2.artifacts);
      if id !in st1.artifacts && RunEos(id, services1(id)).wroteOutput {
        assert q1.artifacts - {m} == (st1.artifacts - {m}) + {id};
        assert q2.artifacts - {m} == (st2.artifacts - {m}) + {id};
      }
    }
  }

  /** One iteration for `id` keeps two states that agree away from `m` in agreement
      about the ids other than `m` they record. */
  lemma StepIsolationManifest(st1: PassState, st2: PassState, id: ModelId,
                              services1: ModelId -> Service, services2: ModelId -> Service, m: ModelId)
    requires st1.artifacts - {m} == st2.artifacts - {m}
    requires Without(st1.done, m) == Without(st2.done, m)
    requires id != m ==> services1(id) == services2(id)
    ensures Without(Step(st1, id, services1).done, m) == Without(Step(st2, id, services2).done, m)
  {
    var q1, q2 := Step(st1, id, services1), Step(st2, id, services2);
    if q1.done != st1.done {
      assert q1.done == st1.done + [id];
      WithoutAppend(st1.done, m, id);
    }
    if q2.done != st2.done {
      assert q2.done == st2.done + [id];
      WithoutAppend(st2.done, m, id);
    }
    if id != m {
      assert (id in st1.artifacts) == (id in st1.artifacts - {m}) == (id in st2.artifacts - {m}) == (id in st2.artifacts);
    }
  }

  /** What happens for one id `m` does not affect any other id: two passes whose
      services and prior artifacts differ only at `m` record the same other ids,
      in the same order, and leave the same other artifacts. */
  lemma {:induction false} PassIsolation(ws: seq<ModelId>, existing1: set<ModelId>, existing2: set<ModelId>,
                                         services1: ModelId -> Service, services2: ModelId -> Service, m: ModelId)
    requires existing1 - {m} == existing2 - {m}
    requires forall id :: id != m ==> services1(id) == services2(id)
    ensures Without(Pass(ws, existing1, services1).done, m) == Without(Pass(ws, existing2, services2).done, m)
    ensures Pass(ws, existing1, services1).artifacts - {m} == Pass(ws, existing2, services2).artifacts - {m}
  {
    if ws != [] {
      var init, id := ws[..|ws| - 1], ws[|ws| - 1];
      PassIsolation(init, existing1, existing2, services1, services2, m);
      var p1, p2 := Pass(init, existing1, services1), Pass(init, existing2, services2);
      StepIsolationArtifacts(p1, p2, id, services1, services2, m);
      StepIsolationManifest(p1, p2, id, services1, services2, m);
    }
  }

  // ---------------------------------------------------------------------------
  // Re-running the batch over the same output directory

  /** A second pass over the artifacts the first one left, iterating any
      working set `ws2` drawn from the same ids (a new process re-enumerates
      `set(hub)` in its own order), invokes only ids that failed in the first
      pass without leaving an artifact. An id that succeeded, or left a partial
      artifact, is never run again, and only ids of that kind can be on the
      second manifest. */
  lemma RerunInvokesOnlyFailuresWithoutOutput(ws: seq<ModelId>, ws2: seq<ModelId>, existing: set<ModelId>,
                                               services: ModelId -> Service, services2: ModelId -> Service)
    requires Elems(ws2) <= Elems(ws)
    ensures var first := Pass(ws, existing, services);
            var second := Pass(ws2, first.artifacts, services2);
            Elems(second.invoked) == Elems(ws2) - existing - Outputs(ws, services) &&
            Elems(second.done) <= Elems(second.invoked)
  {
    var first := Pass(ws, existing, services);
    var second := Pass(ws2, first.artifacts, services2);
    PassArtifacts(ws, existing, services);
    PassInvoked(ws2, first.artifacts, services2);
    assert Elems(ws2) - first.artifacts == Elems(ws2) - existing - Outputs(ws, services);
    forall id | id in Elems(second.done) ensures id in Elems(second.invoked) {
      PassManifestMembers(ws2, first.artifacts, services2, id);
    }
  }

  /** With the same services, a second pass over any working set `ws2` drawn
      from the same ids writes an empty manifest; when every id of `ws2` had or
      left an artifact, it invokes no model at all. */
  lemma RerunWritesEmptyManifest(ws: seq<ModelId>, ws2: seq<ModelId>, existing: set<ModelId>,
                                 services: ModelId -> Service)
    requires Elems(ws2) <= Elems(ws)
    ensures var first := Pass(ws, existing, services);
            Pass(ws2, first.artifacts, services).done == []
    ensures Elems(ws2) <= Pass(ws, existing, services).artifacts ==>
              Pass(ws2, Pass(ws, existing, services).artifacts, services).invoked == []
  {
    var first := Pass(ws, existing, services);
    var second := Pass(ws2, first.artifacts, services);
    PassArtifacts(ws, existing, services);
    PassInvoked(ws2, first.artifacts, services);
    forall id | id in Elems(second.done) ensures false {
      PassManifestMembers(ws2, first.artifacts, services, id);
      assert id in Elems(ws) && LeavesOutput(id, services);
    }
    ElemsEmpty(second.done);
    if Elems(ws2) <= first.artifacts {
      ElemsEmpty(second.invoked);
    }
  }
}
