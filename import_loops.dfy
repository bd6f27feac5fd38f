/** The nested loops of `perform_import` that grow `new_scan_decisions`,
    `new_frames`, `new_scans` and `new_experiments`, and the loop that fills
    `frames_by_project`. Each is proved to compute the fold that models it
    in module Imports, so the properties proved there hold of the loops. */
module ImportLoops {
  import opened Wrappers
  import opened Entities
  import opened Dicts
  import opened Decisions
  import opened Imports

  /** The loop over a scan's decisions: each is imported in turn, the first
      failure ends the loop, and a decision with an unknown code is skipped. */
  method ScanDecisions(ctx: Ctx, docs: seq<DecisionDoc>, scan: Uid, scanPath: seq<nat>) returns (r: Result<seq<ScanDecision>, ImportError>)
    ensures r == DecisionsOf(ctx, docs, scan, scanPath)
  {
    var ds: seq<ScanDecision> := [];
    for k := 0 to |docs|
      invariant Gather(DecisionAt(ctx, scan, scanPath), docs[..k]) == Success(ds)
    {
      var d := ImportDecision(ctx, docs[k], scan, NewId(ctx.epoch, DecisionKind, scanPath + [k]));
      if d.Failure? {
        assert docs[..k + 1][..k] == docs[..k];
        GatherStick(DecisionAt(ctx, scan, scanPath), docs, k + 1);
        return Failure(d.error);
      }
      assert docs[..k + 1][..k] == docs[..k];
      if d.value.Some? {
        ds := ds + [d.value.value];
      }
    }
    assert docs[..|docs|] == docs;
    return Success(ds);
  }

  /** The loop over a scan's frames: an entry without a file location
      creates no frame. */
  method ScanFrames(frames: Dict<nat, string>, scan: Uid, epoch: nat, scanPath: seq<nat>) returns (r: seq<Frame>)
    ensures r == FramesOf(frames, scan, epoch, scanPath)
  {
    r := [];
    for k := 0 to |frames|
      invariant r == FramesOf(frames[..k], scan, epoch, scanPath)
    {
      assert frames[..k + 1][..k] == frames[..k];
      var (number, location) := frames[k];
      if location != "" {
        r := r + [Frame(NewId(epoch, FrameKind, scanPath + [k]), number, location, scan)];
      }
    }
    assert frames[..|frames|] == frames;
  }

  /** The loop over an experiment's scans: each scan's decisions, its row
      and its frames are appended to the batch. */
  method ExperimentScans(ctx: Ctx, b: Batch, project: Uid, experiment: Uid, scans: Dict<string, ScanDoc>, path: seq<nat>)
    returns (r: Result<Batch, ImportError>)
    ensures r == BuildScans(ctx, b, project, experiment, scans, path)
  {
    var acc := b;
    for k := 0 to |scans|
      invariant BuildScans(ctx, b, project, experiment, scans[..k], path) == Success(acc)
    {
      assert scans[..k + 1][..k] == scans[..k];
      var (name, doc) := scans[k];
      var id := NewId(ctx.epoch, ScanKind, path + [k]);
      var ds := ScanDecisions(ctx, EffectiveDecisions(doc), id, path + [k]);
      if ds.Failure? {
        ScansStick(ctx, b, project, experiment, scans, path, k + 1);
        return Failure(ds.error);
      }
      var fs := ScanFrames(doc.frames, id, ctx.epoch, path + [k]);
      var scan := Scan(id, name, doc.scanType, experiment, doc.subjectId, doc.sessionId, doc.scanLink);
      acc := acc.(decisions := acc.decisions + ds.value,
                  scans := acc.scans + [scan],
                  frames := acc.frames + WithProject(fs, project));
    }
    assert scans[..|scans|] == scans;
    return Success(acc);
  }

  /** The loop over a project's experiments: each experiment's row, then
      its scans. */
  method ProjectExperiments(ctx: Ctx, b: Batch, project: Uid, experiments: Dict<string, ExperimentDoc>, path: seq<nat>)
    returns (r: Result<Batch, ImportError>)
    ensures r == BuildExperiments(ctx, b, project, experiments, path)
  {
    var acc := b;
    for k := 0 to |experiments|
      invariant BuildExperiments(ctx, b, project, experiments[..k], path) == Success(acc)
    {
      assert experiments[..k + 1][..k] == experiments[..k];
      var (name, doc) := experiments[k];
      var e := Experiment(NewId(ctx.epoch, ExperimentKind, path + [k]), name, doc.notes, project, None);
      var built := ExperimentScans(ctx, acc.(experiments := acc.experiments + [e]), project, e.id, doc.scans, path + [k]);
      if built.Failure? {
        ExperimentsStick(ctx, b, project, experiments, path, k + 1);
        return built;
      }
      acc := built.value;
    }
    assert experiments[..|experiments|] == experiments;
    return Success(acc);
  }

  /** The loop that fills `frames_by_project` from the new frames. */
  method GroupByProject(frames: seq<NewFrame>) returns (r: Dict<Uid, seq<Uid>>)
    ensures r == FramesByProject(frames)
  {
    ghost var pairs := FramePairs(frames);
    r := [];
    for i := 0 to |frames|
      invariant r == Collect(pairs[..i])
    {
      assert pairs[..i + 1][..i] == pairs[..i];
      r := Append(r, frames[i].project, frames[i].frame.id);
    }
    assert pairs[..|frames|] == pairs;
  }
}
