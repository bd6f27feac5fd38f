/** The nested loops of `perform_export`, which fill the `data` dictionary
    key by key. Each is proved to compute the walk that models it in module
    Exports, so the round trips and naming facts proved there hold of the
    loops. */
module ExportLoops {
  import opened Wrappers
  import opened Entities
  import opened Dicts
  import opened Decisions
  import opened Projects
  import opened Records
  import opened Imports
  import opened Exports
  import Seqs

  /** `scan_data['frames'][frame_number] = ...` for each frame in turn. */
  method WriteFrames(frames: seq<Frame>) returns (r: Dict<nat, string>)
    ensures r == FramesDoc(frames)
  {
    ghost var entries := FrameEntries(frames);
    r := [];
    for i := 0 to |frames|
      invariant r == FromPairs(entries[..i])
    {
      assert entries[..i + 1][..i] == entries[..i];
      r := Set(r, frames[i].frameNumber, frames[i].rawPath);
    }
    assert entries[..|frames|] == entries;
  }

  /** `scan_data['decisions'].append(...)` for each decision in turn. */
  method WriteDecisions(users: seq<User>, ds: seq<ScanDecision>, render: int -> string) returns (r: Result<seq<DecisionDoc>, ExportError>)
    ensures r == ExportDecisions(users, ds, render)
  {
    var docs: seq<DecisionDoc> := [];
    for i := 0 to |ds|
      invariant ExportDecisions(users, ds[..i], render) == Success(docs)
    {
      assert ds[..i + 1][..i] == ds[..i];
      var doc := ExportDecision(users, ds[i], render);
      if doc.Failure? {
        DecisionsExportStick(users, ds, render, i + 1);
        return Failure(doc.error);
      }
      docs := docs + [doc.value];
    }
    assert ds[..|ds|] == ds;
    return Success(docs);
  }

  /** One scan's entry: its fields, its frames and its decisions. */
  method WriteScan(db: Db, s: Scan, render: int -> string) returns (r: Result<ScanDoc, ExportError>)
    ensures r == ExportScan(db, s, render)
  {
    var frames := WriteFrames(Seqs.Filter(db.frames, FrameOf(s.id)));
    var docs := WriteDecisions(db.users, Ordered(Seqs.Filter(db.decisions, DecisionOf(s.id))), render);
    if docs.Failure? {
      return Failure(docs.error);
    }
    return Success(ScanDoc(s.scanType, s.subjectId, s.sessionId, s.scanLink, docs.value, None, frames));
  }

  /** `experiment_data['scans'][scan.name] = ...` for each scan in turn. */
  method WriteScans(db: Db, scans: seq<Scan>, render: int -> string) returns (r: Result<Dict<string, ScanDoc>, ExportError>)
    ensures r == ExportScans(db, scans, render)
  {
    var data: Dict<string, ScanDoc> := [];
    ghost var entries: seq<(string, ScanDoc)> := [];
    for i := 0 to |scans|
      invariant Entries(ScanExport(db, render), ScanName(), scans[..i]) == Success(entries)
      invariant data == FromPairs(entries)
    {
      var doc := WriteScan(db, scans[i], render);
      if doc.Failure? {
        assert scans[..i + 1][..i] == scans[..i];
        EntriesStick(ScanExport(db, render), ScanName(), scans, i + 1);
        ScansAsEntries(db, scans, render);
        return Failure(doc.error);
      }
      EntriesSnoc(ScanExport(db, render), ScanName(), scans, i, entries, doc.value);
      FromPairsSnoc(entries, scans[i].name, doc.value);
      data := Set(data, scans[i].name, doc.value);
      entries := entries + [(scans[i].name, doc.value)];
    }
    assert scans[..|scans|] == scans;
    ScansAsEntries(db, scans, render);
    return Success(data);
  }

  /** One experiment's entry: its note and its scans. */
  method WriteExperiment(db: Db, e: Experiment, render: int -> string) returns (r: Result<ExperimentDoc, ExportError>)
    ensures r == ExportExperiment(db, e, render)
  {
    var scans := WriteScans(db, Seqs.Filter(db.scans, ScanOf(e.id)), render);
    if scans.Failure? {
      return Failure(scans.error);
    }
    return Success(ExperimentDoc(e.note, scans.value));
  }

  /** `project_data['experiments'][experiment.name] = ...` for each
      experiment in turn. */
  method WriteExperiments(db: Db, exps: seq<Experiment>, render: int -> string) returns (r: Result<Dict<string, ExperimentDoc>, ExportError>)
    ensures r == ExportExperiments(db, exps, render)
  {
    var data: Dict<string, ExperimentDoc> := [];
    ghost var entries: seq<(string, ExperimentDoc)> := [];
    for i := 0 to |exps|
      invariant Entries(ExperimentExport(db, render), ExperimentName(), exps[..i]) == Success(entries)
      invariant data == FromPairs(entries)
    {
      var doc := WriteExperiment(db, exps[i], render);
      if doc.Failure? {
        assert exps[..i + 1][..i] == exps[..i];
        EntriesStick(ExperimentExport(db, render), ExperimentName(), exps, i + 1);
        ExperimentsAsEntries(db, exps, render);
        return Failure(doc.error);
      }
      EntriesSnoc(ExperimentExport(db, render), ExperimentName(), exps, i, entries, doc.value);
      FromPairsSnoc(entries, exps[i].name, doc.value);
      data := Set(data, exps[i].name, doc.value);
      entries := entries + [(exps[i].name, doc.value)];
    }
    assert exps[..|exps|] == exps;
    ExperimentsAsEntries(db, exps, render);
    return Success(data);
  }

  /** One project's entry: its experiments. */
  method WriteProject(db: Db, p: Project, render: int -> string) returns (r: Result<ProjectDoc, ExportError>)
    ensures r == ExportProject(db, p, render)
  {
    var exps := WriteExperiments(db, Seqs.Filter(db.experiments, ExperimentOf(p.id)), render);
    if exps.Failure? {
      return Failure(exps.error);
    }
    return Success(ProjectDoc(exps.value));
  }

  /** `data['projects'][project.name] = ...` for each project in turn. */
  method WriteProjects(db: Db, ps: seq<Project>, render: int -> string) returns (r: Result<Dict<string, ProjectDoc>, ExportError>)
    ensures r == ExportProjects(db, ps, render)
  {
    var data: Dict<string, ProjectDoc> := [];
    ghost var entries: seq<(string, ProjectDoc)> := [];
    for i := 0 to |ps|
      invariant Entries(ProjectExport(db, render), ProjectName(), ps[..i]) == Success(entries)
      invariant data == FromPairs(entries)
    {
      var doc := WriteProject(db, ps[i], render);
      if doc.Failure? {
        assert ps[..i + 1][..i] == ps[..i];
        EntriesStick(ProjectExport(db, render), ProjectName(), ps, i + 1);
        ProjectsAsEntries(db, ps, render);
        return Failure(doc.error);
      }
      EntriesSnoc(ProjectExport(db, render), ProjectName(), ps, i, entries, doc.value);
      FromPairsSnoc(entries, ps[i].name, doc.value);
      data := Set(data, ps[i].name, doc.value);
      entries := entries + [(ps[i].name, doc.value)];
    }
    assert ps[..|ps|] == ps;
    ProjectsAsEntries(db, ps, render);
    return Success(data);
  }

  /** `perform_export`, up to the document it validates and writes. */
  method Export(db: Db, project: Option<Uid>, render: int -> string) returns (r: Result<ImportDoc, ExportError>)
    ensures r == PerformExport(db, project, render)
  {
    var ps: seq<Project>;
    if project.None? {
      ps := db.projects;
    } else {
      var found := FindProject(db, project.value);
      if found.None? {
        return Failure(NoSuchProject(project.value));
      }
      ps := [found.value];
    }
    var data := WriteProjects(db, ps, render);
    if data.Failure? {
      return Failure(data.error);
    }
    return Success(ImportDoc(data.value));
  }
}
