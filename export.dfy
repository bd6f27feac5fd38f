/** `perform_export`: the walk from the rows back to the nested document the
    import reads. Every project (or the one asked for) becomes a name-keyed
    entry; under it the experiments, their scans, each scan's frames by frame
    number and its decisions newest first. A decision's location is written
    `i=..;j=..;k=..`, its artifacts as the `;`-joined names whose value is 1,
    its creator as a username and its time through `render`. Writing the
    document to a file is not modelled. */
module Exports {
  import opened Wrappers
  import opened Entities
  import opened Dicts
  import opened Decisions
  import opened Projects
  import opened Records
  import Text
  import Seqs
  import opened Imports

  datatype ExportError =
    | NoSuchProject(id: Uid)     // Project.DoesNotExist for the requested id
    | MissingAxis                // a non-empty location without `i`, `j` or `k`
    | DanglingCreator(id: Uid)   // a creator key with no user row

  /* ---------------------------------------------------------- decisions */

  /** A non-empty location written as `i=..;j=..;k=..`; an empty one becomes
      null, and one lacking an axis is a KeyError. */
  function FormatLocation(loc: Location): (r: Result<Option<string>, ExportError>)
    ensures r == Success(None) <==> loc == []
    ensures r.Failure? <==> loc != [] && (Get(loc, "i").None? || Get(loc, "j").None? || Get(loc, "k").None?)
  {
    if loc == [] then Success(None)
    else
      match (Get(loc, "i"), Get(loc, "j"), Get(loc, "k"))
      case (Some(i), Some(j), Some(k)) => Success(Some("i=" + i + ";j=" + j + ";k=" + k))
      case _ => Failure(MissingAxis)
  }

  function ValueIsOne(): ((string, int)) -> bool {
    (e: (string, int)) => e.1 == 1
  }

  /** The names whose value is exactly 1, in map order. */
  function PresentNames(m: ArtifactMap): (r: seq<string>)
    ensures |r| <= |m|
    ensures forall n :: n in r <==> (n, StateValue(Present)) in m
    decreases |m|
  {
    if m == [] then []
    else
      var n := |m| - 1;
      assert m == m[..n] + [m[n]];
      PresentNames(m[..n]) + (if m[n].1 == 1 then [m[n].0] else [])
  }

  /** The present names keep the map's order: they are the keys of the
      entries whose value is 1, in the order the comprehension visits them. */
  lemma {:induction false} PresentNamesInOrder(m: ArtifactMap)
    ensures PresentNames(m) == Keys(Seqs.Filter(m, ValueIsOne()))
    decreases |m|
  {
    if m != [] {
      var n := |m| - 1;
      PresentNamesInOrder(m[..n]);
      var kept := Seqs.Filter(m[..n], ValueIsOne());
      assert Keys(kept + [m[n]]) == Keys(kept) + [m[n].0];
    }
  }

  /** The exported `user_identified_artifacts`: the present names joined by
      `;`, or null when that text is empty. */
  function ExportedArtifacts(m: ArtifactMap): (r: Option<string>)
    ensures r.None? <==> Text.Join(PresentNames(m), ';') == ""
    ensures r.Some? ==> r.value == Text.Join(PresentNames(m), ';')
  {
    var joined := Text.Join(PresentNames(m), ';');
    if |joined| > 0 then Some(joined) else None
  }

  /** The field as the document carries it: one string. */
  function ArtifactsField(m: ArtifactMap): Option<ArtifactsDoc> {
    match ExportedArtifacts(m)
    case None => None
    case Some(text) => Some(Joined(text))
  }

  /** One decision as the document holds it; the last decision is never
      written. */
  function ExportDecision(users: seq<User>, d: ScanDecision, render: int -> string): (r: Result<DecisionDoc, ExportError>)
    ensures r.Failure? <==> FormatLocation(d.location).Failure? || (d.creator.Some? && FindUser(users, d.creator.value).None?)
    ensures r.Success? ==> r.value.decision == d.decision && r.value.note == Some(d.note)
    ensures r.Success? ==> (r.value.created.None? <==> d.created.None?)
    ensures r.Success? ==> (r.value.creator.None? <==> d.creator.None?)
  {
    var creator := if d.creator.None? then Success(None)
                   else match FindUser(users, d.creator.value)
                        case None => Failure(DanglingCreator(d.creator.value))
                        case Some(u) => Success(Some(u.username));
    match creator
    case Failure(e) => Failure(e)
    case Success(name) =>
      match FormatLocation(d.location)
      case Failure(e) => Failure(e)
      case Success(location) =>
        var created := if d.created.Some? then Some(render(d.created.value)) else None;
        Success(DecisionDoc(d.decision, name, Some(d.note), created, ArtifactsField(d.artifacts), location))
  }

  /** What an exported decision holds: the creator's username, the rendered
      time, the location text and the joined present artifact names. */
  lemma ExportDecisionFields(users: seq<User>, d: ScanDecision, render: int -> string)
    requires ExportDecision(users, d, render).Success?
    ensures var doc := ExportDecision(users, d, render).value;
            && (d.creator.Some? ==> doc.creator == Some(FindUser(users, d.creator.value).value.username))
            && doc.created == (if d.created.Some? then Some(render(d.created.value)) else None)
            && doc.location == FormatLocation(d.location).value
            && doc.artifacts == ArtifactsField(d.artifacts)
  {
  }

  /** The decisions of a scan in the order given. */
  function ExportDecisions(users: seq<User>, ds: seq<ScanDecision>, render: int -> string): (r: Result<seq<DecisionDoc>, ExportError>)
    ensures r.Success? ==> |r.value| == |ds|
    ensures r.Success? <==> forall d :: d in ds ==> ExportDecision(users, d, render).Success?
    ensures r.Success? ==> forall i :: 0 <= i < |ds| ==> Success(r.value[i]) == ExportDecision(users, ds[i], render)
    decreases |ds|
  {
    if ds == [] then Success([])
    else
      var n := |ds| - 1;
      assert ds == ds[..n] + [ds[n]];
      match ExportDecisions(users, ds[..n], render)
      case Failure(e) => Failure(e)
      case Success(docs) =>
        match ExportDecision(users, ds[n], render)
        case Failure(e) => Failure(e)
        case Success(doc) => Success(docs + [doc])
  }

  /** One step of the decisions' loop after an error changes nothing. */
  lemma DecisionsExportStep(users: seq<User>, ds: seq<ScanDecision>, render: int -> string)
    requires ds != [] && ExportDecisions(users, ds[..|ds| - 1], render).Failure?
    ensures ExportDecisions(users, ds, render) == ExportDecisions(users, ds[..|ds| - 1], render)
  {
  }

  lemma {:induction false} DecisionsExportStick(users: seq<User>, ds: seq<ScanDecision>, render: int -> string, k: nat)
    requires k <= |ds| && ExportDecisions(users, ds[..k], render).Failure?
    ensures ExportDecisions(users, ds, render) == ExportDecisions(users, ds[..k], render)
    decreases |ds|
  {
    if k == |ds| {
      assert ds[..k] == ds;
    } else {
      var init := ds[..|ds| - 1];
      assert init[..k] == ds[..k];
      DecisionsExportStick(users, init, render, k);
      DecisionsExportStep(users, ds, render);
    }
  }

  /* -------------------------------------------------------------- walk */

  function FrameOf(scan: Uid): Frame -> bool { (f: Frame) => f.scan == scan }
  function ScanOf(experiment: Uid): Scan -> bool { (s: Scan) => s.experiment == experiment }
  function ExperimentOf(project: Uid): Experiment -> bool { (e: Experiment) => e.project == project }
  function DecisionOf(scan: Uid): ScanDecision -> bool { (d: ScanDecision) => d.scan == scan }

  /** `scan_data['frames'][frame_number] = file location` for each frame in
      turn: a later frame with the same number replaces an earlier one. */
  function FramesDoc(frames: seq<Frame>): (r: Dict<nat, string>)
    ensures DistinctKeys(r)
    ensures forall k :: Get(r, k) == LastValue(FrameEntries(frames), k)
  {
    FromPairsLookup(FrameEntries(frames));
    FromPairs(FrameEntries(frames))
  }

  function FrameEntries(frames: seq<Frame>): (r: seq<(nat, string)>)
    ensures |r| == |frames|
    ensures forall i :: 0 <= i < |r| ==> r[i] == (frames[i].frameNumber, frames[i].rawPath)
  {
    seq(|frames|, i requires 0 <= i < |frames| => (frames[i].frameNumber, frames[i].rawPath))
  }

  /** `container[item.name] = write(item)` for each item in turn, as the
      list of assignments made: the first failing export ends the loop. */
  function Entries<T, D>(write: T -> Result<D, ExportError>, name: T -> string, items: seq<T>): Result<seq<(string, D)>, ExportError>
    decreases |items|
  {
    if items == [] then Success([])
    else
      var n := |items| - 1;
      match Entries(write, name, items[..n])
      case Failure(e) => Failure(e)
      case Success(acc) =>
        match write(items[n])
        case Failure(e) => Failure(e)
        case Success(doc) => Success(acc + [(name(items[n]), doc)])
  }

  /** The loop succeeds exactly when every export does, and then assigns
      each item's name to its write, in order. */
  lemma {:induction false} EntriesExactly<T, D>(write: T -> Result<D, ExportError>, name: T -> string, items: seq<T>)
    ensures Entries(write, name, items).Success? <==> forall x :: x in items ==> write(x).Success?
    ensures Entries(write, name, items).Success? ==> |Entries(write, name, items).value| == |items|
    ensures Entries(write, name, items).Success? ==> forall i :: 0 <= i < |items| ==>
              Entries(write, name, items).value[i].0 == name(items[i]) &&
              Success(Entries(write, name, items).value[i].1) == write(items[i])
    decreases |items|
  {
    if items != [] {
      var n := |items| - 1;
      assert items == items[..n] + [items[n]];
      EntriesExactly(write, name, items[..n]);
    }
  }

  lemma {:induction false} EntriesStick<T, D>(write: T -> Result<D, ExportError>, name: T -> string, items: seq<T>, k: nat)
    requires k <= |items| && Entries(write, name, items[..k]).Failure?
    ensures Entries(write, name, items) == Entries(write, name, items[..k])
    decreases |items|
  {
    if k < |items| {
      var n := |items| - 1;
      assert items[..n][..k] == items[..k];
      EntriesStick(write, name, items[..n], k);
    } else {
      assert items[..k] == items;
    }
  }

  /** One more successful export appends one entry. */
  lemma EntriesSnoc<T, D>(write: T -> Result<D, ExportError>, name: T -> string, items: seq<T>, i: nat, acc: seq<(string, D)>, doc: D)
    requires i < |items| && Entries(write, name, items[..i]) == Success(acc) && write(items[i]) == Success(doc)
    ensures Entries(write, name, items[..i + 1]) == Success(acc + [(name(items[i]), doc)])
  {
    assert items[..i + 1][..i] == items[..i];
  }

  function ScanExport(db: Db, render: int -> string): Scan -> Result<ScanDoc, ExportError> { (s: Scan) => ExportScan(db, s, render) }
  function ScanName(): Scan -> string { (s: Scan) => s.name }
  function ExperimentExport(db: Db, render: int -> string): Experiment -> Result<ExperimentDoc, ExportError> { (e: Experiment) => ExportExperiment(db, e, render) }
  function ExperimentName(): Experiment -> string { (e: Experiment) => e.name }
  function ProjectExport(db: Db, render: int -> string): Project -> Result<ProjectDoc, ExportError> { (p: Project) => ExportProject(db, p, render) }
  function ProjectName(): Project -> string { (p: Project) => p.name }

  /** One scan: its fields, its frames, and its decisions newest first. */
  function ExportScan(db: Db, s: Scan, render: int -> string): Result<ScanDoc, ExportError> {
    var frames := Seqs.Filter(db.frames, FrameOf(s.id));
    var ds := Ordered(Seqs.Filter(db.decisions, DecisionOf(s.id)));
    match ExportDecisions(db.users, ds, render)
    case Failure(e) => Failure(e)
    case Success(docs) =>
      Success(ScanDoc(s.scanType, s.subjectId, s.sessionId, s.scanLink, docs, None, FramesDoc(frames)))
  }

  /** `experiment_data['scans'][scan.name] = ...` for each scan in turn: the
      entries in scan order, before a later scan of the same name replaces an
      earlier one. */
  function ScanEntries(db: Db, scans: seq<Scan>, render: int -> string): (r: Result<seq<(string, ScanDoc)>, ExportError>)
    ensures r.Success? <==> forall s :: s in scans ==> ExportScan(db, s, render).Success?
    ensures r.Success? ==> |r.value| == |scans|
    ensures r.Success? ==> forall i :: 0 <= i < |scans| ==>
              r.value[i].0 == scans[i].name && Success(r.value[i].1) == ExportScan(db, scans[i], render)
  {
    EntriesExactly(ScanExport(db, render), ScanName(), scans);
    Entries(ScanExport(db, render), ScanName(), scans)
  }

  function ExportScans(db: Db, scans: seq<Scan>, render: int -> string): Result<Dict<string, ScanDoc>, ExportError> {
    match ScanEntries(db, scans, render)
    case Failure(e) => Failure(e)
    case Success(entries) => Success(FromPairs(entries))
  }

  function ExportExperiment(db: Db, e: Experiment, render: int -> string): Result<ExperimentDoc, ExportError> {
    match ExportScans(db, Seqs.Filter(db.scans, ScanOf(e.id)), render)
    case Failure(err) => Failure(err)
    case Success(scans) => Success(ExperimentDoc(e.note, scans))
  }

  /** `project_data['experiments'][experiment.name] = ...` for each
      experiment in turn. */
  function ExperimentEntries(db: Db, exps: seq<Experiment>, render: int -> string): (r: Result<seq<(string, ExperimentDoc)>, ExportError>)
    ensures r.Success? <==> forall e :: e in exps ==> ExportExperiment(db, e, render).Success?
    ensures r.Success? ==> |r.value| == |exps|
    ensures r.Success? ==> forall i :: 0 <= i < |exps| ==>
              r.value[i].0 == exps[i].name && Success(r.value[i].1) == ExportExperiment(db, exps[i], render)
  {
    EntriesExactly(ExperimentExport(db, render), ExperimentName(), exps);
    Entries(ExperimentExport(db, render), ExperimentName(), exps)
  }

  function ExportExperiments(db: Db, exps: seq<Experiment>, render: int -> string): Result<Dict<string, ExperimentDoc>, ExportError> {
    match ExperimentEntries(db, exps, render)
    case Failure(e) => Failure(e)
    case Success(entries) => Success(FromPairs(entries))
  }

  function ExportProject(db: Db, p: Project, render: int -> string): Result<ProjectDoc, ExportError> {
    match ExportExperiments(db, Seqs.Filter(db.experiments, ExperimentOf(p.id)), render)
    case Failure(e) => Failure(e)
    case Success(exps) => Success(ProjectDoc(exps))
  }

  /** `data['projects'][project.name] = ...` for each project in turn. */
  function ProjectEntries(db: Db, ps: seq<Project>, render: int -> string): (r: Result<seq<(string, ProjectDoc)>, ExportError>)
    ensures r.Success? <==> forall p :: p in ps ==> ExportProject(db, p, render).Success?
    ensures r.Success? ==> |r.value| == |ps|
    ensures r.Success? ==> forall i :: 0 <= i < |ps| ==>
              r.value[i].0 == ps[i].name && Success(r.value[i].1) == ExportProject(db, ps[i], render)
  {
    EntriesExactly(ProjectExport(db, render), ProjectName(), ps);
    Entries(ProjectExport(db, render), ProjectName(), ps)
  }

  function ExportProjects(db: Db, ps: seq<Project>, render: int -> string): Result<Dict<string, ProjectDoc>, ExportError> {
    match ProjectEntries(db, ps, render)
    case Failure(e) => Failure(e)
    case Success(entries) => Success(FromPairs(entries))
  }

  /** The three dictionary levels are the entry loops' assignments. */
  lemma ScansAsEntries(db: Db, scans: seq<Scan>, render: int -> string)
    ensures Entries(ScanExport(db, render), ScanName(), scans).Failure? ==> ExportScans(db, scans, render) == Failure(Entries(ScanExport(db, render), ScanName(), scans).error)
    ensures Entries(ScanExport(db, render), ScanName(), scans).Success? ==> ExportScans(db, scans, render) == Success(FromPairs(Entries(ScanExport(db, render), ScanName(), scans).value))
  {
  }

  lemma ExperimentsAsEntries(db: Db, exps: seq<Experiment>, render: int -> string)
    ensures Entries(ExperimentExport(db, render), ExperimentName(), exps).Failure? ==> ExportExperiments(db, exps, render) == Failure(Entries(ExperimentExport(db, render), ExperimentName(), exps).error)
    ensures Entries(ExperimentExport(db, render), ExperimentName(), exps).Success? ==> ExportExperiments(db, exps, render) == Success(FromPairs(Entries(ExperimentExport(db, render), ExperimentName(), exps).value))
  {
  }

  lemma ProjectsAsEntries(db: Db, ps: seq<Project>, render: int -> string)
    ensures Entries(ProjectExport(db, render), ProjectName(), ps).Failure? ==> ExportProjects(db, ps, render) == Failure(Entries(ProjectExport(db, render), ProjectName(), ps).error)
    ensures Entries(ProjectExport(db, render), ProjectName(), ps).Success? ==> ExportProjects(db, ps, render) == Success(FromPairs(Entries(ProjectExport(db, render), ProjectName(), ps).value))
  {
  }

  /** `perform_export`: every project for a global export, else the one
      asked for, which must exist. */
  function PerformExport(db: Db, project: Option<Uid>, render: int -> string): (r: Result<ImportDoc, ExportError>)
    ensures project.Some? && project.value !in ProjectIds(db) ==> r == Failure(NoSuchProject(project.value))
  {
    if project.None? then
      match ExportProjects(db, db.projects, render)
      case Failure(e) => Failure(e)
      case Success(ps) => Success(ImportDoc(ps))
    else
      match FindProject(db, project.value)
      case None => Failure(NoSuchProject(project.value))
      case Some(p) =>
        match ExportProjects(db, [p], render)
        case Failure(e) => Failure(e)
        case Success(ps) => Success(ImportDoc(ps))
  }

  /* ------------------------------------------------------- walk lemmas */

  /** A comprehension over entries named after items is keyed by exactly the
      items' names, and each name maps to the entry of the last item that
      bears it. */
  lemma NamedEntries<T, D>(entries: seq<(string, D)>, items: seq<T>, name: T -> string)
    requires |entries| == |items|
    requires forall i :: 0 <= i < |items| ==> entries[i].0 == name(items[i])
    ensures DistinctKeys(FromPairs(entries))
    ensures forall n :: n in Keys(FromPairs(entries)) <==> exists x :: x in items && name(x) == n
    ensures forall n :: Get(FromPairs(entries), n) == LastValue(entries, n)
  {
    FromPairsLookup(entries);
    FromPairsKeys(entries);
    forall n ensures n in Keys(entries) <==> exists x :: x in items && name(x) == n {
      if n in Keys(entries) {
        var i :| 0 <= i < |entries| && Keys(entries)[i] == n;
        assert items[i] in items;
      }
      if exists x :: x in items && name(x) == n {
        var x :| x in items && name(x) == n;
        var i :| 0 <= i < |items| && items[i] == x;
        assert Keys(entries)[i] == n;
      }
    }
  }

  /** The exported scans are keyed by the scans' names, one entry per name,
      and a name holds the last scan of that name. */
  lemma ScanNames(db: Db, scans: seq<Scan>, render: int -> string)
    ensures var r := ExportScans(db, scans, render);
            r.Success? ==>
              && DistinctKeys(r.value)
              && (forall n :: n in Keys(r.value) <==> exists s :: s in scans && s.name == n)
              && forall n :: Get(r.value, n) == LastValue(ScanEntries(db, scans, render).value, n)
  {
    var r := ScanEntries(db, scans, render);
    if r.Success? {
      NamedEntries(r.value, scans, (s: Scan) => s.name);
    }
  }

  lemma ExperimentNames(db: Db, exps: seq<Experiment>, render: int -> string)
    ensures var r := ExportExperiments(db, exps, render);
            r.Success? ==>
              && DistinctKeys(r.value)
              && (forall n :: n in Keys(r.value) <==> exists e :: e in exps && e.name == n)
              && forall n :: Get(r.value, n) == LastValue(ExperimentEntries(db, exps, render).value, n)
  {
    var r := ExperimentEntries(db, exps, render);
    if r.Success? {
      NamedEntries(r.value, exps, (e: Experiment) => e.name);
    }
  }

  lemma ProjectNames(db: Db, ps: seq<Project>, render: int -> string)
    ensures var r := ExportProjects(db, ps, render);
            r.Success? ==>
              && DistinctKeys(r.value)
              && (forall n :: n in Keys(r.value) <==> exists p :: p in ps && p.name == n)
              && forall n :: Get(r.value, n) == LastValue(ProjectEntries(db, ps, render).value, n)
  {
    var r := ProjectEntries(db, ps, render);
    if r.Success? {
      NamedEntries(r.value, ps, (p: Project) => p.name);
    }
  }

  /** A global export is keyed by the names of all projects. */
  lemma GlobalExportNames(db: Db, render: int -> string)
    ensures var r := PerformExport(db, None, render);
            r.Success? ==> forall n :: n in Keys(r.value.projects) <==> exists p :: p in db.projects && p.name == n
  {
    ProjectNames(db, db.projects, render);
  }

  /** A project export holds that project's name alone. */
  lemma ProjectExportName(db: Db, id: Uid, render: int -> string)
    ensures var r := PerformExport(db, Some(id), render);
            r.Success? ==> exists p :: p in db.projects && p.id == id && Keys(r.value.projects) == [p.name]
  {
    match FindProject(db, id)
    case None =>
    case Some(p) =>
      var r := ProjectEntries(db, [p], render);
      if r.Success? {
        SingleEntryKeys(r.value);
      }
  }

  /* ----------------------------------------------------------- location */

  /** `k=v` with a value free of `=` gives `v` back. */
  lemma AxisOf(axis: char, v: string)
    requires axis != '=' && '=' !in v
    ensures AxisValue([axis, '='] + v) == Some(v)
  {
    assert [axis, '='] + v == [axis] + ['='] + v;
    Text.SplitAfterPiece([axis], '=', v);
    Text.SplitWithoutSeparator(v, '=');
  }

  /** The three axes of a location text, split at `;`. */
  lemma AxesOf(a: string, b: string, c: string)
    requires ';' !in a && ';' !in b && ';' !in c
    ensures Text.Split("i=" + a + ";j=" + b + ";k=" + c, ';') == ["i=" + a, "j=" + b, "k=" + c]
  {
    var x, y, z := "i=" + a, "j=" + b, "k=" + c;
    assert "i=" + a + ";j=" + b + ";k=" + c == x + [';'] + (y + [';'] + z);
    Text.SplitWithoutSeparator(z, ';');
    Text.SplitAfterPiece(y, ';', z);
    Text.SplitAfterPiece(x, ';', y + [';'] + z);
  }

  /** A location `i=a;j=b;k=c` whose values hold neither `;` nor `=` imports
      as `{i: a, j: b, k: c}`, and that location exports as the same text:
      export and import are inverse on such locations. */
  lemma LocationRoundTrip(a: string, b: string, c: string)
    requires ';' !in a && ';' !in b && ';' !in c
    requires '=' !in a && '=' !in b && '=' !in c
    ensures var text := "i=" + a + ";j=" + b + ";k=" + c;
            && ParseLocation(Some(text)) == Success([("i", a), ("j", b), ("k", c)])
            && FormatLocation([("i", a), ("j", b), ("k", c)]) == Success(Some(text))
  {
    var text := "i=" + a + ";j=" + b + ";k=" + c;
    AxesOf(a, b, c);
    var axes := ["i=" + a, "j=" + b, "k=" + c];
    AxisOf('i', a);
    AxisOf('j', b);
    AxisOf('k', c);
    assert AxisValues(axes).Some?;
    AxesFound(a, b, c);
  }

  lemma AxesFound(a: string, b: string, c: string)
    ensures var loc: Location := [("i", a), ("j", b), ("k", c)];
            Get(loc, "i") == Some(a) && Get(loc, "j") == Some(b) && Get(loc, "k") == Some(c)
  {
    var loc: Location := [("i", a), ("j", b), ("k", c)];
    assert "i" != "j" && "i" != "k" && "j" != "k" by {
      assert "i"[0] != "j"[0] && "i"[0] != "k"[0] && "j"[0] != "k"[0];
    }
    var tail: Location := [("j", b), ("k", c)];
    var last: Location := [("k", c)];
    assert loc[1..] == tail && tail[1..] == last;
    assert Get(last, "k") == Some(c);
    assert Get(tail, "k") == Some(c) && Get(tail, "j") == Some(b);
  }

  /* ---------------------------------------------------------- artifacts */

  lemma ContainsItself(s: string)
    ensures Text.Contains(s, s)
  {
  }

  lemma NothingInEmpty(needle: string)
    requires needle != []
    ensures !Text.Contains("", needle)
  {
  }

  /** Artifact names that are non-empty, hold no `;`, and none of which
      occurs inside another. */
  predicate SeparableNames(m: ArtifactMap) {
    && (forall i :: 0 <= i < |m| ==> m[i].0 != "" && ';' !in m[i].0)
    && (forall i, j :: 0 <= i < |m| && 0 <= j < |m| && Text.Contains(m[j].0, m[i].0) ==> i == j)
  }

  /** With separable names, exporting the artifacts and importing them again
      over the same names keeps the present ones and turns every other value,
      the undefined -1 included, into absent. */
  lemma ArtifactsRoundTrip(m: ArtifactMap)
    requires SeparableNames(m)
    ensures var back := ImportedArtifacts(Keys(m), ArtifactsField(m));
            forall i :: 0 <= i < |m| ==> back[i] == (m[i].0, if m[i].1 == 1 then StateValue(Present) else StateValue(Absent))
  {
    var names := PresentNames(m);
    var back := ImportedArtifacts(Keys(m), ArtifactsField(m));
    forall i | 0 <= i < |m|
      ensures back[i] == (m[i].0, if m[i].1 == 1 then StateValue(Present) else StateValue(Absent))
    {
      var name := m[i].0;
      Text.ContainsInJoin(names, ';', name);
      ContainsItself(name);
      NothingInEmpty(name);
      if m[i].1 == 1 {
        assert m[i] == (name, StateValue(Present));
        assert name in names;
        var k :| 0 <= k < |names| && names[k] == name;
      } else {
        forall k | 0 <= k < |names| ensures !Text.Contains(names[k], name) {
          assert names[k] in names;
          var j :| 0 <= j < |m| && m[j] == (names[k], StateValue(Present));
          assert j != i;
        }
      }
    }
  }

  /** Names that occur inside one another do not survive the round trip:
      `a` is imported as present when only `ab` was. */
  lemma NestedArtifactNames()
    ensures var m: ArtifactMap := [("ab", 1), ("a", 0)];
            && ArtifactsField(m) == Some(Joined("ab"))
            && ImportedArtifacts(Keys(m), ArtifactsField(m)) == [("ab", 1), ("a", 1)]
  {
    var m: ArtifactMap := [("ab", 1), ("a", 0)];
    assert PresentNames(m[..1]) == ["ab"];
    assert PresentNames(m) == ["ab"];
    assert Keys(m) == ["ab", "a"];
    assert Text.Contains("ab", "ab") && Text.Contains("ab", "a");
  }

  /* ----------------------------------------------------------- decisions */

  /** A decision exported and imported again over its own artifact names,
      with a time the parser reads back and a location in the import's form,
      is the same decision with its undefined artifacts made absent. */
  lemma DecisionRoundTrip(users: seq<User>, d: ScanDecision, render: int -> string, ctx: Ctx)
    requires ExportDecision(users, d, render).Success?
    requires IsDecisionCode(d.decision)
    requires d.location == [] || (Keys(d.location) == ["i", "j", "k"] &&
                                  forall i :: 0 <= i < |d.location| ==> ';' !in d.location[i].1 && '=' !in d.location[i].1)
    requires ctx.artifactNames == Keys(d.artifacts) && SeparableNames(d.artifacts)
    requires d.created.Some? ==> render(d.created.value) != "" && ctx.clock.parse(render(d.created.value)) == Some(d.created.value)
    requires CreatorOf(ctx.users, ExportDecision(users, d, render).value.creator).Success?
    ensures var r := ImportDecision(ctx, ExportDecision(users, d, render).value, d.scan, d.id);
            && r.Success? && r.value.Some?
            && r.value.value.id == d.id && r.value.value.scan == d.scan
            && r.value.value.decision == d.decision && r.value.value.note == d.note
            && r.value.value.location == d.location
            && (d.created.Some? ==> r.value.value.created == d.created)
            && (d.created.None? ==> r.value.value.created == if ctx.clock.replaceNull then Some(ctx.clock.now) else None)
            && |r.value.value.artifacts| == |d.artifacts|
            && forall i :: 0 <= i < |d.artifacts| ==>
                 r.value.value.artifacts[i] == (d.artifacts[i].0, if d.artifacts[i].1 == 1 then StateValue(Present) else StateValue(Absent))
  {
    var x := ExportDecision(users, d, render).value;
    if d.location != [] {
      var loc := d.location;
      assert loc == [("i", loc[0].1), ("j", loc[1].1), ("k", loc[2].1)] by {
        assert Keys(loc)[0] == "i" && Keys(loc)[1] == "j" && Keys(loc)[2] == "k";
      }
      LocationRoundTrip(loc[0].1, loc[1].1, loc[2].1);
    }
    ArtifactsRoundTrip(d.artifacts);
    if d.created.Some? {
      assert x.created == Some(render(d.created.value));
    }
  }

  /** The export writes a creator's username while the import looks users
      up by email: a decision by a user whose username is no user's email
      comes back without a creator. */
  lemma CreatorComesBackEmpty(render: int -> string, ctx: Ctx)
    requires ctx.users == [User([1], "ann", "ann@example.org")]
    ensures var d := ScanDecision([2], None, [3], Some([1]), "U", "", [], []);
            var x := ExportDecision(ctx.users, d, render);
            && x.Success? && x.value.creator == Some("ann")
            && CreatorOf(ctx.users, x.value.creator) == Success(None)
  {
    var u := User([1], "ann", "ann@example.org");
    assert FindUser(ctx.users, [1]) == Some(u);
    assert UserByEmail(ctx.users, "ann").Missing? by {
      assert "ann" != "ann@example.org" by { assert |"ann"| != |"ann@example.org"|; }
    }
  }
}
