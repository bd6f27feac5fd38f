/** `perform_import`: the nested import document, and how it becomes new
    experiments, scans, frames and decisions. Each named project must exist;
    its old experiments are deleted (with everything under them) before the
    new ones are built; the new rows are gathered in lists, scans without a
    frame and experiments without a surviving scan are pruned, the rows are
    created in bulk, and the new frame ids are grouped by project for the
    evaluation job. */
module Imports {
  import opened Wrappers
  import opened Entities
  import opened Dicts
  import opened Decisions
  import opened Projects
  import opened Records
  import Text
  import Seqs
  import ProjectState

  /* ----------------------------------------------------------- document */

  /** `user_identified_artifacts` as a document gives it: a list of names or
      one string (a CSV row carries the names joined by `;`). */
  datatype ArtifactsDoc = Listed(names: seq<string>) | Joined(text: string)

  /** One decision of the document. `None` is a null value; a document
      without a `creator` key is written `Some("")`, since the import then
      looks up the empty address. */
  datatype DecisionDoc = DecisionDoc(
    decision: string,
    creator: Option<string>,
    note: Option<string>,
    created: Option<string>,
    artifacts: Option<ArtifactsDoc>,
    location: Option<string>)

  /** One scan: its type, optional identifiers, its decisions (or a single
      `last_decision`, `None` when absent or empty) and its frames, frame
      number to file location (empty when null). */
  datatype ScanDoc = ScanDoc(
    scanType: string,
    subjectId: Option<string>,
    sessionId: Option<string>,
    scanLink: Option<string>,
    decisions: seq<DecisionDoc>,
    lastDecision: Option<DecisionDoc>,
    frames: Dict<nat, string>)

  datatype ExperimentDoc = ExperimentDoc(notes: string, scans: Dict<string, ScanDoc>)

  datatype ProjectDoc = ProjectDoc(experiments: Dict<string, ExperimentDoc>)

  /** The document after validation: project name to project data. */
  datatype ImportDoc = ImportDoc(projects: Dict<string, ProjectDoc>)

  datatype ImportError =
    | UnknownProject(name: string)      // Project.DoesNotExist, reported
    | AmbiguousProject(name: string)    // several projects share the name
    | AmbiguousCreator(email: string)   // several users share the address
    | MalformedLocation(text: string)   // IndexError in the location parse
    | MissingScan(scan: Uid)            // IntegrityError: a decision's scan is not stored

  /** The clock and the date parser, which the import does not control:
      `parse` stands for `dateparser.parse` followed by the truncation to
      minutes, `now` for the current minute, and `replaceNull` for the
      `REPLACE_NULL_CREATION_DATETIMES` setting. */
  datatype Clock = Clock(parse: string -> Option<int>, now: int, replaceNull: bool)

  /** What building the rows of one project needs: the users (for creators),
      the project's artifact names, the clock, and the batch prefix of the
      new keys. */
  datatype Ctx = Ctx(users: seq<User>, artifactNames: seq<string>, clock: Clock, epoch: nat)

  /** A text field Python treats as true: present and non-empty. */
  predicate Given(o: Option<string>) {
    o.Some? && o.value != ""
  }

  /* -------------------------------------------------------------- keys */

  const ExperimentKind: nat := 0
  const ScanKind: nat := 1
  const DecisionKind: nat := 2
  const FrameKind: nat := 3

  /** The key of a new row: the batch prefix, the kind of row, and its
      position in the document. Keys of different rows of one batch differ. */
  function NewId(epoch: nat, kind: nat, path: seq<nat>): Uid {
    [epoch, kind] + path
  }

  /* --------------------------------------------------------- decisions */

  /** `User.objects.get(email=...)`: no match leaves the creator empty;
      several matches are an error the import does not catch. */
  function CreatorOf(users: seq<User>, email: Option<string>): (r: Result<Option<Uid>, ImportError>)
    ensures r.Success? && r.value.Some? ==>
              exists u :: u in users && u.id == r.value.value && email == Some(u.email)
    ensures r.Success? && r.value.None? <==> email.None? || UserByEmail(users, email.value).Missing?
    ensures r.Failure? <==> email.Some? && UserByEmail(users, email.value).Ambiguous?
  {
    match email
    case None => Success(None)
    case Some(address) =>
      match UserByEmail(users, address)
      case Found(u) => Success(Some(u.id))
      case Missing => Success(None)
      case Ambiguous => Failure(AmbiguousCreator(address))
  }

  /** The time a decision is stored with. */
  function CreatedTime(created: Option<string>, clock: Clock): Option<int> {
    var fallback := if clock.replaceNull then Some(clock.now) else None;
    if Given(created) && clock.parse(created.value).Some? then clock.parse(created.value)
    else fallback
  }

  /** The text after the first `=` of an axis, up to the next `=`; `None`
      when the axis has no `=`. */
  function AxisValue(axis: string): (r: Option<string>)
    ensures r.None? <==> '=' !in axis
  {
    Text.SplitFindsSeparator(axis, '=');
    var pieces := Text.Split(axis, '=');
    if |pieces| < 2 then None else Some(pieces[1])
  }

  /** `[axis.split('=')[1] for axis in axes]`: `None` when some axis has no
      `=`. */
  function AxisValues(axes: seq<string>): (r: Option<seq<string>>)
    ensures r.None? <==> exists i :: 0 <= i < |axes| && '=' !in axes[i]
    ensures r.Some? ==> |r.value| == |axes| && forall i :: 0 <= i < |axes| ==> Some(r.value[i]) == AxisValue(axes[i])
    decreases |axes|
  {
    if axes == [] then Some([])
    else
      var n := |axes| - 1;
      match AxisValues(axes[..n])
      case None => None
      case Some(vs) =>
        match AxisValue(axes[n])
        case None => None
        case Some(v) => Some(vs + [v])
  }

  /** The `location` of an imported decision: `{}` when the field is empty,
      otherwise `i`, `j` and `k` from the first three `;`-separated axes. An
      axis without `=`, or fewer than three axes, is an error. */
  function ParseLocation(location: Option<string>): (r: Result<Location, ImportError>)
    ensures !Given(location) ==> r == Success([])
    ensures Given(location) ==>
              (r.Failure? <==> |Text.Split(location.value, ';')| < 3 ||
                               exists i :: 0 <= i < |Text.Split(location.value, ';')| && '=' !in Text.Split(location.value, ';')[i])
    ensures Given(location) && r.Success? ==> Keys(r.value) == ["i", "j", "k"]
  {
    if !Given(location) then Success([])
    else
      var axes := Text.Split(location.value, ';');
      match AxisValues(axes)
      case None => Failure(MalformedLocation(location.value))
      case Some(vs) =>
        if |vs| < 3 then Failure(MalformedLocation(location.value))
        else Success([("i", vs[0]), ("j", vs[1]), ("k", vs[2])])
  }

  /** Python's `name in field`: membership in a list, a substring test on a
      string, and false for an empty or absent field. */
  predicate Mentions(field: Option<ArtifactsDoc>, name: string) {
    match field
    case None => false
    case Some(Listed(names)) => name in names
    case Some(Joined(text)) => text != "" && Text.Contains(text, name)
  }

  /** The artifact map of an imported decision: every artifact name of the
      project, present when the field mentions it and absent otherwise. */
  function ImportedArtifacts(names: seq<string>, field: Option<ArtifactsDoc>): (r: ArtifactMap)
    ensures Keys(r) == names
    ensures forall i :: 0 <= i < |r| ==> StateOf(r[i].1) == Some(if Mentions(field, names[i]) then Present else Absent)
  {
    seq(|names|, i requires 0 <= i < |names| =>
      (names[i], if Mentions(field, names[i]) then StateValue(Present) else StateValue(Absent)))
  }

  /** One decision of the document: the creator is looked up, the time and
      the location are worked out, and only then is a decision with an
      unknown code dropped (so a malformed location fails the import even
      for such a decision). */
  function ImportDecision(ctx: Ctx, doc: DecisionDoc, scan: Uid, id: Uid): (r: Result<Option<ScanDecision>, ImportError>)
    ensures r.Failure? <==> CreatorOf(ctx.users, doc.creator).Failure? || ParseLocation(doc.location).Failure?
    ensures r.Success? ==> (r.value.Some? <==> IsDecisionCode(doc.decision))
    ensures r.Success? && r.value.Some? ==>
              var d := r.value.value;
              && d.id == id && d.scan == scan && d.decision == doc.decision
              && d.creator == CreatorOf(ctx.users, doc.creator).value
              && d.note == (if doc.note.Some? then doc.note.value else "")
              && (Given(doc.created) && ctx.clock.parse(doc.created.value).Some? ==> d.created == ctx.clock.parse(doc.created.value))
              && (!(Given(doc.created) && ctx.clock.parse(doc.created.value).Some?) ==>
                    d.created == (if ctx.clock.replaceNull then Some(ctx.clock.now) else None))
              && d.artifacts == ImportedArtifacts(ctx.artifactNames, doc.artifacts)
              && d.location == ParseLocation(doc.location).value
  {
    match CreatorOf(ctx.users, doc.creator)
    case Failure(e) => Failure(e)
    case Success(creator) =>
      var created := CreatedTime(doc.created, ctx.clock);
      match ParseLocation(doc.location)
      case Failure(e) => Failure(e)
      case Success(location) =>
        if !IsDecisionCode(doc.decision) then Success(None)
        else
          var note := if doc.note.Some? then doc.note.value else "";
          Success(Some(ScanDecision(id, created, scan, creator, doc.decision, note,
                                    ImportedArtifacts(ctx.artifactNames, doc.artifacts), location)))
  }

  /** A loop that imports each element of a list in turn, with its
      position: the first failure ends it, and an element imported as
      nothing leaves no row. */
  function Gather<X, Y>(f: (nat, X) -> Result<Option<Y>, ImportError>, xs: seq<X>): (r: Result<seq<Y>, ImportError>)
    ensures r.Success? ==> |r.value| <= |xs|
    decreases |xs|
  {
    if xs == [] then Success([])
    else
      var n := |xs| - 1;
      match Gather(f, xs[..n])
      case Failure(e) => Failure(e)
      case Success(ys) =>
        match f(n, xs[n])
        case Failure(e) => Failure(e)
        case Success(None) => Success(ys)
        case Success(Some(y)) => Success(ys + [y])
  }

  /** On success every element imports, and each row it yields is kept. */
  lemma {:induction false} GatherAll<X, Y>(f: (nat, X) -> Result<Option<Y>, ImportError>, xs: seq<X>)
    ensures Gather(f, xs).Success? ==>
              forall k :: 0 <= k < |xs| ==> f(k, xs[k]).Success? && (f(k, xs[k]).value.Some? ==> f(k, xs[k]).value.value in Gather(f, xs).value)
    decreases |xs|
  {
    if xs != [] {
      var n := |xs| - 1;
      GatherAll(f, xs[..n]);
      assert forall k :: 0 <= k < n ==> xs[..n][k] == xs[k];
    }
  }

  /** Every row kept was yielded by some element. */
  lemma {:induction false} GatherFrom<X, Y>(f: (nat, X) -> Result<Option<Y>, ImportError>, xs: seq<X>)
    ensures Gather(f, xs).Success? ==>
              forall y :: y in Gather(f, xs).value ==> exists k :: 0 <= k < |xs| && f(k, xs[k]) == Success(Some(y))
    decreases |xs|
  {
    if xs != [] {
      var n := |xs| - 1;
      GatherFrom(f, xs[..n]);
      assert forall k :: 0 <= k < n ==> xs[..n][k] == xs[k];
    }
  }

  /** A failure on a prefix of the list is the failure of the whole loop. */
  lemma {:induction false} GatherStick<X, Y>(f: (nat, X) -> Result<Option<Y>, ImportError>, xs: seq<X>, k: nat)
    requires k <= |xs| && Gather(f, xs[..k]).Failure?
    ensures Gather(f, xs) == Gather(f, xs[..k])
    decreases |xs|
  {
    if k < |xs| {
      var n := |xs| - 1;
      assert xs[..n][..k] == xs[..k];
      GatherStick(f, xs[..n], k);
    } else {
      assert xs[..k] == xs;
    }
  }

  /** The `k`-th decision of a scan, keyed by position `k` under the scan. */
  function DecisionAt(ctx: Ctx, scan: Uid, scanPath: seq<nat>): (nat, DecisionDoc) -> Result<Option<ScanDecision>, ImportError> {
    (k: nat, doc: DecisionDoc) => ImportDecision(ctx, doc, scan, NewId(ctx.epoch, DecisionKind, scanPath + [k]))
  }

  /** The decisions a scan's document imports, in order: the `k`-th gets the
      key of position `k` under the scan; dropped ones leave no row. */
  function DecisionsOf(ctx: Ctx, docs: seq<DecisionDoc>, scan: Uid, scanPath: seq<nat>): (r: Result<seq<ScanDecision>, ImportError>)
    ensures r.Success? ==> |r.value| <= |docs|
    ensures r.Success? ==> forall d :: d in r.value ==> d.scan == scan && IsDecisionCode(d.decision)
    ensures r.Success? ==> forall d :: d in r.value && d.creator.Some? ==> exists u :: u in ctx.users && u.id == d.creator.value
  {
    GatherFrom(DecisionAt(ctx, scan, scanPath), docs);
    Gather(DecisionAt(ctx, scan, scanPath), docs)
  }

  /** The decisions a scan imports: a `last_decision` replaces the list. */
  function EffectiveDecisions(doc: ScanDoc): seq<DecisionDoc> {
    if doc.lastDecision.Some? then [doc.lastDecision.value] else doc.decisions
  }

  /* ------------------------------------------------------------ frames */

  /** The frames a scan's document creates, in order: one per entry with a
      file location; entries without one create nothing. */
  function FramesOf(frames: Dict<nat, string>, scan: Uid, epoch: nat, scanPath: seq<nat>): (r: seq<Frame>)
    ensures |r| <= |frames|
    ensures forall f :: f in r ==> f.scan == scan && f.rawPath != ""
    ensures forall f :: f in r ==> (f.frameNumber, f.rawPath) in frames
    ensures r == [] <==> forall i :: 0 <= i < |frames| ==> frames[i].1 == ""
    decreases |frames|
  {
    if frames == [] then []
    else
      var n := |frames| - 1;
      var init := FramesOf(frames[..n], scan, epoch, scanPath);
      assert forall i :: 0 <= i < n ==> frames[..n][i] == frames[i];
      init + (if frames[n].1 != "" then [Frame(NewId(epoch, FrameKind, scanPath + [n]), frames[n].0, frames[n].1, scan)] else [])
  }

  /* ------------------------------------------------------------- batch */

  /** A new frame, with the project its scan's experiment belongs to (the
      Python objects reach it through their references). */
  datatype NewFrame = NewFrame(frame: Frame, project: Uid)

  /** The lists `perform_import` grows: `new_experiments`, `new_scans`,
      `new_frames` and `new_scan_decisions`. */
  datatype Batch = Batch(
    experiments: seq<Experiment>,
    scans: seq<Scan>,
    frames: seq<NewFrame>,
    decisions: seq<ScanDecision>)

  const EmptyBatch: Batch := Batch([], [], [], [])

  function WithProject(frames: seq<Frame>, project: Uid): (r: seq<NewFrame>)
    ensures |r| == |frames|
    ensures forall i :: 0 <= i < |r| ==> r[i] == NewFrame(frames[i], project)
  {
    seq(|frames|, i requires 0 <= i < |frames| => NewFrame(frames[i], project))
  }

  /** One scan: its decisions, the scan row, then its frames. */
  function BuildScan(ctx: Ctx, b: Batch, project: Uid, experiment: Uid, entry: (string, ScanDoc), scanPath: seq<nat>): (r: Result<Batch, ImportError>)
    ensures r.Success? ==> r.value.experiments == b.experiments
  {
    var (name, doc) := entry;
    var id := NewId(ctx.epoch, ScanKind, scanPath);
    match DecisionsOf(ctx, EffectiveDecisions(doc), id, scanPath)
    case Failure(e) => Failure(e)
    case Success(ds) =>
      var scan := Scan(id, name, doc.scanType, experiment, doc.subjectId, doc.sessionId, doc.scanLink);
      Success(b.(decisions := b.decisions + ds,
                 scans := b.scans + [scan],
                 frames := b.frames + WithProject(FramesOf(doc.frames, id, ctx.epoch, scanPath), project)))
  }

  /** The scans of one experiment, in order. */
  function BuildScans(ctx: Ctx, b: Batch, project: Uid, experiment: Uid, scans: Dict<string, ScanDoc>, path: seq<nat>): (r: Result<Batch, ImportError>)
    ensures r.Success? ==> r.value.experiments == b.experiments
    decreases |scans|
  {
    if scans == [] then Success(b)
    else
      var n := |scans| - 1;
      match BuildScans(ctx, b, project, experiment, scans[..n], path)
      case Failure(e) => Failure(e)
      case Success(b') => BuildScan(ctx, b', project, experiment, scans[n], path + [n])
  }

  lemma {:induction false} ScansStick(ctx: Ctx, b: Batch, project: Uid, experiment: Uid, scans: Dict<string, ScanDoc>, path: seq<nat>, k: nat)
    requires k <= |scans| && BuildScans(ctx, b, project, experiment, scans[..k], path).Failure?
    ensures BuildScans(ctx, b, project, experiment, scans, path) == BuildScans(ctx, b, project, experiment, scans[..k], path)
    decreases |scans|
  {
    if k < |scans| {
      var n := |scans| - 1;
      assert scans[..n][..k] == scans[..k];
      ScansStick(ctx, b, project, experiment, scans[..n], path, k);
    } else {
      assert scans[..k] == scans;
    }
  }

  /** One experiment: its row, then its scans. */
  function BuildExperiment(ctx: Ctx, b: Batch, project: Uid, entry: (string, ExperimentDoc), path: seq<nat>): Result<Batch, ImportError> {
    var (name, doc) := entry;
    var e := Experiment(NewId(ctx.epoch, ExperimentKind, path), name, doc.notes, project, None);
    BuildScans(ctx, b.(experiments := b.experiments + [e]), project, e.id, doc.scans, path)
  }

  /** The experiments of one project, in order. */
  function BuildExperiments(ctx: Ctx, b: Batch, project: Uid, experiments: Dict<string, ExperimentDoc>, path: seq<nat>): Result<Batch, ImportError>
    decreases |experiments|
  {
    if experiments == [] then Success(b)
    else
      var n := |experiments| - 1;
      match BuildExperiments(ctx, b, project, experiments[..n], path)
      case Failure(e) => Failure(e)
      case Success(b') => BuildExperiment(ctx, b', project, experiments[n], path + [n])
  }

  lemma {:induction false} ExperimentsStick(ctx: Ctx, b: Batch, project: Uid, experiments: Dict<string, ExperimentDoc>, path: seq<nat>, k: nat)
    requires k <= |experiments| && BuildExperiments(ctx, b, project, experiments[..k], path).Failure?
    ensures BuildExperiments(ctx, b, project, experiments, path) == BuildExperiments(ctx, b, project, experiments[..k], path)
    decreases |experiments|
  {
    if k < |experiments| {
      var n := |experiments| - 1;
      assert experiments[..n][..k] == experiments[..k];
      ExperimentsStick(ctx, b, project, experiments[..n], path, k);
    } else {
      assert experiments[..k] == experiments;
    }
  }

  /* ---------------------------------------------------------- projects */

  /** The filter `name=...` on projects. */
  function ProjectNameIs(name: string): Project -> bool {
    (p: Project) => p.name == name
  }

  /** `Project.objects.get(name=...)`. */
  function ProjectByName(projects: seq<Project>, name: string): (r: Lookup<Project>)
    ensures r.Found? ==> r.item in projects && r.item.name == name
    ensures r.Missing? <==> forall p :: p in projects ==> p.name != name
    ensures r.Found? ==> forall p :: p in projects && p.name == name ==> p == r.item
    ensures r.Found? <==> |Seqs.Filter(projects, ProjectNameIs(name))| == 1
  {
    var matches := Seqs.Filter(projects, ProjectNameIs(name));
    if matches == [] then Missing
    else if |matches| == 1 then
      assert matches[0] in matches;
      Found(matches[0])
    else
      assert matches[0] in matches;
      Ambiguous
  }

  /** The rows as the project loop leaves them, the lists built so far, and
      the error that ended the loop, if any. */
  datatype Progress = Progress(db: Db, batch: Batch, error: Option<ImportError>)

  /** One project of the document: it must exist; its old experiments are
      deleted (this is not undone if building its new rows then fails), and
      its new rows are built with keys under position `p`. */
  function ImportProject(db: Db, b: Batch, entry: (string, ProjectDoc), p: nat, clock: Clock, epoch: nat): (r: Progress)
    ensures r.db.users == db.users && r.db.projects == db.projects && r.db.settings == db.settings && r.db.perms == db.perms
  {
    var (name, doc) := entry;
    match ProjectByName(db.projects, name)
    case Missing => Progress(db, b, Some(UnknownProject(name)))
    case Ambiguous => Progress(db, b, Some(AmbiguousProject(name)))
    case Found(project) =>
      var db' := ProjectState.DeleteExperiments(db, project.id);
      var ctx := Ctx(db.users, ArtifactNames(project, db.settings), clock, epoch);
      match BuildExperiments(ctx, b, project.id, doc.experiments, [p])
      case Failure(e) => Progress(db', b, Some(e))
      case Success(b') => Progress(db', b', None)
  }

  /** The project loop: it stops at the first error. */
  function ImportProjects(db: Db, projects: Dict<string, ProjectDoc>, clock: Clock, epoch: nat): (r: Progress)
    ensures r.db.users == db.users && r.db.projects == db.projects && r.db.settings == db.settings && r.db.perms == db.perms
    decreases |projects|
  {
    if projects == [] then Progress(db, EmptyBatch, None)
    else
      var n := |projects| - 1;
      var prev := ImportProjects(db, projects[..n], clock, epoch);
      if prev.error.Some? then prev
      else ImportProject(prev.db, prev.batch, projects[n], n, clock, epoch)
  }

  lemma {:induction false} ProjectsStick(db: Db, projects: Dict<string, ProjectDoc>, clock: Clock, epoch: nat, k: nat)
    requires k <= |projects| && ImportProjects(db, projects[..k], clock, epoch).error.Some?
    ensures ImportProjects(db, projects, clock, epoch) == ImportProjects(db, projects[..k], clock, epoch)
    decreases |projects|
  {
    if k == |projects| {
      assert projects[..k] == projects;
    } else {
      var init := projects[..|projects| - 1];
      assert init[..k] == projects[..k];
      ProjectsStick(db, init, clock, epoch, k);
      ProjectsStep(db, projects, clock, epoch);
    }
  }

  /** One step of the project loop: after an error it changes nothing,
      else it imports the next project. */
  lemma ProjectsStep(db: Db, projects: Dict<string, ProjectDoc>, clock: Clock, epoch: nat)
    requires projects != []
    ensures var n := |projects| - 1;
            var prev := ImportProjects(db, projects[..n], clock, epoch);
            ImportProjects(db, projects, clock, epoch) ==
              if prev.error.Some? then prev else ImportProject(prev.db, prev.batch, projects[n], n, clock, epoch)
  {
  }


  /* ------------------------------------------------------------ pruning */

  function ScanHasFrame(frames: seq<NewFrame>): Scan -> bool {
    (s: Scan) => exists f :: f in frames && f.frame.scan == s.id
  }

  function ExperimentHasScan(scans: seq<Scan>): Experiment -> bool {
    (e: Experiment) => exists s :: s in scans && s.experiment == e.id
  }

  /** The two list comprehensions of `perform_import`: scans without a new
      frame are dropped, then experiments without a remaining scan. The
      frames and the decisions are kept as they are. */
  function PruneAsWritten(b: Batch): (r: Batch)
    ensures r.frames == b.frames && r.decisions == b.decisions
    ensures forall s :: s in r.scans <==> s in b.scans && exists f :: f in b.frames && f.frame.scan == s.id
    ensures forall e :: e in r.experiments <==> e in b.experiments && exists s :: s in r.scans && s.experiment == e.id
  {
    var scans := Seqs.Filter(b.scans, ScanHasFrame(b.frames));
    b.(scans := scans, experiments := Seqs.Filter(b.experiments, ExperimentHasScan(scans)))
  }

  function OnScanIn(scans: seq<Scan>): ScanDecision -> bool {
    (d: ScanDecision) => exists s :: s in scans && s.id == d.scan
  }

  /** Pruning that also drops the decisions of the dropped scans. */
  function Prune(b: Batch): (r: Batch)
    ensures r.frames == b.frames && r.scans == PruneAsWritten(b).scans && r.experiments == PruneAsWritten(b).experiments
    ensures forall d :: d in r.decisions <==> d in b.decisions && exists s :: s in r.scans && s.id == d.scan
  {
    var pruned := PruneAsWritten(b);
    pruned.(decisions := Seqs.Filter(b.decisions, OnScanIn(pruned.scans)))
  }

  /** The rows after the bulk creation: every new list is appended to its
      table. */
  function BulkCreate(db: Db, b: Batch): Db {
    db.(experiments := db.experiments + b.experiments,
        scans := db.scans + b.scans,
        frames := db.frames + FramesIn(b.frames),
        decisions := db.decisions + b.decisions)
  }

  function FramesIn(frames: seq<NewFrame>): (r: seq<Frame>)
    ensures |r| == |frames|
    ensures forall i :: 0 <= i < |r| ==> r[i] == frames[i].frame
  {
    seq(|frames|, i requires 0 <= i < |frames| => frames[i].frame)
  }

  /** `(str(project id), str(frame id))` for each new frame, in order. */
  function FramePairs(frames: seq<NewFrame>): (r: seq<(Uid, Uid)>)
    ensures |r| == |frames|
    ensures forall i :: 0 <= i < |r| ==> r[i] == (frames[i].project, frames[i].frame.id)
  {
    seq(|frames|, i requires 0 <= i < |frames| => (frames[i].project, frames[i].frame.id))
  }

  /** `frames_by_project`. */
  function FramesByProject(frames: seq<NewFrame>): Dict<Uid, seq<Uid>> {
    Collect(FramePairs(frames))
  }

  /** The rows the bulk creation adds: the built lists, pruned. */
  function NewRows(db: Db, doc: ImportDoc, clock: Clock, epoch: nat): Batch {
    Prune(ImportProjects(db, doc.projects, clock, epoch).batch)
  }

  /** `perform_import`: on success the rows after the bulk creation and the
      new frame ids by project, handed to the evaluation job; on an error the
      deletions already made stay and nothing is created. */
  function PerformImport(db: Db, doc: ImportDoc, clock: Clock, epoch: nat): (r: (Db, Result<Dict<Uid, seq<Uid>>, ImportError>))
    ensures r.0.users == db.users && r.0.projects == db.projects && r.0.settings == db.settings && r.0.perms == db.perms
  {
    var progress := ImportProjects(db, doc.projects, clock, epoch);
    if progress.error.Some? then (progress.db, Failure(progress.error.value))
    else
      var b := NewRows(db, doc, clock, epoch);
      (BulkCreate(progress.db, b), Success(FramesByProject(b.frames)))
  }

  function NotOnScanIn(ids: set<Uid>): ScanDecision -> bool {
    (d: ScanDecision) => d.scan !in ids
  }

  /** `perform_import` as written: the decisions of pruned scans are passed
      to the bulk creation as well. The experiments, scans and frames are
      stored first; the decisions' insert then fails the foreign-key check
      on `scan` when some decision's scan is not a stored scan, so no
      decision of the batch is stored and no frame reaches the evaluation
      job. */
  function PerformImportAsWritten(db: Db, doc: ImportDoc, clock: Clock, epoch: nat): (r: (Db, Result<Dict<Uid, seq<Uid>>, ImportError>))
    ensures r.0.users == db.users && r.0.projects == db.projects && r.0.settings == db.settings && r.0.perms == db.perms
    ensures ImportProjects(db, doc.projects, clock, epoch).error.None? && r.1.Failure? ==>
              r.1.error.MissingScan? && r.1.error.scan !in ScanIds(r.0)
  {
    var progress := ImportProjects(db, doc.projects, clock, epoch);
    if progress.error.Some? then (progress.db, Failure(progress.error.value))
    else
      var orphans := Orphans(progress.db, progress.batch);
      if orphans != [] then (StoredBeforeDecisions(progress.db, progress.batch), Failure(MissingScan(orphans[0].scan)))
      else (BulkCreate(progress.db, PruneAsWritten(progress.batch)), Success(FramesByProject(PruneAsWritten(progress.batch).frames)))
  }

  /** What the first four bulk creations store: the pruned experiments,
      scans and frames, the same under both prunings. */
  function StoredBeforeDecisions(db: Db, b: Batch): (r: Db)
    ensures r == BulkCreate(db, Prune(b).(decisions := []))
    ensures ScanIds(r) == ScanIds(db) + NewScanIds(Prune(b))
  {
    assert PruneAsWritten(b).(decisions := []) == Prune(b).(decisions := []);
    BulkCreate(db, PruneAsWritten(b).(decisions := []))
  }

  /** The decisions, pruned as written, whose scan the foreign-key check
      does not find among the stored scans. */
  function Orphans(db: Db, b: Batch): (r: seq<ScanDecision>)
    ensures forall d :: d in r <==> d in b.decisions && d.scan !in ScanIds(StoredBeforeDecisions(db, b))
  {
    Seqs.Filter(PruneAsWritten(b).decisions, NotOnScanIn(ScanIds(StoredBeforeDecisions(db, b))))
  }

  /* ------------------------------------------- properties of the import */

  /** A project the document names that is not exactly one existing project
      stops the project loop with an error. */
  lemma UnknownProjectStops(db: Db, projects: Dict<string, ProjectDoc>, clock: Clock, epoch: nat, k: nat)
    requires k < |projects| && !ProjectByName(db.projects, projects[k].0).Found?
    ensures ImportProjects(db, projects, clock, epoch).error.Some?
  {
    var upTo := projects[..k + 1];
    assert upTo[..k] == projects[..k];
    ProjectsStep(db, upTo, clock, epoch);
    var prev := ImportProjects(db, projects[..k], clock, epoch);
    if prev.error.None? {
      UnknownProjectRefused(prev.db, prev.batch, projects[k], k, clock, epoch);
    }
    ProjectsStick(db, projects, clock, epoch, k + 1);
  }

  lemma UnknownProjectRefused(db: Db, b: Batch, entry: (string, ProjectDoc), p: nat, clock: Clock, epoch: nat)
    requires !ProjectByName(db.projects, entry.0).Found?
    ensures ImportProject(db, b, entry, p, clock, epoch).error.Some?
  {
  }

  /** An import succeeds only when every project it names exists, once. */
  lemma ImportNeedsProjects(db: Db, doc: ImportDoc, clock: Clock, epoch: nat)
    ensures PerformImport(db, doc, clock, epoch).1.Success? ==>
              forall k :: 0 <= k < |doc.projects| ==> ProjectByName(db.projects, doc.projects[k].0).Found?
  {
    forall k | 0 <= k < |doc.projects| && !ProjectByName(db.projects, doc.projects[k].0).Found?
      ensures PerformImport(db, doc, clock, epoch).1.Failure?
    {
      UnknownProjectStops(db, doc.projects, clock, epoch, k);
    }
  }

  /** The ids of the existing projects whose names the document uses. */
  predicate Named(projects: seq<Project>, names: seq<string>, id: Uid) {
    exists p :: p in projects && p.id == id && p.name in names
  }

  /** After the project loop the experiments are the old ones of the
      projects the document does not name. */
  lemma {:induction false} ImportDeletesExperiments(db: Db, projects: Dict<string, ProjectDoc>, clock: Clock, epoch: nat)
    ensures var r := ImportProjects(db, projects, clock, epoch);
            r.error.None? ==>
              forall e :: e in r.db.experiments <==> e in db.experiments && !Named(db.projects, Keys(projects), e.project)
    decreases |projects|
  {
    if projects != [] {
      var n := |projects| - 1;
      ImportDeletesExperiments(db, projects[..n], clock, epoch);
      assert Keys(projects) == Keys(projects[..n]) + [projects[n].0];
      var prev := ImportProjects(db, projects[..n], clock, epoch);
      var r := ImportProjects(db, projects, clock, epoch);
      if prev.error.None? && r.error.None? {
        var lookup := ProjectByName(db.projects, projects[n].0);
        assert lookup.Found?;
        var project := lookup.item;
        assert r.db == ProjectState.DeleteExperiments(prev.db, project.id).(experiments := r.db.experiments);
        forall e
          ensures e in r.db.experiments <==> e in db.experiments && !Named(db.projects, Keys(projects), e.project)
        {
          if Named(db.projects, Keys(projects), e.project) && !Named(db.projects, Keys(projects[..n]), e.project) {
            var p :| p in db.projects && p.id == e.project && p.name in Keys(projects);
            assert p == project;
          }
          if e.project == project.id {
            assert Named(db.projects, Keys(projects), e.project);
          }
        }
      }
    }
  }

  /** A successful import replaces the experiments of the projects it names
      by the new ones and keeps every other experiment; it creates no
      project. */
  lemma ImportReplacesExperiments(db: Db, doc: ImportDoc, clock: Clock, epoch: nat)
    ensures var (db', result) := PerformImport(db, doc, clock, epoch);
            && db'.projects == db.projects
            && (result.Success? ==>
                  forall e :: e in db'.experiments <==>
                                (e in db.experiments && !Named(db.projects, Keys(doc.projects), e.project))
                                || e in NewRows(db, doc, clock, epoch).experiments)
  {
    ImportDeletesExperiments(db, doc.projects, clock, epoch);
  }

  /** On success every decision of the list imports; those with a known code
      are kept, and every kept row comes from one of them. */
  lemma DecisionsKept(ctx: Ctx, docs: seq<DecisionDoc>, scan: Uid, scanPath: seq<nat>)
    ensures var r := DecisionsOf(ctx, docs, scan, scanPath);
            r.Success? ==>
              && (forall k :: 0 <= k < |docs| ==>
                    var d := ImportDecision(ctx, docs[k], scan, NewId(ctx.epoch, DecisionKind, scanPath + [k]));
                    d.Success? && (IsDecisionCode(docs[k].decision) ==> d.value.value in r.value))
              && (forall d :: d in r.value ==>
                    exists k :: 0 <= k < |docs| &&
                      ImportDecision(ctx, docs[k], scan, NewId(ctx.epoch, DecisionKind, scanPath + [k])) == Success(Some(d)))
  {
    GatherAll(DecisionAt(ctx, scan, scanPath), docs);
    GatherFrom(DecisionAt(ctx, scan, scanPath), docs);
  }

  /** A `last_decision` decides alone what the scan's decisions are: the
      scan's `decisions` list plays no part. */
  lemma LastDecisionWins(ctx: Ctx, b: Batch, project: Uid, experiment: Uid, name: string, doc: ScanDoc, path: seq<nat>)
    requires doc.lastDecision.Some?
    ensures var r := BuildScan(ctx, b, project, experiment, (name, doc), path);
            var d := ImportDecision(ctx, doc.lastDecision.value, NewId(ctx.epoch, ScanKind, path), NewId(ctx.epoch, DecisionKind, path + [0]));
            && (r.Success? <==> d.Success?)
            && (r.Success? ==> r.value.decisions == b.decisions + (if d.value.Some? then [d.value.value] else []))
  {
    var docs := [doc.lastDecision.value];
    var id := NewId(ctx.epoch, ScanKind, path);
    assert EffectiveDecisions(doc) == docs;
    assert docs[..0] == [];
    assert DecisionsOf(ctx, docs[..0], id, path) == Success([]);
  }

  /** Every frame entry with a file location becomes a frame. */
  lemma {:induction false} FramesKept(frames: Dict<nat, string>, scan: Uid, epoch: nat, scanPath: seq<nat>, k: nat)
    requires k < |frames| && frames[k].1 != ""
    ensures Frame(NewId(epoch, FrameKind, scanPath + [k]), frames[k].0, frames[k].1, scan) in FramesOf(frames, scan, epoch, scanPath)
    decreases |frames|
  {
    var n := |frames| - 1;
    if k < n {
      assert frames[..n][k] == frames[k];
      FramesKept(frames[..n], scan, epoch, scanPath, k);
    }
  }

  /** `frames_by_project` lists under each project id the ids of the new
      frames of that project, in order; each new frame id is listed under its
      own project, and all lists together hold the new frame ids exactly as
      often as there are new frames with them. */
  lemma FramesGrouped(frames: seq<NewFrame>)
    ensures forall k :: ListAt(FramesByProject(frames), k) == ValuesOf(FramePairs(frames), k)
    ensures forall f :: f in frames ==> f.frame.id in ListAt(FramesByProject(frames), f.project)
    ensures forall k, id :: id in ListAt(FramesByProject(frames), k) ==>
              exists f :: f in frames && f.project == k && f.frame.id == id
    ensures multiset(AllValues(FramesByProject(frames))) == multiset(Seconds(FramePairs(frames)))
  {
    var pairs := FramePairs(frames);
    GroupsAreValues(pairs);
    CollectKeepsEveryValue(pairs);
    forall f | f in frames
      ensures f.frame.id in ListAt(FramesByProject(frames), f.project)
    {
      var i :| 0 <= i < |frames| && frames[i] == f;
      assert pairs[i] == (f.project, f.frame.id);
      ValuesOfExactly(pairs, f.project, f.frame.id);
    }
    forall k, id | id in ListAt(FramesByProject(frames), k)
      ensures exists f :: f in frames && f.project == k && f.frame.id == id
    {
      ValuesOfExactly(pairs, k, id);
      var i :| 0 <= i < |pairs| && pairs[i] == (k, id);
      assert frames[i] in frames;
    }
  }

  lemma GroupsAreValues(pairs: seq<(Uid, Uid)>)
    ensures forall k :: ListAt(Collect(pairs), k) == ValuesOf(pairs, k)
  {
    CollectLookup(pairs);
  }

  /* ---------------------------------------------- references of new rows */

  function NewExperimentIds(b: Batch): set<Uid> { set e | e in b.experiments :: e.id }
  function NewScanIds(b: Batch): set<Uid> { set s | s in b.scans :: s.id }

  /** The references of the new rows: experiments point at existing projects
      and carry no lock, scans at new experiments, frames and decisions at
      new scans, and creators at existing users. */
  predicate Linked(b: Batch, projects: set<Uid>, users: set<Uid>) {
    && (forall e :: e in b.experiments ==> e.project in projects && e.lockOwner.None?)
    && (forall s :: s in b.scans ==> s.experiment in NewExperimentIds(b))
    && (forall f :: f in b.frames ==> f.frame.scan in NewScanIds(b))
    && (forall d :: d in b.decisions ==> d.scan in NewScanIds(b))
    && (forall d :: d in b.decisions && d.creator.Some? ==> d.creator.value in users)
  }

  lemma BuildScanLinked(ctx: Ctx, b: Batch, project: Uid, experiment: Uid, entry: (string, ScanDoc), scanPath: seq<nat>, projects: set<Uid>, users: set<Uid>)
    requires Linked(b, projects, users) && experiment in NewExperimentIds(b)
    requires forall u :: u in ctx.users ==> u.id in users
    ensures var r := BuildScan(ctx, b, project, experiment, entry, scanPath);
            r.Success? ==> Linked(r.value, projects, users)
  {
    var r := BuildScan(ctx, b, project, experiment, entry, scanPath);
    if r.Success? {
      var id := NewId(ctx.epoch, ScanKind, scanPath);
      var frames := FramesOf(entry.1.frames, id, ctx.epoch, scanPath);
      assert r.value.frames == b.frames + WithProject(frames, project);
      assert NewExperimentIds(r.value) == NewExperimentIds(b);
      assert id in NewScanIds(r.value);
      assert NewScanIds(b) <= NewScanIds(r.value);
      forall f | f in WithProject(frames, project) ensures f.frame.scan == id {
        var i :| 0 <= i < |WithProject(frames, project)| && WithProject(frames, project)[i] == f;
        assert frames[i] in frames;
      }
    }
  }

  lemma {:induction false} BuildScansLinked(ctx: Ctx, b: Batch, project: Uid, experiment: Uid, scans: Dict<string, ScanDoc>, path: seq<nat>,
                                            projects: set<Uid>, users: set<Uid>)
    requires Linked(b, projects, users) && experiment in NewExperimentIds(b)
    requires forall u :: u in ctx.users ==> u.id in users
    ensures var r := BuildScans(ctx, b, project, experiment, scans, path);
            r.Success? ==> Linked(r.value, projects, users)
    decreases |scans|
  {
    if scans != [] {
      var n := |scans| - 1;
      BuildScansLinked(ctx, b, project, experiment, scans[..n], path, projects, users);
      var prev := BuildScans(ctx, b, project, experiment, scans[..n], path);
      if prev.Success? {
        assert NewExperimentIds(prev.value) == NewExperimentIds(b);
        BuildScanLinked(ctx, prev.value, project, experiment, scans[n], path + [n], projects, users);
      }
    }
  }

  lemma BuildExperimentLinked(ctx: Ctx, b: Batch, project: Uid, entry: (string, ExperimentDoc), path: seq<nat>, projects: set<Uid>, users: set<Uid>)
    requires Linked(b, projects, users) && project in projects
    requires forall u :: u in ctx.users ==> u.id in users
    ensures var r := BuildExperiment(ctx, b, project, entry, path);
            r.Success? ==> Linked(r.value, projects, users)
  {
    var e := Experiment(NewId(ctx.epoch, ExperimentKind, path), entry.0, entry.1.notes, project, None);
    var b' := b.(experiments := b.experiments + [e]);
    assert NewScanIds(b') == NewScanIds(b);
    assert e.id in NewExperimentIds(b');
    assert NewExperimentIds(b) <= NewExperimentIds(b');
    BuildScansLinked(ctx, b', project, e.id, entry.1.scans, path, projects, users);
  }

  lemma {:induction false} BuildExperimentsLinked(ctx: Ctx, b: Batch, project: Uid, experiments: Dict<string, ExperimentDoc>, path: seq<nat>,
                                                  projects: set<Uid>, users: set<Uid>)
    requires Linked(b, projects, users) && project in projects
    requires forall u :: u in ctx.users ==> u.id in users
    ensures var r := BuildExperiments(ctx, b, project, experiments, path);
            r.Success? ==> Linked(r.value, projects, users)
    decreases |experiments|
  {
    if experiments != [] {
      var n := |experiments| - 1;
      BuildExperimentsLinked(ctx, b, project, experiments[..n], path, projects, users);
      var prev := BuildExperiments(ctx, b, project, experiments[..n], path);
      if prev.Success? {
        BuildExperimentLinked(ctx, prev.value, project, experiments[n], path + [n], projects, users);
      }
    }
  }

  /** The project loop keeps the rows valid and builds new rows that point
      only at existing projects and users and at each other. */
  lemma {:induction false} ImportProjectsLinked(db: Db, projects: Dict<string, ProjectDoc>, clock: Clock, epoch: nat)
    requires Valid(db)
    ensures var r := ImportProjects(db, projects, clock, epoch);
            && Valid(r.db)
            && (r.error.None? ==> Linked(r.batch, ProjectIds(db), UserIds(db)))
    decreases |projects|
  {
    if projects != [] {
      var n := |projects| - 1;
      ImportProjectsLinked(db, projects[..n], clock, epoch);
      var prev := ImportProjects(db, projects[..n], clock, epoch);
      if prev.error.None? {
        assert prev.db.projects == db.projects && prev.db.users == db.users;
        var lookup := ProjectByName(db.projects, projects[n].0);
        if lookup.Found? {
          var project := lookup.item;
          ProjectState.DeleteExperimentsKeepsValid(prev.db, project.id);
          var ctx := Ctx(db.users, ArtifactNames(project, db.settings), clock, epoch);
          BuildExperimentsLinked(ctx, prev.batch, project.id, projects[n].1.experiments, [n], ProjectIds(db), UserIds(db));
        }
      }
    }
  }

  /** Pruning keeps the new rows pointing at each other: a kept scan's
      experiment and a frame's scan are kept. */
  lemma PruneLinked(b: Batch, projects: set<Uid>, users: set<Uid>)
    requires Linked(b, projects, users)
    ensures Linked(Prune(b), projects, users)
  {
    var r := Prune(b);
    forall s | s in r.scans ensures s.experiment in NewExperimentIds(r) {
      KeptScanKeepsExperiment(b, s);
    }
    forall f | f in r.frames ensures f.frame.scan in NewScanIds(r) {
      FrameKeepsScan(b, f);
    }
    forall d | d in r.decisions ensures d.scan in NewScanIds(r) {
      KeptDecisionKeepsScan(b, d);
    }
  }

  lemma KeptScanKeepsExperiment(b: Batch, s: Scan)
    requires s in Prune(b).scans && s.experiment in NewExperimentIds(b)
    ensures s.experiment in NewExperimentIds(Prune(b))
  {
    var e :| e in b.experiments && e.id == s.experiment;
    assert e in Prune(b).experiments;
  }

  lemma FrameKeepsScan(b: Batch, f: NewFrame)
    requires f in Prune(b).frames && f.frame.scan in NewScanIds(b)
    ensures f.frame.scan in NewScanIds(Prune(b))
  {
    var s :| s in b.scans && s.id == f.frame.scan;
    assert s in Prune(b).scans;
  }

  lemma KeptDecisionKeepsScan(b: Batch, d: ScanDecision)
    requires d in Prune(b).decisions
    ensures d.scan in NewScanIds(Prune(b))
  {
    assert exists s :: s in Prune(b).scans && s.id == d.scan;
  }

  /** Appending new rows that point at existing projects and users and at
      each other keeps every reference valid. */
  lemma BulkCreateKeepsValid(db: Db, b: Batch)
    requires Valid(db) && Linked(b, ProjectIds(db), UserIds(db))
    ensures Valid(BulkCreate(db, b))
  {
    var r := BulkCreate(db, b);
    assert ExperimentIds(db) <= ExperimentIds(r) && NewExperimentIds(b) <= ExperimentIds(r);
    assert ScanIds(db) <= ScanIds(r) && NewScanIds(b) <= ScanIds(r);
    assert FrameIds(db) <= FrameIds(r);
    assert ProjectIds(r) == ProjectIds(db) && UserIds(r) == UserIds(db);
    forall f | f in r.frames ensures f.scan in ScanIds(r) {
      if f !in db.frames {
        var i :| 0 <= i < |FramesIn(b.frames)| && FramesIn(b.frames)[i] == f;
        assert b.frames[i] in b.frames;
      }
    }
  }

  /** An import keeps every reference valid: the deletions take whole
      subtrees, and the created rows point at existing projects and users and
      at each other. */
  lemma ImportKeepsValid(db: Db, doc: ImportDoc, clock: Clock, epoch: nat)
    requires Valid(db)
    ensures Valid(PerformImport(db, doc, clock, epoch).0)
  {
    var progress := ImportProjects(db, doc.projects, clock, epoch);
    ImportProjectsLinked(db, doc.projects, clock, epoch);
    if progress.error.None? {
      PruneLinked(progress.batch, ProjectIds(db), UserIds(db));
      assert ProjectIds(progress.db) == ProjectIds(db) && UserIds(progress.db) == UserIds(db);
      BulkCreateKeepsValid(progress.db, NewRows(db, doc, clock, epoch));
    }
  }

  /* --------------------------------------------- decisions of pruned scans */

  /** A scan document with one `U` decision and one frame without a file
      location. */
  const FramelessScan: ScanDoc :=
    ScanDoc("T1", None, None, None, [DecisionDoc("U", None, None, None, None, None)], None, [(0, "")])

  /** A project named `demo` with one experiment holding only that scan. */
  const FramelessDoc: ImportDoc :=
    ImportDoc([("demo", ProjectDoc([("exp", ExperimentDoc("", [("scan", FramelessScan)]))]))])

  function DemoProject(): Project {
    Project([0], "demo", [0], "", "", false, NotMapping, None, None, None, None)
  }

  /** Rows with only the `demo` project. */
  function DemoDb(): (db: Db)
    ensures Valid(db)
  {
    Db([], [DemoProject()], [], [], [], [], [], [], {})
  }

  /** When the corrected pruning drops no decision, nothing is orphaned
      and both prunings give the same rows. */
  lemma {:induction false} NoneDroppedNoOrphans(db: Db, b: Batch)
    requires forall d :: d in b.decisions ==> d in Prune(b).decisions
    ensures Orphans(db, b) == [] && PruneAsWritten(b) == Prune(b)
  {
    forall d | d in b.decisions ensures OnScanIn(Prune(b).scans)(d) {
      assert d in Prune(b).decisions;
    }
    Seqs.FilterAll(b.decisions, OnScanIn(Prune(b).scans));
    var stored := ScanIds(StoredBeforeDecisions(db, b));
    forall d | d in PruneAsWritten(b).decisions ensures !NotOnScanIn(stored)(d) {
      var sc :| sc in Prune(b).scans && sc.id == d.scan;
      assert d.scan in NewScanIds(Prune(b));
    }
    Seqs.FilterNone(PruneAsWritten(b).decisions, NotOnScanIn(stored));
  }

  /** An orphaned decision is one the corrected pruning drops; a dropped
      decision whose scan key is not already stored is orphaned. */
  lemma OrphanIsDropped(db: Db, b: Batch, d: ScanDecision)
    ensures d in Orphans(db, b) ==> d in b.decisions && d !in Prune(b).decisions
    ensures d in b.decisions && d !in Prune(b).decisions && d.scan !in ScanIds(db) ==> d in Orphans(db, b)
  {
    if d in Prune(b).decisions {
      var sc :| sc in Prune(b).scans && sc.id == d.scan;
      assert d.scan in NewScanIds(Prune(b));
    }
  }

  /** The import as written agrees with the corrected import when the
      corrected pruning drops no decision. */
  lemma AsWrittenAgreesUnlessDecisionDropped(db: Db, doc: ImportDoc, clock: Clock, epoch: nat)
    requires ImportProjects(db, doc.projects, clock, epoch).error.None?
    requires var b := ImportProjects(db, doc.projects, clock, epoch).batch;
             forall d :: d in b.decisions ==> d in Prune(b).decisions
    ensures PerformImportAsWritten(db, doc, clock, epoch) == PerformImport(db, doc, clock, epoch)
  {
    var progress := ImportProjects(db, doc.projects, clock, epoch);
    NoneDroppedNoOrphans(progress.db, progress.batch);
    assert NewRows(db, doc, clock, epoch) == PruneAsWritten(progress.batch);
  }

  /** When the import as written fails at the decisions' insert, it has
      stored what the corrected import stores except the batch's decisions,
      and the corrected pruning drops some decision. */
  lemma AsWrittenFailureStoresPrunedRows(db: Db, doc: ImportDoc, clock: Clock, epoch: nat)
    requires ImportProjects(db, doc.projects, clock, epoch).error.None?
    requires PerformImportAsWritten(db, doc, clock, epoch).1.Failure?
    ensures var progress := ImportProjects(db, doc.projects, clock, epoch);
            && PerformImportAsWritten(db, doc, clock, epoch).0 == BulkCreate(progress.db, Prune(progress.batch).(decisions := []))
            && exists d :: d in progress.batch.decisions && d !in Prune(progress.batch).decisions
  {
    var progress := ImportProjects(db, doc.projects, clock, epoch);
    var orphans := Orphans(progress.db, progress.batch);
    assert orphans != [];
    OrphanIsDropped(progress.db, progress.batch, orphans[0]);
  }

  /** A decision the corrected pruning drops, whose scan key is not already
      stored, makes the import as written fail. */
  lemma DroppedDecisionFailsAsWritten(db: Db, doc: ImportDoc, clock: Clock, epoch: nat, d: ScanDecision)
    requires ImportProjects(db, doc.projects, clock, epoch).error.None?
    requires var progress := ImportProjects(db, doc.projects, clock, epoch);
             d in progress.batch.decisions && d !in Prune(progress.batch).decisions && d.scan !in ScanIds(progress.db)
    ensures PerformImportAsWritten(db, doc, clock, epoch).1.Failure?
  {
    var progress := ImportProjects(db, doc.projects, clock, epoch);
    OrphanIsDropped(progress.db, progress.batch, d);
    assert Orphans(progress.db, progress.batch) != [];
  }

  /** A clock under which no date parses. */
  function StoppedClock(): Clock {
    Clock((t: string) => None, 0, false)
  }

  /** The project loop over that document succeeds on rows with only the
      `demo` project and builds one scan, no frame and one decision on that
      scan. */
  lemma FramelessDocBuilt()
    ensures var progress := ImportProjects(DemoDb(), FramelessDoc.projects, StoppedClock(), 1);
            && progress.error.None?
            && progress.db.scans == [] && progress.db.decisions == []
            && progress.batch.frames == [] && |progress.batch.scans| == 1 && |progress.batch.decisions| == 1
            && progress.batch.decisions[0].scan == progress.batch.scans[0].id
  {
    var clock := StoppedClock();
    var db := DemoDb();
    var project := DemoProject();
    assert ProjectByName(db.projects, "demo") == Found(project) by {
      assert project in db.projects;
    }
    var ctx := Ctx(db.users, ArtifactNames(project, db.settings), clock, 1);
    var e := Experiment(NewId(1, ExperimentKind, [0, 0]), "exp", "", project.id, None);
    var built := FramelessScanBuilt(ctx, EmptyBatch.(experiments := [e]), project.id, e.id);
    assert [0, 0] + [0] == [0, 0, 0] && [0] + [0] == [0, 0];
    SingleScan(ctx, EmptyBatch.(experiments := [e]), project.id, e.id, [("scan", FramelessScan)], [0, 0]);
    var pdoc := ProjectDoc([("exp", ExperimentDoc("", [("scan", FramelessScan)]))]);
    SingleExperiment(ctx, EmptyBatch, project.id, pdoc.experiments, [0]);
    assert EmptyBatch.(experiments := EmptyBatch.experiments + [e]) == EmptyBatch.(experiments := [e]);
    assert BuildExperiment(ctx, EmptyBatch, project.id, pdoc.experiments[0], [0, 0]) ==
           BuildScans(ctx, EmptyBatch.(experiments := [e]), project.id, e.id, [("scan", FramelessScan)], [0, 0]);
    assert BuildExperiments(ctx, EmptyBatch, project.id, pdoc.experiments, [0]) == Success(built);
    var deleted := ProjectState.DeleteExperiments(db, project.id);
    assert deleted.scans == [] && deleted.decisions == [];
    SingleProject(db, FramelessDoc.projects, clock, 1);
    assert ImportProjects(db, FramelessDoc.projects, clock, 1) == Progress(deleted, built, None);
  }

  /** Importing that document as written stores what the corrected import
      stores (the frameless scan and its experiment are pruned, so nothing is
      created), but the decisions' insert fails on the missing scan, so the
      import reports an error and no frame reaches the evaluation job; the
      corrected import succeeds and the rows stay valid. */
  lemma AsWrittenFailsOnDroppedScan()
    ensures && PerformImportAsWritten(DemoDb(), FramelessDoc, StoppedClock(), 1).1.Failure?
            && PerformImportAsWritten(DemoDb(), FramelessDoc, StoppedClock(), 1).1.error.MissingScan?
            && PerformImportAsWritten(DemoDb(), FramelessDoc, StoppedClock(), 1).0 == PerformImport(DemoDb(), FramelessDoc, StoppedClock(), 1).0
            && PerformImport(DemoDb(), FramelessDoc, StoppedClock(), 1).1.Success?
            && PerformImport(DemoDb(), FramelessDoc, StoppedClock(), 1).0.decisions == []
            && Valid(PerformImport(DemoDb(), FramelessDoc, StoppedClock(), 1).0)
  {
    var clock := StoppedClock();
    var db := DemoDb();
    FramelessDocBuilt();
    var progress := ImportProjects(db, FramelessDoc.projects, clock, 1);
    var built := progress.batch;
    var s := built.scans[0];
    assert built.scans == [s];
    ScanWithoutFrameIsPruned(built, s);
    var d := built.decisions[0];
    assert built.decisions == [d];
    Seqs.FilterNone([d], OnScanIn(Prune(built).scans));
    assert d in built.decisions && d !in Prune(built).decisions;
    assert d.scan !in ScanIds(progress.db);
    DroppedDecisionFailsAsWritten(db, FramelessDoc, clock, 1, d);
    AsWrittenFailureStoresPrunedRows(db, FramelessDoc, clock, 1);
    assert Prune(built).(decisions := []) == Prune(built);
    ImportKeepsValid(db, FramelessDoc, clock, 1);
  }

  /** The scan document above, built under an experiment: one scan, no
      frame, one decision on the scan. */
  lemma FramelessScanBuilt(ctx: Ctx, b: Batch, project: Uid, experiment: Uid) returns (r: Batch)
    requires ctx.epoch == 1 && b.scans == [] && b.frames == [] && b.decisions == []
    ensures BuildScan(ctx, b, project, experiment, ("scan", FramelessScan), [0, 0, 0]) == Success(r)
    ensures r.experiments == b.experiments && |r.scans| == 1 && r.frames == [] && |r.decisions| == 1
    ensures r.decisions[0].scan == r.scans[0].id && r.scans[0].experiment == experiment
  {
    var ddoc := FramelessScan.decisions[0];
    var scanId := NewId(1, ScanKind, [0, 0, 0]);
    var decision := ImportDecision(ctx, ddoc, scanId, NewId(1, DecisionKind, [0, 0, 0, 0]));
    assert decision.Success? && decision.value.Some? by {
      assert IsDecisionCode("U") by { DecisionCodesExactly("U"); }
    }
    var d := decision.value.value;
    assert [0, 0, 0] + [0] == [0, 0, 0, 0];
    SingleDecision(ctx, ddoc, scanId, [0, 0, 0]);
    assert EffectiveDecisions(FramelessScan) == [ddoc];
    assert FramesOf(FramelessScan.frames, scanId, 1, [0, 0, 0]) == [] by {
      assert FramelessScan.frames[0].1 == "";
    }
    assert DecisionsOf(ctx, EffectiveDecisions(FramelessScan), scanId, [0, 0, 0]) == Success([d]);
    var s := Scan(scanId, "scan", FramelessScan.scanType, experiment, None, None, None);
    r := b.(scans := [s], decisions := [d]);
    assert WithProject([], project) == [];
    assert b.scans + [s] == [s] && b.decisions + [d] == [d] && b.frames + [] == [];
  }

  lemma ScanWithoutFrameIsPruned(b: Batch, s: Scan)
    requires b.frames == [] && b.scans == [s]
    ensures PruneAsWritten(b).scans == [] && Prune(b).scans == []
  {
    Seqs.FilterNone(b.scans, ScanHasFrame(b.frames));
  }

  lemma SingleDecision(ctx: Ctx, doc: DecisionDoc, scan: Uid, scanPath: seq<nat>)
    ensures ImportDecision(ctx, doc, scan, NewId(ctx.epoch, DecisionKind, scanPath + [0])).Failure? ==>
              DecisionsOf(ctx, [doc], scan, scanPath) == Failure(ImportDecision(ctx, doc, scan, NewId(ctx.epoch, DecisionKind, scanPath + [0])).error)
    ensures ImportDecision(ctx, doc, scan, NewId(ctx.epoch, DecisionKind, scanPath + [0])) == Success(None) ==>
              DecisionsOf(ctx, [doc], scan, scanPath) == Success([])
    ensures ImportDecision(ctx, doc, scan, NewId(ctx.epoch, DecisionKind, scanPath + [0])).Success? &&
            ImportDecision(ctx, doc, scan, NewId(ctx.epoch, DecisionKind, scanPath + [0])).value.Some? ==>
              DecisionsOf(ctx, [doc], scan, scanPath) == Success([ImportDecision(ctx, doc, scan, NewId(ctx.epoch, DecisionKind, scanPath + [0])).value.value])
  {
    assert [doc][..0] == [];
    assert Gather(DecisionAt(ctx, scan, scanPath), [doc][..0]) == Success([]);
    match ImportDecision(ctx, doc, scan, NewId(ctx.epoch, DecisionKind, scanPath + [0]))
    case Failure(_) =>
    case Success(None) =>
    case Success(Some(d)) => assert [] + [d] == [d];
  }

  lemma SingleScan(ctx: Ctx, b: Batch, project: Uid, experiment: Uid, scans: Dict<string, ScanDoc>, path: seq<nat>)
    requires |scans| == 1
    ensures BuildScans(ctx, b, project, experiment, scans, path) == BuildScan(ctx, b, project, experiment, scans[0], path + [0])
  {
    assert scans[..0] == [];
  }

  lemma SingleExperiment(ctx: Ctx, b: Batch, project: Uid, experiments: Dict<string, ExperimentDoc>, path: seq<nat>)
    requires |experiments| == 1
    ensures BuildExperiments(ctx, b, project, experiments, path) == BuildExperiment(ctx, b, project, experiments[0], path + [0])
  {
    assert experiments[..0] == [];
  }

  lemma SingleProject(db: Db, projects: Dict<string, ProjectDoc>, clock: Clock, epoch: nat)
    requires |projects| == 1
    ensures ImportProjects(db, projects, clock, epoch) == ImportProject(db, EmptyBatch, projects[0], 0, clock, epoch)
  {
    assert projects[..0] == [];
  }
}
