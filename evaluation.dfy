/** `evaluate_data`: the frames an import created, listed by project, are
    grouped by the evaluation model their scan type maps to, and each group
    is evaluated with that model's file and predictions. Whether a frame's
    file can be read (an S3 frame, or a local path that exists) is the given
    predicate `eligible`; loading the model, downloading files and the
    inference itself are not modelled, so an evaluation row records only
    its frame and model. */
module Evaluating {
  import opened Wrappers
  import opened Entities
  import opened Dicts
  import opened Projects
  import opened Records
  import opened Settings

  datatype EvalError =
    | NoSuchProject(id: Uid)               // Project.DoesNotExist
    | NoSuchFrame(id: Uid)                 // Frame.DoesNotExist
    | NoSuchScan(id: Uid)                  // a frame whose scan row is missing
    | UnmappedScanType(scanType: string)   // KeyError on model_source_type_mappings
    | UnmappedModel(model: string)         // KeyError on model_mappings
    | NoPredictions(model: string)         // KeyError on model_predictions

  /* ------------------------------------------------------------ grouping */

  /** Where one listed frame goes, given the `model_source_type_mappings` of
      the project it is listed under: nowhere when its file cannot be read,
      else to the model its scan type maps to. */
  function Placement(db: Db, mappings: Dict<string, string>, id: Uid, eligible: Frame -> bool): (r: Result<Option<(string, Frame)>, EvalError>)
    ensures r.Success? && r.value.Some? ==> FindFrame(db.frames, id) == Some(r.value.value.1) && eligible(r.value.value.1)
    ensures r == Success(None) <==> FindFrame(db.frames, id).Some? && !eligible(FindFrame(db.frames, id).value)
  {
    match FindFrame(db.frames, id)
    case None => Failure(NoSuchFrame(id))
    case Some(f) =>
      if !eligible(f) then Success(None)
      else
        match FindScan(db.scans, f.scan)
        case None => Failure(NoSuchScan(f.scan))
        case Some(s) =>
          match Get(mappings, s.scanType)
          case None => Failure(UnmappedScanType(s.scanType))
          case Some(m) => Success(Some((m, f)))
  }

  /** A placed frame goes to the model of its scan's type. */
  lemma PlacedByScanType(db: Db, mappings: Dict<string, string>, id: Uid, eligible: Frame -> bool, m: string, f: Frame)
    requires Placement(db, mappings, id, eligible) == Success(Some((m, f)))
    ensures exists s :: s in db.scans && s.id == f.scan && Get(mappings, s.scanType) == Some(m)
  {
    assert FindScan(db.scans, f.scan).Some?;
  }

  /** `model_source_type_mappings` as a function of the project. */
  function SourceTypeMappings(settings: seq<Setting>): Project -> Dict<string, string> {
    (p: Project) => ModelSourceTypeMappings(p, settings)
  }

  /** `Placement` under one project's mappings, as a function of the frame
      key. */
  function PlaceIn(db: Db, mappings: Dict<string, string>, eligible: Frame -> bool): Uid -> Result<Option<(string, Frame)>, EvalError> {
    (id: Uid) => Placement(db, mappings, id, eligible)
  }

  /** The loop over one project's frame list: the results of `place` that are
      some value, in order; the first failure ends the loop. */
  function Assign<X>(place: Uid -> Result<Option<X>, EvalError>, ids: seq<Uid>): Result<seq<X>, EvalError>
    decreases |ids|
  {
    if ids == [] then Success([])
    else
      var n := |ids| - 1;
      match Assign(place, ids[..n])
      case Failure(e) => Failure(e)
      case Success(ps) =>
        match place(ids[n])
        case Failure(e) => Failure(e)
        case Success(None) => Success(ps)
        case Success(Some(x)) => Success(ps + [x])
  }

  /** The loop keeps exactly the values placed, and fails exactly when some
      frame fails. */
  lemma {:induction false} AssignPlaces<X>(place: Uid -> Result<Option<X>, EvalError>, ids: seq<Uid>)
    ensures Assign(place, ids).Success? <==> forall i :: 0 <= i < |ids| ==> place(ids[i]).Success?
    ensures Assign(place, ids).Success? ==> forall x :: x in Assign(place, ids).value <==>
              exists i :: 0 <= i < |ids| && place(ids[i]) == Success(Some(x))
    decreases |ids|
  {
    if ids != [] {
      var n := |ids| - 1;
      var init := ids[..n];
      AssignPlaces(place, init);
      assert forall i :: 0 <= i < n ==> init[i] == ids[i];
      if Assign(place, ids).Success? {
        var ps := Assign(place, init).value;
        forall x ensures x in Assign(place, ids).value <==> exists i :: 0 <= i < |ids| && place(ids[i]) == Success(Some(x)) {
          if exists i :: 0 <= i < |ids| && place(ids[i]) == Success(Some(x)) {
            var i :| 0 <= i < |ids| && place(ids[i]) == Success(Some(x));
            if i < n {
              assert place(init[i]) == Success(Some(x));
            }
          }
        }
      }
    }
  }

  lemma {:induction false} AssignStick<X>(place: Uid -> Result<Option<X>, EvalError>, ids: seq<Uid>, k: nat)
    requires k <= |ids| && Assign(place, ids[..k]).Failure?
    ensures Assign(place, ids) == Assign(place, ids[..k])
    decreases |ids|
  {
    if k < |ids| {
      var n := |ids| - 1;
      assert ids[..n][..k] == ids[..k];
      AssignStick(place, ids[..n], k);
    } else {
      assert ids[..k] == ids;
    }
  }

  /** `Project.objects.get(id=...)` as a function of the key. */
  function FindIn(db: Db): Uid -> Option<Project> {
    (id: Uid) => FindProject(db, id)
  }

  /** The placement of the frames listed under a project. */
  function PlaceUnder(db: Db, mappingsOf: Project -> Dict<string, string>, eligible: Frame -> bool): Project -> Uid -> Result<Option<(string, Frame)>, EvalError> {
    (p: Project) => PlaceIn(db, mappingsOf(p), eligible)
  }

  /** A value one entry of the project loop contributes: the entry's project
      is found and one of its listed frames is placed at the value. */
  predicate Placed<P, X(==)>(find: Uid -> Option<P>, place: P -> Uid -> Result<Option<X>, EvalError>, entry: (Uid, seq<Uid>), x: X) {
    && find(entry.0).Some?
    && exists i :: 0 <= i < |entry.1| && place(find(entry.0).value)(entry.1[i]) == Success(Some(x))
  }

  /** The project loop: each listed project is fetched by `find` and its
      frames placed by `place`; the values of every project in turn, and the
      project the loop visited last, which stays bound after it. */
  function AssignAll<P, X>(find: Uid -> Option<P>, place: P -> Uid -> Result<Option<X>, EvalError>, entries: Dict<Uid, seq<Uid>>): (r: Result<(seq<X>, Option<P>), EvalError>)
    ensures r.Success? ==> r.value.1 == if entries == [] then None else find(entries[|entries| - 1].0)
    ensures r.Success? && r.value.1.None? ==> r.value.0 == []
    decreases |entries|
  {
    if entries == [] then Success(([], None))
    else
      var n := |entries| - 1;
      match AssignAll(find, place, entries[..n])
      case Failure(e) => Failure(e)
      case Success((ps, _)) =>
        match find(entries[n].0)
        case None => Failure(NoSuchProject(entries[n].0))
        case Some(p) =>
          match Assign(place(p), entries[n].1)
          case Failure(e) => Failure(e)
          case Success(more) => Success((ps + more, Some(p)))
  }

  /** The values of the project loop are exactly the placements of the
      frames listed under each project. */
  lemma {:induction false} AssignedExactly<P, X>(find: Uid -> Option<P>, place: P -> Uid -> Result<Option<X>, EvalError>, entries: Dict<Uid, seq<Uid>>)
    requires AssignAll(find, place, entries).Success?
    ensures forall x :: x in AssignAll(find, place, entries).value.0 <==>
              exists k :: 0 <= k < |entries| && Placed(find, place, entries[k], x)
    decreases |entries|
  {
    if entries != [] {
      var n := |entries| - 1;
      var init := entries[..n];
      AssignedExactly(find, place, init);
      var ps := AssignAll(find, place, init).value.0;
      var p := find(entries[n].0).value;
      var more := Assign(place(p), entries[n].1).value;
      AssignPlaces(place(p), entries[n].1);
      assert AssignAll(find, place, entries).value.0 == ps + more;
      assert entries == init + [entries[n]];
      forall x ensures x in ps + more <==> exists k :: 0 <= k < |entries| && Placed(find, place, entries[k], x) {
        PlacedSnoc(find, place, init, entries[n], x);
        assert x in more <==> Placed(find, place, entries[n], x);
      }
    }
  }

  /** Placed by some entry of a longer list: by one of the earlier entries
      or by the last. */
  lemma PlacedSnoc<P, X>(find: Uid -> Option<P>, place: P -> Uid -> Result<Option<X>, EvalError>, init: Dict<Uid, seq<Uid>>, last: (Uid, seq<Uid>), x: X)
    ensures (exists k :: 0 <= k < |init| + 1 && Placed(find, place, (init + [last])[k], x)) <==>
              (exists k :: 0 <= k < |init| && Placed(find, place, init[k], x)) || Placed(find, place, last, x)
  {
    var entries := init + [last];
    if exists k :: 0 <= k < |entries| && Placed(find, place, entries[k], x) {
      var k :| 0 <= k < |entries| && Placed(find, place, entries[k], x);
      if k < |init| {
        assert entries[k] == init[k];
      }
    }
    if exists k :: 0 <= k < |init| && Placed(find, place, init[k], x) {
      var k :| 0 <= k < |init| && Placed(find, place, init[k], x);
      assert entries[k] == init[k];
    }
    if Placed(find, place, last, x) {
      assert entries[|init|] == last;
    }
  }

  lemma {:induction false} AssignAllStick<P, X>(find: Uid -> Option<P>, place: P -> Uid -> Result<Option<X>, EvalError>, entries: Dict<Uid, seq<Uid>>, k: nat)
    requires k <= |entries| && AssignAll(find, place, entries[..k]).Failure?
    ensures AssignAll(find, place, entries) == AssignAll(find, place, entries[..k])
    decreases |entries|
  {
    if k < |entries| {
      var n := |entries| - 1;
      assert entries[..n][..k] == entries[..k];
      AssignAllStick(find, place, entries[..n], k);
    } else {
      assert entries[..k] == entries;
    }
  }

  /** `model_to_frames_map` and the project the loop left bound. */
  datatype Grouping = Grouping(groups: Dict<string, seq<Frame>>, project: Option<Project>)

  /** The (model, frame) pairs of the loop over `frames_by_project`. */
  function Assignments(db: Db, entries: Dict<Uid, seq<Uid>>, mappingsOf: Project -> Dict<string, string>, eligible: Frame -> bool): Result<(seq<(string, Frame)>, Option<Project>), EvalError> {
    AssignAll(FindIn(db), PlaceUnder(db, mappingsOf, eligible), entries)
  }

  /** The grouping loop: each pair appended under its model. */
  function Grouped(db: Db, entries: Dict<Uid, seq<Uid>>, mappingsOf: Project -> Dict<string, string>, eligible: Frame -> bool): Result<Grouping, EvalError> {
    match Assignments(db, entries, mappingsOf, eligible)
    case Failure(e) => Failure(e)
    case Success((ps, last)) => Success(Grouping(Collect(ps), last))
  }

  /** The frame `f` listed at position `i` of entry `k` is placed at model `m`
      under the entry's project. */
  predicate ListedAt(db: Db, entries: Dict<Uid, seq<Uid>>, mappingsOf: Project -> Dict<string, string>, eligible: Frame -> bool, k: nat, i: nat, m: string, f: Frame) {
    && k < |entries| && i < |entries[k].1| && FindProject(db, entries[k].0).Some?
    && Placement(db, mappingsOf(FindProject(db, entries[k].0).value), entries[k].1[i], eligible) == Success(Some((m, f)))
  }

  /** A listed frame's placement is among the pairs of the loop. */
  lemma ListedIsAssigned(db: Db, entries: Dict<Uid, seq<Uid>>, mappingsOf: Project -> Dict<string, string>, eligible: Frame -> bool, k: nat, i: nat, m: string, f: Frame)
    requires Assignments(db, entries, mappingsOf, eligible).Success?
    requires ListedAt(db, entries, mappingsOf, eligible, k, i, m, f)
    ensures (m, f) in Assignments(db, entries, mappingsOf, eligible).value.0
  {
    AssignedExactly(FindIn(db), PlaceUnder(db, mappingsOf, eligible), entries);
    assert Placed(FindIn(db), PlaceUnder(db, mappingsOf, eligible), entries[k], (m, f));
  }

  /** Every pair of the loop is the placement of a listed frame. */
  lemma AssignedIsListed(db: Db, entries: Dict<Uid, seq<Uid>>, mappingsOf: Project -> Dict<string, string>, eligible: Frame -> bool, m: string, f: Frame)
    requires Assignments(db, entries, mappingsOf, eligible).Success?
    requires (m, f) in Assignments(db, entries, mappingsOf, eligible).value.0
    ensures exists k, i :: ListedAt(db, entries, mappingsOf, eligible, k, i, m, f)
  {
    AssignedExactly(FindIn(db), PlaceUnder(db, mappingsOf, eligible), entries);
    var k :| 0 <= k < |entries| && Placed(FindIn(db), PlaceUnder(db, mappingsOf, eligible), entries[k], (m, f));
    var i :| 0 <= i < |entries[k].1| && PlaceUnder(db, mappingsOf, eligible)(FindIn(db)(entries[k].0).value)(entries[k].1[i]) == Success(Some((m, f)));
    assert ListedAt(db, entries, mappingsOf, eligible, k, i, m, f);
  }

  /** A frame is in the group of a model exactly when it was listed under a
      project where its scan type maps to that model, and each placement
      puts the frame in the groups once. */
  lemma FramesGroupedByModel(db: Db, entries: Dict<Uid, seq<Uid>>, mappingsOf: Project -> Dict<string, string>, eligible: Frame -> bool)
    requires Grouped(db, entries, mappingsOf, eligible).Success?
    ensures var g := Grouped(db, entries, mappingsOf, eligible).value.groups;
            && DistinctKeys(g)
            && (forall m, f :: f in ListAt(g, m) <==> exists k, i :: ListedAt(db, entries, mappingsOf, eligible, k, i, m, f))
            && multiset(AllValues(g)) == multiset(Seconds(Assignments(db, entries, mappingsOf, eligible).value.0))
  {
    var ps := Assignments(db, entries, mappingsOf, eligible).value.0;
    CollectLookup(ps);
    CollectKeepsEveryValue(ps);
    forall m, f ensures f in ListAt(Collect(ps), m) <==> exists k, i :: ListedAt(db, entries, mappingsOf, eligible, k, i, m, f) {
      ValuesOfExactly(ps, m, f);
      if (m, f) in ps {
        AssignedIsListed(db, entries, mappingsOf, eligible, m, f);
      }
      if exists k, i :: ListedAt(db, entries, mappingsOf, eligible, k, i, m, f) {
        var k, i :| ListedAt(db, entries, mappingsOf, eligible, k, i, m, f);
        ListedIsAssigned(db, entries, mappingsOf, eligible, k, i, m, f);
      }
    }
  }

  /** A frame in a model's group was placed at that model. */
  lemma InGroupIsAssigned(db: Db, entries: Dict<Uid, seq<Uid>>, mappingsOf: Project -> Dict<string, string>, eligible: Frame -> bool, m: string, f: Frame)
    requires Grouped(db, entries, mappingsOf, eligible).Success?
    requires f in ListAt(Grouped(db, entries, mappingsOf, eligible).value.groups, m)
    ensures exists k, i :: ListedAt(db, entries, mappingsOf, eligible, k, i, m, f)
  {
    var ps := Assignments(db, entries, mappingsOf, eligible).value.0;
    CollectLookup(ps);
    ValuesOfExactly(ps, m, f);
    AssignedIsListed(db, entries, mappingsOf, eligible, m, f);
  }

  /** Every entry that lists the frame key `id` is an entry of the same
      project. */
  predicate ListedUnderOneProject(entries: Dict<Uid, seq<Uid>>, id: Uid) {
    forall j, k :: 0 <= j < |entries| && 0 <= k < |entries| && id in entries[j].1 && id in entries[k].1 ==>
      entries[j].0 == entries[k].0
  }

  /** A frame listed under one project only is in one group at most: the
      group of the model its scan type maps to there. */
  lemma OneGroupPerFrame(db: Db, entries: Dict<Uid, seq<Uid>>, mappingsOf: Project -> Dict<string, string>, eligible: Frame -> bool, f: Frame, m1: string, m2: string)
    requires Grouped(db, entries, mappingsOf, eligible).Success?
    requires ListedUnderOneProject(entries, f.id)
    requires f in ListAt(Grouped(db, entries, mappingsOf, eligible).value.groups, m1)
    requires f in ListAt(Grouped(db, entries, mappingsOf, eligible).value.groups, m2)
    ensures m1 == m2
  {
    InGroupIsAssigned(db, entries, mappingsOf, eligible, m1, f);
    InGroupIsAssigned(db, entries, mappingsOf, eligible, m2, f);
    ListedOnce(db, entries, mappingsOf, eligible, f, m1, m2);
  }

  lemma ListedOnce(db: Db, entries: Dict<Uid, seq<Uid>>, mappingsOf: Project -> Dict<string, string>, eligible: Frame -> bool, f: Frame, m1: string, m2: string)
    requires ListedUnderOneProject(entries, f.id)
    requires exists k, i :: ListedAt(db, entries, mappingsOf, eligible, k, i, m1, f)
    requires exists k, i :: ListedAt(db, entries, mappingsOf, eligible, k, i, m2, f)
    ensures m1 == m2
  {
    var j, a :| ListedAt(db, entries, mappingsOf, eligible, j, a, m1, f);
    var k, b :| ListedAt(db, entries, mappingsOf, eligible, k, b, m2, f);
    SamePlacement(db, entries, mappingsOf, eligible, j, a, m1, k, b, m2, f);
  }

  lemma SamePlacement(db: Db, entries: Dict<Uid, seq<Uid>>, mappingsOf: Project -> Dict<string, string>, eligible: Frame -> bool, j: nat, a: nat, m1: string, k: nat, b: nat, m2: string, f: Frame)
    requires ListedUnderOneProject(entries, f.id)
    requires ListedAt(db, entries, mappingsOf, eligible, j, a, m1, f)
    requires ListedAt(db, entries, mappingsOf, eligible, k, b, m2, f)
    ensures m1 == m2
  {
    assert entries[j].1[a] == f.id && entries[k].1[b] == f.id;
    assert entries[j].0 == entries[k].0;
  }

  /** A readable frame listed under a project is grouped under the model its
      scan type maps to in that project. */
  lemma EligibleFrameGrouped(db: Db, entries: Dict<Uid, seq<Uid>>, mappingsOf: Project -> Dict<string, string>, eligible: Frame -> bool, k: nat, i: nat, m: string, f: Frame)
    requires Grouped(db, entries, mappingsOf, eligible).Success?
    requires ListedAt(db, entries, mappingsOf, eligible, k, i, m, f)
    ensures f in ListAt(Grouped(db, entries, mappingsOf, eligible).value.groups, m)
  {
    FramesGroupedByModel(db, entries, mappingsOf, eligible);
  }

  /** A frame whose file cannot be read is in no group. */
  lemma UnreadableFrameSkipped(db: Db, entries: Dict<Uid, seq<Uid>>, mappingsOf: Project -> Dict<string, string>, eligible: Frame -> bool, f: Frame, m: string)
    requires Grouped(db, entries, mappingsOf, eligible).Success?
    requires !eligible(f)
    ensures f !in ListAt(Grouped(db, entries, mappingsOf, eligible).value.groups, m)
  {
    FramesGroupedByModel(db, entries, mappingsOf, eligible);
  }

  /** The loop of `evaluate_data` that fills `model_to_frames_map`. */
  method GroupFrames(db: Db, entries: Dict<Uid, seq<Uid>>, mappingsOf: Project -> Dict<string, string>, eligible: Frame -> bool) returns (r: Result<Grouping, EvalError>)
    ensures r == Grouped(db, entries, mappingsOf, eligible)
  {
    var groups: Dict<string, seq<Frame>> := [];
    var last: Option<Project> := None;
    ghost var pairs: seq<(string, Frame)> := [];
    for i := 0 to |entries|
      invariant Assignments(db, entries[..i], mappingsOf, eligible) == Success((pairs, last))
      invariant groups == Collect(pairs)
    {
      assert entries[..i + 1][..i] == entries[..i];
      var (id, frameIds) := entries[i];
      var found := FindProject(db, id);
      if found.None? {
        AssignAllStick(FindIn(db), PlaceUnder(db, mappingsOf, eligible), entries, i + 1);
        return Failure(NoSuchProject(id));
      }
      var project := found.value;
      var mappings := mappingsOf(project);
      assert PlaceIn(db, mappings, eligible) == PlaceUnder(db, mappingsOf, eligible)(project);
      var placed := PlaceFrames(db, mappings, frameIds, eligible, groups);
      if placed.Failure? {
        AssignAllStick(FindIn(db), PlaceUnder(db, mappingsOf, eligible), entries, i + 1);
        return Failure(placed.error);
      }
      CollectConcat(pairs, Assign(PlaceIn(db, mappings, eligible), frameIds).value);
      groups := placed.value;
      last := found;
      pairs := pairs + Assign(PlaceIn(db, mappings, eligible), frameIds).value;
    }
    assert entries[..|entries|] == entries;
    r := Success(Grouping(groups, last));
  }

  /** The inner loop over one project's frames, appending each placed frame
      to the list of its model in `groups`. */
  method PlaceFrames(db: Db, mappings: Dict<string, string>, frameIds: seq<Uid>, eligible: Frame -> bool, groups: Dict<string, seq<Frame>>)
    returns (r: Result<Dict<string, seq<Frame>>, EvalError>)
    ensures Assign(PlaceIn(db, mappings, eligible), frameIds).Failure? ==> r == Failure(Assign(PlaceIn(db, mappings, eligible), frameIds).error)
    ensures Assign(PlaceIn(db, mappings, eligible), frameIds).Success? ==> r == Success(AppendAll(groups, Assign(PlaceIn(db, mappings, eligible), frameIds).value))
  {
    ghost var place := PlaceIn(db, mappings, eligible);
    var acc := groups;
    ghost var more: seq<(string, Frame)> := [];
    for j := 0 to |frameIds|
      invariant Assign(place, frameIds[..j]) == Success(more)
      invariant acc == AppendAll(groups, more)
    {
      assert frameIds[..j + 1][..j] == frameIds[..j];
      var frame := FindFrame(db.frames, frameIds[j]);
      if frame.None? {
        AssignStick(place, frameIds, j + 1);
        return Failure(NoSuchFrame(frameIds[j]));
      }
      var f := frame.value;
      if eligible(f) {
        var scan := FindScan(db.scans, f.scan);
        if scan.None? {
          AssignStick(place, frameIds, j + 1);
          return Failure(NoSuchScan(f.scan));
        }
        var model := Get(mappings, scan.value.scanType);
        if model.None? {
          AssignStick(place, frameIds, j + 1);
          return Failure(UnmappedScanType(scan.value.scanType));
        }
        AppendAllSnoc(groups, more, model.value, f);
        acc := Append(acc, model.value, f);
        more := more + [(model.value, f)];
      }
    }
    assert frameIds[..|frameIds|] == frameIds;
    r := Success(acc);
  }

  /* ---------------------------------------------------------------- jobs */

  /** The evaluation rows of one model's frames, in the frames' order. */
  function EvaluationsFor(model: string, frames: seq<Frame>, epoch: nat, job: nat): (r: seq<Evaluation>)
    ensures |r| == |frames|
    ensures forall i :: 0 <= i < |r| ==> r[i] == Evaluation([epoch, job, i], frames[i].id, model)
  {
    seq(|frames|, i requires 0 <= i < |frames| => Evaluation([epoch, job, i], frames[i].id, model))
  }

  /** A model the jobs cannot run: the project's `model_mappings` or its
      `model_predictions` lacks it. */
  predicate Unrunnable(files: Dict<string, string>, predictions: Dict<string, seq<string>>, model: string) {
    Get(files, model).None? || Get(predictions, model).None?
  }

  /** One job per group, in the groups' order, with the model file and the
      predictions looked up in `files` and `predictions`, then one evaluation
      per frame. A failed lookup ends the jobs; the rows of earlier jobs
      stay. */
  function RunJobs(db: Db, groups: Dict<string, seq<Frame>>, files: Dict<string, string>, predictions: Dict<string, seq<string>>, epoch: nat): (r: (Db, Result<(), EvalError>))
    ensures r.0 == db.(evaluations := r.0.evaluations)
    decreases |groups|
  {
    if groups == [] then (db, Success(()))
    else
      var n := |groups| - 1;
      var (done, res) := RunJobs(db, groups[..n], files, predictions, epoch);
      if res.Failure? then (done, res)
      else
        var (model, frames) := groups[n];
        if Get(files, model).None? then (done, Failure(UnmappedModel(model)))
        else if Get(predictions, model).None? then (done, Failure(NoPredictions(model)))
        else (done.(evaluations := done.evaluations + EvaluationsFor(model, frames, epoch, n)), Success(()))
  }

  lemma {:induction false} JobsStick(db: Db, groups: Dict<string, seq<Frame>>, files: Dict<string, string>, predictions: Dict<string, seq<string>>, epoch: nat, k: nat)
    requires k <= |groups| && RunJobs(db, groups[..k], files, predictions, epoch).1.Failure?
    ensures RunJobs(db, groups, files, predictions, epoch) == RunJobs(db, groups[..k], files, predictions, epoch)
    decreases |groups|
  {
    if k < |groups| {
      var n := |groups| - 1;
      assert groups[..n][..k] == groups[..k];
      JobsStick(db, groups[..n], files, predictions, epoch, k);
    } else {
      assert groups[..k] == groups;
    }
  }

  /** The jobs fail exactly when some group's model cannot be run. */
  lemma {:induction false} JobsFailOnUnrunnable(db: Db, groups: Dict<string, seq<Frame>>, files: Dict<string, string>, predictions: Dict<string, seq<string>>, epoch: nat)
    ensures RunJobs(db, groups, files, predictions, epoch).1.Failure? <==>
              exists k :: 0 <= k < |groups| && Unrunnable(files, predictions, groups[k].0)
    decreases |groups|
  {
    if groups != [] {
      var n := |groups| - 1;
      JobsFailOnUnrunnable(db, groups[..n], files, predictions, epoch);
      assert forall k :: 0 <= k < n ==> groups[..n][k] == groups[k];
    }
  }

  /** Every frame of every group gets one evaluation with its group's model
      when all the jobs run, after the evaluations already stored. */
  lemma {:induction false} JobsEvaluateEveryFrame(db: Db, groups: Dict<string, seq<Frame>>, files: Dict<string, string>, predictions: Dict<string, seq<string>>, epoch: nat)
    requires RunJobs(db, groups, files, predictions, epoch).1.Success?
    ensures var after := RunJobs(db, groups, files, predictions, epoch).0.evaluations;
            && |db.evaluations| <= |after|
            && after[..|db.evaluations|] == db.evaluations
            && forall k, i :: 0 <= k < |groups| && 0 <= i < |groups[k].1| ==>
                 Evaluation([epoch, k, i], groups[k].1[i].id, groups[k].0) in after
    decreases |groups|
  {
    if groups != [] {
      var n := |groups| - 1;
      JobsEvaluateEveryFrame(db, groups[..n], files, predictions, epoch);
      var done := RunJobs(db, groups[..n], files, predictions, epoch).0;
      var added := EvaluationsFor(groups[n].0, groups[n].1, epoch, n);
      var after := RunJobs(db, groups, files, predictions, epoch).0.evaluations;
      assert after == done.evaluations + added;
      forall k, i | 0 <= k < |groups| && 0 <= i < |groups[k].1|
        ensures Evaluation([epoch, k, i], groups[k].1[i].id, groups[k].0) in after
      {
        if k < n {
          assert groups[..n][k] == groups[k];
        } else {
          assert added[i] in after;
        }
      }
    }
  }

  /** The grouping loop, then the jobs, which look every model up on the
      project the loop visited last; `mappingsOf` gives a project's
      `model_source_type_mappings`. */
  function Evaluate(db: Db, entries: Dict<Uid, seq<Uid>>, mappingsOf: Project -> Dict<string, string>, eligible: Frame -> bool, epoch: nat): (r: (Db, Result<(), EvalError>))
    ensures r.0 == db.(evaluations := r.0.evaluations)
  {
    match Grouped(db, entries, mappingsOf, eligible)
    case Failure(e) => (db, Failure(e))
    case Success(g) =>
      if g.project.None? then (db, Success(()))
      else RunJobs(db, g.groups, ModelMappings(g.project.value, db.settings), Predictions(g.project.value, db.settings), epoch)
  }

  /** `evaluate_data`, with the project's own scan-type mappings. */
  function EvaluateData(db: Db, entries: Dict<Uid, seq<Uid>>, eligible: Frame -> bool, epoch: nat): (r: (Db, Result<(), EvalError>))
    ensures r.0 == db.(evaluations := r.0.evaluations)
  {
    Evaluate(db, entries, SourceTypeMappings(db.settings), eligible, epoch)
  }

  /** Every readable listed frame is evaluated with the model its scan type
      maps to in the project it was listed under, when the evaluation
      succeeds. */
  lemma EveryEligibleFrameEvaluated(db: Db, entries: Dict<Uid, seq<Uid>>, mappingsOf: Project -> Dict<string, string>, eligible: Frame -> bool, epoch: nat, k: nat, i: nat, m: string, f: Frame)
    requires Evaluate(db, entries, mappingsOf, eligible, epoch).1.Success?
    requires ListedAt(db, entries, mappingsOf, eligible, k, i, m, f)
    ensures exists v :: v in Evaluate(db, entries, mappingsOf, eligible, epoch).0.evaluations && v.frame == f.id && v.evaluationModel == m
  {
    assert Grouped(db, entries, mappingsOf, eligible).Success?;
    var g := Grouped(db, entries, mappingsOf, eligible).value;
    EligibleFrameGrouped(db, entries, mappingsOf, eligible, k, i, m, f);
    assert g.project.Some?;
    GroupMemberEvaluated(db, g.groups, ModelMappings(g.project.value, db.settings), Predictions(g.project.value, db.settings), epoch, m, f);
  }

  /** When the jobs run, every frame of a model's group is evaluated with
      that model. */
  lemma GroupMemberEvaluated(db: Db, groups: Dict<string, seq<Frame>>, files: Dict<string, string>, predictions: Dict<string, seq<string>>, epoch: nat, m: string, f: Frame)
    requires RunJobs(db, groups, files, predictions, epoch).1.Success?
    requires f in ListAt(groups, m)
    ensures exists v :: v in RunJobs(db, groups, files, predictions, epoch).0.evaluations && v.frame == f.id && v.evaluationModel == m
  {
    var l := ListAt(groups, m);
    assert Get(groups, m) == Some(l);
    var j :| 0 <= j < |groups| && groups[j] == (m, l);
    var a :| 0 <= a < |l| && l[a] == f;
    JobsEvaluateEveryFrame(db, groups, files, predictions, epoch);
    assert Evaluation([epoch, j, a], f.id, m) in RunJobs(db, groups, files, predictions, epoch).0.evaluations;
  }

  /** The jobs look models up on the project listed last, not on the
      project whose frames form the group: a model the last project cannot
      run fails the evaluation, whichever project its frames came from. */
  lemma JobsUseLastProject(db: Db, entries: Dict<Uid, seq<Uid>>, mappingsOf: Project -> Dict<string, string>, eligible: Frame -> bool, epoch: nat, model: string)
    requires Grouped(db, entries, mappingsOf, eligible).Success?
    requires model in Keys(Grouped(db, entries, mappingsOf, eligible).value.groups)
    ensures entries != [] && FindProject(db, entries[|entries| - 1].0).Some?
    ensures var last := FindProject(db, entries[|entries| - 1].0).value;
            Unrunnable(ModelMappings(last, db.settings), Predictions(last, db.settings), model) ==>
              Evaluate(db, entries, mappingsOf, eligible, epoch).1.Failure?
  {
    var g := Grouped(db, entries, mappingsOf, eligible).value;
    var k :| 0 <= k < |g.groups| && Keys(g.groups)[k] == model;
    assert g.project.Some?;
    JobsFailOnUnrunnable(db, g.groups, ModelMappings(g.project.value, db.settings), Predictions(g.project.value, db.settings), epoch);
  }
}
