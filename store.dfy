/** The rows as one mutable store. The operations that change rows in place
    (deleting a project, `update_group`, the lock endpoints, creating a
    decision, `perform_import` and `evaluate_data`) are methods on it, each
    proved to leave the store as the value-level model of the operation
    says, so that every property proved of that model holds of the store. */
module Stores {
  import opened Wrappers
  import opened Entities
  import opened Dicts
  import opened Projects
  import opened Records
  import opened Decisions
  import opened Settings
  import Seqs
  import Text
  import ProjectState
  import DecisionApi
  import Imports
  import ImportLoops
  import Evaluating

  /** `[x for x in s if p(x)]`, element by element. */
  method FilterRows<T(!new)>(s: seq<T>, p: T -> bool) returns (r: seq<T>)
    ensures r == Seqs.Filter(s, p)
  {
    r := [];
    for i := 0 to |s|
      invariant r == Seqs.Filter(s[..i], p)
    {
      assert s[..i + 1][..i] == s[..i];
      if p(s[i]) {
        r := r + [s[i]];
      }
    }
    assert s[..|s|] == s;
  }

  class Store {
    var users: seq<User>
    var projects: seq<Project>
    var experiments: seq<Experiment>
    var scans: seq<Scan>
    var frames: seq<Frame>
    var decisions: seq<ScanDecision>
    var evaluations: seq<Evaluation>
    var settings: seq<Setting>
    var perms: set<Perm>

    /** The tables as one value. */
    function Rows(): Db
      reads this
    {
      Db(users, projects, experiments, scans, frames, decisions, evaluations, settings, perms)
    }

    constructor(db: Db)
      ensures Rows() == db
    {
      users, projects, experiments := db.users, db.projects, db.experiments;
      scans, frames, decisions := db.scans, db.frames, db.decisions;
      evaluations, settings, perms := db.evaluations, db.settings, db.perms;
    }

    /* ------------------------------------------------------ deletion */

    /** `Experiment.objects.filter(project=project).delete()` and its
        cascade, one table after the other. */
    method DeleteExperiments(project: Uid)
      modifies this
      ensures Rows() == ProjectState.DeleteExperiments(old(Rows()), project)
    {
      var after := Cascade(Rows(), project);
      evaluations, decisions, frames := after.evaluations, after.decisions, after.frames;
      scans, experiments := after.scans, after.experiments;
    }

    /** The tables left by deleting a project's experiments, each filtered
        in turn. */
    static method Cascade(db: Db, project: Uid) returns (r: Db)
      ensures r == ProjectState.DeleteExperiments(db, project)
    {
      var experimentIds := ProjectState.ExperimentIdsOf(db, project);
      var scanIds := ProjectState.ScanIdsOf(db, project);
      var frameIds := ProjectState.FrameIdsOf(db, project);
      var vs := FilterRows(db.evaluations, ProjectState.EvaluationOutside(frameIds));
      var ds := FilterRows(db.decisions, ProjectState.DecisionOutside(scanIds));
      var fs := FilterRows(db.frames, ProjectState.FrameOutside(scanIds));
      var ss := FilterRows(db.scans, ProjectState.ScanOutside(experimentIds));
      var es := FilterRows(db.experiments, ProjectState.ExperimentOutside(project));
      ProjectState.DeleteExperimentsSteps(db, project, experimentIds, scanIds, frameIds);
      r := db.(evaluations := vs, decisions := ds, frames := fs, scans := ss, experiments := es);
    }

    /** Deleting a project row, then the `post_delete` receiver's deletions
        of everything under it. */
    method DeleteProject(project: Uid)
      modifies this
      ensures Rows() == ProjectState.DeleteProject(old(Rows()), project)
    {
      var before := projects;
      DeleteExperiments(project);
      projects := FilterRows(before, ProjectState.OtherProject(project));
    }

    /* -------------------------------------------------- update_group */

    /** Clears the user's locks on the project's experiments, saving each
        experiment it changes. */
    method ReleaseLocksOf(project: Uid, user: Uid)
      modifies this
      ensures Rows() == old(Rows()).(experiments := ProjectState.ClearLocks(old(experiments), project, user))
    {
      var exps := experiments;
      for i := 0 to |exps|
        invariant |exps| == |experiments|
        invariant forall j :: 0 <= j < i ==>
                    exps[j] == if experiments[j].project == project && experiments[j].lockOwner == Some(user)
                               then experiments[j].(lockOwner := None) else experiments[j]
        invariant forall j :: i <= j < |exps| ==> exps[j] == experiments[j]
      {
        if exps[i].project == project && exps[i].lockOwner == Some(user) {
          exps := exps[i := exps[i].(lockOwner := None)];
        }
      }
      assert exps == ProjectState.ClearLocks(experiments, project, user);
      experiments := exps;
    }

    /** `update_group`: the revocation loop over the previously permitted
        users, then the granting loop over the listed usernames, which stops
        at the first name that does not resolve to one user. */
    method UpdateGroup(project: Uid, group: string, userList: seq<string>) returns (res: Result<(), ProjectState.GroupError>)
      modifies this
      ensures (Rows(), res) == ProjectState.UpdateGroup(old(Rows()), project, group, userList)
    {
      if group !in ReadGroups {
        return Failure(ProjectState.InvalidGroup(group));
      }
      ghost var db := Rows();
      var permitted := UsersWithPerm(Rows(), project, group);
      Revoke(project, group, userList, permitted);
      ProjectState.RevokeAllFrame(db, project, group, userList, permitted);
      perms, res := Grant(users, perms, project, group, userList, permitted);
    }

    /** The revocation loop of `update_group`. */
    method Revoke(project: Uid, group: string, userList: seq<string>, permitted: seq<User>)
      modifies this
      ensures Rows() == ProjectState.RevokeAll(old(Rows()), project, group, userList, permitted)
    {
      ghost var db := Rows();
      for i := 0 to |permitted|
        invariant Rows() == ProjectState.RevokeAll(db, project, group, userList, permitted[..i])
      {
        ghost var cur := Rows();
        assert permitted[..i + 1][..i] == permitted[..i];
        assert ProjectState.RevokeAll(db, project, group, userList, permitted[..i + 1]) ==
               ProjectState.RevokeOne(cur, project, group, userList, permitted[i]);
        var u := permitted[i];
        if u.username !in userList {
          perms := perms - {Perm(u.id, project, group)};
          if Text.Contains(group, "reviewer") {
            ReleaseLocksOf(project, u.id);
          }
        }
      }
      assert permitted[..|permitted|] == permitted;
    }

    /** The granting loop of `update_group` over the permissions `perms`:
        `permitted` are the users who held the permission before the
        revocation. */
    static method Grant(users: seq<User>, perms: set<Perm>, project: Uid, group: string, userList: seq<string>, permitted: seq<User>)
      returns (granted: set<Perm>, res: Result<(), ProjectState.GroupError>)
      ensures var k := ProjectState.FirstUnresolved(users, userList);
              && granted == perms + ProjectState.Granted(users, project, group, permitted, userList[..k])
              && res == if k < |userList| then Failure(ProjectState.UnknownUser(userList[k])) else Success(())
    {
      granted := perms;
      assert userList[..0] == [];
      for i := 0 to |userList|
        invariant granted == perms + ProjectState.Granted(users, project, group, permitted, userList[..i])
        invariant forall j :: 0 <= j < i ==> UserByUsername(users, userList[j]).Found?
      {
        assert userList[..i + 1][..i] == userList[..i];
        var found := UserByUsername(users, userList[i]);
        if !found.Found? {
          assert ProjectState.FirstUnresolved(users, userList) == i;
          return granted, Failure(ProjectState.UnknownUser(userList[i]));
        }
        if found.item !in permitted {
          granted := granted + {Perm(found.item.id, project, group)};
        }
      }
      assert userList[..|userList|] == userList;
      assert ProjectState.FirstUnresolved(users, userList) == |userList|;
      return granted, Success(());
    }

    /* --------------------------------------------------------- locks */

    /** Sets the lock owner of the experiment with key `id`, saving it. */
    method SetLockOwner(id: Uid, owner: Option<Uid>)
      modifies this
      ensures Rows() == old(Rows()).(experiments := DecisionApi.SetLock(old(experiments), id, owner))
    {
      var exps := experiments;
      for i := 0 to |exps|
        invariant |exps| == |experiments|
        invariant forall j :: 0 <= j < i ==>
                    exps[j] == if experiments[j].id == id then experiments[j].(lockOwner := owner) else experiments[j]
        invariant forall j :: i <= j < |exps| ==> exps[j] == experiments[j]
      {
        if exps[i].id == id {
          exps := exps[i := exps[i].(lockOwner := owner)];
        }
      }
      assert exps == DecisionApi.SetLock(experiments, id, owner);
      experiments := exps;
    }

    /** `POST experiments/<id>/lock`. */
    method AcquireLock(user: Uid, experiment: Uid) returns (reply: DecisionApi.Reply)
      modifies this
      ensures (Rows(), reply) == DecisionApi.AcquireLock(old(Rows()), user, experiment)
    {
      var found := FindExperiment(experiments, experiment);
      if found.None? {
        return DecisionApi.Plain(DecisionApi.NotFound);
      }
      var e := found.value;
      if !DecisionApi.MayReview(Rows(), user, e.project) {
        return DecisionApi.Plain(DecisionApi.Forbidden);
      }
      if e.lockOwner.Some? && e.lockOwner != Some(user) {
        return DecisionApi.Plain(DecisionApi.Conflict);
      }
      SetLockOwner(experiment, Some(user));
      return DecisionApi.Plain(DecisionApi.Ok);
    }

    /** `DELETE experiments/<id>/lock`. */
    method ReleaseLock(user: Uid, experiment: Uid) returns (reply: DecisionApi.Reply)
      modifies this
      ensures (Rows(), reply) == DecisionApi.ReleaseLock(old(Rows()), user, experiment)
    {
      var found := FindExperiment(experiments, experiment);
      if found.None? {
        return DecisionApi.Plain(DecisionApi.NotFound);
      }
      var e := found.value;
      if !DecisionApi.MayReview(Rows(), user, e.project) {
        return DecisionApi.Plain(DecisionApi.Forbidden);
      }
      if e.lockOwner.Some? && e.lockOwner != Some(user) {
        return DecisionApi.Plain(DecisionApi.Conflict);
      }
      SetLockOwner(experiment, None);
      return DecisionApi.Plain(DecisionApi.Ok);
    }

    /* ------------------------------------------------------ decisions */

    /** `ScanDecisionViewSet.create`: the new row is saved at the end of the
        decisions table. */
    method CreateDecision(req: DecisionApi.DecisionRequest, user: Uid, id: Uid, now: int) returns (reply: DecisionApi.Reply)
      modifies this
      ensures (Rows(), reply) == DecisionApi.CreateDecision(old(Rows()), req, user, id, now)
    {
      var scan := FindScan(scans, req.scan);
      if scan.None? {
        return DecisionApi.Plain(DecisionApi.ServerError);
      }
      var row := DecisionApi.ScanProjectRow(Rows(), scan.value);
      if row.None? {
        return DecisionApi.Plain(DecisionApi.ServerError);
      }
      var (e, p) := row.value;
      if !DecisionApi.MayReview(Rows(), user, p.id) {
        return DecisionApi.Plain(DecisionApi.Forbidden);
      }
      if e.lockOwner != Some(user) {
        return DecisionApi.Reply(DecisionApi.Forbidden, Some(DecisionApi.LockMessage));
      }
      if req.artifacts.Some? && !DecisionApi.Converts(req) {
        return DecisionApi.Plain(DecisionApi.ServerError);
      }
      if |req.decision| > 2 {
        return DecisionApi.Plain(DecisionApi.ServerError);
      }
      var d := DecisionApi.RequestDecision(req, ArtifactNames(p, settings), user, id, now);
      decisions := decisions + [d];
      return DecisionApi.Plain(DecisionApi.Created);
    }

    /* --------------------------------------------------------- import */

    /** `perform_import`: the loop over the document's projects, then the
        pruning, the bulk creation and `frames_by_project`. An error ends
        the import with the deletions already made and nothing created. */
    method PerformImport(doc: Imports.ImportDoc, clock: Imports.Clock, epoch: nat) returns (r: Result<Dict<Uid, seq<Uid>>, Imports.ImportError>)
      modifies this
      ensures (Rows(), r) == Imports.PerformImport(old(Rows()), doc, clock, epoch)
    {
      var b, error := ImportProjects(doc.projects, clock, epoch);
      if error.Some? {
        return Failure(error.value);
      }
      var pruned := Imports.Prune(b);
      BulkCreate(pruned);
      var byProject := ImportLoops.GroupByProject(pruned.frames);
      return Success(byProject);
    }

    /** The project loop of `perform_import`: each project must exist; its
        experiments are deleted and its new rows built. */
    method ImportProjects(projects: Dict<string, Imports.ProjectDoc>, clock: Imports.Clock, epoch: nat)
      returns (b: Imports.Batch, error: Option<Imports.ImportError>)
      modifies this
      ensures Imports.ImportProjects(old(Rows()), projects, clock, epoch) == Imports.Progress(Rows(), b, error)
    {
      ghost var db := Rows();
      b := Imports.EmptyBatch;
      for i := 0 to |projects|
        invariant Imports.ImportProjects(db, projects[..i], clock, epoch) == Imports.Progress(Rows(), b, None)
      {
        assert projects[..i + 1][..i] == projects[..i];
        var (name, pdoc) := projects[i];
        var found := Imports.ProjectByName(this.projects, name);
        if found.Missing? {
          Imports.ProjectsStick(db, projects, clock, epoch, i + 1);
          return b, Some(Imports.UnknownProject(name));
        }
        if found.Ambiguous? {
          Imports.ProjectsStick(db, projects, clock, epoch, i + 1);
          return b, Some(Imports.AmbiguousProject(name));
        }
        var project := found.item;
        var ctx := Imports.Ctx(users, ArtifactNames(project, settings), clock, epoch);
        DeleteExperiments(project.id);
        var built := ImportLoops.ProjectExperiments(ctx, b, project.id, pdoc.experiments, [i]);
        if built.Failure? {
          Imports.ProjectsStick(db, projects, clock, epoch, i + 1);
          return b, Some(built.error);
        }
        b := built.value;
      }
      assert projects[..|projects|] == projects;
      error := None;
    }

    /** `bulk_create` of the new rows, table by table. */
    method BulkCreate(b: Imports.Batch)
      modifies this
      ensures Rows() == Imports.BulkCreate(old(Rows()), b)
    {
      experiments := experiments + b.experiments;
      scans := scans + b.scans;
      frames := frames + Imports.FramesIn(b.frames);
      decisions := decisions + b.decisions;
    }

    /* ------------------------------------------------------- evaluate */

    /** `evaluate_data`: the grouping loop, then one job per group, looking
        the model up on the project the grouping loop visited last. */
    method EvaluateData(entries: Dict<Uid, seq<Uid>>, eligible: Frame -> bool, epoch: nat) returns (res: Result<(), Evaluating.EvalError>)
      modifies this
      ensures (Rows(), res) == Evaluating.EvaluateData(old(Rows()), entries, eligible, epoch)
    {
      var grouped := Evaluating.GroupFrames(Rows(), entries, Evaluating.SourceTypeMappings(settings), eligible);
      if grouped.Failure? {
        return Failure(grouped.error);
      }
      var g := grouped.value;
      if g.project.None? {
        return Success(());
      }
      res := RunJobs(g.groups, ModelMappings(g.project.value, settings), Predictions(g.project.value, settings), epoch);
    }

    /** The job loop: for each group, the model file and the predictions
        are looked up, and an evaluation row is created per frame. */
    method RunJobs(groups: Dict<string, seq<Frame>>, files: Dict<string, string>, predictions: Dict<string, seq<string>>, epoch: nat)
      returns (res: Result<(), Evaluating.EvalError>)
      modifies this
      ensures (Rows(), res) == Evaluating.RunJobs(old(Rows()), groups, files, predictions, epoch)
    {
      ghost var db := Rows();
      for k := 0 to |groups|
        invariant Evaluating.RunJobs(db, groups[..k], files, predictions, epoch) == (Rows(), Success(()))
      {
        assert groups[..k + 1][..k] == groups[..k];
        var (model, frameSet) := groups[k];
        if Get(files, model).None? {
          Evaluating.JobsStick(db, groups, files, predictions, epoch, k + 1);
          return Failure(Evaluating.UnmappedModel(model));
        }
        if Get(predictions, model).None? {
          Evaluating.JobsStick(db, groups, files, predictions, epoch, k + 1);
          return Failure(Evaluating.NoPredictions(model));
        }
        evaluations := evaluations + Evaluating.EvaluationsFor(model, frameSet, epoch, k);
      }
      assert groups[..|groups|] == groups;
      return Success(());
    }
  }
}
