/** The parts of a project that read or change the stored rows: review
    status, group membership updates, and the cascade when a project is
    deleted. */
module ProjectState {
  import opened Wrappers
  import opened Entities
  import opened Projects
  import opened Decisions
  import opened Records
  import Seqs
  import Text

  /* ---------------------------------------------------------------- status */

  datatype Status = Status(totalScans: nat, totalComplete: nat)

  function ExperimentIdsOf(db: Db, project: Uid): set<Uid> {
    set e | e in db.experiments && e.project == project :: e.id
  }

  /** `Scan.objects.filter(experiment__project=project)`. */
  function ProjectScans(db: Db, project: Uid): (r: seq<Scan>)
    ensures forall s :: s in r <==> s in db.scans && s.experiment in ExperimentIdsOf(db, project)
  {
    Seqs.Filter(db.scans, (s: Scan) => s.experiment in ExperimentIdsOf(db, project))
  }

  /** `scan.decisions`: the decisions recorded on a scan. */
  function ScanDecisions(db: Db, scan: Uid): (r: seq<ScanDecision>)
    ensures forall d :: d in r <==> d in db.decisions && d.scan == scan
  {
    Seqs.Filter(db.decisions, OnScan(scan))
  }

  function OnScan(scan: Uid): ScanDecision -> bool {
    (d: ScanDecision) => d.scan == scan
  }

  function Tier2Reviewers(db: Db, project: Uid): set<Uid> {
    set u | u in db.users && Perm(u.id, project, "tier_2_reviewer") in db.perms :: u.id
  }

  /** A scan is complete when the decision listed first for it was made by a
      tier-2 reviewer of the project or is `U`. A scan without decisions, or
      whose latest decision has no creator and is not `U`, is not. */
  predicate Complete(db: Db, project: Uid, s: Scan) {
    match Latest(ScanDecisions(db, s.id))
    case None => false
    case Some(d) => (d.creator.Some? && d.creator.value in Tier2Reviewers(db, project)) || d.decision == "U"
  }

  /** `get_status`. */
  function GetStatus(db: Db, project: Uid): (r: Status)
    ensures r.totalComplete <= r.totalScans == |ProjectScans(db, project)|
    ensures r.totalComplete == |Seqs.Filter(ProjectScans(db, project), CompleteIn(db, project))|
  {
    var scans := ProjectScans(db, project);
    Status(|scans|, |Seqs.Filter(scans, CompleteIn(db, project))|)
  }

  function CompleteIn(db: Db, project: Uid): Scan -> bool {
    (s: Scan) => Complete(db, project, s)
  }

  /** A decision strictly newer than every other decision on its scan is the
      one that decides whether the scan is complete. */
  lemma NewestDecisionDecides(db: Db, project: Uid, s: Scan, d: ScanDecision, t: int)
    requires d.scan == s.id && d.created == Some(t)
    requires forall e :: e in db.decisions && e.scan == s.id ==> e.created.Some? && e.created.value < t
    ensures Complete(db.(decisions := db.decisions + [d]), project, s) <==>
              (d.creator.Some? && d.creator.value in Tier2Reviewers(db, project)) || d.decision == "U"
  {
    var db' := db.(decisions := db.decisions + [d]);
    var ds := ScanDecisions(db', s.id);
    assert d in ds;
    var l := Latest(ds);
    assert l.Some?;
    assert NewerFirst(l.value, d);
    assert l.value == d;
  }

  /** A scan with a single decision is complete exactly when that decision
      is by a tier-2 reviewer or is `U`. */
  lemma SingleDecisionComplete(db: Db, project: Uid, s: Scan, d: ScanDecision)
    requires ScanDecisions(db, s.id) == [d]
    ensures Complete(db, project, s) <==>
              (d.creator.Some? && d.creator.value in Tier2Reviewers(db, project)) || d.decision == "U"
  {
    assert Latest([d]).value in [d];
  }

  /** The project-status example: a project whose five scans each carry one
      decision (U by a tier-1 reviewer, U by a tier-2 reviewer, UN by a tier-1
      reviewer, UN by a tier-2 reviewer, Q? by a tier-1 reviewer) has five
      scans of which three are complete. */
  lemma StatusExample(db: Db, project: Uid, ds: seq<ScanDecision>)
    requires |ProjectScans(db, project)| == 5 && |ds| == 5
    requires forall i :: 0 <= i < 5 ==> ScanDecisions(db, ProjectScans(db, project)[i].id) == [ds[i]]
    requires forall i :: 0 <= i < 5 ==> ds[i].creator.Some?
    requires forall i :: 0 <= i < 5 ==> (ds[i].creator.value in Tier2Reviewers(db, project) <==> i == 1 || i == 3)
    requires ds[0].decision == "U" && ds[1].decision == "U" && ds[2].decision == "UN"
    requires ds[3].decision == "UN" && ds[4].decision == "Q?"
    ensures GetStatus(db, project) == Status(5, 3)
  {
    var scans := ProjectScans(db, project);
    var complete := CompleteIn(db, project);
    assert "UN" != "U" && "Q?" != "U";
    SingleDecisionComplete(db, project, scans[0], ds[0]);
    SingleDecisionComplete(db, project, scans[1], ds[1]);
    SingleDecisionComplete(db, project, scans[2], ds[2]);
    SingleDecisionComplete(db, project, scans[3], ds[3]);
    SingleDecisionComplete(db, project, scans[4], ds[4]);
    assert complete(scans[0]) && complete(scans[1]) && !complete(scans[2]);
    assert complete(scans[3]) && !complete(scans[4]);
    FilterCountFive(scans, complete);
  }

  /** How many of five elements a condition keeps. */
  lemma FilterCountFive<T(!new)>(s: seq<T>, p: T -> bool)
    requires |s| == 5
    ensures |Seqs.Filter(s, p)| == (if p(s[0]) then 1 else 0) + (if p(s[1]) then 1 else 0)
                                  + (if p(s[2]) then 1 else 0) + (if p(s[3]) then 1 else 0)
                                  + (if p(s[4]) then 1 else 0)
  {
    Seqs.FilterLength(s, p);
    assert s[..4][..3] == s[..3] && s[..3][..2] == s[..2] && s[..2][..1] == s[..1] && s[..1][..0] == [];
    Seqs.FilterLength(s[..4], p);
    Seqs.FilterLength(s[..3], p);
    Seqs.FilterLength(s[..2], p);
    Seqs.FilterLength(s[..1], p);
  }

  /* ------------------------------------------------------- update_group */

  datatype GroupError = InvalidGroup(name: string) | UnknownUser(username: string)

  /** Clears every lock the user holds on the project's experiments. */
  function ClearLocks(exps: seq<Experiment>, project: Uid, user: Uid): (r: seq<Experiment>)
    ensures |r| == |exps|
    ensures forall i :: 0 <= i < |exps| ==>
              r[i] == if exps[i].project == project && exps[i].lockOwner == Some(user)
                      then exps[i].(lockOwner := None) else exps[i]
  {
    seq(|exps|, i requires 0 <= i < |exps| =>
      if exps[i].project == project && exps[i].lockOwner == Some(user)
      then exps[i].(lockOwner := None) else exps[i])
  }

  /** One step of the revocation loop: a previously permitted user whose
      username is not listed loses the permission and, for a reviewer group,
      their locks on the project. */
  function RevokeOne(db: Db, project: Uid, group: string, userList: seq<string>, u: User): Db {
    if u.username in userList then db
    else
      db.(perms := db.perms - {Perm(u.id, project, group)},
          experiments := if Text.Contains(group, "reviewer") then ClearLocks(db.experiments, project, u.id)
                         else db.experiments)
  }

  /** The revocation loop over the previously permitted users. */
  function RevokeAll(db: Db, project: Uid, group: string, userList: seq<string>, permitted: seq<User>): Db
    decreases |permitted|
  {
    if permitted == [] then db
    else RevokeOne(RevokeAll(db, project, group, userList, permitted[..|permitted| - 1]), project, group, userList, permitted[|permitted| - 1])
  }

  /** The permission one listed username gains: none when the name does
      not resolve to exactly one user or that user was already permitted. */
  function GrantFor(users: seq<User>, project: Uid, group: string, permitted: seq<User>, name: string): set<Perm> {
    match UserByUsername(users, name)
    case Found(u) => if u in permitted then {} else {Perm(u.id, project, group)}
    case _ => {}
  }

  /** The permissions the granting loop adds over `names`. */
  function Granted(users: seq<User>, project: Uid, group: string, permitted: seq<User>, names: seq<string>): set<Perm>
    decreases |names|
  {
    if names == [] then {}
    else Granted(users, project, group, permitted, names[..|names| - 1])
         + GrantFor(users, project, group, permitted, names[|names| - 1])
  }

  /** The position of the first listed username that does not name exactly
      one user, or the length of the list when all do. */
  function FirstUnresolved(users: seq<User>, names: seq<string>): (k: nat)
    ensures k <= |names|
    ensures forall i :: 0 <= i < k ==> UserByUsername(users, names[i]).Found?
    ensures k < |names| ==> !UserByUsername(users, names[k]).Found?
  {
    if names == [] then 0
    else if !UserByUsername(users, names[0]).Found? then 0
    else 1 + FirstUnresolved(users, names[1..])
  }

  /** `update_group`: an unknown group is refused; otherwise previously
      permitted users who are not listed are revoked, then the listed users
      are granted in order until a username fails to resolve, which ends the
      update with an error and keeps what was done before it. */
  function UpdateGroup(db: Db, project: Uid, group: string, userList: seq<string>): (Db, Result<(), GroupError>) {
    if group !in ReadGroups then (db, Failure(InvalidGroup(group)))
    else
      var permitted := UsersWithPerm(db, project, group);
      var mid := RevokeAll(db, project, group, userList, permitted);
      var k := FirstUnresolved(db.users, userList);
      (mid.(perms := mid.perms + Granted(db.users, project, group, permitted, userList[..k])),
       if k < |userList| then Failure(UnknownUser(userList[k])) else Success(()))
  }

  /** The reviewer groups are the read groups whose name mentions `reviewer`,
      so revoking one of them clears locks and revoking collaborator does not. */
  lemma ReviewerGroupsClearLocks(group: string)
    requires group in ReadGroups
    ensures Text.Contains(group, "reviewer") <==> group in ReviewGroups
  {
    if group == "collaborator" {
      CollaboratorLacksReviewer();
    } else {
      assert group == "tier_1_reviewer" || group == "tier_2_reviewer";
      var prefix := if group == "tier_1_reviewer" then "tier_1_" else "tier_2_";
      assert group == prefix + "reviewer";
      Text.ContainsInRight(prefix, "reviewer", "reviewer");
    }
  }

  lemma CollaboratorLacksReviewer()
    ensures !Text.Contains("collaborator", "reviewer")
  {
    assert "reviewer"[2] == 'v';
    Text.MissingCharNotContained("collaborator", "reviewer", 'v');
  }

  /** An unknown group name is refused before anything changes. */
  lemma UpdateGroupRefusesUnknownGroup(db: Db, project: Uid, group: string, userList: seq<string>)
    requires group !in ReadGroups
    ensures UpdateGroup(db, project, group, userList) == (db, Failure(InvalidGroup(group)))
  {
  }

  /** Revocation never adds a permission, leaves every other project and
      group untouched, and changes experiments only by clearing locks. */
  lemma {:induction false} RevokeAllFrame(db: Db, project: Uid, group: string, userList: seq<string>, permitted: seq<User>)
    ensures var r := RevokeAll(db, project, group, userList, permitted);
      && r.users == db.users && r.projects == db.projects && r.scans == db.scans
      && r.frames == db.frames && r.decisions == db.decisions
      && r.evaluations == db.evaluations && r.settings == db.settings
      && r.perms <= db.perms
      && (forall p :: p in db.perms && (p.project != project || p.name != group) ==> p in r.perms)
      && |r.experiments| == |db.experiments|
      && (forall i :: 0 <= i < |db.experiments| ==>
            r.experiments[i] == db.experiments[i] || r.experiments[i] == db.experiments[i].(lockOwner := None))
    decreases |permitted|
  {
    if permitted != [] {
      RevokeAllFrame(db, project, group, userList, permitted[..|permitted| - 1]);
    }
  }

  /** After revocation, a previously permitted user keeps the permission
      exactly when their username is listed. */
  lemma {:induction false} RevokeAllPerms(db: Db, project: Uid, group: string, userList: seq<string>, permitted: seq<User>, u: User)
    requires u in permitted
    requires forall v :: v in permitted && v.id == u.id ==> v == u
    ensures var r := RevokeAll(db, project, group, userList, permitted);
      Perm(u.id, project, group) in r.perms <==> Perm(u.id, project, group) in db.perms && u.username in userList
    decreases |permitted|
  {
    var init := permitted[..|permitted| - 1];
    var last := permitted[|permitted| - 1];
    if u in init {
      RevokeAllPerms(db, project, group, userList, init, u);
    } else {
      assert u == last;
      RevokeAllKeeps(db, project, group, userList, init, u.id);
    }
  }

  /** Revocation touches only the permissions of the users it visits. */
  lemma {:induction false} RevokeAllKeeps(db: Db, project: Uid, group: string, userList: seq<string>, permitted: seq<User>, id: Uid)
    requires forall v :: v in permitted ==> v.id != id
    ensures Perm(id, project, group) in RevokeAll(db, project, group, userList, permitted).perms <==>
              Perm(id, project, group) in db.perms
    decreases |permitted|
  {
    if permitted != [] {
      RevokeAllKeeps(db, project, group, userList, permitted[..|permitted| - 1], id);
    }
  }

  /** A lock on one of the project's experiments is cleared by revocation
      exactly when the group is a reviewer group and its owner is a
      previously permitted user who is not listed. */
  predicate RevokedOwner(project: Uid, group: string, userList: seq<string>, permitted: seq<User>, e: Experiment) {
    && Text.Contains(group, "reviewer")
    && e.project == project
    && e.lockOwner.Some?
    && exists u :: u in permitted && u.id == e.lockOwner.value && u.username !in userList
  }

  lemma {:induction false} RevokeAllLocks(db: Db, project: Uid, group: string, userList: seq<string>, permitted: seq<User>)
    ensures var r := RevokeAll(db, project, group, userList, permitted);
      && |r.experiments| == |db.experiments|
      && forall i :: 0 <= i < |db.experiments| ==>
           r.experiments[i] == if RevokedOwner(project, group, userList, permitted, db.experiments[i])
                               then db.experiments[i].(lockOwner := None) else db.experiments[i]
    decreases |permitted|
  {
    if permitted != [] {
      var init := permitted[..|permitted| - 1];
      var last := permitted[|permitted| - 1];
      RevokeAllLocks(db, project, group, userList, init);
      var r := RevokeAll(db, project, group, userList, permitted);
      forall i | 0 <= i < |db.experiments|
        ensures r.experiments[i] == if RevokedOwner(project, group, userList, permitted, db.experiments[i])
                                    then db.experiments[i].(lockOwner := None) else db.experiments[i]
      {
        var e := db.experiments[i];
        if RevokedOwner(project, group, userList, permitted, e) && !RevokedOwner(project, group, userList, init, e) {
          var u :| u in permitted && u.id == e.lockOwner.value && u.username !in userList;
          assert u == last;
        }
      }
    }
  }

  /** The granting loop adds exactly the permissions of the listed users
      who resolve and were not already permitted. */
  lemma {:induction false} GrantedExactly(users: seq<User>, project: Uid, group: string, permitted: seq<User>, names: seq<string>, p: Perm)
    ensures p in Granted(users, project, group, permitted, names) <==>
              exists u :: u in users && u.username in names && UserByUsername(users, u.username) == Found(u)
                          && u !in permitted && p == Perm(u.id, project, group)
    decreases |names|
  {
    if names != [] {
      var init, name := names[..|names| - 1], names[|names| - 1];
      GrantedExactly(users, project, group, permitted, init, p);
      assert forall n :: n in names <==> n in init || n == name;
    }
  }

  /** `update_group` with a read group and usernames that each name exactly
      one user succeeds; afterwards a user holds the group on the project
      exactly when listed, every other permission is as before, and the only
      experiments changed are this project's ones locked by a revoked
      reviewer, whose lock is cleared. */
  lemma UpdateGroupSucceeds(db: Db, project: Uid, group: string, userList: seq<string>)
    requires group in ReadGroups
    requires forall n :: n in userList ==> UserByUsername(db.users, n).Found?
    requires forall u, v :: u in db.users && v in db.users && u.id == v.id ==> u == v
    ensures var (r, res) := UpdateGroup(db, project, group, userList);
      && res.Success?
      && (forall u :: u in db.users ==> (Perm(u.id, project, group) in r.perms <==> u.username in userList))
      && (forall p: Perm :: p.project != project || p.name != group ==> (p in r.perms <==> p in db.perms))
      && r.users == db.users && r.projects == db.projects && r.scans == db.scans
      && r.decisions == db.decisions && r.settings == db.settings
      && r.frames == db.frames && r.evaluations == db.evaluations
      && |r.experiments| == |db.experiments|
      && (forall i :: 0 <= i < |db.experiments| ==>
            r.experiments[i] == if RevokedOwner(project, group, userList, UsersWithPerm(db, project, group), db.experiments[i])
                                then db.experiments[i].(lockOwner := None) else db.experiments[i])
  {
    var permitted := UsersWithPerm(db, project, group);
    var mid := RevokeAll(db, project, group, userList, permitted);
    RevokeAllFrame(db, project, group, userList, permitted);
    RevokeAllLocks(db, project, group, userList, permitted);
    var k := FirstUnresolved(db.users, userList);
    assert k == |userList| && userList[..k] == userList;
    var granted := Granted(db.users, project, group, permitted, userList);
    var r := mid.(perms := mid.perms + granted);
    assert UpdateGroup(db, project, group, userList) == (r, Success(()));
    forall u | u in db.users ensures Perm(u.id, project, group) in r.perms <==> u.username in userList {
      GrantedExactly(db.users, project, group, permitted, userList, Perm(u.id, project, group));
      if u in permitted {
        RevokeAllPerms(db, project, group, userList, permitted, u);
      } else {
        RevokeAllKeeps(db, project, group, userList, permitted, u.id);
      }
      if u.username in userList && u !in permitted {
        assert UserByUsername(db.users, u.username) == Found(u);
      }
    }
    forall p: Perm | p.project != project || p.name != group ensures p in r.perms <==> p in db.perms {
      GrantedExactly(db.users, project, group, permitted, userList, p);
    }
  }

  /** Whatever its outcome, `update_group` keeps every reference valid: it
      only changes permissions and clears locks. */
  lemma UpdateGroupKeepsValid(db: Db, project: Uid, group: string, userList: seq<string>)
    requires Valid(db)
    ensures Valid(UpdateGroup(db, project, group, userList).0)
  {
    if group in ReadGroups {
      var permitted := UsersWithPerm(db, project, group);
      var mid := RevokeAll(db, project, group, userList, permitted);
      RevokeAllFrame(db, project, group, userList, permitted);
      var r := UpdateGroup(db, project, group, userList).0;
      assert r.experiments == mid.experiments;
      forall e | e in r.experiments ensures e.project in ProjectIds(r) {
        var i :| 0 <= i < |r.experiments| && r.experiments[i] == e;
        assert db.experiments[i] in db.experiments;
      }
      forall e | e in r.experiments && e.lockOwner.Some? ensures e.lockOwner.value in UserIds(r) {
        var i :| 0 <= i < |r.experiments| && r.experiments[i] == e;
        assert db.experiments[i] in db.experiments;
      }
      forall s | s in r.scans ensures s.experiment in ExperimentIds(r) {
        var e :| e in db.experiments && e.id == s.experiment;
        var i :| 0 <= i < |db.experiments| && db.experiments[i] == e;
        assert r.experiments[i] in r.experiments;
      }
    }
  }

  /* ------------------------------------------------- cascade on delete */

  function ScanIdsOf(db: Db, project: Uid): set<Uid> {
    set s | s in db.scans && s.experiment in ExperimentIdsOf(db, project) :: s.id
  }

  function FrameIdsOf(db: Db, project: Uid): set<Uid> {
    set f | f in db.frames && f.scan in ScanIdsOf(db, project) :: f.id
  }

  /** `Experiment.objects.filter(project=project).delete()`: the project's
      experiments go, and the deletion cascades to their scans, to the frames
      and decisions of those scans, and to the evaluations of those frames.
      Users, projects, settings and permissions stay. */
  function DeleteExperiments(db: Db, project: Uid): (r: Db)
    ensures r.users == db.users && r.projects == db.projects && r.settings == db.settings && r.perms == db.perms
    ensures forall e :: e in r.experiments <==> e in db.experiments && e.project != project
    ensures forall s :: s in r.scans <==> s in db.scans && s.experiment !in ExperimentIdsOf(db, project)
    ensures forall f :: f in r.frames <==> f in db.frames && f.scan !in ScanIdsOf(db, project)
    ensures forall d :: d in r.decisions <==> d in db.decisions && d.scan !in ScanIdsOf(db, project)
    ensures forall v :: v in r.evaluations <==> v in db.evaluations && v.frame !in FrameIdsOf(db, project)
  {
    var experiments := ExperimentIdsOf(db, project);
    var scans := ScanIdsOf(db, project);
    var frames := FrameIdsOf(db, project);
    db.(evaluations := Seqs.Filter(db.evaluations, EvaluationOutside(frames)),
        decisions := Seqs.Filter(db.decisions, DecisionOutside(scans)),
        frames := Seqs.Filter(db.frames, FrameOutside(scans)),
        scans := Seqs.Filter(db.scans, ScanOutside(experiments)),
        experiments := Seqs.Filter(db.experiments, ExperimentOutside(project)))
  }

  /* The rows each step of the cascade keeps. */
  function EvaluationOutside(frames: set<Uid>): Evaluation -> bool { (v: Evaluation) => v.frame !in frames }
  function DecisionOutside(scans: set<Uid>): ScanDecision -> bool { (d: ScanDecision) => d.scan !in scans }
  function FrameOutside(scans: set<Uid>): Frame -> bool { (f: Frame) => f.scan !in scans }
  function ScanOutside(experiments: set<Uid>): Scan -> bool { (s: Scan) => s.experiment !in experiments }
  function ExperimentOutside(project: Uid): Experiment -> bool { (e: Experiment) => e.project != project }
  function OtherProject(project: Uid): Project -> bool { (p: Project) => p.id != project }

  /** The cascade as the tables it filters, each with the keys computed
      before any row is deleted. */
  lemma DeleteExperimentsSteps(db: Db, project: Uid, experiments: set<Uid>, scans: set<Uid>, frames: set<Uid>)
    requires experiments == ExperimentIdsOf(db, project)
    requires scans == ScanIdsOf(db, project)
    requires frames == FrameIdsOf(db, project)
    ensures DeleteExperiments(db, project) ==
              db.(evaluations := Seqs.Filter(db.evaluations, EvaluationOutside(frames)),
                  decisions := Seqs.Filter(db.decisions, DecisionOutside(scans)),
                  frames := Seqs.Filter(db.frames, FrameOutside(scans)),
                  scans := Seqs.Filter(db.scans, ScanOutside(experiments)),
                  experiments := Seqs.Filter(db.experiments, ExperimentOutside(project)))
  {
  }

  /** Deleting a project: the project row goes, then the receiver deletes its
      evaluations, decisions, frames, scans and experiments, each by a join
      through the rows above it. Users, settings and permissions stay. */
  function DeleteProject(db: Db, project: Uid): (r: Db)
    ensures r.users == db.users && r.settings == db.settings && r.perms == db.perms
    ensures forall p :: p in r.projects <==> p in db.projects && p.id != project
    ensures forall e :: e in r.experiments <==> e in db.experiments && e.project != project
    ensures forall s :: s in r.scans <==> s in db.scans && s.experiment !in ExperimentIdsOf(db, project)
    ensures forall f :: f in r.frames <==> f in db.frames && f.scan !in ScanIdsOf(db, project)
    ensures forall d :: d in r.decisions <==> d in db.decisions && d.scan !in ScanIdsOf(db, project)
    ensures forall v :: v in r.evaluations <==> v in db.evaluations && v.frame !in FrameIdsOf(db, project)
  {
    var r := DeleteExperiments(db, project);
    r.(projects := Seqs.Filter(db.projects, OtherProject(project)))
  }

  /** Deleting a project's experiments keeps every reference valid. */
  lemma DeleteExperimentsKeepsValid(db: Db, project: Uid)
    requires Valid(db)
    ensures Valid(DeleteExperiments(db, project))
  {
    var r := DeleteExperiments(db, project);
    assert ScanRefs(r) by {
      forall s | s in r.scans ensures s.experiment in ExperimentIds(r) {
        var e :| e in db.experiments && e.id == s.experiment;
        assert e in r.experiments;
      }
    }
    assert FrameRefs(r) by {
      forall f | f in r.frames ensures f.scan in ScanIds(r) {
        var s :| s in db.scans && s.id == f.scan;
        assert s in r.scans;
      }
    }
    assert DecisionRefs(r) by {
      forall d | d in r.decisions ensures d.scan in ScanIds(r) {
        var s :| s in db.scans && s.id == d.scan;
        assert s in r.scans;
      }
    }
    assert EvaluationRefs(r) by {
      forall v | v in r.evaluations ensures v.frame in FrameIds(r) {
        var f :| f in db.frames && f.id == v.frame;
        assert f in r.frames;
      }
    }
  }

  /** Deleting a project keeps every reference valid. */
  lemma DeleteProjectKeepsValid(db: Db, project: Uid)
    requires Valid(db)
    ensures Valid(DeleteProject(db, project))
  {
    DeleteExperimentsKeepsValid(db, project);
    var m := DeleteExperiments(db, project);
    var r := DeleteProject(db, project);
    assert r == m.(projects := r.projects);
    assert ExperimentRefs(r) by {
      forall e | e in r.experiments ensures e.project in ProjectIds(r) {
        var p :| p in db.projects && p.id == e.project;
        assert p in r.projects;
      }
    }
  }

  /** Nothing of the deleted project remains: not the project, no experiment
      of it, and no scan or frame reachable from one. */
  lemma DeleteProjectRemovesSubtree(db: Db, project: Uid)
    ensures var r := DeleteProject(db, project);
      && project !in ProjectIds(r)
      && ExperimentIdsOf(r, project) == {}
      && ScanIdsOf(r, project) == {}
      && FrameIdsOf(r, project) == {}
  {
  }
}
