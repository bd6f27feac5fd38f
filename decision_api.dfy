/** The review endpoints: taking and releasing an experiment's lock, recording
    a decision on a scan, and listing the decisions a user may read. Each
    returns the rows after the request together with the HTTP reply. */
module DecisionApi {
  import opened Wrappers
  import opened Entities
  import opened Dicts
  import opened Decisions
  import opened Projects
  import opened Records
  import Seqs
  import Sorting

  /** An HTTP status and, for the lock refusal, its `detail` text. */
  datatype Reply = Reply(status: nat, detail: Option<string>)

  const Ok: nat := 200
  const Created: nat := 201
  const Forbidden: nat := 403
  const NotFound: nat := 404
  const Conflict: nat := 409
  /** An exception the view does not catch. */
  const ServerError: nat := 500

  const LockMessage: string := "You must lock the experiment before performing this action."

  function Plain(status: nat): Reply {
    Reply(status, None)
  }

  /* ------------------------------------------------------------- locks */

  /** Sets the lock owner of the experiment with key `id`. */
  function SetLock(exps: seq<Experiment>, id: Uid, owner: Option<Uid>): (r: seq<Experiment>)
    ensures |r| == |exps|
    ensures forall i :: 0 <= i < |exps| ==>
              r[i] == if exps[i].id == id then exps[i].(lockOwner := owner) else exps[i]
  {
    seq(|exps|, i requires 0 <= i < |exps| =>
      if exps[i].id == id then exps[i].(lockOwner := owner) else exps[i])
  }

  /** The review permission check every lock and decision request starts with. */
  predicate MayReview(db: Db, user: Uid, project: Uid) {
    HasReviewPerm(PermsOf(db, user, project))
  }

  /** `POST experiments/<id>/lock`: a reviewer takes a free lock or keeps
      their own; a lock held by someone else is a conflict. */
  function AcquireLock(db: Db, user: Uid, experiment: Uid): (r: (Db, Reply))
    ensures r.1.status in {Ok, Forbidden, NotFound, Conflict}
    ensures r.1.status != Ok ==> r.0 == db
    ensures r.1.status == Ok <==>
              exists e :: e in db.experiments && e.id == experiment && MayReview(db, user, e.project)
                          && FindExperiment(db.experiments, experiment) == Some(e)
                          && (e.lockOwner.None? || e.lockOwner == Some(user))
    ensures r.1.status == Ok ==> r.0 == db.(experiments := SetLock(db.experiments, experiment, Some(user)))
  {
    match FindExperiment(db.experiments, experiment)
    case None => (db, Plain(NotFound))
    case Some(e) =>
      if !MayReview(db, user, e.project) then (db, Plain(Forbidden))
      else if e.lockOwner.Some? && e.lockOwner != Some(user) then (db, Plain(Conflict))
      else (db.(experiments := SetLock(db.experiments, experiment, Some(user))), Plain(Ok))
  }

  /** `DELETE experiments/<id>/lock`: the owner releases the lock; another
      user's lock is a conflict; releasing a free lock changes nothing. */
  function ReleaseLock(db: Db, user: Uid, experiment: Uid): (r: (Db, Reply))
    ensures r.1.status in {Ok, Forbidden, NotFound, Conflict}
    ensures r.1.status != Ok ==> r.0 == db
    ensures r.1.status == Ok <==>
              exists e :: e in db.experiments && e.id == experiment && MayReview(db, user, e.project)
                          && FindExperiment(db.experiments, experiment) == Some(e)
                          && (e.lockOwner.None? || e.lockOwner == Some(user))
    ensures r.1.status == Ok ==> r.0 == db.(experiments := SetLock(db.experiments, experiment, None))
  {
    match FindExperiment(db.experiments, experiment)
    case None => (db, Plain(NotFound))
    case Some(e) =>
      if !MayReview(db, user, e.project) then (db, Plain(Forbidden))
      else if e.lockOwner.Some? && e.lockOwner != Some(user) then (db, Plain(Conflict))
      else (db.(experiments := SetLock(db.experiments, experiment, None)), Plain(Ok))
  }

  /** The lock tests: a reviewer acquires a free lock and then owns it, may
      acquire it again, is refused someone else's lock, releases their own,
      and cannot release someone else's; a user without review permission is
      refused all of these. */
  lemma LockScenarios(db: Db, user: Uid, other: Uid, e: Experiment)
    requires e in db.experiments && FindExperiment(db.experiments, e.id) == Some(e)
    requires other != user
    ensures !MayReview(db, user, e.project) ==>
              AcquireLock(db, user, e.id).1.status == Forbidden && ReleaseLock(db, user, e.id).1.status == Forbidden
    ensures MayReview(db, user, e.project) && e.lockOwner.None? ==>
              var (db', reply) := AcquireLock(db, user, e.id);
              reply.status == Ok && FindExperiment(db'.experiments, e.id) == Some(e.(lockOwner := Some(user)))
    ensures MayReview(db, user, e.project) && e.lockOwner == Some(user) ==>
              AcquireLock(db, user, e.id).1.status == Ok
    ensures MayReview(db, user, e.project) && e.lockOwner == Some(other) ==>
              AcquireLock(db, user, e.id) == (db, Plain(Conflict))
    ensures MayReview(db, user, e.project) && e.lockOwner == Some(user) ==>
              var (db', reply) := ReleaseLock(db, user, e.id);
              reply.status == Ok && FindExperiment(db'.experiments, e.id) == Some(e.(lockOwner := None))
    ensures MayReview(db, user, e.project) && e.lockOwner == Some(other) ==>
              ReleaseLock(db, user, e.id) == (db, Plain(Conflict))
  {
    if MayReview(db, user, e.project) && e.lockOwner.None? {
      FindAfterSetLock(db.experiments, e, Some(user));
    }
    if MayReview(db, user, e.project) && e.lockOwner == Some(user) {
      FindAfterSetLock(db.experiments, e, None);
    }
  }

  /** Setting the lock of the experiment a lookup finds changes exactly the
      row that lookup then finds. */
  lemma {:induction false} FindAfterSetLock(exps: seq<Experiment>, e: Experiment, owner: Option<Uid>)
    requires FindExperiment(exps, e.id) == Some(e)
    ensures FindExperiment(SetLock(exps, e.id, owner), e.id) == Some(e.(lockOwner := owner))
    decreases |exps|
  {
    if exps[0].id != e.id {
      FindAfterSetLock(exps[1..], e, owner);
      assert SetLock(exps, e.id, owner)[1..] == SetLock(exps[1..], e.id, owner);
    }
  }

  /** Acquiring and then releasing a free lock leaves the experiments as they
      were. */
  lemma AcquireThenRelease(db: Db, user: Uid, e: Experiment)
    requires e in db.experiments && FindExperiment(db.experiments, e.id) == Some(e)
    requires forall x :: x in db.experiments && x.id == e.id ==> x.lockOwner.None?
    requires MayReview(db, user, e.project)
    ensures var (mid, r1) := AcquireLock(db, user, e.id);
            var (after, r2) := ReleaseLock(mid, user, e.id);
            r1.status == Ok && r2.status == Ok && after == db
  {
    var mid := AcquireLock(db, user, e.id).0;
    FindAfterSetLock(db.experiments, e, Some(user));
    assert PermsOf(mid, user, e.project) == PermsOf(db, user, e.project);
    var after := ReleaseLock(mid, user, e.id).0;
    assert after.experiments == db.experiments;
  }

  /** Changing lock owners to existing users keeps every reference valid. */
  lemma SetLockKeepsValid(db: Db, id: Uid, owner: Option<Uid>)
    requires Valid(db)
    requires owner.Some? ==> owner.value in UserIds(db)
    ensures Valid(db.(experiments := SetLock(db.experiments, id, owner)))
  {
    var r := db.(experiments := SetLock(db.experiments, id, owner));
    assert ExperimentRefs(r) by {
      forall e | e in r.experiments ensures e.project in ProjectIds(r) {
        var i :| 0 <= i < |r.experiments| && r.experiments[i] == e;
        assert db.experiments[i] in db.experiments;
      }
    }
    assert LockRefs(r) by {
      forall e | e in r.experiments && e.lockOwner.Some? ensures e.lockOwner.value in UserIds(r) {
        var i :| 0 <= i < |r.experiments| && r.experiments[i] == e;
        assert db.experiments[i] in db.experiments;
      }
    }
    assert ScanRefs(r) by {
      forall s | s in r.scans ensures s.experiment in ExperimentIds(r) {
        var e :| e in db.experiments && e.id == s.experiment;
        var i :| 0 <= i < |db.experiments| && db.experiments[i] == e;
        assert r.experiments[i] in r.experiments;
      }
    }
  }

  /* --------------------------------------------------------- decisions */

  /** The `artifacts` entry of a request: a dictionary that may carry a
      `present` list, an `absent` list, both or neither. */
  datatype ArtifactsField = ArtifactsField(present: Option<seq<string>>, absent: Option<seq<string>>)

  /** The body of a decision request. An absent key is `None`. */
  datatype DecisionRequest = DecisionRequest(
    scan: Uid,
    decision: string,
    note: Option<string>,
    artifacts: Option<ArtifactsField>,
    identified: Option<ArtifactMap>,
    location: Option<Location>)

  /** The state a request gives one artifact: present wins over absent, and
      a name in neither list is undefined. */
  function StateFor(name: string, present: seq<string>, absent: seq<string>): (s: ArtifactState)
    ensures s == Present <==> name in present
    ensures s == Absent <==> name !in present && name in absent
    ensures s == Undefined <==> name !in present && name !in absent
  {
    if name in present then Present else if name in absent then Absent else Undefined
  }

  /** The tri-state map over the project's artifact names. */
  function TriState(names: seq<string>, present: seq<string>, absent: seq<string>): (r: ArtifactMap)
    ensures Keys(r) == names
    ensures forall n :: n in names ==> Get(r, n) == Some(StateValue(StateFor(n, present, absent)))
    ensures forall i :: 0 <= i < |r| ==> StateOf(r[i].1).Some?
  {
    var r := seq(|names|, i requires 0 <= i < |names| => (names[i], StateValue(StateFor(names[i], present, absent))));
    forall n | n in names ensures Get(r, n) == Some(StateValue(StateFor(n, present, absent))) {
      assert Keys(r) == names;
    }
    r
  }

  /** The artifact map a request stores: converted from `artifacts` only when
      that entry has both lists, otherwise whatever the request gave
      directly, or `{}`. */
  function RequestArtifacts(req: DecisionRequest, names: seq<string>): ArtifactMap {
    if Converts(req) then TriState(names, req.artifacts.value.present.value, req.artifacts.value.absent.value)
    else if req.identified.Some? then req.identified.value
    else []
  }

  /** The request's `artifacts` entry is converted and removed. */
  predicate Converts(req: DecisionRequest) {
    req.artifacts.Some? && req.artifacts.value.present.Some? && req.artifacts.value.absent.Some?
  }

  /** The row a successful request stores. */
  function RequestDecision(req: DecisionRequest, names: seq<string>, user: Uid, id: Uid, now: int): ScanDecision {
    ScanDecision(id, Some(now), req.scan, Some(user), req.decision,
                 if req.note.Some? then req.note.value else "",
                 RequestArtifacts(req, names),
                 if req.location.Some? then req.location.value else [])
  }

  /** The project a scan belongs to, through its experiment, as a row. */
  function ScanProjectRow(db: Db, s: Scan): Option<(Experiment, Project)> {
    match FindExperiment(db.experiments, s.experiment)
    case None => None
    case Some(e) =>
      match FindProject(db, e.project)
      case None => None
      case Some(p) => Some((e, p))
  }

  /** The conditions under which `create` stores the row: the scan and its
      experiment and project exist, the requester may review the project and
      holds the experiment's lock, the `artifacts` entry is absent or has
      both lists, and the code fits the two-character column. */
  predicate Admitted(db: Db, req: DecisionRequest, user: Uid) {
    && FindScan(db.scans, req.scan).Some?
    && ScanProjectRow(db, FindScan(db.scans, req.scan).value).Some?
    && MayReview(db, user, ScanProjectRow(db, FindScan(db.scans, req.scan).value).value.1.id)
    && ScanProjectRow(db, FindScan(db.scans, req.scan).value).value.0.lockOwner == Some(user)
    && !(req.artifacts.Some? && !Converts(req))
    && |req.decision| <= 2
  }

  /** `create`: the scan is looked up (an unknown one is an uncaught error),
      a user without review permission on its project is refused, the
      artifact lists are converted, the requester must hold the experiment's
      lock, and the row is saved; a leftover `artifacts` entry and a code
      longer than the two-character column are uncaught errors. The new row
      carries the requester as creator and `now` as its time. */
  function CreateDecision(db: Db, req: DecisionRequest, user: Uid, id: Uid, now: int): (r: (Db, Reply))
    ensures r.1.status in {Created, Forbidden, ServerError}
    ensures r.1.status != Created ==> r.0 == db
    ensures r.1.status == Created ==>
              exists s: Scan, e: Experiment, p: Project ::
                             FindScan(db.scans, req.scan) == Some(s) && ScanProjectRow(db, s) == Some((e, p))
                             && MayReview(db, user, p.id) && e.lockOwner == Some(user)
                             && r.0 == db.(decisions := db.decisions + [RequestDecision(req, ArtifactNames(p, db.settings), user, id, now)])
    ensures r.1.status == Created ==> |req.decision| <= 2 && !(req.artifacts.Some? && !Converts(req))
    ensures r.1.status == Created <==> Admitted(db, req, user)
    ensures Admitted(db, req, user) ==>
              r.0 == db.(decisions := db.decisions + [RequestDecision(req, ArtifactNames(ScanProjectRow(db, FindScan(db.scans, req.scan).value).value.1, db.settings), user, id, now)])
  {
    match FindScan(db.scans, req.scan)
    case None => (db, Plain(ServerError))
    case Some(s) =>
      match ScanProjectRow(db, s)
      case None => (db, Plain(ServerError))
      case Some((e, p)) =>
        if !MayReview(db, user, p.id) then (db, Plain(Forbidden))
        else if e.lockOwner != Some(user) then (db, Reply(Forbidden, Some(LockMessage)))
        else if req.artifacts.Some? && !Converts(req) then (db, Plain(ServerError))
        else if |req.decision| > 2 then (db, Plain(ServerError))
        else
          var d := RequestDecision(req, ArtifactNames(p, db.settings), user, id, now);
          (db.(decisions := db.decisions + [d]), Plain(Created))
  }

  /** A user without review permission on the scan's project is refused with
      a bare 403 and nothing is stored, whatever the lock. */
  lemma CreateRequiresReviewPerm(db: Db, req: DecisionRequest, user: Uid, id: Uid, now: int, s: Scan, e: Experiment, p: Project)
    requires FindScan(db.scans, req.scan) == Some(s) && ScanProjectRow(db, s) == Some((e, p))
    requires !MayReview(db, user, p.id)
    ensures CreateDecision(db, req, user, id, now) == (db, Plain(Forbidden))
  {
  }

  /** A reviewer who does not hold the experiment's lock is refused with the
      lock message and nothing is stored. */
  lemma CreateWithoutLockFails(db: Db, req: DecisionRequest, user: Uid, id: Uid, now: int, s: Scan, e: Experiment, p: Project)
    requires FindScan(db.scans, req.scan) == Some(s) && ScanProjectRow(db, s) == Some((e, p))
    requires MayReview(db, user, p.id) && e.lockOwner != Some(user)
    ensures CreateDecision(db, req, user, id, now) == (db, Reply(Forbidden, Some(LockMessage)))
  {
  }

  /** A reviewer holding the lock who sends `U` with an empty note on a scan
      without decisions gets 201, and the scan then has exactly one
      decision, which has code `U` and the requester as its creator. */
  lemma CreateWithLock(db: Db, user: Uid, id: Uid, now: int, s: Scan, e: Experiment, p: Project)
    requires FindScan(db.scans, s.id) == Some(s) && ScanProjectRow(db, s) == Some((e, p))
    requires MayReview(db, user, p.id) && e.lockOwner == Some(user)
    requires forall d :: d in db.decisions ==> d.scan != s.id
    ensures var req := DecisionRequest(s.id, "U", Some(""), None, None, None);
            var (db', reply) := CreateDecision(db, req, user, id, now);
            var mine := Seqs.Filter(db'.decisions, (d: ScanDecision) => d.scan == s.id);
            reply.status == Created && |mine| == 1 && mine[0].decision == "U" && mine[0].creator == Some(user)
  {
    var req := DecisionRequest(s.id, "U", Some(""), None, None, None);
    var d := RequestDecision(req, ArtifactNames(p, db.settings), user, id, now);
    var db' := CreateDecision(db, req, user, id, now).0;
    assert db'.decisions == db.decisions + [d];
    var on := (x: ScanDecision) => x.scan == s.id;
    Seqs.FilterAppend(db.decisions, [d], on);
    Seqs.FilterNone(db.decisions, on);
    Seqs.FilterLength([d], on);
  }

  /** A stored decision by an existing user on an existing scan keeps every
      reference valid. */
  lemma CreateKeepsValid(db: Db, req: DecisionRequest, user: Uid, id: Uid, now: int)
    requires Valid(db) && user in UserIds(db)
    ensures Valid(CreateDecision(db, req, user, id, now).0)
  {
    var r := CreateDecision(db, req, user, id, now).0;
    if r != db {
      var s := FindScan(db.scans, req.scan).value;
      assert s in db.scans;
    }
  }

  /* ------------------------------------------------------------ listing */

  /** The decisions whose scan's project the user holds some read group on. */
  predicate Readable(db: Db, user: Uid, d: ScanDecision) {
    match ScanProject(db, d.scan)
    case None => false
    case Some(project) => HasReadPerm(PermsOf(db, user, project))
  }

  function ReadableBy(db: Db, user: Uid): ScanDecision -> bool {
    (d: ScanDecision) => Readable(db, user, d)
  }

  /** `get_queryset`: the readable decisions, newest first. */
  function VisibleDecisions(db: Db, user: Uid): (r: seq<ScanDecision>)
    ensures forall d :: d in r <==> d in db.decisions && Readable(db, user, d)
    ensures multiset(r) == multiset(Seqs.Filter(db.decisions, ReadableBy(db, user)))
    ensures Sorting.SortedBy(r, NewerFirst)
  {
    var mine := Seqs.Filter(db.decisions, ReadableBy(db, user));
    var r := Ordered(mine);
    assert forall d :: ReadableBy(db, user)(d) == Readable(db, user, d);
    assert forall d :: d in r <==> d in multiset(mine);
    r
  }

  /** A decision just stored by a reviewer is among the decisions that
      reviewer can list. */
  lemma CreatedDecisionIsVisible(db: Db, req: DecisionRequest, user: Uid, id: Uid, now: int)
    requires CreateDecision(db, req, user, id, now).1.status == Created
    ensures var db' := CreateDecision(db, req, user, id, now).0;
            db'.decisions[|db'.decisions| - 1] in VisibleDecisions(db', user)
  {
    var db' := CreateDecision(db, req, user, id, now).0;
    var d := db'.decisions[|db'.decisions| - 1];
    var s := FindScan(db.scans, req.scan).value;
    var (e, p) := ScanProjectRow(db, s).value;
    assert d.scan == req.scan;
    assert ScanProject(db', d.scan) == Some(p.id);
    ReviewGroupsAreReadGroups(PermsOf(db', user, p.id));
  }
}
