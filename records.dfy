/** The rows the core reads and writes, as one value: users, projects and
    their hierarchy, decisions, evaluations, settings, and the per-object
    permissions granted on projects. */
module Records {
  import opened Wrappers
  import opened Entities
  import opened Settings
  import opened Projects
  import opened Decisions
  import Seqs

  /** A permission `name` granted to `user` on `project`. */
  datatype Perm = Perm(user: Uid, project: Uid, name: string)

  datatype Db = Db(
    users: seq<User>,
    projects: seq<Project>,
    experiments: seq<Experiment>,
    scans: seq<Scan>,
    frames: seq<Frame>,
    decisions: seq<ScanDecision>,
    evaluations: seq<Evaluation>,
    settings: seq<Setting>,
    perms: set<Perm>)

  function UserIds(db: Db): set<Uid> { set u | u in db.users :: u.id }
  function ProjectIds(db: Db): set<Uid> { set p | p in db.projects :: p.id }
  function ExperimentIds(db: Db): set<Uid> { set e | e in db.experiments :: e.id }
  function ScanIds(db: Db): set<Uid> { set s | s in db.scans :: s.id }
  function FrameIds(db: Db): set<Uid> { set f | f in db.frames :: f.id }

  /** Every reference points at an existing row: experiments at projects,
      scans at experiments, frames and decisions at scans, evaluations at
      frames, decision creators and lock owners at users, and setting groups
      at group settings. */
  predicate Valid(db: Db) {
    && ExperimentRefs(db) && LockRefs(db) && ScanRefs(db) && FrameRefs(db)
    && DecisionRefs(db) && CreatorRefs(db) && EvaluationRefs(db)
    && AllGroupRefsValid(db.settings)
  }

  predicate ExperimentRefs(db: Db) { forall e :: e in db.experiments ==> e.project in ProjectIds(db) }
  predicate LockRefs(db: Db) {
    forall e :: e in db.experiments && e.lockOwner.Some? ==> e.lockOwner.value in UserIds(db)
  }
  predicate ScanRefs(db: Db) { forall s :: s in db.scans ==> s.experiment in ExperimentIds(db) }
  predicate FrameRefs(db: Db) { forall f :: f in db.frames ==> f.scan in ScanIds(db) }
  predicate DecisionRefs(db: Db) { forall d :: d in db.decisions ==> d.scan in ScanIds(db) }
  predicate CreatorRefs(db: Db) {
    forall d :: d in db.decisions && d.creator.Some? ==> d.creator.value in UserIds(db)
  }
  predicate EvaluationRefs(db: Db) { forall v :: v in db.evaluations ==> v.frame in FrameIds(db) }

  /** The first row with a given key (keys are primary keys). */
  function FindProject(db: Db, id: Uid): (r: Option<Project>)
    ensures r.Some? ==> r.value in db.projects && r.value.id == id
    ensures r.None? <==> id !in ProjectIds(db)
  {
    FindProjectIn(db.projects, id)
  }

  function FindProjectIn(ps: seq<Project>, id: Uid): (r: Option<Project>)
    ensures r.Some? ==> r.value in ps && r.value.id == id
    ensures r.None? <==> forall p :: p in ps ==> p.id != id
  {
    if ps == [] then None else if ps[0].id == id then Some(ps[0]) else FindProjectIn(ps[1..], id)
  }

  function FindUser(users: seq<User>, id: Uid): (r: Option<User>)
    ensures r.Some? ==> r.value in users && r.value.id == id
    ensures r.None? <==> forall u :: u in users ==> u.id != id
  {
    if users == [] then None else if users[0].id == id then Some(users[0]) else FindUser(users[1..], id)
  }

  function FindExperiment(exps: seq<Experiment>, id: Uid): (r: Option<Experiment>)
    ensures r.Some? ==> r.value in exps && r.value.id == id
    ensures r.None? <==> forall e :: e in exps ==> e.id != id
  {
    if exps == [] then None else if exps[0].id == id then Some(exps[0]) else FindExperiment(exps[1..], id)
  }

  function FindScan(scans: seq<Scan>, id: Uid): (r: Option<Scan>)
    ensures r.Some? ==> r.value in scans && r.value.id == id
    ensures r.None? <==> forall s :: s in scans ==> s.id != id
  {
    if scans == [] then None else if scans[0].id == id then Some(scans[0]) else FindScan(scans[1..], id)
  }

  function FindFrame(frames: seq<Frame>, id: Uid): (r: Option<Frame>)
    ensures r.Some? ==> r.value in frames && r.value.id == id
    ensures r.None? <==> forall f :: f in frames ==> f.id != id
  {
    if frames == [] then None else if frames[0].id == id then Some(frames[0]) else FindFrame(frames[1..], id)
  }

  /** `ScanDecision.experiment`: the experiment of the decision's scan. */
  function DecisionExperiment(db: Db, d: ScanDecision): (r: Option<Experiment>)
    ensures r.Some? ==> exists s :: s in db.scans && s.id == d.scan && s.experiment == r.value.id
    ensures r.Some? ==> r.value in db.experiments
    ensures Valid(db) && d in db.decisions ==> r.Some?
  {
    match FindScan(db.scans, d.scan)
    case None => None
    case Some(s) => FindExperiment(db.experiments, s.experiment)
  }

  /** The project a scan belongs to, through its experiment. */
  function ScanProject(db: Db, scan: Uid): Option<Uid> {
    match FindScan(db.scans, scan)
    case None => None
    case Some(s) =>
      match FindExperiment(db.experiments, s.experiment)
      case None => None
      case Some(e) => Some(e.project)
  }

  /** `get_perms(user, project)`: the permission names the user holds there. */
  function PermsOf(db: Db, user: Uid, project: Uid): set<string> {
    set p | p in db.perms && p.user == user && p.project == project :: p.name
  }

  /** `get_users_with_perms(project, only_with_perms_in=[name])`: the users
      holding `name` on the project, in table order. */
  function UsersWithPerm(db: Db, project: Uid, name: string): (r: seq<User>)
    ensures forall u :: u in r <==> u in db.users && Perm(u.id, project, name) in db.perms
  {
    Seqs.Filter(db.users, (u: User) => Perm(u.id, project, name) in db.perms)
  }

  /** `User.objects.get(field=value)`: one match, none, or several. */
  function UserWhere(users: seq<User>, p: User -> bool): (r: Lookup<User>)
    ensures r.Found? ==> r.item in users && p(r.item)
    ensures r.Missing? <==> forall u :: u in users ==> !p(u)
    ensures r.Found? ==> forall u :: u in users && p(u) ==> u == r.item
    ensures r.Found? <==> |Seqs.Filter(users, p)| == 1
  {
    var matches := Seqs.Filter(users, p);
    if matches == [] then Missing
    else if |matches| == 1 then
      assert matches[0] in matches;
      Found(matches[0])
    else
      assert matches[0] in matches;
      Ambiguous
  }

  /** The filter `username=name`. */
  function UsernameIs(name: string): User -> bool {
    (u: User) => u.username == name
  }

  /** The filter `email=address`. */
  function EmailIs(address: string): User -> bool {
    (u: User) => u.email == address
  }

  /** `User.objects.get(username=name)`. */
  function UserByUsername(users: seq<User>, name: string): (r: Lookup<User>)
    ensures r.Found? ==> r.item in users && r.item.username == name
    ensures r.Missing? <==> forall u :: u in users ==> u.username != name
    ensures r.Found? ==> forall u :: u in users && u.username == name ==> u == r.item
  {
    UserWhere(users, UsernameIs(name))
  }

  /** `User.objects.get(email=address)`. */
  function UserByEmail(users: seq<User>, address: string): (r: Lookup<User>)
    ensures r.Found? ==> r.item in users && r.item.email == address
    ensures r.Missing? <==> forall u :: u in users ==> u.email != address
    ensures r.Found? ==> forall u :: u in users && u.email == address ==> u == r.item
  {
    UserWhere(users, EmailIs(address))
  }

  /** A username lookup finds a user exactly when one row has that username. */
  lemma UserByUsernameExactlyOne(users: seq<User>, name: string)
    ensures UserByUsername(users, name).Found? <==> |Seqs.Filter(users, UsernameIs(name))| == 1
  {
  }

  /** An email lookup finds a user exactly when one row has that email. */
  lemma UserByEmailExactlyOne(users: seq<User>, address: string)
    ensures UserByEmail(users, address).Found? <==> |Seqs.Filter(users, EmailIs(address))| == 1
  {
  }
}
