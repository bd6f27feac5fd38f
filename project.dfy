/** A project's configuration as its setting groups resolve it, the check on
    its evaluation-model mapping, and its permission groups and role ranking. */
module Projects {
  import opened Wrappers
  import opened Entities
  import opened Dicts
  import opened Settings
  import Decisions

  /** `evaluation_models` is any JSON value; only an object is a mapping, and
      its values may be null. */
  datatype ModelConfig = Mapping(entries: Dict<string, Option<string>>) | NotMapping

  datatype Project = Project(
    id: Uid,
    name: string,
    creator: Uid,
    importPath: string,
    exportPath: string,
    s3Public: bool,
    evaluationModels: ModelConfig,
    artifactsGroup: Option<Uid>,
    filesToModelsGroup: Option<Uid>,
    modelsGroup: Option<Uid>,
    predictionsGroup: Option<Uid>)

  /** The mapping a project starts with: scan type to evaluation model. */
  const DefaultModelConfig: ModelConfig := Mapping([
    ("T1", Some("MIQAMix-0")), ("T2", Some("MIQAMix-0")), ("FMRI", Some("MIQAT1-0")),
    ("MRA", Some("MIQAT1-0")), ("PD", Some("MIQAMix-0")), ("DTI", Some("MIQAT1-0")),
    ("DWI", Some("MIQAT1-0")), ("ncanda-t1spgr-v1", Some("MIQAMix-0")),
    ("ncanda-mprage-v1", Some("MIQAMix-0")), ("ncanda-t2fse-v1", Some("MIQAMix-0")),
    ("ncanda-dti6b500pepolar-v1", Some("MIQAMix-0")), ("ncanda-dti30b400-v1", Some("MIQAT1-0")),
    ("ncanda-dti60b1000-v1", Some("MIQAT1-0")), ("ncanda-grefieldmap-v1", Some("MIQAMix-0")),
    ("ncanda-rsfmri-v1", Some("MIQAT1-0"))])

  const AvailableModels: seq<string> := ["MIQAMix-0", "MIQAT1-0"]

  /** The members of the group a project field points at, in key order; no
      members when the field is empty. */
  function Members(settings: seq<Setting>, group: Option<Uid>): seq<Setting> {
    if group.None? then [] else GroupMembers(settings, group.value)
  }

  /** `(member.key, member.value)` for each member, in order. */
  function Pairs(members: seq<Setting>): (ps: seq<(string, string)>)
    ensures |ps| == |members|
    ensures forall i :: 0 <= i < |ps| ==> ps[i] == (members[i].key, members[i].value)
  {
    seq(|members|, i requires 0 <= i < |members| => (members[i].key, members[i].value))
  }

  /** A key occurs among the pairs of a group's members exactly when some
      setting of that group has it. */
  lemma KeyInMembers(settings: seq<Setting>, group: Option<Uid>, k: string)
    ensures k in Keys(Pairs(Members(settings, group))) <==>
              group.Some? && exists s :: s in settings && s.group == group && s.key == k
  {
    var m := Members(settings, group);
    var ps := Pairs(m);
    if k in Keys(ps) {
      var i :| 0 <= i < |ps| && Keys(ps)[i] == k;
      assert m[i] in m;
    }
    if group.Some? && exists s :: s in settings && s.group == group && s.key == k {
      var s :| s in settings && s.group == group && s.key == k;
      var i :| 0 <= i < |m| && m[i] == s;
      assert Keys(ps)[i] == k;
    }
  }

  /** `artifacts`: each artifact name of the project's artifact group mapped
      to the undefined state, `{}` without a group. */
  function Artifacts(p: Project, settings: seq<Setting>): (r: Dict<string, int>)
    ensures DistinctKeys(r)
    ensures forall k :: k in Keys(r) <==>
              p.artifactsGroup.Some? && exists s :: s in settings && s.group == p.artifactsGroup && s.key == k
    ensures forall i :: 0 <= i < |r| ==> r[i].1 == Decisions.StateValue(Decisions.Undefined)
  {
    UndefinedEntries(settings, p.artifactsGroup);
    FromPairs(UndefinedPairs(Members(settings, p.artifactsGroup)))
  }

  /** Each member's key paired with the undefined state. */
  function UndefinedPairs(m: seq<Setting>): (r: seq<(string, int)>)
    ensures Keys(r) == Keys(Pairs(m))
    ensures forall i :: 0 <= i < |r| ==> r[i].1 == Decisions.StateValue(Decisions.Undefined)
  {
    var r := seq(|m|, i requires 0 <= i < |m| => (m[i].key, Decisions.StateValue(Decisions.Undefined)));
    assert Keys(r) == Keys(Pairs(m));
    r
  }

  lemma UndefinedEntries(settings: seq<Setting>, group: Option<Uid>)
    ensures var r := FromPairs(UndefinedPairs(Members(settings, group)));
            && DistinctKeys(r)
            && (forall k :: k in Keys(r) <==> group.Some? && exists s :: s in settings && s.group == group && s.key == k)
            && forall i :: 0 <= i < |r| ==> r[i].1 == Decisions.StateValue(Decisions.Undefined)
  {
    var ps := UndefinedPairs(Members(settings, group));
    FromPairsLookup(ps);
    FromPairsValues(ps, Decisions.StateValue(Decisions.Undefined));
    FromPairsKeys(ps);
    forall k ensures k in Keys(ps) <==> group.Some? && exists s :: s in settings && s.group == group && s.key == k {
      KeyInMembers(settings, group, k);
    }
  }

  /** The artifact names of a project, in the order `artifacts` lists them. */
  function ArtifactNames(p: Project, settings: seq<Setting>): seq<string> {
    Keys(Artifacts(p, settings))
  }

  /** The key-to-value dictionary of a group's members: `{}` without a group,
      and the last member with a key gives that key's value. */
  function KeyValueMap(settings: seq<Setting>, group: Option<Uid>): (r: Dict<string, string>)
    ensures DistinctKeys(r)
    ensures forall k :: Get(r, k) == LastValue(Pairs(Members(settings, group)), k)
    ensures forall k :: Get(r, k).Some? <==>
              group.Some? && exists s :: s in settings && s.group == group && s.key == k
    ensures forall k, v :: Get(r, k) == Some(v) ==>
              exists s :: s in settings && s.group == group && s.key == k && s.value == v
  {
    var m := Members(settings, group);
    var r := FromPairs(Pairs(m));
    FromPairsLookup(Pairs(m));
    forall k ensures Get(r, k).Some? <==>
              group.Some? && exists s :: s in settings && s.group == group && s.key == k
    {
      KeyInMembers(settings, group, k);
    }
    forall k, v | Get(r, k) == Some(v)
      ensures exists s :: s in settings && s.group == group && s.key == k && s.value == v
    {
      var i :| 0 <= i < |m| && Pairs(m)[i] == (k, v);
      assert m[i] in m;
    }
    r
  }

  /** `model_source_type_mappings`: scan type to evaluation model name. */
  function ModelSourceTypeMappings(p: Project, settings: seq<Setting>): Dict<string, string> {
    KeyValueMap(settings, p.filesToModelsGroup)
  }

  /** `model_mappings`: evaluation model name to model file. */
  function ModelMappings(p: Project, settings: seq<Setting>): Dict<string, string> {
    KeyValueMap(settings, p.modelsGroup)
  }

  /** The dictionary `model_predictions` builds. */
  function Predictions(p: Project, settings: seq<Setting>): Dict<string, seq<string>> {
    Collect(Pairs(Members(settings, p.predictionsGroup)))
  }

  /** `model_predictions`: every member's value listed under its key, in
      iteration order; `{}` without a group. */
  method ModelPredictions(p: Project, settings: seq<Setting>) returns (r: Dict<string, seq<string>>)
    ensures r == Predictions(p, settings)
    ensures DistinctKeys(r)
    ensures forall k :: Get(r, k) ==
              var vs := ValuesOf(Pairs(Members(settings, p.predictionsGroup)), k);
              if vs == [] then None else Some(vs)
    ensures multiset(AllValues(r)) == multiset(Seconds(Pairs(Members(settings, p.predictionsGroup))))
    ensures p.predictionsGroup.None? ==> r == []
  {
    r := CollectMembers(settings, p.predictionsGroup);
    CollectLookup(Pairs(Members(settings, p.predictionsGroup)));
    CollectKeepsEveryValue(Pairs(Members(settings, p.predictionsGroup)));
  }

  /** The loop of `model_predictions` over the group's members. */
  method CollectMembers(settings: seq<Setting>, group: Option<Uid>) returns (r: Dict<string, seq<string>>)
    ensures r == Collect(Pairs(Members(settings, group)))
  {
    r := [];
    if group.Some? {
      var members := GroupMembers(settings, group.value);
      var ps := Pairs(members);
      var i := 0;
      while i < |members|
        invariant 0 <= i <= |members|
        invariant r == Collect(ps[..i])
      {
        assert ps[..i + 1][..i] == ps[..i];
        r := Append(r, members[i].key, members[i].value);
        i := i + 1;
      }
      assert ps[..i] == ps;
    }
  }

  datatype CleanError = NotADictionary | UnknownScanType | UnknownModel

  /** Every key is one of `scanTypes`. */
  predicate KeysAllIn(entries: Dict<string, Option<string>>, scanTypes: seq<string>)
  {
    forall i :: 0 <= i < |entries| ==> entries[i].0 in scanTypes
  }

  /** Every value is present and names an available model. */
  predicate ValuesAllKnown(entries: Dict<string, Option<string>>)
  {
    forall i :: 0 <= i < |entries| ==> entries[i].1.Some? && entries[i].1.value in AvailableModels
  }

  /** The first entry, scanning in order, whose key is not a scan type. */
  function FirstUnknownKey(entries: Dict<string, Option<string>>, scanTypes: seq<string>): (r: Option<nat>)
    ensures r.None? <==> KeysAllIn(entries, scanTypes)
    ensures r.Some? ==> r.value < |entries| && entries[r.value].0 !in scanTypes
  {
    if entries == [] then None
    else if entries[0].0 !in scanTypes then Some(0)
    else match FirstUnknownKey(entries[1..], scanTypes)
      case None => None
      case Some(j) => Some(j + 1)
  }

  /** The first entry, scanning in order, whose value is null or unknown. */
  function FirstUnknownValue(entries: Dict<string, Option<string>>): (r: Option<nat>)
    ensures r.None? <==> ValuesAllKnown(entries)
    ensures r.Some? ==> r.value < |entries| &&
                        (entries[r.value].1.None? || entries[r.value].1.value !in AvailableModels)
  {
    if entries == [] then None
    else if entries[0].1.None? || entries[0].1.value !in AvailableModels then Some(0)
    else match FirstUnknownValue(entries[1..])
      case None => None
      case Some(j) => Some(j + 1)
  }

  /** `clean()`: a mapping that is not a dictionary is refused first, then
      one with a key that is not a scan type, then one with a value that is
      null or not an available model; anything else passes. */
  function Clean(config: ModelConfig, scanTypes: seq<string>): (r: Result<(), CleanError>)
    ensures r == Failure(NotADictionary) <==> config.NotMapping?
    ensures r == Failure(UnknownScanType) <==>
              config.Mapping? && exists i :: 0 <= i < |config.entries| && config.entries[i].0 !in scanTypes
    ensures r == Failure(UnknownModel) <==>
              config.Mapping? && KeysAllIn(config.entries, scanTypes) &&
              exists i :: 0 <= i < |config.entries| &&
                          (config.entries[i].1.None? || config.entries[i].1.value !in AvailableModels)
    ensures r.Success? <==>
              config.Mapping? && KeysAllIn(config.entries, scanTypes) && ValuesAllKnown(config.entries)
  {
    if config.NotMapping? then Failure(NotADictionary)
    else if FirstUnknownKey(config.entries, scanTypes).Some? then Failure(UnknownScanType)
    else if FirstUnknownValue(config.entries).Some? then Failure(UnknownModel)
    else Success(())
  }

  /** The default mapping names only available models, so it passes the
      check exactly when every one of its keys is a scan type. */
  lemma DefaultConfigIsClean(scanTypes: seq<string>)
    ensures ValuesAllKnown(DefaultModelConfig.entries)
    ensures Clean(DefaultModelConfig, scanTypes).Success? <==>
              forall k :: k in Keys(DefaultModelConfig.entries) ==> k in scanTypes
  {
    var es := DefaultModelConfig.entries;
    forall i | 0 <= i < |es| ensures es[i].1.Some? && es[i].1.value in AvailableModels {
    }
    if forall k :: k in Keys(es) ==> k in scanTypes {
      forall i | 0 <= i < |es| ensures es[i].0 in scanTypes {
        assert Keys(es)[i] == es[i].0;
      }
    }
  }

  /** `get_read_permission_groups()`, lowest rank first. */
  const ReadGroups: seq<string> := ["collaborator", "tier_1_reviewer", "tier_2_reviewer"]

  /** `get_review_permission_groups()`. */
  const ReviewGroups: seq<string> := ["tier_1_reviewer", "tier_2_reviewer"]

  /** The sort key `get_user_role` gives a permission: its position among the
      read groups, -1 for any other permission. */
  function Rank(perm: string): (r: int)
    ensures -1 <= r < |ReadGroups|
    ensures r >= 0 <==> perm in ReadGroups
    ensures r >= 0 ==> ReadGroups[r] == perm
  {
    if perm == ReadGroups[0] then 0
    else if perm == ReadGroups[1] then 1
    else if perm == ReadGroups[2] then 2
    else -1
  }

  /** `perms[i]` ranks at least as high as every permission and higher
      than every one after it. */
  predicate Highest(perms: seq<string>, i: int) {
    && 0 <= i < |perms|
    && (forall j :: 0 <= j < |perms| ==> Rank(perms[j]) <= Rank(perms[i]))
    && (forall j :: i < j < |perms| ==> Rank(perms[j]) < Rank(perms[i]))
  }

  /** `get_user_role`: the last permission after a stable sort by rank, that
      is the highest-ranked one and, among equals, the last listed; no role
      (an index error in the source) when the user holds no permission. */
  function UserRole(perms: seq<string>): (r: Option<string>)
    ensures r.None? <==> perms == []
    ensures r.Some? ==> exists i :: Highest(perms, i) && perms[i] == r.value
  {
    if perms == [] then None
    else
      var init, last := perms[..|perms| - 1], perms[|perms| - 1];
      match UserRole(init)
      case None => assert Highest(perms, |perms| - 1); Some(last)
      case Some(best) =>
        assert perms == init + [last];
        HighestExtends(init, last, best);
        if Rank(last) >= Rank(best) then Some(last) else Some(best)
  }

  /** The highest permission of a longer list: the new last one when it
      ranks at least as high as the old best, else the old best. */
  lemma HighestExtends(init: seq<string>, last: string, best: string)
    requires exists i :: Highest(init, i) && init[i] == best
    ensures Rank(last) >= Rank(best) ==> Highest(init + [last], |init|)
    ensures Rank(last) < Rank(best) ==> exists i :: Highest(init + [last], i) && (init + [last])[i] == best
  {
    var i :| Highest(init, i) && init[i] == best;
    var perms := init + [last];
    assert forall j :: 0 <= j < |init| ==> perms[j] == init[j];
    if Rank(last) < Rank(best) {
      assert Highest(perms, i);
    }
  }

  /** A reviewer's role is the highest tier they hold. */
  lemma RoleOfReviewers(perms: seq<string>)
    ensures "tier_2_reviewer" in perms ==> UserRole(perms) == Some("tier_2_reviewer")
    ensures "tier_2_reviewer" !in perms && "tier_1_reviewer" in perms ==>
              UserRole(perms) == Some("tier_1_reviewer")
  {
    if "tier_2_reviewer" in perms {
      var k :| 0 <= k < |perms| && perms[k] == "tier_2_reviewer";
      assert Rank(perms[k]) == 2;
    } else if "tier_1_reviewer" in perms {
      var k :| 0 <= k < |perms| && perms[k] == "tier_1_reviewer";
      assert Rank(perms[k]) == 1;
    }
  }

  /** Holds some permission of the read groups. */
  predicate HasReadPerm(perms: set<string>) {
    exists g :: g in perms && g in ReadGroups
  }

  /** Holds some permission of the review groups. */
  predicate HasReviewPerm(perms: set<string>) {
    exists g :: g in perms && g in ReviewGroups
  }

  /** The review groups are the read groups other than collaborator, so
      review permission implies read permission. */
  lemma ReviewGroupsAreReadGroups(perms: set<string>)
    ensures forall g :: g in ReviewGroups <==> g in ReadGroups && g != "collaborator"
    ensures HasReviewPerm(perms) ==> HasReadPerm(perms)
  {
  }
}
