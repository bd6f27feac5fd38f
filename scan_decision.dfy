/** A reviewer's decision on a scan: the decision codes, the tri-state artifact
    marker, the decision row with its field limits and defaults, and the
    newest-first order decisions are listed in. */
module Decisions {
  import opened Wrappers
  import opened Entities
  import opened Dicts
  import Sorting

  /** `DECISION_CHOICES`: stored code and label. */
  const DecisionChoices: seq<(string, string)> :=
    [("U", "Usable"), ("UE", "Usable-Extra"), ("Q?", "Questionable"), ("UN", "Unusable")]

  /** `[dec[0] for dec in DECISION_CHOICES]`. */
  function ChoiceCodes(): (codes: seq<string>)
    ensures |codes| == |DecisionChoices|
    ensures forall i :: 0 <= i < |codes| ==> codes[i] == DecisionChoices[i].0
  {
    seq(|DecisionChoices|, i requires 0 <= i < |DecisionChoices| => DecisionChoices[i].0)
  }

  predicate IsDecisionCode(code: string) {
    code in ChoiceCodes()
  }

  /** The stored codes are exactly U, UE, Q? and UN, each at most two characters. */
  lemma DecisionCodesExactly(code: string)
    ensures IsDecisionCode(code) <==> code in {"U", "UE", "Q?", "UN"}
    ensures IsDecisionCode(code) ==> 0 < |code| <= 2
  {
    assert ChoiceCodes() == ["U", "UE", "Q?", "UN"];
  }

  datatype ArtifactState = Present | Absent | Undefined

  /** The integer stored for each state in a decision's artifact map. */
  function StateValue(s: ArtifactState): int {
    match s
    case Present => 1
    case Absent => 0
    case Undefined => -1
  }

  /** Reads a stored integer back as a state; only 1, 0 and -1 are states. */
  function StateOf(v: int): (r: Option<ArtifactState>)
    ensures r.Some? ==> StateValue(r.value) == v
    ensures r.None? <==> v !in {1, 0, -1}
  {
    if v == 1 then Some(Present)
    else if v == 0 then Some(Absent)
    else if v == -1 then Some(Undefined)
    else None
  }

  /** The three states are stored as three different integers. */
  lemma StateValuesDistinct(s: ArtifactState, t: ArtifactState)
    ensures StateValue(s) == StateValue(t) <==> s == t
    ensures StateOf(StateValue(s)) == Some(s)
  {
  }

  /** `user_identified_artifacts`: artifact name to stored state value. */
  type ArtifactMap = Dict<string, int>

  /** A `location` marker: `{}` or the `i`, `j`, `k` slice indices. */
  type Location = Dict<string, string>

  /** `created` is a point in time (nullable); how it is written as text is
      not modelled. */
  datatype ScanDecision = ScanDecision(
    id: Uid,
    created: Option<int>,
    scan: Uid,
    creator: Option<Uid>,
    decision: string,
    note: string,
    artifacts: ArtifactMap,
    location: Location)

  /** Field limits: `decision` is non-blank with at most two characters and
      `note` has at most 3000. */
  predicate FieldsValid(d: ScanDecision) {
    0 < |d.decision| <= 2 && |d.note| <= 3000
  }

  /** A decision row built with only its required fields: `created` defaults
      to the current time, the creator to none, the note to "" and both maps
      to `{}`. */
  function NewDecision(id: Uid, scan: Uid, code: string, now: int): ScanDecision {
    ScanDecision(id, Some(now), scan, None, code, "", [], [])
  }

  /** A defaulted decision carries a time, no creator, no artifact and no
      location, and its fields are valid exactly when its code has one or two
      characters; every recognised code qualifies. */
  lemma NewDecisionDefaults(id: Uid, scan: Uid, code: string, now: int)
    ensures NewDecision(id, scan, code, now).created.Some?
    ensures NewDecision(id, scan, code, now).artifacts == [] && NewDecision(id, scan, code, now).location == []
    ensures FieldsValid(NewDecision(id, scan, code, now)) <==> 0 < |code| <= 2
    ensures IsDecisionCode(code) ==> FieldsValid(NewDecision(id, scan, code, now))
  {
    DecisionCodesExactly(code);
  }

  /** `ordering = ['-created']` on PostgreSQL: newest first, and a decision
      without a time sorts before every decision that has one. */
  predicate NewerFirst(a: ScanDecision, b: ScanDecision) {
    match (a.created, b.created)
    case (None, _) => true
    case (Some(_), None) => false
    case (Some(x), Some(y)) => x >= y
  }

  lemma NewerFirstIsTotalPreorder()
    ensures Sorting.TotalPreorder(NewerFirst)
  {
  }

  /** The decisions in the order the database lists them. */
  function Ordered(ds: seq<ScanDecision>): (r: seq<ScanDecision>)
    ensures multiset(r) == multiset(ds)
    ensures Sorting.SortedBy(r, NewerFirst)
  {
    NewerFirstIsTotalPreorder();
    Sorting.Sort(ds, NewerFirst)
  }

  /** The decision listed first: none for no decisions, otherwise one of them
      that is at least as new as every other. */
  function Latest(ds: seq<ScanDecision>): (r: Option<ScanDecision>)
    ensures r.None? <==> ds == []
    ensures r.Some? ==> r.value in ds && forall d :: d in ds ==> NewerFirst(r.value, d)
  {
    var sorted := Ordered(ds);
    if sorted == [] then None
    else
      assert forall d :: d in ds ==> d in multiset(sorted);
      assert sorted[0] in multiset(ds);
      Some(sorted[0])
  }
}
