/** Settings: key/value rows of a kind, grouped under a setting of a group
    kind; a project points at four such groups for its configuration. */
module Settings {
  import opened Wrappers
  import opened Entities
  import Text
  import Seqs
  import Sorting

  datatype SettingType =
    | AOT | AT | DCT | EFMMT | EMPT | EMT | ST | GIP | GEP | NS
    | GAOT | GAT | GDCT | GEFMMT | GEMPT | GEMT | GST

  /** The value stored for each kind. */
  function Code(t: SettingType): string {
    match t
    case AOT => "AOT"      case AT => "AT"        case DCT => "DCT"
    case EFMMT => "EFMMT"  case EMPT => "EMPT"    case EMT => "EMT"
    case ST => "ST"        case GIP => "GIP"      case GEP => "GEP"
    case NS => "NS"        case GAOT => "GAOT"    case GAT => "GAT"
    case GDCT => "GDCT"    case GEFMMT => "GEFMMT" case GEMPT => "GEMPT"
    case GEMT => "GEMT"    case GST => "GST"
  }

  /** The kinds a `group` reference may point at. */
  predicate IsGroupKind(t: SettingType) {
    t == GST || t == GAOT || t == GAT || t == GDCT || t == GEFMMT || t == GEMPT || t == GEMT
  }

  /** Each kind has its own stored value, and the group kinds are the kinds
      whose value starts with G except the global import and export paths. */
  lemma GroupKindsByCode(t: SettingType, u: SettingType)
    ensures Code(t) == Code(u) ==> t == u
    ensures IsGroupKind(t) <==> Code(t)[0] == 'G' && t != GIP && t != GEP
  {
  }

  datatype Setting = Setting(
    id: Uid,
    key: string,
    value: string,
    kind: SettingType,
    group: Option<Uid>,
    isType: bool)

  /** A setting created with only a key and a value: kind NS, no group,
      `is_type` false. */
  function NewSetting(id: Uid, key: string, value: string): Setting {
    Setting(id, key, value, NS, None, false)
  }

  /** `key` is non-blank with at most 255 characters. */
  predicate FieldsValid(s: Setting) {
    0 < |s.key| <= 255
  }

  /** A setting's `group` is empty or names a setting of a group kind. */
  predicate GroupRefValid(table: seq<Setting>, s: Setting) {
    s.group.None? || exists g :: g in table && g.id == s.group.value && IsGroupKind(g.kind)
  }

  predicate AllGroupRefsValid(table: seq<Setting>) {
    forall s :: s in table ==> GroupRefValid(table, s)
  }

  /** A defaulted setting is not itself a group, belongs to none, and is valid
      exactly when its key is non-blank and at most 255 characters long. */
  lemma NewSettingDefaults(table: seq<Setting>, id: Uid, key: string, value: string)
    ensures !IsGroupKind(NewSetting(id, key, value).kind)
    ensures GroupRefValid(table, NewSetting(id, key, value))
    ensures !NewSetting(id, key, value).isType
    ensures FieldsValid(NewSetting(id, key, value)) <==> 0 < |key| <= 255
  {
  }

  /** `on_delete=SET_NULL`: a member of the deleted group loses its group. */
  function Detach(s: Setting, deleted: Uid): Setting {
    if s.group == Some(deleted) then s.(group := None) else s
  }

  /** Deleting the setting(s) with key `id`: the row goes, members of that
      group stay with their group cleared, and no other row changes. */
  function DeleteSetting(table: seq<Setting>, id: Uid): (r: seq<Setting>)
    ensures forall s :: s in r ==> s.id != id && s.group != Some(id)
    ensures forall s :: s in table && s.id != id ==> Detach(s, id) in r
    ensures forall s :: s in r ==> exists t :: t in table && t.id != id && s == Detach(t, id)
    decreases |table|
  {
    if table == [] then []
    else
      var init, last := table[..|table| - 1], table[|table| - 1];
      assert table == init + [last];
      DeleteSetting(init, id) + (if last.id != id then [Detach(last, id)] else [])
  }

  /** Deleting a setting leaves every remaining group reference valid. */
  lemma DeleteKeepsGroupRefsValid(table: seq<Setting>, id: Uid)
    requires AllGroupRefsValid(table)
    ensures AllGroupRefsValid(DeleteSetting(table, id))
  {
    var r := DeleteSetting(table, id);
    forall s | s in r ensures GroupRefValid(r, s) {
      var t :| t in table && t.id != id && s == Detach(t, id);
      if s.group.Some? {
        var g :| g in table && g.id == s.group.value && IsGroupKind(g.kind);
        assert Detach(g, id) in r;
      }
    }
  }

  /** `ordering = ('key',)`. */
  predicate KeyOrder(a: Setting, b: Setting) {
    Text.LexLe(a.key, b.key)
  }

  lemma KeyOrderIsTotalPreorder()
    ensures Sorting.TotalPreorder(KeyOrder)
  {
    forall a: Setting, b: Setting ensures KeyOrder(a, b) || KeyOrder(b, a) {
      Text.LexLeTotal(a.key, b.key);
    }
    forall a: Setting, b: Setting, c: Setting | KeyOrder(a, b) && KeyOrder(b, c)
      ensures KeyOrder(a, c)
    {
      Text.LexLeTransitive(a.key, b.key, c.key);
    }
  }

  /** `Setting.objects.filter(group__id=gid)`: the members of a group, in key
      order. */
  function GroupMembers(table: seq<Setting>, gid: Uid): (r: seq<Setting>)
    ensures Sorting.SortedBy(r, KeyOrder)
    ensures multiset(r) == multiset(Seqs.Filter(table, (s: Setting) => s.group == Some(gid)))
    ensures forall s :: s in r <==> s in table && s.group == Some(gid)
  {
    KeyOrderIsTotalPreorder();
    var members := Seqs.Filter(table, (s: Setting) => s.group == Some(gid));
    var r := Sorting.Sort(members, KeyOrder);
    assert forall s :: s in r <==> s in multiset(members);
    r
  }
}
