// Configuration lookups and value shaping shared by the directory code
// (server/ldap_helpers.ts).
module LdapHelpers {
  import opened Wrappers
  import opened MyTypes
  import opened LdapFilter

  /** `to_flattened_attr`: the configured flattened attribute of an mright. */
  function ToFlattenedAttr(cfg: LdapConfig, m: Mright): (r: Result<string>)
    ensures r.Ok? <==> m in cfg.groups_flattened_attr
    ensures r.Ok? ==> r.value == cfg.groups_flattened_attr[m]
  {
    if m in cfg.groups_flattened_attr then Ok(cfg.groups_flattened_attr[m])
    // the source builds this message with plain quotes, so `${mright}` stays literal
    else Err("missing ${mright} key in ldap.groups_flattened_attr configuration")
  }

  /** `ms.map(to_flattened_attr)`, failing on the first unconfigured mright. */
  function ToFlattenedAttrs(cfg: LdapConfig, ms: seq<Mright>): (r: Result<seq<string>>)
    ensures r.Ok? <==> forall i :: 0 <= i < |ms| ==> ms[i] in cfg.groups_flattened_attr
    ensures r.Ok? ==> |r.value| == |ms| && forall i :: 0 <= i < |ms| ==> r.value[i] == cfg.groups_flattened_attr[ms[i]]
  {
    if |ms| == 0 then Ok([])
    else
      var head :- ToFlattenedAttr(cfg, ms[0]);
      var rest :- ToFlattenedAttrs(cfg, ms[1..]);
      Ok([head] + rest)
  }

  /** `to_allowed_flattened_attrs`: the flattened attributes of the rights at least as strong, best first. */
  function ToAllowedFlattenedAttrs(cfg: LdapConfig, right: Right): (r: Result<seq<string>>)
    ensures r.Ok? <==> forall x :: x in ToAllowedRights(right) ==> x in cfg.groups_flattened_attr
    ensures r.Ok? ==> |r.value| == |ToAllowedRights(right)|
    ensures r.Ok? ==> forall i :: 0 <= i < |r.value| ==> r.value[i] == cfg.groups_flattened_attr[ToAllowedRights(right)[i]]
  {
    ToFlattenedAttrs(cfg, ToAllowedRights(right))
  }

  /** `user_has_direct_right_on_group_filter`: one equality per allowed flattened attribute. */
  function UserHasDirectRightOnGroupFilter(cfg: LdapConfig, user_dn: Dn, right: Right): (r: Result<seq<string>>)
    ensures r.Ok? <==> ToAllowedFlattenedAttrs(cfg, right).Ok?
    ensures r.Ok? ==> |r.value| == |ToAllowedRights(right)|
    ensures r.Ok? ==> forall i :: 0 <= i < |r.value| ==>
              r.value[i] == Eq(cfg.groups_flattened_attr[ToAllowedRights(right)[i]], user_dn)
  {
    var attrs :- ToAllowedFlattenedAttrs(cfg, right);
    Ok(seq(|attrs|, i requires 0 <= i < |attrs| => Eq(attrs[i], user_dn)))
  }

  /** `validate_sgroups_attrs`: fails on the first attribute not listed in the configuration. */
  function ValidateSgroupsAttrs(cfg: LdapConfig, attrs: MonoAttrs): (r: Outcome)
    ensures r.Pass? <==> forall i :: 0 <= i < |attrs| ==> attrs[i].0 in cfg.sgroup_attrs
    ensures r.Fail? ==> exists i :: (0 <= i < |attrs| && attrs[i].0 !in cfg.sgroup_attrs &&
              (forall j :: 0 <= j < i ==> attrs[j].0 in cfg.sgroup_attrs) &&
              r.msg == "sgroup attr " + attrs[i].0 + " is not listed in conf [ldap.sgroup_attrs]")
  {
    if |attrs| == 0 then Pass
    else if attrs[0].0 !in cfg.sgroup_attrs then
      Fail("sgroup attr " + attrs[0].0 + " is not listed in conf [ldap.sgroup_attrs]")
    else
      var r := ValidateSgroupsAttrs(cfg, attrs[1..]);
      assert r.Fail? ==> exists i :: (0 <= i < |attrs| && attrs[i].0 !in cfg.sgroup_attrs &&
              (forall j :: 0 <= j < i ==> attrs[j].0 in cfg.sgroup_attrs) &&
              r.msg == "sgroup attr " + attrs[i].0 + " is not listed in conf [ldap.sgroup_attrs]") by {
        if r.Fail? {
          var i :| 0 <= i < |attrs| - 1 && attrs[1..][i].0 !in cfg.sgroup_attrs &&
              (forall j :: 0 <= j < i ==> attrs[1..][j].0 in cfg.sgroup_attrs) &&
              r.msg == "sgroup attr " + attrs[1..][i].0 + " is not listed in conf [ldap.sgroup_attrs]";
          assert forall j :: 1 <= j < i + 1 ==> attrs[j] == attrs[1..][j - 1];
        }
      }
      r
  }

  /** `sgroup_filter`: the root is the organizational unit, any other group is found by `cn`. */
  function SgroupFilter(id: string): (r: string)
    ensures id == "" ==> r == "(objectClass=organizationalUnit)"
    ensures id != "" ==> r == Eq("cn", id)
  {
    if id == "" then "(objectClass=organizationalUnit)" else Eq("cn", id)
  }

  /** `LdapRawValue`: ldapjs gives a lone value as a string, several as an array. */
  datatype LdapRawValue = Single(s: string) | Multi(values: seq<string>)

  /** `singleValue`: the first value of an array, the string of a scalar. */
  function SingleValue(v: Option<LdapRawValue>): (r: Option<string>)
    ensures v.None? ==> r.None?
    ensures v.Some? && v.value.Single? ==> r == Some(v.value.s)
    ensures v.Some? && v.value.Multi? ==> (r.Some? <==> |v.value.values| > 0)
    ensures v.Some? && v.value.Multi? && r.Some? ==> r.value == v.value.values[0]
  {
    match v
    case None => None
    case Some(Single(s)) => Some(s)
    case Some(Multi(vs)) => if |vs| > 0 then Some(vs[0]) else None
  }

  /** `multiValue`: a scalar becomes a one-element list. */
  function MultiValue(v: LdapRawValue): (r: seq<string>)
    ensures v.Single? ==> r == [v.s]
    ensures v.Multi? ==> r == v.values
  {
    match v
    case Single(s) => [s]
    case Multi(vs) => vs
  }

  /** `singleValue` after `multiValue` is the first value. */
  lemma SingleOfMultiValue(v: LdapRawValue)
    ensures SingleValue(Some(Multi(MultiValue(v)))) == SingleValue(Some(v))
  {
  }

  /** The pair `mono_attrs_` produces for one wanted attribute. */
  function WantedPairs(entry: map<string, LdapRawValue>, wanted: seq<string>): (r: seq<Option<(string, Option<string>)>>)
    ensures |r| == |wanted|
    ensures forall i :: 0 <= i < |wanted| ==>
              r[i] == if wanted[i] in entry then Some((wanted[i], SingleValue(Some(entry[wanted[i]])))) else None
  {
    seq(|wanted|, i requires 0 <= i < |wanted| =>
      if wanted[i] in entry then Some((wanted[i], SingleValue(Some(entry[wanted[i]])))) else None)
  }

  /** `mono_attrs_` */
  function MonoAttrsOf(entry: map<string, LdapRawValue>, wanted: seq<string>): (r: MonoAttrs)
    ensures UniqueKeys(r)
  {
    FromOptionPairsSpec(WantedPairs(entry, wanted))
  }

  /** `mono_attrs_` keeps exactly the wanted attributes present in the entry, with their single value. */
  lemma MonoAttrsOfLookup(entry: map<string, LdapRawValue>, wanted: seq<string>, attr: string)
    ensures Get(MonoAttrsOf(entry, wanted), attr) ==
              if attr in wanted && attr in entry then Some(SingleValue(Some(entry[attr]))) else None
  {
    FromOptionPairsLookup(WantedPairs(entry, wanted), attr);
    WantedPairsLast(entry, wanted, attr);
  }

  lemma {:induction false} WantedPairsLast(entry: map<string, LdapRawValue>, wanted: seq<string>, attr: string)
    ensures LastValue(WantedPairs(entry, wanted), attr) ==
              if attr in wanted && attr in entry then Some(SingleValue(Some(entry[attr]))) else None
  {
    if |wanted| > 0 {
      var n := |wanted| - 1;
      assert WantedPairs(entry, wanted)[..n] == WantedPairs(entry, wanted[..n]);
      WantedPairsLast(entry, wanted[..n], attr);
      assert wanted == wanted[..n] + [wanted[n]];
      assert attr in wanted <==> attr in wanted[..n] || attr == wanted[n];
    }
  }
}
