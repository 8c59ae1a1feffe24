// Creating, deleting, reading and modifying groups and stems in the
// directory (server/ldap_sgroup_read_search_modify.ts).
module LdapSgroupReadSearchModify {
  import opened Wrappers
  import opened MyTypes
  import opened LdapFilter
  import opened LdapHelpers
  import opened LdapServer
  import opened LdapReadSearch
  import opened DnCodec
  import opened StemHelpers

  /** `is_sgroup_matching_filter` */
  predicate IsSgroupMatchingFilter(cfg: LdapConfig, es: Store, id: string, f: Filter)
  {
    IsDnMatchingFilter(es, SgroupIdToDn(cfg, id), f)
  }

  /** `is_sgroup_existing` */
  predicate IsSgroupExisting(cfg: LdapConfig, es: Store, id: string)
  {
    IsSgroupMatchingFilter(cfg, es, id, FPresent("objectClass"))
  }

  /** Sets each given attribute, later ones overriding (`{ ...base, ...attrs }`). */
  function OverrideAttrs(base: Entry, attrs: MyMap<string, LdapRawValue>): (r: Entry)
    decreases |attrs|
    ensures forall a :: a in r <==> a in base || a in KeySet(attrs)
    ensures UniqueKeys(attrs) ==> forall a :: a in KeySet(attrs) ==> r[a] == MultiValue(Get(attrs, a).value)
    ensures forall a :: a in base && a !in KeySet(attrs) ==> r[a] == base[a]
  {
    if |attrs| == 0 then base
    else
      var r := OverrideAttrs(base[attrs[0].0 := MultiValue(attrs[0].1)], attrs[1..]);
      assert UniqueKeys(attrs) ==> UniqueKeys(attrs[1..]) && attrs[0].0 !in KeySet(attrs[1..]) by {
        if UniqueKeys(attrs) { KeySetIndex(attrs[1..], attrs[0].0); }
      }
      r
  }

  /** The attributes of a new group or stem before the given ones. */
  function GroupBaseEntry(cfg: LdapConfig, cn: string): (r: Entry)
    ensures r.Keys == if IsStem(cn, RootId(cfg)) then {"objectClass", "cn"} else {"objectClass", "cn", "member"}
    ensures r["objectClass"] == if IsStem(cn, RootId(cfg)) then cfg.stem_object_classes else cfg.group_object_classes
    ensures r["cn"] == [cn]
    ensures !IsStem(cn, RootId(cfg)) ==> r["member"] == EmptySentinel
  {
    if IsStem(cn, RootId(cfg)) then map["objectClass" := cfg.stem_object_classes, "cn" := [cn]]
    else map["objectClass" := cfg.group_object_classes, "cn" := [cn], "member" := EmptySentinel]
  }

  /**
   * The entry `ldap_add_group` creates: the stem or group object classes,
   * `cn`, an empty `member` for a group, then the given attributes.
   */
  function NewGroupEntry(cfg: LdapConfig, cn: string, attrs: MyMap<string, LdapRawValue>): (r: Entry)
    requires UniqueKeys(attrs)
    ensures r.Keys == GroupBaseEntry(cfg, cn).Keys + KeySet(attrs)
    ensures "objectClass" !in KeySet(attrs) ==>
              r["objectClass"] == if IsStem(cn, RootId(cfg)) then cfg.stem_object_classes else cfg.group_object_classes
    ensures "cn" !in KeySet(attrs) ==> r["cn"] == [cn]
    ensures "member" !in KeySet(attrs) ==> ("member" in r <==> !IsStem(cn, RootId(cfg)))
    ensures "member" !in KeySet(attrs) && !IsStem(cn, RootId(cfg)) ==> r["member"] == EmptySentinel
    ensures forall a :: a in KeySet(attrs) ==> r[a] == MultiValue(Get(attrs, a).value)
  {
    OverrideAttrs(GroupBaseEntry(cfg, cn), attrs)
  }

  /** `ldap_add_group` */
  method LdapAddGroup(dir: Directory, cfg: LdapConfig, cn: string, attrs: MyMap<string, LdapRawValue>) returns (r: Outcome)
    requires dir.Valid() && UniqueKeys(attrs)
    modifies dir
    ensures dir.Valid()
    ensures Get(old(dir.entries), SgroupIdToDn(cfg, cn)).Some? ==> r.Fail? && dir.entries == old(dir.entries)
    ensures Get(old(dir.entries), SgroupIdToDn(cfg, cn)).None? ==>
              r.Pass? && dir.entries == old(dir.entries) + [(SgroupIdToDn(cfg, cn), NewGroupEntry(cfg, cn, attrs))]
  {
    r := dir.Add(SgroupIdToDn(cfg, cn), NewGroupEntry(cfg, cn, attrs));
  }

  /** The attributes `create_sgroup` passes on: the present values of `attrs`. */
  function MonoToRaw(attrs: MonoAttrs): (r: MyMap<string, LdapRawValue>)
    ensures UniqueKeys(attrs) ==> UniqueKeys(r)
    ensures UniqueKeys(attrs) ==> forall a :: Get(r, a) == if Get(attrs, a).Some? && Get(attrs, a).value.Some? then Some(Single(Get(attrs, a).value.value)) else None
  {
    MapValues(Compact(attrs), (v: string) => Single(v))
  }

  /** `create_sgroup` */
  method CreateSgroup(dir: Directory, cfg: LdapConfig, id: string, attrs: MonoAttrs) returns (r: Outcome)
    requires dir.Valid() && UniqueKeys(attrs)
    modifies dir
    ensures dir.Valid()
    ensures Get(old(dir.entries), SgroupIdToDn(cfg, id)).Some? ==> r.Fail? && dir.entries == old(dir.entries)
    ensures Get(old(dir.entries), SgroupIdToDn(cfg, id)).None? ==>
              r.Pass? && dir.entries == old(dir.entries) + [(SgroupIdToDn(cfg, id), NewGroupEntry(cfg, id, MonoToRaw(attrs)))]
  {
    r := LdapAddGroup(dir, cfg, id, MonoToRaw(attrs));
  }

  /** `delete_sgroup` */
  method DeleteSgroup(dir: Directory, cfg: LdapConfig, id: string) returns (r: Outcome)
    requires dir.Valid()
    modifies dir
    ensures dir.Valid()
    ensures Get(old(dir.entries), SgroupIdToDn(cfg, id)).None? ==> r.Fail? && dir.entries == old(dir.entries)
    ensures Get(old(dir.entries), SgroupIdToDn(cfg, id)).Some? ==>
              r.Pass? && dir.entries == Remove(old(dir.entries), SgroupIdToDn(cfg, id))
  {
    r := dir.Delete(SgroupIdToDn(cfg, id));
  }

  /** `read_direct_mright`: the DNs and options of the stored member URLs. */
  function ReadDirectMright(es: Store, group_dn: Dn, m: Mright): (r: Result<DnsOpts>)
    ensures r.Err? <==> Read(es, group_dn).None?
    ensures r.Ok? ==> r.value == UrlsToDns(Values(Read(es, group_dn).value, ToAttr(m)))
  {
    var urls :- ReadOneMultiAttrOrErr(es, group_dn, ToAttr(m));
    Ok(UrlsToDns(urls))
  }

  /** `read_sgroup` */
  function ReadSgroup(cfg: LdapConfig, es: Store, id: string): Option<Entry>
  {
    Read(es, SgroupIdToDn(cfg, id))
  }

  /** `search_sgroups`: a search of the groups branch, cut at `sizeLimit` entries when given. */
  function SearchSgroups(cfg: LdapConfig, es: Store, f: Filter, sizeLimit: Option<nat>): (r: seq<(Dn, Entry)>)
    ensures sizeLimit.Some? ==> |r| <= sizeLimit.value
    ensures forall p :: p in r ==> p in SearchRaw(es, cfg.groups_dn, f)
  {
    var all := SearchRaw(es, cfg.groups_dn, f);
    if sizeLimit.Some? && |all| > sizeLimit.value then all[..sizeLimit.value] else all
  }

  /** `search_sgroups_dn` */
  function SearchSgroupsDn(cfg: LdapConfig, es: Store, f: Filter): (r: seq<Dn>)
    ensures |r| == |SearchSgroups(cfg, es, f, None)|
    ensures forall i :: 0 <= i < |r| ==> r[i] == SearchSgroups(cfg, es, f, None)[i].0
  {
    var found := SearchSgroups(cfg, es, f, None);
    seq(|found|, i requires 0 <= i < |found| => found[i].0)
  }

  /** The ids of `dns`, failing with `weird DN` on the first DN that names no group. */
  function DnsToSgroupIds(cfg: LdapConfig, dns: seq<Dn>): (r: Result<seq<string>>)
    ensures r.Ok? <==> forall i :: 0 <= i < |dns| ==> DnToSgroupId(cfg, dns[i]).Some?
    ensures r.Ok? ==> |r.value| == |dns| && forall i :: 0 <= i < |dns| ==> Some(r.value[i]) == DnToSgroupId(cfg, dns[i])
    ensures r.Err? ==> exists i :: 0 <= i < |dns| && DnToSgroupId(cfg, dns[i]).None? && r.msg == "weird DN " + dns[i]
  {
    if |dns| == 0 then Ok([])
    else
      match DnToSgroupId(cfg, dns[0])
      case None => Err("weird DN " + dns[0])
      case Some(id) =>
        var rest := DnsToSgroupIds(cfg, dns[1..]);
        if rest.Err? then
          assert exists i :: 0 <= i < |dns| && DnToSgroupId(cfg, dns[i]).None? && rest.msg == "weird DN " + dns[i] by {
            var i :| 0 <= i < |dns[1..]| && DnToSgroupId(cfg, dns[1..][i]).None? && rest.msg == "weird DN " + dns[1..][i];
            assert dns[i + 1] == dns[1..][i];
          }
          Err(rest.msg)
        else Ok([id] + rest.value)
  }

  /** `search_sgroups_id` */
  function SearchSgroupsId(cfg: LdapConfig, es: Store, f: Filter): (r: Result<seq<string>>)
    ensures r.Ok? <==> forall i :: 0 <= i < |SearchSgroupsDn(cfg, es, f)| ==> DnToSgroupId(cfg, SearchSgroupsDn(cfg, es, f)[i]).Some?
    ensures r.Ok? ==> |r.value| == |SearchSgroupsDn(cfg, es, f)|
    ensures r.Ok? ==> forall i :: 0 <= i < |r.value| ==> Some(r.value[i]) == DnToSgroupId(cfg, SearchSgroupsDn(cfg, es, f)[i])
  {
    DnsToSgroupIds(cfg, SearchSgroupsDn(cfg, es, f))
  }

  /** The replace changes of `modify_sgroup_attrs`: `""` (or no value) empties the attribute. */
  function SgroupAttrsChanges(attrs: MonoAttrs): (r: seq<Change>)
    ensures |r| == |attrs|
    ensures forall i :: 0 <= i < |attrs| ==> r[i].operation == OpReplace && r[i].attr == attrs[i].0
    ensures forall i :: 0 <= i < |attrs| ==>
              r[i].values == if attrs[i].1.None? || attrs[i].1.value == "" then [] else [attrs[i].1.value]
  {
    seq(|attrs|, i requires 0 <= i < |attrs| =>
      Change(OpReplace, attrs[i].0, if attrs[i].1.None? || attrs[i].1.value == "" then [] else [attrs[i].1.value]))
  }

  /** Replacing with no values never fails: the changes of `modify_sgroup_attrs` always apply. */
  lemma {:induction false} ReplacesAlwaysApply(e: Entry, cs: seq<Change>)
    decreases |cs|
    requires forall i :: 0 <= i < |cs| ==> cs[i].operation == OpReplace
    ensures ApplyChanges(e, cs).Ok?
  {
    if |cs| > 0 {
      ReplacesAlwaysApply(ApplyChange(e, cs[0]).value, cs[1..]);
    }
  }

  /** `modify_sgroup_attrs` */
  method ModifySgroupAttrs(dir: Directory, cfg: LdapConfig, id: string, attrs: MonoAttrs) returns (r: Outcome)
    requires dir.Valid()
    modifies dir
    ensures dir.Valid()
    ensures Get(old(dir.entries), SgroupIdToDn(cfg, id)).None? ==> r.Fail? && dir.entries == old(dir.entries)
    ensures Get(old(dir.entries), SgroupIdToDn(cfg, id)).Some? ==>
              r.Pass? && ApplyChanges(Get(old(dir.entries), SgroupIdToDn(cfg, id)).value, SgroupAttrsChanges(attrs)).Ok? &&
              dir.entries == Put(old(dir.entries), SgroupIdToDn(cfg, id),
                ApplyChanges(Get(old(dir.entries), SgroupIdToDn(cfg, id)).value, SgroupAttrsChanges(attrs)).value)
  {
    var cs := SgroupAttrsChanges(attrs);
    var current := Get(dir.entries, SgroupIdToDn(cfg, id));
    if current.Some? {
      ReplacesAlwaysApply(current.value, cs);
    }
    r := dir.Modify(SgroupIdToDn(cfg, id), cs);
  }

  /** The operations a `SubMods` holds, in the order `add`, `delete`, `replace`. */
  function SubModsList(s: SubMods): seq<(Operation, DnsOpts)>
  {
    (if s.add.Some? then [(OpAdd, s.add.value)] else [])
    + (if s.delete.Some? then [(OpDelete, s.delete.value)] else [])
    + (if s.replace.Some? then [(OpReplace, s.replace.value)] else [])
  }

  /** The member URLs of a list of DNs with options. */
  function DnsOptsToUrls(list: DnsOpts): (r: seq<string>)
    ensures |r| == |list| && forall i :: 0 <= i < |list| ==> r[i] == DnOptsToUrl(list[i].0, list[i].1)
  {
    seq(|list|, i requires 0 <= i < |list| => DnOptsToUrl(list[i].0, list[i].1))
  }

  /** The changes for one mright. */
  function MrightChanges(m: Mright, submods: SubMods): (r: seq<Change>)
    ensures |r| == |SubModsList(submods)|
    ensures forall i :: 0 <= i < |r| ==> r[i] == Change(SubModsList(submods)[i].0, ToAttr(m), DnsOptsToUrls(SubModsList(submods)[i].1))
  {
    var ops := SubModsList(submods);
    seq(|ops|, i requires 0 <= i < |ops| => Change(ops[i].0, ToAttr(m), DnsOptsToUrls(ops[i].1)))
  }

  /** What `to_ldap_mods` builds: one change per (mright, operation), in order. */
  function ToLdapModsSpec(mods: MyMods): seq<Change>
  {
    if |mods| == 0 then [] else MrightChanges(mods[0].0, mods[0].1) + ToLdapModsSpec(mods[1..])
  }

  /** Every change of `to_ldap_mods` is on the direct attribute of an edited mright, with its URLs. */
  lemma {:induction false} ToLdapModsShape(mods: MyMods, c: Change)
    requires c in ToLdapModsSpec(mods)
    ensures exists i :: 0 <= i < |mods| && c.attr == ToAttr(mods[i].0) &&
              exists op :: op in SubModsList(mods[i].1) && c == Change(op.0, ToAttr(mods[i].0), DnsOptsToUrls(op.1))
  {
    if c in MrightChanges(mods[0].0, mods[0].1) {
      var j :| 0 <= j < |MrightChanges(mods[0].0, mods[0].1)| && MrightChanges(mods[0].0, mods[0].1)[j] == c;
      assert SubModsList(mods[0].1)[j] in SubModsList(mods[0].1);
    } else {
      ToLdapModsShape(mods[1..], c);
      var i :| 0 <= i < |mods[1..]| && c.attr == ToAttr(mods[1..][i].0) &&
              exists op :: op in SubModsList(mods[1..][i].1) && c == Change(op.0, ToAttr(mods[1..][i].0), DnsOptsToUrls(op.1));
      assert mods[i + 1] == mods[1..][i];
    }
  }

  lemma ToLdapModsSpecAppend(mods: MyMods, i: nat)
    requires i < |mods|
    ensures ToLdapModsSpec(mods[..i + 1]) == ToLdapModsSpec(mods[..i]) + MrightChanges(mods[i].0, mods[i].1)
  {
    if i > 0 {
      assert mods[..i + 1][1..] == mods[1..][..i];
      assert mods[..i][1..] == mods[1..][..i - 1];
      ToLdapModsSpecAppend(mods[1..], i - 1);
    } else {
      assert mods[..1][1..] == [];
    }
  }

  /** `to_ldap_mods` */
  method ToLdapMods(mods: MyMods) returns (r: seq<Change>)
    ensures r == ToLdapModsSpec(mods)
  {
    r := [];
    var i := 0;
    while i < |mods|
      invariant 0 <= i <= |mods|
      invariant r == ToLdapModsSpec(mods[..i])
    {
      var (m, submods) := mods[i];
      var attr := ToAttr(m);
      var ops := SubModsList(submods);
      var j := 0;
      ghost var start := r;
      while j < |ops|
        invariant 0 <= j <= |ops|
        invariant r == start + MrightChanges(m, submods)[..j]
      {
        var urls := MapToArray(ops[j].1, (opts, dn) => DnOptsToUrl(dn, opts));
        assert urls == DnsOptsToUrls(ops[j].1);
        r := r + [Change(ops[j].0, attr, urls)];
        assert MrightChanges(m, submods)[..j + 1] == MrightChanges(m, submods)[..j] + [Change(ops[j].0, attr, urls)];
        j := j + 1;
      }
      assert MrightChanges(m, submods)[..j] == MrightChanges(m, submods);
      ToLdapModsSpecAppend(mods, i);
      i := i + 1;
    }
    assert mods[..i] == mods;
  }

  /** `modify_direct_members_or_rights`: stems take no members; otherwise one modify request. */
  method ModifyDirectMembersOrRights(dir: Directory, cfg: LdapConfig, id: string, my_mods: MyMods) returns (r: Outcome)
    requires dir.Valid()
    modifies dir
    ensures dir.Valid()
    ensures IsStem(id, RootId(cfg)) && Get(my_mods, Member).Some? ==>
              r == Fail("Member not allowed for stems") && dir.entries == old(dir.entries)
    ensures !(IsStem(id, RootId(cfg)) && Get(my_mods, Member).Some?) ==>
              var dn := SgroupIdToDn(cfg, id);
              var cs := ToLdapModsSpec(my_mods);
              if Get(old(dir.entries), dn).None? then r.Fail? && dir.entries == old(dir.entries)
              else if ApplyChanges(Get(old(dir.entries), dn).value, cs).Err? then r.Fail? && dir.entries == old(dir.entries)
              else r.Pass? && dir.entries == Put(old(dir.entries), dn, ApplyChanges(Get(old(dir.entries), dn).value, cs).value)
  {
    if IsStem(id, RootId(cfg)) && Get(my_mods, Member).Some? {
      r := Fail("Member not allowed for stems");
    } else {
      var mods := ToLdapMods(my_mods);
      r := dir.Modify(SgroupIdToDn(cfg, id), mods);
    }
  }
}
