// Authorisation checks against the directory (server/my_ldap_check_rights.ts).
module LdapCheckRights {
  import opened Wrappers
  import opened MyTypes
  import opened LdapFilter
  import opened LdapHelpers
  import opened LdapServer
  import opened LdapReadSearch
  import opened DnCodec
  import opened StemHelpers
  import opened LdapSgroupReadSearchModify

  /** The equality filters of `user_dn` against each allowed flattened attribute. */
  function EqEach(attrs: seq<string>, user_dn: Dn): (r: seq<Filter>)
    ensures |r| == |attrs| && forall i :: 0 <= i < |attrs| ==> r[i] == FEq(attrs[i], user_dn)
  {
    seq(|attrs|, i requires 0 <= i < |attrs| => FEq(attrs[i], user_dn))
  }

  /** `user_has_right_on_sgroup_filter`, as a filter tree. */
  function UserHasRightOnSgroupFilterF(cfg: LdapConfig, user_dn: Dn, right: Right): (r: Result<Filter>)
    ensures r.Ok? <==> ToAllowedFlattenedAttrs(cfg, right).Ok?
  {
    var attrs :- ToAllowedFlattenedAttrs(cfg, right);
    Ok(OrF(EqEach(attrs, user_dn)))
  }

  /** `user_has_right_on_sgroup_filter`: the OR of the user's equality against each allowed flattened attribute. */
  function UserHasRightOnSgroupFilter(cfg: LdapConfig, user_dn: Dn, right: Right): (r: Result<string>)
    ensures r.Ok? <==> ToAllowedFlattenedAttrs(cfg, right).Ok?
  {
    var filters :- UserHasDirectRightOnGroupFilter(cfg, user_dn, right);
    Ok(Or(filters))
  }

  /** The tree renders the string the server sends. */
  lemma UserHasRightOnSgroupFilterRenders(cfg: LdapConfig, user_dn: Dn, right: Right)
    requires ToAllowedFlattenedAttrs(cfg, right).Ok?
    ensures Render(UserHasRightOnSgroupFilterF(cfg, user_dn, right).value) == UserHasRightOnSgroupFilter(cfg, user_dn, right).value
  {
    var attrs := ToAllowedFlattenedAttrs(cfg, right).value;
    OrRendersOrF(EqEach(attrs, user_dn));
    assert RenderEach(EqEach(attrs, user_dn)) == UserHasDirectRightOnGroupFilter(cfg, user_dn, right).value;
  }

  /** The user holds `right` or a stronger right directly on the entry. */
  predicate HasDirectRight(cfg: LdapConfig, e: Entry, user_dn: Dn, right: Right)
  {
    exists x :: x in ToAllowedRights(right) && x in cfg.groups_flattened_attr &&
      cfg.groups_flattened_attr[x] in e && user_dn in e[cfg.groups_flattened_attr[x]]
  }

  /** Some equality of `EqEach` holds exactly when the user is among the values of one of the attributes. */
  lemma EqEachMeaning(attrs: seq<string>, user_dn: Dn, e: Entry)
    ensures (exists f :: f in EqEach(attrs, user_dn) && Matches(f, e)) <==>
              exists i :: 0 <= i < |attrs| && attrs[i] in e && user_dn in e[attrs[i]]
  {
    var fs := EqEach(attrs, user_dn);
    if exists i :: 0 <= i < |attrs| && attrs[i] in e && user_dn in e[attrs[i]] {
      var i :| 0 <= i < |attrs| && attrs[i] in e && user_dn in e[attrs[i]];
      assert fs[i] in fs && Matches(fs[i], e);
    }
  }

  /** The right filter selects exactly the entries on which the user holds the right. */
  lemma UserHasRightOnSgroupFilterMeaning(cfg: LdapConfig, user_dn: Dn, right: Right, e: Entry)
    requires ToAllowedFlattenedAttrs(cfg, right).Ok?
    ensures Matches(UserHasRightOnSgroupFilterF(cfg, user_dn, right).value, e) <==> HasDirectRight(cfg, e, user_dn, right)
  {
    var attrs := ToAllowedFlattenedAttrs(cfg, right).value;
    var allowed := ToAllowedRights(right);
    OrFMeaning(EqEach(attrs, user_dn), e);
    EqEachMeaning(attrs, user_dn, e);
    if HasDirectRight(cfg, e, user_dn, right) {
      var x :| x in allowed && x in cfg.groups_flattened_attr &&
        cfg.groups_flattened_attr[x] in e && user_dn in e[cfg.groups_flattened_attr[x]];
      var i :| 0 <= i < |allowed| && allowed[i] == x;
      assert attrs[i] in e && user_dn in e[attrs[i]];
    }
    if exists i :: 0 <= i < |attrs| && attrs[i] in e && user_dn in e[attrs[i]] {
      var i :| 0 <= i < |attrs| && attrs[i] in e && user_dn in e[attrs[i]];
      assert allowed[i] in allowed;
    }
  }

  /** `sgroup_filter` as a tree. */
  function SgroupFilterF(id: string): Filter
  {
    if id == "" then FEq("objectClass", "organizationalUnit") else FEq("cn", id)
  }

  lemma {:induction false} EscapePlain(s: string)
    requires forall i :: 0 <= i < |s| ==> !IsFilterSpecial(s[i])
    ensures Escape(s) == s
  {
    if |s| > 0 {
      EscapePlain(s[1..]);
      assert s == [s[0]] + s[1..];
    }
  }

  /** The root filter's value needs no escaping. */
  lemma OrganizationalUnitPlain()
    ensures Escape("organizationalUnit") == "organizationalUnit"
  {
    var ou := "organizationalUnit";
    assert forall i :: 0 <= i < |ou| ==> !IsFilterSpecial(ou[i]);
    EscapePlain(ou);
  }

  lemma RootFilterText()
    ensures "(" + "objectClass" + "=" + "organizationalUnit" + ")" == "(objectClass=organizationalUnit)"
  {
  }

  lemma SgroupFilterRenders(id: string)
    ensures Render(SgroupFilterF(id)) == SgroupFilter(id)
  {
    if id == "" {
      OrganizationalUnitPlain();
      RootFilterText();
    }
  }

  function SgroupFilterEach(ids: seq<string>): (r: seq<Filter>)
    ensures |r| == |ids| && forall i :: 0 <= i < |ids| ==> r[i] == SgroupFilterF(ids[i])
  {
    seq(|ids|, i requires 0 <= i < |ids| => SgroupFilterF(ids[i]))
  }

  /** The filter of `user_has_right_on_at_least_one_sgroups`. */
  function AtLeastOneFilter(cfg: LdapConfig, user_dn: Dn, ids: seq<string>, right: Right): (r: Result<Filter>)
    ensures r.Ok? <==> ToAllowedFlattenedAttrs(cfg, right).Ok?
  {
    var right_filter :- UserHasRightOnSgroupFilterF(cfg, user_dn, right);
    Ok(AndF([OrF(SgroupFilterEach(ids)), right_filter]))
  }

  /** `user_has_right_on_at_least_one_sgroups` */
  function UserHasRightOnAtLeastOneSgroups(cfg: LdapConfig, es: Store, user_dn: Dn, ids: seq<string>, right: Right): (r: Result<bool>)
    ensures r.Ok? <==> ToAllowedFlattenedAttrs(cfg, right).Ok?
  {
    var f :- AtLeastOneFilter(cfg, user_dn, ids, right);
    Ok(OneGroupMatchesFilter(cfg, es, f))
  }

  /** Some entry of the groups branch is selected by one of the ids and carries the right. */
  predicate SomeGroupWithRight(cfg: LdapConfig, es: Store, user_dn: Dn, ids: seq<string>, right: Right)
  {
    Read(es, cfg.groups_dn).Some? &&
    exists p, id :: p in es && InSubtree(p.0, cfg.groups_dn) && id in ids &&
      Matches(SgroupFilterF(id), p.1) && HasDirectRight(cfg, p.1, user_dn, right)
  }

  /** One of the ids selects the entry. */
  lemma SgroupFilterEachMeaning(ids: seq<string>, e: Entry)
    ensures Matches(OrF(SgroupFilterEach(ids)), e) <==> exists id :: id in ids && Matches(SgroupFilterF(id), e)
  {
    var fs := SgroupFilterEach(ids);
    OrFMeaning(fs, e);
    if exists g :: g in fs && Matches(g, e) {
      var g :| g in fs && Matches(g, e);
      var i :| 0 <= i < |ids| && fs[i] == g;
      assert ids[i] in ids;
    }
    if exists id :: id in ids && Matches(SgroupFilterF(id), e) {
      var id :| id in ids && Matches(SgroupFilterF(id), e);
      var i :| 0 <= i < |ids| && ids[i] == id;
      assert fs[i] in fs;
    }
  }

  /** The combined filter holds on an entry selected by one of the ids that carries the right. */
  lemma AtLeastOneFilterMeaning(cfg: LdapConfig, user_dn: Dn, ids: seq<string>, right: Right, e: Entry)
    requires ToAllowedFlattenedAttrs(cfg, right).Ok?
    ensures Matches(AtLeastOneFilter(cfg, user_dn, ids, right).value, e) <==>
              (exists id :: id in ids && Matches(SgroupFilterF(id), e)) && HasDirectRight(cfg, e, user_dn, right)
  {
    var rf := UserHasRightOnSgroupFilterF(cfg, user_dn, right).value;
    var idsF := OrF(SgroupFilterEach(ids));
    AndFMeaning([idsF, rf], e);
    assert forall g :: g in [idsF, rf] <==> g == idsF || g == rf;
    SgroupFilterEachMeaning(ids, e);
    UserHasRightOnSgroupFilterMeaning(cfg, user_dn, right, e);
  }

  /** The check holds iff a group among `ids` satisfies both its id filter and the right filter. */
  lemma UserHasRightOnAtLeastOneSgroupsMeaning(cfg: LdapConfig, es: Store, user_dn: Dn, ids: seq<string>, right: Right)
    requires ToAllowedFlattenedAttrs(cfg, right).Ok?
    ensures UserHasRightOnAtLeastOneSgroups(cfg, es, user_dn, ids, right).value <==> SomeGroupWithRight(cfg, es, user_dn, ids, right)
  {
    var f := AtLeastOneFilter(cfg, user_dn, ids, right).value;
    OneGroupMatchesFilterMeaning(cfg, es, f);
    forall p | p in es {
      AtLeastOneFilterMeaning(cfg, user_dn, ids, right, p.1);
    }
  }

  /** `check_right_on_any_parents` */
  function CheckRightOnAnyParents(cfg: LdapConfig, es: Store, logged_user: LoggedUser, id: string, right: Right): (r: Outcome)
    requires StemSeparator(cfg) != ""
    ensures logged_user.TrustedAdmin? ==>
              var p := ParentStem(id, StemSeparator(cfg), RootId(cfg));
              (r.Fail? <==> p.Some? && p.value != "" && !IsSgroupExisting(cfg, es, p.value)) &&
              (r.Fail? ==> r.msg == "stem " + p.value + " does not exist")
    ensures logged_user.User? && ToAllowedFlattenedAttrs(cfg, right).Ok? ==>
              (r.Pass? <==> UserHasRightOnAtLeastOneSgroups(cfg, es, PeopleIdToDn(cfg, logged_user.user),
                              ParentStemsSpec(id, StemSeparator(cfg), RootId(cfg)), right).value)
    ensures logged_user.User? && ToAllowedFlattenedAttrs(cfg, right).Err? ==> r.Fail?
  {
    match logged_user
    case TrustedAdmin =>
      var parent_stem := ParentStem(id, StemSeparator(cfg), RootId(cfg));
      // an empty parent (the default root) is falsy and is not checked
      if parent_stem.Some? && parent_stem.value != "" && !IsSgroupExisting(cfg, es, parent_stem.value) then
        Fail("stem " + parent_stem.value + " does not exist")
      else Pass
    case User(user) =>
      var user_dn := PeopleIdToDn(cfg, user);
      var parents := ParentStemsSpec(id, StemSeparator(cfg), RootId(cfg));
      match UserHasRightOnAtLeastOneSgroups(cfg, es, user_dn, parents, right)
      case Err(msg) => Fail(msg)
      case Ok(ok) => if ok then Pass else Fail("no right on " + id + " parents")
  }

  /** For a user, only the proper ancestors count: a right on the id itself is not consulted. */
  lemma AnyParentsIgnoresSelf(cfg: LdapConfig, es: Store, user: string, id: string, right: Right)
    requires StemSeparator(cfg) != "" && ToAllowedFlattenedAttrs(cfg, right).Ok?
    ensures CheckRightOnAnyParents(cfg, es, User(user), id, right).Pass? <==>
              SomeGroupWithRight(cfg, es, PeopleIdToDn(cfg, user), ParentStemsSpec(id, StemSeparator(cfg), RootId(cfg)), right)
    ensures id !in ParentStemsSpec(id, StemSeparator(cfg), RootId(cfg))
  {
    var parents := ParentStemsSpec(id, StemSeparator(cfg), RootId(cfg));
    UserHasRightOnAtLeastOneSgroupsMeaning(cfg, es, PeopleIdToDn(cfg, user), parents, right);
    ParentStemsAreProperAncestors(id, StemSeparator(cfg), RootId(cfg));
    ParentStemsEndAtRoot(id, StemSeparator(cfg), RootId(cfg));
  }

  /** `check_right_on_self_or_any_parents` */
  function CheckRightOnSelfOrAnyParents(cfg: LdapConfig, es: Store, logged_user: LoggedUser, id: string, right: Right): (r: Outcome)
    requires StemSeparator(cfg) != ""
    ensures logged_user.TrustedAdmin? ==> r.Pass?
    ensures logged_user.User? && ToAllowedFlattenedAttrs(cfg, right).Ok? ==>
              (r.Pass? <==> UserHasRightOnAtLeastOneSgroups(cfg, es, PeopleIdToDn(cfg, logged_user.user),
                              [id] + ParentStemsSpec(id, StemSeparator(cfg), RootId(cfg)), right).value)
    ensures logged_user.User? && ToAllowedFlattenedAttrs(cfg, right).Err? ==> r.Fail?
  {
    match logged_user
    case TrustedAdmin => Pass
    case User(user) =>
      var user_dn := PeopleIdToDn(cfg, user);
      var self_and_parents := [id] + ParentStemsSpec(id, StemSeparator(cfg), RootId(cfg));
      match UserHasRightOnAtLeastOneSgroups(cfg, es, user_dn, self_and_parents, right)
      case Err(msg) => Fail(msg)
      case Ok(ok) => if ok then Pass else Fail("no right on " + id)
  }

  /** For a user the check holds iff the right holds on the id or on one of its ancestors. */
  lemma SelfOrAnyParentsMeaning(cfg: LdapConfig, es: Store, user: string, id: string, right: Right)
    requires StemSeparator(cfg) != "" && ToAllowedFlattenedAttrs(cfg, right).Ok?
    ensures CheckRightOnSelfOrAnyParents(cfg, es, User(user), id, right).Pass? <==>
              SomeGroupWithRight(cfg, es, PeopleIdToDn(cfg, user), [id] + ParentStemsSpec(id, StemSeparator(cfg), RootId(cfg)), right)
  {
    var ids := [id] + ParentStemsSpec(id, StemSeparator(cfg), RootId(cfg));
    UserHasRightOnAtLeastOneSgroupsMeaning(cfg, es, PeopleIdToDn(cfg, user), ids, right);
  }
}
