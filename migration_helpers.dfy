// Helpers of the Grouper migration (server/migration-grouper/migration_helpers.ts):
// Grouper ids and subjects turned into groupald ids and DNs, Grouper
// privileges turned into groupald rights, and the object classes a migrated
// group or stem is given.
module MigrationHelpers {
  import opened Wrappers
  import opened JsString
  import opened MyTypes
  import opened Helpers
  import opened StemHelpers
  import opened DnCodec
  import opened LdapServer
  import opened LdapReadSearch
  import ApiPost

  // ------------------------------------------------------------------ to_id

  /** `s.replace(/c/g, rep)` for a one-character pattern. */
  function ReplaceChar(s: string, c: char, rep: string): (r: string)
    ensures c !in rep ==> c !in r
    ensures c !in s ==> r == s
    ensures |rep| > 0 ==> (|r| == 0 <==> |s| == 0)
  {
    if |s| == 0 then ""
    else
      var rest := ReplaceChar(s[1..], c, rep);
      assert forall x :: x in s[1..] ==> x in s;
      (if s[0] == c then rep else [s[0]]) + rest
  }

  /** Replacing `c` by `d` then `d` by `c` gives back any text without `d`. */
  lemma {:induction false} ReplaceCharBack(s: string, c: char, d: char)
    requires d !in s
    ensures ReplaceChar(ReplaceChar(s, c, [d]), d, [c]) == s
  {
    if |s| > 0 {
      assert d !in s[1..] by { assert forall x :: x in s[1..] ==> x in s; }
      ReplaceCharBack(s[1..], c, d);
      var head := if s[0] == c then [d] else [s[0]];
      var rest := ReplaceChar(s[1..], c, [d]);
      assert ReplaceChar(s, c, [d]) == head + rest;
      assert (head + rest)[1..] == rest;
      assert ReplaceChar(head + rest, d, [c]) == [s[0]] + ReplaceChar(rest, d, [c]);
      assert s == [s[0]] + s[1..];
    }
  }

  /**
   * `to_id`: Grouper's `:` becomes the configured separator (unless that is
   * `:`), and a stem id gets a trailing `.` unless it came out empty.
   */
  function ToId(cfg: LdapConfig, id: string, is_stem: bool): (r: string)
  {
    var sep := StemSeparator(cfg);
    var id' := if sep != ":" then ReplaceChar(id, ':', sep) else id;
    id' + (if id' != "" && is_stem then "." else "")
  }

  /** With a separator free of `:`, no `:` is left in a migrated id. */
  lemma ToIdHasNoColon(cfg: LdapConfig, id: string, is_stem: bool)
    requires ':' !in StemSeparator(cfg)
    ensures ':' !in ToId(cfg, id, is_stem)
  {
  }

  /** A non-empty Grouper stem becomes an id `is_stem` recognises; a group id gets no suffix. */
  lemma ToIdStem(cfg: LdapConfig, id: string)
    requires |id| > 0 && |StemSeparator(cfg)| > 0
    ensures IsStem(ToId(cfg, id, true), RootId(cfg))
    ensures ToId(cfg, id, false) == if StemSeparator(cfg) != ":" then ReplaceChar(id, ':', StemSeparator(cfg)) else id
  {
    var sep := StemSeparator(cfg);
    var id' := if sep != ":" then ReplaceChar(id, ':', sep) else id;
    assert id' != "";
    SplitAt(id', ".");
  }

  lemma SplitAt(a: string, b: string)
    ensures (a + b)[..|a|] == a && (a + b)[|a|..] == b
  {
  }

  /** With a one-character separator absent from the Grouper id, the Grouper group id can be read back. */
  lemma ToIdReadBack(cfg: LdapConfig, id: string, d: char)
    requires StemSeparator(cfg) == [d] && d != ':' && d !in id
    ensures ReplaceChar(ToId(cfg, id, false), d, ":") == id
  {
    var id' := ReplaceChar(id, ':', [d]);
    assert ToId(cfg, id, false) == id' + "";
    assert id' + "" == id';
    ReplaceCharBack(id, ':', d);
  }

  // -------------------------------------------------------------- sgroup2dn

  /** `sgroup2dn`: the empty Grouper id is the groups branch itself. */
  function Sgroup2Dn(cfg: LdapConfig, group: string, is_stem: bool): (r: Dn)
    ensures group == "" ==> r == cfg.groups_dn
    ensures group != "" ==> r == "cn=" + ToId(cfg, group, is_stem) + "," + cfg.groups_dn
  {
    (if group != "" then "cn=" + ToId(cfg, group, is_stem) + "," else "") + cfg.groups_dn
  }

  /** `group2dn` */
  function Group2Dn(cfg: LdapConfig, group: string): Dn
  {
    Sgroup2Dn(cfg, group, false)
  }

  /**
   * With the default root id and a non-empty separator, `sgroup2dn` is
   * `sgroup_id_to_dn` of the migrated id, and `dn_to_sgroup_id` reads that id back.
   */
  lemma Sgroup2DnIsSgroupIdToDn(cfg: LdapConfig, group: string, is_stem: bool)
    requires RootId(cfg) == "" && |StemSeparator(cfg)| > 0
    ensures Sgroup2Dn(cfg, group, is_stem) == SgroupIdToDn(cfg, ToId(cfg, group, is_stem))
    ensures DnToSgroupId(cfg, Sgroup2Dn(cfg, group, is_stem)) == Some(ToId(cfg, group, is_stem))
  {
    SgroupIdDnRoundTrip(cfg, ToId(cfg, group, is_stem));
  }

  // ------------------------------------------------------------- subject2dn

  const UnivDomain := "@univ-paris1.fr"
  const UnivBaseDn := "dc=univ-paris1,dc=fr"

  /** `migration_conf.GrouperAll_group`: the group standing for Grouper's `GrouperAll`. */
  const GrouperAllGroup := "applications.grouper.updaters"

  /**
   * `subject2dn`: the DN of a Grouper subject by its source; `None` for the
   * subjects the migration skips, an error for an unknown source.
   */
  function Subject2Dn(cfg: LdapConfig, ss: string, subject: string): (r: Result<Option<Dn>>)
    ensures r.Err? <==> ss !in {"ldap", "g:gsa", "ldap_applications", "g:isa", "grouperExternal"}
    ensures r.Err? ==> r.msg == "unknown subject source \"" + ss + "\""
    ensures r == Ok(None) <==> ss == "grouperExternal" || (ss == "g:isa" && subject != "GrouperAll")
    ensures ss == "g:gsa" ==> r == Ok(Some(Group2Dn(cfg, subject)))
    ensures ss == "g:isa" && subject == "GrouperAll" ==> r == Ok(Some(Group2Dn(cfg, GrouperAllGroup)))
  {
    if ss == "ldap" then
      Ok(Some("uid=" + MayStripSuffix(subject, UnivDomain) + ",ou=people," + UnivBaseDn))
    else if ss == "g:gsa" then Ok(Some(Group2Dn(cfg, subject)))
    else if ss == "ldap_applications" then Ok(Some("cn=" + subject + ",ou=admin," + UnivBaseDn))
    else if ss == "g:isa" then
      if subject == "GrouperAll" then Ok(Some(Group2Dn(cfg, GrouperAllGroup))) else Ok(None)
    else if ss == "grouperExternal" then Ok(None)
    else Err("unknown subject source \"" + ss + "\"")
  }

  /**
   * An `ldap` subject, with or without the university's mail domain, is the
   * person `people_id_to_dn` names under the university's base DN.
   */
  lemma LdapSubjectIsPerson(cfg: LdapConfig, uid: string, with_domain: bool)
    requires cfg.base_dn == UnivBaseDn && !EndsWith(uid, UnivDomain)
    ensures Subject2Dn(cfg, "ldap", if with_domain then uid + UnivDomain else uid) == Ok(Some(PeopleIdToDn(cfg, uid)))
  {
    if with_domain {
      var s := uid + UnivDomain;
      assert s[|s| - |UnivDomain|..] == UnivDomain;
      assert MayStripSuffix(s, UnivDomain) + UnivDomain == s;
      assert MayStripSuffix(s, UnivDomain) == s[..|uid|];
      SplitAt(uid, UnivDomain);
    }
  }

  // --------------------------------------------------------------- toMyMods

  /** `toMyMods`: one subject under one operation of one mright. */
  function ToMyMods(m: Mright, mod: MyMod, subject_dn: Dn): (r: MyMods)
    ensures |r| == 1 && r[0].0 == m
  {
    var dns: DnsOpts := [(subject_dn, NoOptions)];
    var sub := match mod
      case Add => SubMods(Some(dns), None, None)
      case Delete => SubMods(None, Some(dns), None)
      case Replace => SubMods(None, None, Some(dns));
    [(m, sub)]
  }

  /**
   * The edit `toMyMods` builds lists the subject under its operation only, and
   * needs `updater` for a member or reader, `admin` for an updater or admin.
   */
  lemma ToMyModsMeaning(m: Mright, mod: MyMod, dn: Dn)
    ensures var (add, delete, replace) := ApiPost.FromSubmods(Get(ToMyMods(m, mod, dn), m).value);
            && add == (if mod == Add then [(dn, NoOptions)] else [])
            && delete == (if mod == Delete then [(dn, NoOptions)] else [])
            && replace == (if mod == Replace then Some([(dn, NoOptions)]) else None)
    ensures ApiPost.MyModsToRight(ToMyMods(m, mod, dn)) == if m == Member || m == Reader then Updater else Admin
  {
    var r := ToMyMods(m, mod, dn);
    assert r[1..] == [];
  }

  // ------------------------------------------------- grouperRight_to_groupaldRight

  /** A Grouper privilege becomes a groupald mright, or is ignored. */
  datatype GroupaldRight = Ignore | To(mright: Mright)

  /** `grouperRight_to_groupaldRight_`: the privilege table. */
  function PrivilegeTable(right: string): Option<GroupaldRight>
  {
    if right in {"optin", "optout"} then Some(Ignore)
    else if right in {"groupAttrRead", "groupAttrReader", "stemAttrRead", "view", "read", "viewer", "reader"} then Some(To(Reader))
    else if right in {"groupAttrUpdate", "groupAttrUpdater", "stemAttrUpdate", "update", "updater"} then Some(To(Updater))
    else if right in {"create", "stem", "admin"} then Some(To(Admin))
    else if right == "member" then Some(To(Member))
    else None
  }

  /** `grouperRight_to_groupaldRight`: the table entry, or an error for an unknown privilege. */
  function GrouperRightToGroupaldRight(right: string): (r: Result<GroupaldRight>)
    ensures r.Err? <==> PrivilegeTable(right).None?
    ensures r.Err? ==> r.msg == "unknown grouper privilege " + right
    ensures r.Ok? ==> Some(r.value) == PrivilegeTable(right)
  {
    match PrivilegeTable(right)
    case Some(g) => Ok(g)
    case None => Err("unknown grouper privilege " + right)
  }

  /** groupald's own names map to themselves. */
  lemma GroupaldNamesKept(m: Mright)
    ensures GrouperRightToGroupaldRight(MrightName(m)) == Ok(To(m))
  {
  }

  /** Only Grouper's `member` privilege grants membership; only `optin` and `optout` are ignored. */
  lemma MemberAndIgnoredPrivileges(right: string)
    ensures GrouperRightToGroupaldRight(right) == Ok(To(Member)) <==> right == "member"
    ensures GrouperRightToGroupaldRight(right) == Ok(Ignore) <==> right == "optin" || right == "optout"
  {
  }

  // ------------------------------------------------- ensure_sgroup_object_classes

  const ObjectClass := "objectClass"

  /** The object classes a group or stem must carry, by `is_stem`. */
  function ExpectedObjectClasses(cfg: LdapConfig, id: string): seq<string>
  {
    if IsStem(id, RootId(cfg)) then cfg.stem_object_classes else cfg.group_object_classes
  }

  /** lodash `difference(expected, current)`: the expected classes missing from the entry, in order. */
  function MissingObjectClasses(cfg: LdapConfig, es: Store, id: string): (r: Result<seq<string>>)
    ensures r.Err? <==> Read(es, SgroupIdToDn(cfg, id)).None?
    ensures r.Ok? ==> forall c :: c in r.value <==>
              c in ExpectedObjectClasses(cfg, id) && c !in Values(Read(es, SgroupIdToDn(cfg, id)).value, ObjectClass)
  {
    var current :- ReadOneMultiAttrOrErr(es, SgroupIdToDn(cfg, id), ObjectClass);
    Ok(RemoveValues(ExpectedObjectClasses(cfg, id), current))
  }

  /** The entry once the missing classes are added, when the directory accepts the change. */
  function WithObjectClasses(e: Entry, missing: seq<string>): Result<Entry>
  {
    ApplyChanges(e, [Change(OpAdd, ObjectClass, missing)])
  }

  /**
   * `ensure_sgroup_object_classes`: adds the missing object classes with one
   * `add` change, and writes nothing when none is missing.
   */
  method EnsureSgroupObjectClasses(dir: Directory, cfg: LdapConfig, id: string) returns (r: Outcome)
    requires dir.Valid()
    modifies dir
    ensures dir.Valid()
    ensures var dn := SgroupIdToDn(cfg, id);
            match MissingObjectClasses(cfg, old(dir.entries), id)
            case Err(msg) => r == Fail(msg) && dir.entries == old(dir.entries)
            case Ok(missing) =>
              if |missing| == 0 then r == Pass && dir.entries == old(dir.entries)
              else match WithObjectClasses(Read(old(dir.entries), dn).value, missing)
                case Err(msg) => r == Fail(msg) && dir.entries == old(dir.entries)
                case Ok(e) => r == Pass && dir.entries == Put(old(dir.entries), dn, e)
  {
    var dn := SgroupIdToDn(cfg, id);
    var current := ReadOneMultiAttrOrErr(dir.entries, dn, ObjectClass);
    if current.Err? {
      return Fail(current.msg);
    }
    var to_add := RemoveValues(ExpectedObjectClasses(cfg, id), current.value);
    if |to_add| > 0 {
      r := dir.Modify(dn, [Change(OpAdd, ObjectClass, to_add)]);
    } else {
      r := Pass;
    }
  }

  /** After a successful addition every expected class is there, and none is missing any more. */
  lemma ObjectClassesComplete(cfg: LdapConfig, es: Store, id: string)
    requires MissingObjectClasses(cfg, es, id).Ok?
    requires var missing := MissingObjectClasses(cfg, es, id).value;
             |missing| > 0 && WithObjectClasses(Read(es, SgroupIdToDn(cfg, id)).value, missing).Ok?
    ensures var dn := SgroupIdToDn(cfg, id);
            var e := WithObjectClasses(Read(es, dn).value, MissingObjectClasses(cfg, es, id).value).value;
            && (forall c :: c in ExpectedObjectClasses(cfg, id) ==> c in Values(e, ObjectClass))
            && MissingObjectClasses(cfg, Put(es, dn, e), id) == Ok([])
  {
    var dn := SgroupIdToDn(cfg, id);
    var old_e := Read(es, dn).value;
    var missing := MissingObjectClasses(cfg, es, id).value;
    var e := WithObjectClasses(old_e, missing).value;
    AddedClasses(old_e, missing);
    var expected := ExpectedObjectClasses(cfg, id);
    assert forall c :: c in expected ==> c in Values(e, ObjectClass);
    ReadBackClasses(Put(es, dn, e), dn, e);
    RemoveCovered(expected, Values(e, ObjectClass));
  }

  /** The added classes follow the classes the entry had. */
  lemma AddedClasses(e: Entry, missing: seq<string>)
    requires WithObjectClasses(e, missing).Ok?
    ensures Values(WithObjectClasses(e, missing).value, ObjectClass) == Values(e, ObjectClass) + missing
  {
    var e1 := ApplyChange(e, Change(OpAdd, ObjectClass, missing));
    assert e1.Ok?;
    assert ApplyChanges(e1.value, []) == Ok(e1.value);
  }

  lemma ReadBackClasses(es: Store, dn: Dn, e: Entry)
    requires Get(es, dn) == Some(e)
    ensures ReadOneMultiAttrOrErr(es, dn, ObjectClass) == Ok(Values(e, ObjectClass))
  {
  }
}
