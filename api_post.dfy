// The write side of the API (server/api_post.ts): editing the direct members
// and rights of a group, recomputing the flattened members and rights of the
// groups concerned, deleting a group or stem, and setting the remote query
// of a synchronized group.
//
// The outside world comes in as parameters: `Remotes` holds the SQL
// databases, the LDAP searches and the LDAP URL parser; `SubjectsCheck` is
// the read-right and non-recursion check of api_post.ts:275-294, whose
// filters are built by functions not part of this model.
module ApiPost {
  import opened Wrappers
  import opened MyTypes
  import opened Helpers
  import opened StemHelpers
  import opened DnCodec
  import opened LdapFilter
  import opened LdapHelpers
  import opened LdapServer
  import opened LdapReadSearch
  import opened LdapSgroupReadSearchModify
  import opened LdapCheckRights
  import opened RemoteSql
  import opened RemoteLdap
  import ApiGet
  import Cache
  import LdapSubject

  // ------------------------------------------------ the right an edit needs

  /** `my_mods_to_right`: `admin` as soon as one edited mright is neither `reader` nor `member`, else `updater`. */
  function MyModsToRight(my_mods: MyMods): (r: Right)
    ensures r == Admin <==> exists i :: 0 <= i < |my_mods| && my_mods[i].0 != Reader && my_mods[i].0 != Member
    ensures r == Updater <==> forall i :: 0 <= i < |my_mods| ==> my_mods[i].0 == Reader || my_mods[i].0 == Member
  {
    if |my_mods| == 0 then Updater
    else if my_mods[0].0 != Reader && my_mods[0].0 != Member then Admin
    else
      assert forall i :: 1 <= i < |my_mods| ==> my_mods[i] == my_mods[1..][i - 1];
      MyModsToRight(my_mods[1..])
  }

  // ------------------------------------------------------------- submods

  /** `to_submods`: empty add and delete lists are dropped, the replace list is kept as given. */
  function ToSubmods(add: DnsOpts, delete: DnsOpts, replace: Option<DnsOpts>): (r: SubMods)
    ensures FromSubmods(r) == (add, delete, replace)
    ensures r.add != Some([]) && r.delete != Some([])
    ensures IsEmptySubMods(r) <==> |add| == 0 && |delete| == 0 && replace.None?
  {
    SubMods(if |add| > 0 then Some(add) else None, if |delete| > 0 then Some(delete) else None, replace)
  }

  /** `from_submods`: a missing add or delete list reads as empty. */
  function FromSubmods(s: SubMods): (DnsOpts, DnsOpts, Option<DnsOpts>)
  {
    (s.add.GetOr([]), s.delete.GetOr([]), s.replace)
  }

  /** `_.isEmpty(submods)`: no operation at all. */
  predicate IsEmptySubMods(s: SubMods)
  {
    s.add.None? && s.delete.None? && s.replace.None?
  }

  /** Submods without empty add or delete lists come back from `from_submods` then `to_submods`. */
  lemma SubmodsRoundTrip(s: SubMods)
    requires s.add != Some([]) && s.delete != Some([])
    ensures ToSubmods(FromSubmods(s).0, FromSubmods(s).1, FromSubmods(s).2) == s
  {
    var (add, delete, replace) := FromSubmods(s);
    assert s.add.Some? ==> |add| > 0;
    assert s.delete.Some? ==> |delete| > 0;
  }

  // ------------------------------------------- replace into add and delete

  /** `Object.assign(target, source)`: each entry of `source` put in turn. */
  function Assign(target: DnsOpts, source: DnsOpts): (r: DnsOpts)
    ensures UniqueKeys(target) ==> UniqueKeys(r)
  {
    if |source| == 0 then target
    else
      var n := |source| - 1;
      Put(Assign(target, source[..n]), source[n].0, source[n].1)
  }

  /** After `Object.assign`, a key holds its value in `source` if it has one there, else its value in `target`. */
  lemma {:induction false} AssignLookup(target: DnsOpts, source: DnsOpts, dn: Dn)
    requires UniqueKeys(source)
    ensures Get(Assign(target, source), dn) == if Get(source, dn).Some? then Get(source, dn) else Get(target, dn)
  {
    if |source| > 0 {
      var n := |source| - 1;
      assert UniqueKeys(source[..n]);
      AssignLookup(target, source[..n], dn);
      PrefixGet(source, n);
      assert source[..n + 1] == source;
      if dn != source[n].0 {
        assert Get(source, dn) == Get(source[..n], dn);
      }
    }
  }

  /** Above this many subjects, a replace is turned into adds and deletes. */
  const LongReplace := 4

  predicate IsLongReplace(s: SubMods)
  {
    s.replace.Some? && |s.replace.value| > LongReplace
  }

  /** What `may_transform_replace_into_AddDelete` returns for the edit `submods` of mright `m` of group `id`. */
  function TransformReplaceSpec(cfg: LdapConfig, es: Store, id: string, m: Mright, submods: SubMods): (r: Result<SubMods>)
    ensures !IsLongReplace(submods) ==> r.Ok? && FromSubmods(r.value) == FromSubmods(submods)
    ensures IsLongReplace(submods) ==> (r.Ok? <==> Read(es, SgroupIdToDn(cfg, id)).Some?)
    ensures IsLongReplace(submods) && r.Ok? ==> r.value.replace.None?
    ensures r.Ok? ==> r.value.add != Some([]) && r.value.delete != Some([])
  {
    var (add, delete, replace) := FromSubmods(submods);
    if IsLongReplace(submods) then
      var current :- ReadDirectMright(es, SgroupIdToDn(cfg, id), m);
      Ok(ToSubmods(Assign(add, DifferenceSpec(replace.value, current)), Assign(delete, DifferenceSpec(current, replace.value)), None))
    else Ok(ToSubmods(add, delete, replace))
  }

  /** `may_transform_replace_into_AddDelete` */
  method MayTransformReplaceIntoAddDelete(dir: Directory, cfg: LdapConfig, id: string, m: Mright, submods: SubMods)
    returns (r: Result<SubMods>)
    ensures r == TransformReplaceSpec(cfg, dir.entries, id, m, submods)
  {
    var (add, delete, replace) := FromSubmods(submods);
    if replace.Some? && |replace.value| > LongReplace {
      var current := ReadDirectMright(dir.entries, SgroupIdToDn(cfg, id), m);
      if current.Err? {
        return Err(current.msg);
      }
      var added := HashmapDifference(replace.value, current.value);
      var removed := HashmapDifference(current.value, replace.value);
      return Ok(ToSubmods(Assign(add, added), Assign(delete, removed), None));
    }
    return Ok(ToSubmods(add, delete, replace));
  }

  /** The stored direct members or rights a long replace is compared with. */
  function CurrentDirect(cfg: LdapConfig, es: Store, id: string, m: Mright): DnsOpts
    requires Read(es, SgroupIdToDn(cfg, id)).Some?
  {
    ReadDirectMright(es, SgroupIdToDn(cfg, id), m).value
  }

  /**
   * A long replace adds what it sets differently from the stored list and
   * deletes what the stored list has differently from it, on top of the
   * adds and deletes of the same edit.
   */
  lemma LongReplaceMeaning(cfg: LdapConfig, es: Store, id: string, m: Mright, submods: SubMods, dn: Dn)
    requires IsLongReplace(submods) && UniqueKeys(submods.replace.value)
    requires Read(es, SgroupIdToDn(cfg, id)).Some?
    ensures var r := TransformReplaceSpec(cfg, es, id, m, submods).value;
            var current := CurrentDirect(cfg, es, id, m);
            var replace := submods.replace.value;
            && Get(FromSubmods(r).0, dn) ==
                 (if Get(replace, dn).Some? && Get(current, dn) != Get(replace, dn) then Get(replace, dn) else Get(FromSubmods(submods).0, dn))
            && Get(FromSubmods(r).1, dn) ==
                 (if Get(current, dn).Some? && Get(replace, dn) != Get(current, dn) then Get(current, dn) else Get(FromSubmods(submods).1, dn))
  {
    var (add, delete, replace) := FromSubmods(submods);
    var current := CurrentDirect(cfg, es, id, m);
    DifferenceLookup(replace.value, current, dn);
    DifferenceLookup(current, replace.value, dn);
    AssignLookup(add, DifferenceSpec(replace.value, current), dn);
    AssignLookup(delete, DifferenceSpec(current, replace.value), dn);
  }

  /**
   * A long replace alone has the effect the replace asked for: adding its
   * adds to the stored list, then removing its deletes, gives the replace.
   */
  lemma LongReplaceSameEffect(cfg: LdapConfig, es: Store, id: string, m: Mright, submods: SubMods, dn: Dn)
    requires IsLongReplace(submods) && UniqueKeys(submods.replace.value)
    requires submods.add.GetOr([]) == [] && submods.delete.GetOr([]) == []
    requires Read(es, SgroupIdToDn(cfg, id)).Some?
    ensures var r := TransformReplaceSpec(cfg, es, id, m, submods).value;
            var current := CurrentDirect(cfg, es, id, m);
            var add := FromSubmods(r).0;
            var delete := FromSubmods(r).1;
            Get(submods.replace.value, dn) ==
              if Get(add, dn).Some? then Get(add, dn)
              else if Get(delete, dn) == Get(current, dn) then None
              else Get(current, dn)
  {
    LongReplaceMeaning(cfg, es, id, m, submods, dn);
  }

  /** Assigning a map with distinct keys to an empty object copies it. */
  lemma {:induction false} AssignToEmpty(source: DnsOpts)
    requires UniqueKeys(source)
    ensures Assign([], source) == source
  {
    if |source| > 0 {
      var n := |source| - 1;
      assert UniqueKeys(source[..n]);
      AssignToEmpty(source[..n]);
      FreshKey(source, n);
      PutAbsentAppends(source[..n], source[n].0, source[n].1);
      assert source == source[..n] + [source[n]];
    }
  }

  /**
   * `may_transform_replace_into_AddDelete` as written: `hashmap_difference`
   * compares the request's options with the ones `urls_to_dns` has just
   * built by identity (`!==`), and two different objects are never `===`.
   * The request's options are the objects numbered from 0, the stored ones
   * follow them.
   */
  function TransformReplaceAsWritten(cfg: LdapConfig, es: Store, id: string, m: Mright, submods: SubMods): (r: Result<SubMods>)
    ensures !IsLongReplace(submods) ==> r == TransformReplaceSpec(cfg, es, id, m, submods)
    ensures IsLongReplace(submods) ==> (r.Ok? <==> Read(es, SgroupIdToDn(cfg, id)).Some?)
  {
    var (add, delete, replace) := FromSubmods(submods);
    if IsLongReplace(submods) then
      var current :- ReadDirectMright(es, SgroupIdToDn(cfg, id), m);
      var wanted := AsObjects(replace.value, 0);
      var stored := AsObjects(current, |replace.value|);
      Ok(ToSubmods(Assign(add, Contents(HashmapDifferenceAsWritten(wanted, stored))),
                   Assign(delete, Contents(HashmapDifferenceAsWritten(stored, wanted))), None))
    else Ok(ToSubmods(add, delete, replace))
  }

  /**
   * As written, a long replace alone becomes the add of every DN it lists
   * and the delete of every DN stored, whatever the two have in common.
   */
  lemma LongReplaceAsWrittenAddsAll(cfg: LdapConfig, es: Store, id: string, m: Mright, submods: SubMods)
    requires IsLongReplace(submods) && UniqueKeys(submods.replace.value)
    requires submods.add.GetOr([]) == [] && submods.delete.GetOr([]) == []
    requires Read(es, SgroupIdToDn(cfg, id)).Some?
    ensures var r := TransformReplaceAsWritten(cfg, es, id, m, submods).value;
            && r.add == submods.replace
            && FromSubmods(r).1 == CurrentDirect(cfg, es, id, m)
            && r.replace.None?
  {
    var replace := submods.replace.value;
    var current := CurrentDirect(cfg, es, id, m);
    AsWrittenKeepsOtherObjects(replace, 0, AsObjects(current, |replace|));
    AsWrittenKeepsOtherObjects(current, |replace|, AsObjects(replace, 0));
    ContentsAsObjects(replace, 0);
    ContentsAsObjects(current, |replace|);
    AssignToEmpty(replace);
    AssignToEmpty(current);
  }

  /**
   * As written, a long replace that lists a member URL the group already
   * stores makes the modify request fail: its first change adds that URL
   * again, which section 4.6 of RFC 4511 refuses (`attributeOrValueExists`),
   * so `modify_direct_members_or_rights` writes nothing.
   */
  lemma LongReplaceAsWrittenFails(cfg: LdapConfig, es: Store, id: string, m: Mright, submods: SubMods, url: string)
    requires IsLongReplace(submods) && UniqueKeys(submods.replace.value)
    requires submods.add.GetOr([]) == [] && submods.delete.GetOr([]) == []
    requires Read(es, SgroupIdToDn(cfg, id)).Some?
    requires url in Values(Read(es, SgroupIdToDn(cfg, id)).value, ToAttr(m))
    requires url in DnsOptsToUrls(submods.replace.value)
    ensures TransformReplaceAsWritten(cfg, es, id, m, submods).Ok?
    ensures ApplyChanges(Read(es, SgroupIdToDn(cfg, id)).value,
                         ToLdapModsSpec([(m, TransformReplaceAsWritten(cfg, es, id, m, submods).value)])).Err?
  {
    LongReplaceAsWrittenAddsAll(cfg, es, id, m, submods);
    AddOfStoredUrlFails(Read(es, SgroupIdToDn(cfg, id)).value, m, TransformReplaceAsWritten(cfg, es, id, m, submods).value, url);
  }

  /** An edit whose add lists a URL the attribute already holds fails as a whole. */
  lemma AddOfStoredUrlFails(e: Entry, m: Mright, s: SubMods, url: string)
    requires s.add.Some? && url in Values(e, ToAttr(m)) && url in DnsOptsToUrls(s.add.value)
    ensures ApplyChanges(e, ToLdapModsSpec([(m, s)])).Err?
  {
    var first := Change(OpAdd, ToAttr(m), DnsOptsToUrls(s.add.value));
    assert SubModsList(s)[0] == (OpAdd, s.add.value);
    var cs := ToLdapModsSpec([(m, s)]);
    assert [(m, s)][1..] == [];
    assert cs == MrightChanges(m, s) + ToLdapModsSpec([]);
    assert cs[0] == first;
    assert ApplyChange(e, first).Err?;
  }

  // ------------------------------------------------ checking the edits

  const MembersNotAllowedForStems := "members are not allowed for stems"

  /** The simplified form of one edit, or why it is refused: a member edit on a stem, or a failed read. */
  function CheckEdit(cfg: LdapConfig, es: Store, is_stem: bool, id: string, e: (Mright, SubMods)): Result<SubMods>
  {
    if e.0 == Member && is_stem then Err(MembersNotAllowedForStems)
    else TransformReplaceSpec(cfg, es, id, e.0, e.1)
  }

  /** Each edit with its `CheckEdit` result. */
  function CheckEach(cfg: LdapConfig, es: Store, is_stem: bool, id: string, my_mods: MyMods): (r: seq<(Mright, Result<SubMods>)>)
    ensures |r| == |my_mods|
    ensures forall i :: 0 <= i < |my_mods| ==> r[i] == (my_mods[i].0, CheckEdit(cfg, es, is_stem, id, my_mods[i]))
  {
    seq(|my_mods|, i requires 0 <= i < |my_mods| => (my_mods[i].0, CheckEdit(cfg, es, is_stem, id, my_mods[i])))
  }

  /** The checked edits gathered in order: the first refusal fails them all, empty edits are dropped. */
  function Gather(checked: seq<(Mright, Result<SubMods>)>): (r: Result<MyMods>)
    ensures r.Ok? ==> UniqueKeys(r.value)
  {
    if |checked| == 0 then Ok([])
    else
      var n := |checked| - 1;
      var prev :- Gather(checked[..n]);
      var s :- checked[n].1;
      Ok(if IsEmptySubMods(s) then prev else Put(prev, checked[n].0, s))
  }

  /** `Gather` of one more checked edit, once the ones before it gathered. */
  lemma GatherStep(checked: seq<(Mright, Result<SubMods>)>, i: nat, acc: MyMods)
    requires i < |checked| && Gather(checked[..i]) == Ok(acc)
    ensures checked[i].1.Err? ==> Gather(checked[..i + 1]) == Err(checked[i].1.msg)
    ensures checked[i].1.Ok? ==>
              Gather(checked[..i + 1]) == Ok(if IsEmptySubMods(checked[i].1.value) then acc else Put(acc, checked[i].0, checked[i].1.value))
  {
    assert checked[..i + 1][..i] == checked[..i];
  }

  /** What `check_and_simplify_mods` returns. */
  function CheckAndSimplifySpec(cfg: LdapConfig, es: Store, is_stem: bool, id: string, my_mods: MyMods): Result<MyMods>
  {
    Gather(CheckEach(cfg, es, is_stem, id, my_mods))
  }

  lemma {:induction false} GatherOk(checked: seq<(Mright, Result<SubMods>)>)
    ensures Gather(checked).Ok? <==> forall i :: 0 <= i < |checked| ==> checked[i].1.Ok?
  {
    if |checked| > 0 {
      var n := |checked| - 1;
      GatherOk(checked[..n]);
      assert forall i :: 0 <= i < n ==> checked[..n][i] == checked[i];
    }
  }

  /** With distinct mrights, the gathered edit of `m` is its checked edit when not empty. */
  lemma {:induction false} GatherLookup(checked: seq<(Mright, Result<SubMods>)>, m: Mright)
    requires UniqueKeys(checked) && Gather(checked).Ok?
    ensures Get(checked, m).Some? ==> Get(checked, m).value.Ok?
    ensures Get(Gather(checked).value, m) ==
              if Get(checked, m).Some? && !IsEmptySubMods(Get(checked, m).value.value) then Some(Get(checked, m).value.value) else None
  {
    if |checked| > 0 {
      var n := |checked| - 1;
      var pre, last := checked[..n], checked[n];
      assert checked == pre + [last];
      assert UniqueKeys(pre);
      assert Gather(pre).Ok? && last.1.Ok?;
      GatherLookup(pre, m);
      FreshKey(checked, n);
      AppendGet(pre, last);
      var prev, s := Gather(pre).value, last.1.value;
      assert Gather(checked).value == if IsEmptySubMods(s) then prev else Put(prev, last.0, s);
      if last.0 == m {
        assert Get(pre, m).None? && Get(checked, m) == Some(last.1);
      } else {
        assert Get(checked, m) == Get(pre, m);
      }
    }
  }

  lemma {:induction false} GatherErrSticks(checked: seq<(Mright, Result<SubMods>)>, i: nat)
    requires i <= |checked|
    requires Gather(checked[..i]).Err?
    ensures Gather(checked) == Gather(checked[..i])
    decreases |checked| - i
  {
    if i < |checked| {
      assert checked[..i + 1][..i] == checked[..i];
      GatherErrSticks(checked, i + 1);
    } else {
      assert checked[..i] == checked;
    }
  }

  /** The edits are accepted iff each one is: no member edit on a stem, and the group exists for a long replace. */
  lemma CheckAndSimplifyOk(cfg: LdapConfig, es: Store, is_stem: bool, id: string, my_mods: MyMods)
    ensures CheckAndSimplifySpec(cfg, es, is_stem, id, my_mods).Ok? <==>
              forall i :: 0 <= i < |my_mods| ==>
                !(my_mods[i].0 == Member && is_stem) &&
                (IsLongReplace(my_mods[i].1) ==> Read(es, SgroupIdToDn(cfg, id)).Some?)
  {
    var checked := CheckEach(cfg, es, is_stem, id, my_mods);
    GatherOk(checked);
  }

  /** A member edit on a stem makes `check_and_simplify_mods` fail. */
  lemma StemMemberEditFails(cfg: LdapConfig, es: Store, id: string, my_mods: MyMods)
    requires Member in KeySet(my_mods)
    ensures CheckAndSimplifySpec(cfg, es, true, id, my_mods).Err?
  {
    CheckAndSimplifyOk(cfg, es, true, id, my_mods);
    KeySetIndex(my_mods, Member);
  }

  /**
   * `check_and_simplify_mods` keeps, for each edited mright, the simplified
   * edit when it is not empty, and nothing else.
   */
  lemma CheckAndSimplifyLookup(cfg: LdapConfig, es: Store, is_stem: bool, id: string, my_mods: MyMods, m: Mright)
    requires UniqueKeys(my_mods)
    requires CheckAndSimplifySpec(cfg, es, is_stem, id, my_mods).Ok?
    ensures Get(my_mods, m).None? ==> Get(CheckAndSimplifySpec(cfg, es, is_stem, id, my_mods).value, m).None?
    ensures Get(my_mods, m).Some? ==>
              var t := TransformReplaceSpec(cfg, es, id, m, Get(my_mods, m).value);
              t.Ok? &&
              Get(CheckAndSimplifySpec(cfg, es, is_stem, id, my_mods).value, m) == if IsEmptySubMods(t.value) then None else Some(t.value)
  {
    var checked := CheckEach(cfg, es, is_stem, id, my_mods);
    assert forall i :: 0 <= i < |my_mods| ==> checked[i].0 == my_mods[i].0;
    assert UniqueKeys(checked);
    GatherLookup(checked, m);
    CheckEachGet(cfg, es, is_stem, id, my_mods, m);
  }

  lemma CheckEachGet(cfg: LdapConfig, es: Store, is_stem: bool, id: string, my_mods: MyMods, m: Mright)
    requires UniqueKeys(my_mods)
    ensures Get(my_mods, m).None? ==> Get(CheckEach(cfg, es, is_stem, id, my_mods), m).None?
    ensures Get(my_mods, m).Some? ==> Get(CheckEach(cfg, es, is_stem, id, my_mods), m) == Some(CheckEdit(cfg, es, is_stem, id, (m, Get(my_mods, m).value)))
  {
    var checked := CheckEach(cfg, es, is_stem, id, my_mods);
    KeySetIndex(my_mods, m);
    KeySetIndex(checked, m);
    if Get(my_mods, m).Some? {
      var i :| 0 <= i < |my_mods| && my_mods[i].0 == m;
      assert checked[i].0 == m;
    }
  }

  /** `check_and_simplify_mods` */
  method CheckAndSimplifyMods(dir: Directory, cfg: LdapConfig, is_stem: bool, id: string, my_mods: MyMods) returns (r: Result<MyMods>)
    ensures r == CheckAndSimplifySpec(cfg, dir.entries, is_stem, id, my_mods)
  {
    ghost var checked := CheckEach(cfg, dir.entries, is_stem, id, my_mods);
    var acc: MyMods := [];
    var i := 0;
    while i < |my_mods|
      invariant 0 <= i <= |my_mods|
      invariant Gather(checked[..i]) == Ok(acc)
    {
      var (m, submods) := my_mods[i];
      GatherStep(checked, i, acc);
      if m == Member && is_stem {
        GatherErrSticks(checked, i + 1);
        return Err(MembersNotAllowedForStems);
      }
      var s := MayTransformReplaceIntoAddDelete(dir, cfg, id, m, submods);
      assert checked[i] == (m, s);
      if s.Err? {
        GatherErrSticks(checked, i + 1);
        return Err(s.msg);
      }
      if !IsEmptySubMods(s.value) {
        acc := Put(acc, m, s.value);
      }
      i := i + 1;
    }
    assert checked[..i] == checked;
    return Ok(acc);
  }

  // ------------------------------------------------------- direct DNs

  /** The systems outside the directory a recompute may query. */
  datatype Remotes = Remotes(run: SqlRunner, search: LdapSearcher, parse: LdapUrlParser)

  /** `sql_values_to_dns`: the values themselves, or the entries of the subject source they identify. */
  function SqlValuesToDnsOf(cfg: LdapConfig, es: Store, to_ss: Option<ToSubjectSource>, values: seq<string>): Result<DnsOpts>
  {
    match to_ss
    case None => Ok(ValuesAsDns(values))
    case Some(tss) =>
      var id_attrs :- IdAttrsFor(cfg, tss);
      Ok(ValuesToDnsSpec(es, tss.ssdn, id_attrs, Chunks(values, 10)))
  }

  /** `remote_sql_query_to_dns` and `ldap_query`: the DNs a parsed remote query gives. */
  function RemoteToDns(cfg: Config, rem: Remotes, es: Store, rq: RemoteQuery): (r: Result<DnsOpts>)
    ensures rq.Ldap? ==> r == LdapQuery(cfg.remotes, rq.ldap, cfg.ldap.base_dn, rem.search)
    ensures rq.Sql? ==> (r.Ok? <==> SqlQuery(cfg.remotes, rq.sql, rem.run).Ok? &&
                                     SqlValuesToDnsOf(cfg.ldap, es, rq.sql.to_subject_source, SqlQuery(cfg.remotes, rq.sql, rem.run).value).Ok?)
  {
    match rq
    case Sql(q) =>
      var values :- SqlQuery(cfg.remotes, q, rem.run);
      SqlValuesToDnsOf(cfg.ldap, es, q.to_subject_source, values)
    case Ldap(q) => LdapQuery(cfg.remotes, q, cfg.ldap.base_dn, rem.search)
  }

  /** `remote_query_to_dns`: the DNs of a remote query, or an error for text that is not one. */
  function RemoteQueryToDns(cfg: Config, rem: Remotes, es: Store, rqs: string): (r: Result<DnsOpts>)
    ensures ApiGet.ParseRemoteQuery(rqs, rem.parse).Err? ==> r == Err(ApiGet.ParseRemoteQuery(rqs, rem.parse).msg)
    ensures ApiGet.ParseRemoteQuery(rqs, rem.parse).Ok? ==> r == RemoteToDns(cfg, rem, es, ApiGet.ParseRemoteQuery(rqs, rem.parse).value)
  {
    var rq :- ApiGet.ParseRemoteQuery(rqs, rem.parse);
    RemoteToDns(cfg, rem, es, rq)
  }

  /** The remote query of an entry: its first synchronized value, unless empty (`if (rq)`). */
  function SyncQueryOf(e: Entry): (r: Option<string>)
    ensures r.Some? <==> |Values(e, AttrSynchronized)| > 0 && Values(e, AttrSynchronized)[0] != ""
    ensures r.Some? ==> r.value == Values(e, AttrSynchronized)[0]
  {
    if |Values(e, AttrSynchronized)| > 0 && Values(e, AttrSynchronized)[0] != "" then Some(Values(e, AttrSynchronized)[0]) else None
  }

  /**
   * `urls_to_dns_handling_remote`: the members of a synchronized group come
   * from its remote query; otherwise the direct DNs are those of the stored
   * URLs of the mright.
   */
  function DirectDns(cfg: Config, rem: Remotes, es: Store, group_dn: Dn, m: Mright): (r: Result<DnsOpts>)
    ensures Read(es, group_dn).None? ==> r.Err?
    ensures Read(es, group_dn).Some? && m == Member && SyncQueryOf(Read(es, group_dn).value).Some? ==>
              r == RemoteQueryToDns(cfg, rem, es, SyncQueryOf(Read(es, group_dn).value).value)
    ensures Read(es, group_dn).Some? && (m != Member || SyncQueryOf(Read(es, group_dn).value).None?) ==>
              r == Ok(UrlsToDns(Values(Read(es, group_dn).value, ToAttr(m))))
  {
    var rq :- if m == Member then ReadOneMonoAttrOrErr(es, group_dn, AttrSynchronized) else Ok(None);
    if rq.Some? && rq.value != "" then RemoteQueryToDns(cfg, rem, es, rq.value)
    else ReadDirectMright(es, group_dn, m)
  }

  /** `remote_sql_query_to_dns` and `ldap_query`, with the lookups of `sql_values_to_dns` done step by step. */
  method RemoteToDnsRun(cfg: Config, rem: Remotes, dir: Directory, rq: RemoteQuery) returns (r: Result<DnsOpts>)
    ensures r == RemoteToDns(cfg, rem, dir.entries, rq)
  {
    match rq
    case Sql(q) =>
      var values := SqlQuery(cfg.remotes, q, rem.run);
      if values.Err? {
        return Err(values.msg);
      }
      r := SqlValuesToDns(cfg.ldap, dir.entries, q.to_subject_source, values.value);
    case Ldap(q) =>
      r := LdapQuery(cfg.remotes, q, cfg.ldap.base_dn, rem.search);
  }

  /** `urls_to_dns_handling_remote` */
  method UrlsToDnsHandlingRemote(cfg: Config, rem: Remotes, dir: Directory, group_dn: Dn, m: Mright) returns (r: Result<DnsOpts>)
    ensures r == DirectDns(cfg, rem, dir.entries, group_dn, m)
  {
    if m == Member {
      var rq := ReadOneMonoAttrOrErr(dir.entries, group_dn, AttrSynchronized);
      if rq.Err? {
        return Err(rq.msg);
      }
      if rq.value.Some? && rq.value.value != "" {
        var parsed := ApiGet.ParseRemoteQuery(rq.value.value, rem.parse);
        if parsed.Err? {
          return Err(parsed.msg);
        }
        r := RemoteToDnsRun(cfg, rem, dir, parsed.value);
        return;
      }
    }
    r := ReadDirectMright(dir.entries, group_dn, m);
  }

  // ------------------------------------------------------- flattening

  /** The flattened members of the groups among `dns`, group after group. */
  function SubgroupsMembers(cfg: LdapConfig, es: Store, dns: seq<Dn>): Result<seq<Dn>>
    decreases |dns|
  {
    if |dns| == 0 then Ok([])
    else
      var n := |dns| - 1;
      var prev :- SubgroupsMembers(cfg, es, dns[..n]);
      if DnIsSgroup(cfg, dns[n]) then
        var members :- ReadFlattenedMright(cfg, es, dns[n], Member);
        Ok(prev + members)
      else Ok(prev)
  }

  /** What `get_flattened_dns` returns: the direct DNs, then the flattened members of each group among them. */
  function FlattenedDnsSpec(cfg: LdapConfig, es: Store, direct: seq<Dn>): Result<seq<Dn>>
  {
    var members :- SubgroupsMembers(cfg, es, direct);
    Ok(direct + members)
  }

  /** `x` is a flattened member of a group among `dns`. */
  predicate InSubgroup(cfg: LdapConfig, es: Store, dns: seq<Dn>, x: Dn)
  {
    exists d :: d in dns && DnIsSgroup(cfg, d) && ReadFlattenedMright(cfg, es, d, Member).Ok? &&
      x in ReadFlattenedMright(cfg, es, d, Member).value
  }

  /** The groups among `dns` can all be read. */
  predicate SubgroupsReadable(cfg: LdapConfig, es: Store, dns: seq<Dn>)
  {
    forall d :: d in dns && DnIsSgroup(cfg, d) ==> ReadFlattenedMright(cfg, es, d, Member).Ok?
  }

  lemma {:induction false} SubgroupsMembersMeaning(cfg: LdapConfig, es: Store, dns: seq<Dn>)
    ensures SubgroupsMembers(cfg, es, dns).Ok? <==> SubgroupsReadable(cfg, es, dns)
    ensures SubgroupsMembers(cfg, es, dns).Ok? ==>
              forall x :: x in SubgroupsMembers(cfg, es, dns).value <==> InSubgroup(cfg, es, dns, x)
    decreases |dns|
  {
    if |dns| > 0 {
      var n := |dns| - 1;
      var init := dns[..n];
      SubgroupsMembersMeaning(cfg, es, init);
      assert forall d :: d in dns <==> d in init || d == dns[n] by {
        assert dns == init + [dns[n]];
      }
      assert SubgroupsReadable(cfg, es, dns) <==>
               SubgroupsReadable(cfg, es, init) && (DnIsSgroup(cfg, dns[n]) ==> ReadFlattenedMright(cfg, es, dns[n], Member).Ok?);
      if SubgroupsMembers(cfg, es, dns).Ok? {
        forall x
          ensures x in SubgroupsMembers(cfg, es, dns).value <==> InSubgroup(cfg, es, dns, x)
        {
          if InSubgroup(cfg, es, dns, x) {
            var d :| d in dns && DnIsSgroup(cfg, d) && ReadFlattenedMright(cfg, es, d, Member).Ok? &&
                     x in ReadFlattenedMright(cfg, es, d, Member).value;
            if d != dns[n] {
              assert InSubgroup(cfg, es, init, x);
            }
          }
        }
      }
    }
  }

  /**
   * For every mright, a DN is flattened iff it is a direct DN or a flattened
   * member of a group among the direct DNs: expansion follows `member`
   * only, never the mright being computed.
   */
  lemma FlattenedDnsMeaning(cfg: LdapConfig, es: Store, direct: seq<Dn>)
    ensures FlattenedDnsSpec(cfg, es, direct).Ok? <==> SubgroupsReadable(cfg, es, direct)
    ensures FlattenedDnsSpec(cfg, es, direct).Ok? ==>
              forall x :: x in FlattenedDnsSpec(cfg, es, direct).value <==> x in direct || InSubgroup(cfg, es, direct, x)
  {
    SubgroupsMembersMeaning(cfg, es, direct);
  }

  lemma {:induction false} SubgroupsMembersErrSticks(cfg: LdapConfig, es: Store, dns: seq<Dn>, i: nat)
    requires i <= |dns| && SubgroupsMembers(cfg, es, dns[..i]).Err?
    ensures SubgroupsMembers(cfg, es, dns) == Err(SubgroupsMembers(cfg, es, dns[..i]).msg)
    decreases |dns| - i
  {
    if i < |dns| {
      assert dns[..i + 1][..i] == dns[..i];
      SubgroupsMembersErrSticks(cfg, es, dns, i + 1);
    } else {
      assert dns[..i] == dns;
    }
  }

  /** `get_flattened_dns` */
  method GetFlattenedDns(dir: Directory, cfg: LdapConfig, direct_dns: seq<Dn>) returns (r: Result<seq<Dn>>)
    ensures r == FlattenedDnsSpec(cfg, dir.entries, direct_dns)
  {
    var acc := direct_dns;
    var i := 0;
    while i < |direct_dns|
      invariant 0 <= i <= |direct_dns|
      invariant SubgroupsMembers(cfg, dir.entries, direct_dns[..i]).Ok?
      invariant acc == direct_dns + SubgroupsMembers(cfg, dir.entries, direct_dns[..i]).value
    {
      assert direct_dns[..i + 1][..i] == direct_dns[..i];
      var dn := direct_dns[i];
      if DnIsSgroup(cfg, dn) {
        var members := ReadFlattenedMright(cfg, dir.entries, dn, Member);
        if members.Err? {
          SubgroupsMembersErrSticks(cfg, dir.entries, direct_dns, i + 1);
          return Err(members.msg);
        }
        acc := acc + members.value;
      }
      i := i + 1;
    }
    assert direct_dns[..i] == direct_dns;
    return Ok(acc);
  }

  /** `_.uniq`: each value once, at its first place. */
  function Uniq(s: seq<Dn>): (r: seq<Dn>)
    ensures NoDuplicates(r)
    ensures forall x :: x in r <==> x in s
    ensures |r| <= |s|
  {
    if |s| == 0 then []
    else
      var n := |s| - 1;
      var prev := Uniq(s[..n]);
      assert forall x :: x in s <==> x in s[..n] || x == s[n] by {
        assert s == s[..n] + [s[n]];
      }
      if s[n] in prev then prev else prev + [s[n]]
  }

  // ------------------------------------------------- the flattened write

  datatype UpResult = Modified | Unchanged

  /** What `log_sgroup_flattened_modifications` receives. */
  datatype FlattenedLog = FlattenedLog(id: string, mright: Mright, new_count: nat, added: seq<Dn>, removed: seq<Dn>)

  /** A recompute: whether it wrote, the directory after it, and its log record. */
  datatype Update = Update(result: UpResult, es: Store, log: FlattenedLog)

  /** The values to store: the flattened DNs, or `[""]` for a `member` list without any. */
  function WithSentinel(flattened: seq<Dn>, m: Mright): seq<Dn>
  {
    if |flattened| == 0 && m == Member then EmptySentinel else flattened
  }

  /** The changes of `may_update_flattened_mrights__`: an add, then a delete, each only when it has values. */
  function FlattenedChanges(attr: string, to_add: seq<Dn>, to_remove: seq<Dn>): seq<Change>
  {
    (if |to_add| > 0 then [Change(OpAdd, attr, to_add)] else []) +
    (if |to_remove| > 0 then [Change(OpDelete, attr, to_remove)] else [])
  }

  /**
   * `may_update_flattened_mrights_` and `may_update_flattened_mrights__`:
   * the flattened DNs of `direct` (made unique, the sentinel for an empty
   * `member`) against the stored ones; a modify request adds the missing
   * values and deletes the extra ones, or nothing is written.
   */
  function UpdateFlattenedSpec(cfg: LdapConfig, es: Store, id: string, m: Mright, direct: seq<Dn>): Result<Update>
  {
    var all :- FlattenedDnsSpec(cfg, es, direct);
    UpdateToFlattened(cfg, es, id, m, Uniq(all))
  }

  /** The second half of `may_update_flattened_mrights_`: bring the group's flattened attribute to `flattened`. */
  function UpdateToFlattened(cfg: LdapConfig, es: Store, id: string, m: Mright, flattened: seq<Dn>): Result<Update>
  {
    var group_dn := SgroupIdToDn(cfg, id);
    var current :- ReadFlattenedMrightRaw(cfg, es, group_dn, m);
    var wanted := WithSentinel(flattened, m);
    var to_add := RemoveValues(wanted, current);
    var to_remove := RemoveValues(current, wanted);
    var cs := FlattenedChanges(cfg.groups_flattened_attr[m], to_add, to_remove);
    // `_.compact` drops the sentinel from the log
    var log := FlattenedLog(id, m, |flattened|, RemoveValues(to_add, [""]), RemoveValues(to_remove, [""]));
    if |cs| == 0 then Ok(Update(Unchanged, es, log))
    else
      match ApplyChanges(Read(es, group_dn).value, cs)
      case Err(msg) => Err("update_flattened_mright failed on " + id + ": " + msg)
      case Ok(e) => Ok(Update(Modified, Put(es, group_dn, e), log))
  }

  lemma {:induction false} RemoveValuesNoDuplicates(vs: seq<string>, removed: seq<string>)
    requires NoDuplicates(vs)
    ensures NoDuplicates(RemoveValues(vs, removed))
  {
    if |vs| > 0 {
      assert NoDuplicates(vs[1..]) by {
        forall i, j | 0 <= i < j < |vs[1..]|
          ensures vs[1..][i] != vs[1..][j]
        {
          assert vs[1..][i] == vs[i + 1] && vs[1..][j] == vs[j + 1];
        }
      }
      RemoveValuesNoDuplicates(vs[1..], removed);
      assert vs[0] !in vs[1..] by {
        forall k | 0 <= k < |vs[1..]|
          ensures vs[1..][k] != vs[0]
        {
          assert vs[1..][k] == vs[k + 1];
        }
      }
    }
  }

  /**
   * Adding the wanted values that are missing, then deleting the stored
   * values that are not wanted, always succeeds and leaves exactly the
   * wanted values, whatever is stored.
   */
  lemma FlattenedWriteApplies(e: Entry, attr: string, wanted: seq<Dn>)
    requires NoDuplicates(wanted)
    ensures var current := Values(e, attr);
            var cs := FlattenedChanges(attr, RemoveValues(wanted, current), RemoveValues(current, wanted));
            && ApplyChanges(e, cs).Ok?
            && (forall x :: x in Values(ApplyChanges(e, cs).value, attr) <==> x in wanted)
            && (forall a :: a != attr ==> (a in ApplyChanges(e, cs).value <==> a in e) && (a in e ==> ApplyChanges(e, cs).value[a] == e[a]))
  {
    var current := Values(e, attr);
    var to_add := RemoveValues(wanted, current);
    var to_remove := RemoveValues(current, wanted);
    var cs := FlattenedChanges(attr, to_add, to_remove);
    RemoveValuesNoDuplicates(wanted, current);
    var add := Change(OpAdd, attr, to_add);
    var del := Change(OpDelete, attr, to_remove);
    var ef: Entry;
    if |to_add| > 0 {
      var e1 := ApplyChange(e, add).value;
      if |to_remove| > 0 {
        assert cs == [add, del];
        ef := ApplyChange(e1, del).value;
        assert ApplyChanges(e1, [del]) == Ok(ef) by {
          assert [del][1..] == [];
        }
        assert ApplyChanges(e, cs) == Ok(ef);
      } else {
        assert cs == [add];
        ef := e1;
        assert ApplyChanges(e, cs) == Ok(ef) by {
          assert cs[1..] == [];
        }
      }
    } else if |to_remove| > 0 {
      assert cs == [del];
      ef := ApplyChange(e, del).value;
      assert ApplyChanges(e, cs) == Ok(ef) by {
        assert cs[1..] == [];
      }
    } else {
      assert cs == [];
      ef := e;
      assert ApplyChanges(e, cs) == Ok(ef);
      forall x | x in current
        ensures x in wanted
      {
        assert x !in to_remove;
      }
    }
    assert forall x :: x in Values(ef, attr) <==> x in wanted;
  }

  /** The write of a recompute never fails: only reading the groups involved can. */
  lemma UpdateFlattenedOk(cfg: LdapConfig, es: Store, id: string, m: Mright, direct: seq<Dn>)
    ensures UpdateFlattenedSpec(cfg, es, id, m, direct).Ok? <==>
              SubgroupsReadable(cfg, es, direct) && m in cfg.groups_flattened_attr && Read(es, SgroupIdToDn(cfg, id)).Some?
  {
    FlattenedDnsMeaning(cfg, es, direct);
    if FlattenedDnsSpec(cfg, es, direct).Ok? && ReadFlattenedMrightRaw(cfg, es, SgroupIdToDn(cfg, id), m).Ok? {
      var wanted := WithSentinel(Uniq(FlattenedDnsSpec(cfg, es, direct).value), m);
      FlattenedWriteApplies(Read(es, SgroupIdToDn(cfg, id)).value, cfg.groups_flattened_attr[m], wanted);
    }
  }

  /** The values a recompute of `m` stores for the direct DNs `direct`. */
  function WantedFlattened(cfg: LdapConfig, es: Store, m: Mright, direct: seq<Dn>): Result<seq<Dn>>
  {
    var all :- FlattenedDnsSpec(cfg, es, direct);
    Ok(WithSentinel(Uniq(all), m))
  }

  lemma RemoveValuesEmpty(vs: seq<string>, removed: seq<string>)
    ensures |RemoveValues(vs, removed)| == 0 <==> forall v :: v in vs ==> v in removed
  {
    var r := RemoveValues(vs, removed);
    if |r| > 0 {
      assert r[0] in r;
    }
  }

  /**
   * After a recompute the group stores exactly the wanted values under the
   * flattened attribute of `m`, and nothing else changed. It is Unchanged
   * (and wrote nothing) iff the stored values already were the wanted ones.
   */
  lemma UpdateFlattenedResult(cfg: LdapConfig, es: Store, id: string, m: Mright, direct: seq<Dn>)
    requires m in cfg.groups_flattened_attr
    requires UpdateFlattenedSpec(cfg, es, id, m, direct).Ok?
    ensures WantedFlattened(cfg, es, m, direct).Ok? && Read(es, SgroupIdToDn(cfg, id)).Some?
    ensures var u := UpdateFlattenedSpec(cfg, es, id, m, direct).value;
            var dn := SgroupIdToDn(cfg, id);
            var attr := cfg.groups_flattened_attr[m];
            var wanted := WantedFlattened(cfg, es, m, direct).value;
            && (u.result == Unchanged <==> forall x :: x in Values(Read(es, dn).value, attr) <==> x in wanted)
            && (u.result == Unchanged ==> u.es == es)
            && Read(u.es, dn).Some?
            && (forall x :: x in Values(Read(u.es, dn).value, attr) <==> x in wanted)
            && (forall a :: a != attr ==> (a in Read(u.es, dn).value <==> a in Read(es, dn).value) &&
                                          (a in Read(es, dn).value ==> Read(u.es, dn).value[a] == Read(es, dn).value[a]))
            && (forall k :: k != dn ==> Get(u.es, k) == Get(es, k))
            && KeySet(u.es) == KeySet(es)
  {
    var all := FlattenedDnsSpec(cfg, es, direct).value;
    assert UpdateFlattenedSpec(cfg, es, id, m, direct) == UpdateToFlattened(cfg, es, id, m, Uniq(all));
    UpdateToFlattenedResult(cfg, es, id, m, Uniq(all));
  }

  /** `UpdateFlattenedResult` once the flattened DNs are known. */
  lemma UpdateToFlattenedResult(cfg: LdapConfig, es: Store, id: string, m: Mright, flattened: seq<Dn>)
    requires NoDuplicates(flattened)
    requires UpdateToFlattened(cfg, es, id, m, flattened).Ok?
    ensures m in cfg.groups_flattened_attr && Read(es, SgroupIdToDn(cfg, id)).Some?
    ensures var u := UpdateToFlattened(cfg, es, id, m, flattened).value;
            var dn := SgroupIdToDn(cfg, id);
            var attr := cfg.groups_flattened_attr[m];
            var wanted := WithSentinel(flattened, m);
            && (u.result == Unchanged <==> forall x :: x in Values(Read(es, dn).value, attr) <==> x in wanted)
            && (u.result == Unchanged ==> u.es == es)
            && Read(u.es, dn).Some?
            && (forall x :: x in Values(Read(u.es, dn).value, attr) <==> x in wanted)
            && (forall a :: a != attr ==> (a in Read(u.es, dn).value <==> a in Read(es, dn).value) &&
                                          (a in Read(es, dn).value ==> Read(u.es, dn).value[a] == Read(es, dn).value[a]))
            && (forall k :: k != dn ==> Get(u.es, k) == Get(es, k))
            && KeySet(u.es) == KeySet(es)
  {
    var dn := SgroupIdToDn(cfg, id);
    var attr := cfg.groups_flattened_attr[m];
    var wanted := WithSentinel(flattened, m);
    var e := Read(es, dn).value;
    var current := Values(e, attr);
    RemoveValuesEmpty(wanted, current);
    RemoveValuesEmpty(current, wanted);
    FlattenedWriteApplies(e, attr, wanted);
  }

  lemma {:induction false} DistinctCount(s: seq<Dn>)
    requires NoDuplicates(s)
    ensures |set x | x in s| == |s|
  {
    if |s| > 0 {
      var n := |s| - 1;
      assert NoDuplicates(s[..n]);
      DistinctCount(s[..n]);
      assert s == s[..n] + [s[n]];
      assert (set x | x in s) == (set x | x in s[..n]) + {s[n]};
      assert s[n] !in s[..n];
    }
  }

  /**
   * The log of a recompute counts the distinct flattened DNs, and lists as
   * added (removed) the wanted (stored) values that were not stored (wanted),
   * never the sentinel `""`; a `member` list without DNs is stored as `[""]`.
   */
  lemma UpdateFlattenedLog(cfg: LdapConfig, es: Store, id: string, m: Mright, direct: seq<Dn>)
    requires UpdateFlattenedSpec(cfg, es, id, m, direct).Ok?
    ensures FlattenedDnsSpec(cfg, es, direct).Ok? && WantedFlattened(cfg, es, m, direct).Ok?
    ensures ReadFlattenedMrightRaw(cfg, es, SgroupIdToDn(cfg, id), m).Ok?
    ensures var u := UpdateFlattenedSpec(cfg, es, id, m, direct).value;
            var wanted := WantedFlattened(cfg, es, m, direct).value;
            var current := ReadFlattenedMrightRaw(cfg, es, SgroupIdToDn(cfg, id), m).value;
            && u.log.id == id && u.log.mright == m
            && u.log.new_count == |set x | x in FlattenedDnsSpec(cfg, es, direct).value|
            && (forall x :: x in u.log.added <==> x in wanted && x !in current && x != "")
            && (forall x :: x in u.log.removed <==> x in current && x !in wanted && x != "")
            && (m == Member && |FlattenedDnsSpec(cfg, es, direct).value| == 0 ==> wanted == EmptySentinel)
  {
    var all := FlattenedDnsSpec(cfg, es, direct).value;
    var wanted := WantedFlattened(cfg, es, m, direct).value;
    var current := ReadFlattenedMrightRaw(cfg, es, SgroupIdToDn(cfg, id), m).value;
    UpdateFlattenedLogIs(cfg, es, id, m, direct);
    DistinctCount(Uniq(all));
    assert (set x | x in Uniq(all)) == (set x | x in all);
    if |all| == 0 {
      assert Uniq(all) == [];
    }
  }

  lemma UpdateFlattenedLogIs(cfg: LdapConfig, es: Store, id: string, m: Mright, direct: seq<Dn>)
    requires UpdateFlattenedSpec(cfg, es, id, m, direct).Ok?
    ensures FlattenedDnsSpec(cfg, es, direct).Ok? && WantedFlattened(cfg, es, m, direct).Ok?
    ensures ReadFlattenedMrightRaw(cfg, es, SgroupIdToDn(cfg, id), m).Ok?
    ensures var wanted := WantedFlattened(cfg, es, m, direct).value;
            var current := ReadFlattenedMrightRaw(cfg, es, SgroupIdToDn(cfg, id), m).value;
            UpdateFlattenedSpec(cfg, es, id, m, direct).value.log ==
              FlattenedLog(id, m, |Uniq(FlattenedDnsSpec(cfg, es, direct).value)|,
                           RemoveValues(RemoveValues(wanted, current), [""]), RemoveValues(RemoveValues(current, wanted), [""]))
  {
  }

  lemma {:induction false} SubgroupsMembersFrame(cfg: LdapConfig, es: Store, es': Store, dns: seq<Dn>)
    requires forall d :: d in dns && DnIsSgroup(cfg, d) ==> ReadFlattenedMright(cfg, es', d, Member) == ReadFlattenedMright(cfg, es, d, Member)
    ensures SubgroupsMembers(cfg, es', dns) == SubgroupsMembers(cfg, es, dns)
    decreases |dns|
  {
    if |dns| > 0 {
      var n := |dns| - 1;
      assert forall d :: d in dns[..n] ==> d in dns;
      SubgroupsMembersFrame(cfg, es, es', dns[..n]);
      assert dns[n] in dns;
    }
  }

  /**
   * A second recompute with the same direct DNs finds nothing to do, as long
   * as the group is not among its own direct DNs for an expansion that
   * reads what the first one wrote.
   */
  lemma RecomputeAgainUnchanged(cfg: LdapConfig, es: Store, id: string, m: Mright, direct: seq<Dn>)
    requires UpdateFlattenedSpec(cfg, es, id, m, direct).Ok?
    requires SgroupIdToDn(cfg, id) in direct ==>
               m != Member && Member in cfg.groups_flattened_attr && m in cfg.groups_flattened_attr &&
               cfg.groups_flattened_attr[m] != cfg.groups_flattened_attr[Member]
    ensures var u := UpdateFlattenedSpec(cfg, es, id, m, direct).value;
            && UpdateFlattenedSpec(cfg, u.es, id, m, direct).Ok?
            && UpdateFlattenedSpec(cfg, u.es, id, m, direct).value.result == Unchanged
            && UpdateFlattenedSpec(cfg, u.es, id, m, direct).value.es == u.es
  {
    UpdateFlattenedOk(cfg, es, id, m, direct);
    var u := UpdateFlattenedSpec(cfg, es, id, m, direct).value;
    var dn := SgroupIdToDn(cfg, id);
    var attr := cfg.groups_flattened_attr[m];
    UpdateFlattenedResult(cfg, es, id, m, direct);
    forall d | d in direct && DnIsSgroup(cfg, d)
      ensures ReadFlattenedMright(cfg, u.es, d, Member) == ReadFlattenedMright(cfg, es, d, Member)
    {
      if d == dn && Member in cfg.groups_flattened_attr {
        assert Values(Read(u.es, d).value, cfg.groups_flattened_attr[Member]) == Values(Read(es, d).value, cfg.groups_flattened_attr[Member]);
      }
    }
    SubgroupsMembersFrame(cfg, es, u.es, direct);
    var wanted := WantedFlattened(cfg, es, m, direct).value;
    assert WantedFlattened(cfg, u.es, m, direct) == Ok(wanted);
    assert SubgroupsReadable(cfg, u.es, direct);
    UpdateFlattenedOk(cfg, u.es, id, m, direct);
    UpdateFlattenedResult(cfg, u.es, id, m, direct);
  }

  /** `may_update_flattened_mrights__`: one modify request with the add and the delete, when there is one. */
  method WriteFlattenedDiff(dir: Directory, cfg: LdapConfig, id: string, m: Mright, to_add: seq<Dn>, to_remove: seq<Dn>)
    returns (r: Result<UpResult>)
    requires dir.Valid()
    requires m in cfg.groups_flattened_attr
    modifies dir
    ensures dir.Valid()
    ensures var cs := FlattenedChanges(cfg.groups_flattened_attr[m], to_add, to_remove);
            var dn := SgroupIdToDn(cfg, id);
            if |cs| == 0 then r == Ok(Unchanged) && dir.entries == old(dir.entries)
            else if Get(old(dir.entries), dn).None? then
              r == Err("update_flattened_mright failed on " + id + ": noSuchObject") && dir.entries == old(dir.entries)
            else if ApplyChanges(Get(old(dir.entries), dn).value, cs).Err? then
              r == Err("update_flattened_mright failed on " + id + ": " + ApplyChanges(Get(old(dir.entries), dn).value, cs).msg) &&
              dir.entries == old(dir.entries)
            else r == Ok(Modified) && dir.entries == Put(old(dir.entries), dn, ApplyChanges(Get(old(dir.entries), dn).value, cs).value)
  {
    var attr := cfg.groups_flattened_attr[m];
    var mods: seq<Change> := [];
    if |to_add| > 0 {
      mods := mods + [Change(OpAdd, attr, to_add)];
    }
    if |to_remove| > 0 {
      mods := mods + [Change(OpDelete, attr, to_remove)];
    }
    assert mods == FlattenedChanges(attr, to_add, to_remove);
    if |mods| == 0 {
      return Ok(Unchanged);
    }
    var written := dir.Modify(SgroupIdToDn(cfg, id), mods);
    if written.Fail? {
      return Err("update_flattened_mright failed on " + id + ": " + written.msg);
    }
    return Ok(Modified);
  }

  /** `may_update_flattened_mrights_` */
  method MayUpdateFlattenedMrights_(dir: Directory, cfg: LdapConfig, id: string, m: Mright, direct: seq<Dn>)
    returns (r: Result<(UpResult, FlattenedLog)>)
    requires dir.Valid()
    modifies dir
    ensures dir.Valid()
    ensures var u := UpdateFlattenedSpec(cfg, old(dir.entries), id, m, direct);
            && (u.Err? ==> r == Err(u.msg) && dir.entries == old(dir.entries))
            && (u.Ok? ==> r == Ok((u.value.result, u.value.log)) && dir.entries == u.value.es)
  {
    var all := GetFlattenedDns(dir, cfg, direct);
    if all.Err? {
      return Err(all.msg);
    }
    assert UpdateFlattenedSpec(cfg, dir.entries, id, m, direct) == UpdateToFlattened(cfg, dir.entries, id, m, Uniq(all.value));
    r := WriteFlattened(dir, cfg, id, m, Uniq(all.value));
  }

  /** Writes the difference between the group's flattened attribute and `flattened`, and logs it. */
  method WriteFlattened(dir: Directory, cfg: LdapConfig, id: string, m: Mright, flattened: seq<Dn>)
    returns (r: Result<(UpResult, FlattenedLog)>)
    requires dir.Valid()
    modifies dir
    ensures dir.Valid()
    ensures var u := UpdateToFlattened(cfg, old(dir.entries), id, m, flattened);
            && (u.Err? ==> r == Err(u.msg) && dir.entries == old(dir.entries))
            && (u.Ok? ==> r == Ok((u.value.result, u.value.log)) && dir.entries == u.value.es)
  {
    var wanted := WithSentinel(flattened, m);
    var group_dn := SgroupIdToDn(cfg, id);
    var current := ReadFlattenedMrightRaw(cfg, dir.entries, group_dn, m);
    if current.Err? {
      return Err(current.msg);
    }
    var to_add := RemoveValues(wanted, current.value);
    var to_remove := RemoveValues(current.value, wanted);
    var result := WriteFlattenedDiff(dir, cfg, id, m, to_add, to_remove);
    if result.Err? {
      return Err(result.msg);
    }
    var log := FlattenedLog(id, m, |flattened|, RemoveValues(to_add, [""]), RemoveValues(to_remove, [""]));
    return Ok((result.value, log));
  }

  /** `may_update_flattened_mrights`: the direct DNs of the group, then its flattened update. */
  function RecomputeSpec(cfg: Config, rem: Remotes, es: Store, id: string, m: Mright): Result<Update>
  {
    var direct :- DirectDns(cfg, rem, es, SgroupIdToDn(cfg.ldap, id), m);
    UpdateFlattenedSpec(cfg.ldap, es, id, m, Keys(direct))
  }

  /** `may_update_flattened_mrights` */
  method MayUpdateFlattenedMrights(dir: Directory, cfg: Config, rem: Remotes, id: string, m: Mright)
    returns (r: Result<(UpResult, FlattenedLog)>)
    requires dir.Valid()
    modifies dir
    ensures dir.Valid()
    ensures var u := RecomputeSpec(cfg, rem, old(dir.entries), id, m);
            && (u.Err? ==> r == Err(u.msg) && dir.entries == old(dir.entries))
            && (u.Ok? ==> r == Ok((u.value.result, u.value.log)) && dir.entries == u.value.es)
  {
    var group_dn := SgroupIdToDn(cfg.ldap, id);
    var direct := UrlsToDnsHandlingRemote(cfg, rem, dir, group_dn, m);
    if direct.Err? {
      return Err(direct.msg);
    }
    r := MayUpdateFlattenedMrights_(dir, cfg.ldap, id, m, Keys(direct.value));
  }

  // ---------------------------------------------------------- dependents

  /** `IdMright`: one (group, mright) pair to recompute. */
  datatype IdMright = IdMright(id: string, mright: Mright)

  /** The groups whose flattened `m` holds `group_dn`, each paired with `m`. */
  function DependentsFor(cfg: LdapConfig, es: Store, group_dn: Dn, m: Mright): Result<seq<IdMright>>
  {
    var attr :- ToFlattenedAttr(cfg, m);
    var ids :- SearchSgroupsId(cfg, es, FEq(attr, group_dn));
    Ok(WithMright(ids, m))
  }

  /** Each id paired with `m`. */
  function WithMright(ids: seq<string>, m: Mright): (r: seq<IdMright>)
    ensures |r| == |ids| && forall i :: 0 <= i < |ids| ==> r[i] == IdMright(ids[i], m)
  {
    if |ids| == 0 then [] else [IdMright(ids[0], m)] + WithMright(ids[1..], m)
  }

  /** The dependents for each mright of `ms`, in that order. */
  function DependentsOver(cfg: LdapConfig, es: Store, group_dn: Dn, ms: seq<Mright>): Result<seq<IdMright>>
    decreases |ms|
  {
    if |ms| == 0 then Ok([])
    else
      var n := |ms| - 1;
      var prev :- DependentsOver(cfg, es, group_dn, ms[..n]);
      var here :- DependentsFor(cfg, es, group_dn, ms[n]);
      Ok(prev + here)
  }

  /** What `search_groups_mrights_depending_on_this_group` returns, mright by mright in `hMright.list()` order. */
  function DependentsSpec(cfg: LdapConfig, es: Store, id: string): Result<seq<IdMright>>
  {
    DependentsOver(cfg, es, SgroupIdToDn(cfg, id), MrightList)
  }

  /** A group of the groups branch whose stored flattened `m` holds `group_dn`. */
  predicate Depends(cfg: LdapConfig, es: Store, group_dn: Dn, g: string, m: Mright)
  {
    m in cfg.groups_flattened_attr &&
    exists p :: p in es && InSubtree(p.0, cfg.groups_dn) && DnToSgroupId(cfg, p.0) == Some(g) &&
                group_dn in Values(p.1, cfg.groups_flattened_attr[m])
  }

  lemma DependentsForMeaning(cfg: LdapConfig, es: Store, group_dn: Dn, m: Mright, g: string)
    requires DependentsFor(cfg, es, group_dn, m).Ok?
    requires Read(es, cfg.groups_dn).Some?
    ensures forall one :: one in DependentsFor(cfg, es, group_dn, m).value ==> one.mright == m
    ensures IdMright(g, m) in DependentsFor(cfg, es, group_dn, m).value <==> Depends(cfg, es, group_dn, g, m)
  {
    var ids := SearchSgroupsId(cfg, es, FEq(cfg.groups_flattened_attr[m], group_dn)).value;
    var r := DependentsFor(cfg, es, group_dn, m).value;
    assert r == WithMright(ids, m);
    forall one | one in r
      ensures one.mright == m
    {
      var i :| 0 <= i < |r| && r[i] == one;
    }
    if IdMright(g, m) in r {
      DependentsForSound(cfg, es, group_dn, m, g);
    }
    if Depends(cfg, es, group_dn, g, m) {
      DependentsForComplete(cfg, es, group_dn, m, g);
    }
  }

  /** Without a size limit, the group search finds exactly the matching entries under the groups branch. */
  lemma FoundInGroups(cfg: LdapConfig, es: Store, f: Filter, p: (Dn, Entry))
    requires Read(es, cfg.groups_dn).Some?
    ensures p in SearchSgroups(cfg, es, f, None) <==> p in es && InSubtree(p.0, cfg.groups_dn) && Matches(f, p.1)
  {
  }

  /** An equality filter matches an entry holding the value. */
  lemma MatchesEq(attr: string, v: string, e: Entry)
    ensures Matches(FEq(attr, v), e) <==> v in Values(e, attr)
  {
  }

  /** A group listed as a dependent holds the DN in its flattened attribute. */
  lemma DependentsForSound(cfg: LdapConfig, es: Store, group_dn: Dn, m: Mright, g: string)
    requires DependentsFor(cfg, es, group_dn, m).Ok?
    requires Read(es, cfg.groups_dn).Some?
    requires IdMright(g, m) in DependentsFor(cfg, es, group_dn, m).value
    ensures Depends(cfg, es, group_dn, g, m)
  {
    var attr := cfg.groups_flattened_attr[m];
    var f := FEq(attr, group_dn);
    var found := SearchSgroups(cfg, es, f, None);
    var ids := SearchSgroupsId(cfg, es, f).value;
    var r := DependentsFor(cfg, es, group_dn, m).value;
    assert r == WithMright(ids, m);
    var dns := SearchSgroupsDn(cfg, es, f);
    var i :| 0 <= i < |r| && r[i] == IdMright(g, m);
    var p := found[i];
    FoundInGroups(cfg, es, f, p);
    MatchesEq(attr, group_dn, p.1);
    assert Some(ids[i]) == DnToSgroupId(cfg, dns[i]) && dns[i] == p.0;
  }

  /** A group holding the DN in its flattened attribute is listed as a dependent. */
  lemma DependentsForComplete(cfg: LdapConfig, es: Store, group_dn: Dn, m: Mright, g: string)
    requires DependentsFor(cfg, es, group_dn, m).Ok?
    requires Read(es, cfg.groups_dn).Some?
    requires Depends(cfg, es, group_dn, g, m)
    ensures IdMright(g, m) in DependentsFor(cfg, es, group_dn, m).value
  {
    var attr := cfg.groups_flattened_attr[m];
    var f := FEq(attr, group_dn);
    var found := SearchSgroups(cfg, es, f, None);
    var ids := SearchSgroupsId(cfg, es, f).value;
    var r := DependentsFor(cfg, es, group_dn, m).value;
    assert r == WithMright(ids, m);
    var dns := SearchSgroupsDn(cfg, es, f);
    var p :| p in es && InSubtree(p.0, cfg.groups_dn) && DnToSgroupId(cfg, p.0) == Some(g) && group_dn in Values(p.1, attr);
    MatchesEq(attr, group_dn, p.1);
    FoundInGroups(cfg, es, f, p);
    var i :| 0 <= i < |found| && found[i] == p;
    assert dns[i] == p.0;
    assert Some(ids[i]) == DnToSgroupId(cfg, dns[i]);
    assert r[i] == IdMright(ids[i], m);
  }

  lemma {:induction false} DependentsOverMeaning(cfg: LdapConfig, es: Store, group_dn: Dn, ms: seq<Mright>, one: IdMright)
    requires DependentsOver(cfg, es, group_dn, ms).Ok?
    requires Read(es, cfg.groups_dn).Some?
    ensures one in DependentsOver(cfg, es, group_dn, ms).value <==> one.mright in ms && Depends(cfg, es, group_dn, one.id, one.mright)
    decreases |ms|
  {
    if |ms| > 0 {
      var n := |ms| - 1;
      DependentsOverStep(cfg, es, group_dn, ms, n);
      assert ms[..n + 1] == ms;
      var prev := DependentsOver(cfg, es, group_dn, ms[..n]).value;
      var here := DependentsFor(cfg, es, group_dn, ms[n]).value;
      assert DependentsOver(cfg, es, group_dn, ms).value == prev + here;
      DependentsOverMeaning(cfg, es, group_dn, ms[..n], one);
      DependentsForMeaning(cfg, es, group_dn, ms[n], one.id);
      assert forall x :: x in ms <==> x in ms[..n] || x == ms[n];
      assert one in here <==> one.mright == ms[n] && Depends(cfg, es, group_dn, one.id, one.mright) by {
        if one in here {
          assert one == IdMright(one.id, ms[n]);
        }
      }
    }
  }

  /**
   * `search_groups_mrights_depending_on_this_group` finds `(g, m)` exactly
   * when the stored flattened `m` of group `g` holds the DN of `id`.
   */
  lemma DependentsMeaning(cfg: LdapConfig, es: Store, id: string, one: IdMright)
    requires DependentsSpec(cfg, es, id).Ok?
    requires Read(es, cfg.groups_dn).Some?
    ensures one in DependentsSpec(cfg, es, id).value <==> Depends(cfg, es, SgroupIdToDn(cfg, id), one.id, one.mright)
  {
    DependentsOverMeaning(cfg, es, SgroupIdToDn(cfg, id), MrightList, one);
    assert one.mright in MrightList by {
      match one.mright
      case Member => assert MrightList[0] == Member;
      case Reader => assert MrightList[1] == Reader;
      case Updater => assert MrightList[2] == Updater;
      case Admin => assert MrightList[3] == Admin;
    }
  }

  lemma {:induction false} DependentsOverErrSticks(cfg: LdapConfig, es: Store, group_dn: Dn, ms: seq<Mright>, i: nat)
    requires i <= |ms| && DependentsOver(cfg, es, group_dn, ms[..i]).Err?
    ensures DependentsOver(cfg, es, group_dn, ms) == Err(DependentsOver(cfg, es, group_dn, ms[..i]).msg)
    decreases |ms| - i
  {
    if i < |ms| {
      assert ms[..i + 1][..i] == ms[..i];
      DependentsOverErrSticks(cfg, es, group_dn, ms, i + 1);
    } else {
      assert ms[..i] == ms;
    }
  }

  lemma DependentsOverStep(cfg: LdapConfig, es: Store, group_dn: Dn, ms: seq<Mright>, k: nat)
    requires k < |ms|
    ensures DependentsOver(cfg, es, group_dn, ms[..k + 1]) ==
              match DependentsOver(cfg, es, group_dn, ms[..k])
              case Err(msg) => Err(msg)
              case Ok(prev) =>
                match DependentsFor(cfg, es, group_dn, ms[k])
                case Err(msg) => Err(msg)
                case Ok(here) => Ok(prev + here)
  {
    assert ms[..k + 1][..k] == ms[..k];
  }

  /** `r.push({ id, mright })` for each id, in order. */
  method PushAll(acc: seq<IdMright>, ids: seq<string>, m: Mright) returns (r: seq<IdMright>)
    ensures r == acc + WithMright(ids, m)
  {
    r := acc;
    var j := 0;
    while j < |ids|
      invariant 0 <= j <= |ids|
      invariant |r| == |acc| + j
      invariant r[..|acc|] == acc
      invariant forall i :: 0 <= i < j ==> r[|acc| + i] == IdMright(ids[i], m)
    {
      r := r + [IdMright(ids[j], m)];
      j := j + 1;
    }
    assert r[|acc|..] == WithMright(ids, m);
    assert r == acc + r[|acc|..];
  }

  /** `search_groups_mrights_depending_on_this_group` */
  method SearchGroupsMrightsDependingOnThisGroup(dir: Directory, cfg: LdapConfig, id: string) returns (r: Result<seq<IdMright>>)
    ensures r == DependentsSpec(cfg, dir.entries, id)
  {
    var group_dn := SgroupIdToDn(cfg, id);
    var acc: seq<IdMright> := [];
    var k := 0;
    while k < |MrightList|
      invariant 0 <= k <= |MrightList|
      invariant DependentsOver(cfg, dir.entries, group_dn, MrightList[..k]) == Ok(acc)
    {
      var m := MrightList[k];
      DependentsOverStep(cfg, dir.entries, group_dn, MrightList, k);
      var attr := ToFlattenedAttr(cfg, m);
      if attr.Err? {
        DependentsOverErrSticks(cfg, dir.entries, group_dn, MrightList, k + 1);
        return Err(attr.msg);
      }
      var ids := SearchSgroupsId(cfg, dir.entries, FEq(attr.value, group_dn));
      if ids.Err? {
        DependentsOverErrSticks(cfg, dir.entries, group_dn, MrightList, k + 1);
        return Err(ids.msg);
      }
      acc := PushAll(acc, ids.value, m);
      k := k + 1;
    }
    assert MrightList[..k] == MrightList;
    return Ok(acc);
  }

  lemma GroupDnInBranch(cfg: LdapConfig, g: string)
    requires RootId(cfg) == ""
    ensures InSubtree(SgroupIdToDn(cfg, g), cfg.groups_dn)
    ensures DnToSgroupId(cfg, SgroupIdToDn(cfg, g)) == Some(g)
  {
    SgroupIdDnRoundTrip(cfg, g);
    if g != "" {
      var dn := SgroupIdToDn(cfg, g);
      assert dn == ("cn=" + g) + ("," + cfg.groups_dn);
      assert dn[|dn| - |"," + cfg.groups_dn|..] == "," + cfg.groups_dn;
    }
  }

  /**
   * Dependents can be found through the flattened attributes because a
   * flattened set holds the direct DNs: once `(g, m)` is recomputed, a group
   * among the direct DNs of `g` has `(g, m)` among its dependents.
   */
  lemma RecomputedGroupIsDependent(cfg: Config, rem: Remotes, es: Store, g: string, m: Mright, x_id: string)
    requires RootId(cfg.ldap) == ""
    requires Read(es, cfg.ldap.groups_dn).Some?
    requires RecomputeSpec(cfg, rem, es, g, m).Ok?
    requires DirectDns(cfg, rem, es, SgroupIdToDn(cfg.ldap, g), m).Ok?
    requires SgroupIdToDn(cfg.ldap, x_id) in KeySet(DirectDns(cfg, rem, es, SgroupIdToDn(cfg.ldap, g), m).value)
    ensures var es' := RecomputeSpec(cfg, rem, es, g, m).value.es;
            DependentsSpec(cfg.ldap, es', x_id).Ok? ==> IdMright(g, m) in DependentsSpec(cfg.ldap, es', x_id).value
  {
    var direct := Keys(DirectDns(cfg, rem, es, SgroupIdToDn(cfg.ldap, g), m).value);
    var x := SgroupIdToDn(cfg.ldap, x_id);
    var dn := SgroupIdToDn(cfg.ldap, g);
    KeySetIndex(DirectDns(cfg, rem, es, dn, m).value, x);
    assert x in direct;
    UpdateFlattenedOk(cfg.ldap, es, g, m, direct);
    UpdateFlattenedResult(cfg.ldap, es, g, m, direct);
    FlattenedDnsMeaning(cfg.ldap, es, direct);
    var u := UpdateFlattenedSpec(cfg.ldap, es, g, m, direct).value;
    assert x in WantedFlattened(cfg.ldap, es, m, direct).value;
    var e' := Read(u.es, dn).value;
    assert (dn, e') in u.es;
    GroupDnInBranch(cfg.ldap, g);
    assert Depends(cfg.ldap, u.es, x, g, m);
    KeySetIndex(u.es, cfg.ldap.groups_dn);
    if DependentsSpec(cfg.ldap, u.es, x_id).Ok? {
      DependentsMeaning(cfg.ldap, u.es, x_id, IdMright(g, m));
    }
  }

  // --------------------------------------------------------- propagation

  /**
   * How a propagation ends: with an empty worklist, with an error (the
   * directory keeps the writes done before it), or, in this model only,
   * with the fuel spent and the items still to do.
   */
  datatype Stop = Done | Failed(msg: string) | OutOfFuel(left: seq<IdMright>)

  /** A propagation: the directory after it, the items recomputed in order, their logs, how it ended. */
  datatype Propagation = Propagation(es: Store, trace: seq<IdMright>, logs: seq<FlattenedLog>, stop: Stop)

  /** Recomputing one item on a directory. */
  type Recompute = (Store, IdMright) -> Result<Update>

  /** Finding the items that depend on a group, on a directory. */
  type FindDependents = (Store, string) -> Result<seq<IdMright>>

  /** `may_update_flattened_mrights` as a value. */
  function Recomputer(cfg: Config, rem: Remotes): Recompute
  {
    (es: Store, one: IdMright) => RecomputeItem(cfg, rem, es, one)
  }

  /** `search_groups_mrights_depending_on_this_group` as a value. */
  function DependentsFinder(cfg: LdapConfig): FindDependents
  {
    (es: Store, id: string) => DependentsSpec(cfg, es, id)
  }

  /**
   * The worklist loop of `may_update_flattened_mrights_rec`, first in first
   * out: a `member` recompute that wrote appends the dependents of its
   * group. At most `fuel` items are recomputed.
   */
  function PropagateWith(recompute: Recompute, dependents: FindDependents, es: Store, todo: seq<IdMright>, fuel: nat): Propagation
    decreases fuel
  {
    if |todo| == 0 then Propagation(es, [], [], Done)
    else if fuel == 0 then Propagation(es, [], [], OutOfFuel(todo))
    else
      var one := todo[0];
      match recompute(es, one)
      case Err(msg) => Propagation(es, [], [], Failed(msg))
      case Ok(u) =>
        var more := if one.mright == Member && u.result == Modified then dependents(u.es, one.id) else Ok([]);
        match more
        case Err(msg) => Propagation(u.es, [one], [u.log], Failed(msg))
        case Ok(deps) =>
          var rest := PropagateWith(recompute, dependents, u.es, todo[1..] + deps, fuel - 1);
          Propagation(rest.es, [one] + rest.trace, [u.log] + rest.logs, rest.stop)
  }

  /** `may_update_flattened_mrights_rec` */
  function PropagateSpec(cfg: Config, rem: Remotes, es: Store, todo: seq<IdMright>, fuel: nat): Propagation
  {
    PropagateWith(Recomputer(cfg, rem), DependentsFinder(cfg.ldap), es, todo, fuel)
  }

  /** The items in the order they were recomputed, and the directory they leave, put before a propagation. */
  function After(trace: seq<IdMright>, logs: seq<FlattenedLog>, p: Propagation): Propagation
  {
    Propagation(p.es, trace + p.trace, logs + p.logs, p.stop)
  }

  lemma PropagateStops(recompute: Recompute, dependents: FindDependents, es: Store, todo: seq<IdMright>, fuel: nat)
    requires |todo| == 0 || fuel == 0
    ensures PropagateWith(recompute, dependents, es, todo, fuel) == Propagation(es, [], [], if |todo| == 0 then Done else OutOfFuel(todo))
  {
  }

  lemma PropagateStepFails(recompute: Recompute, dependents: FindDependents, es: Store, todo: seq<IdMright>, fuel: nat, msg: string)
    requires |todo| > 0 && fuel > 0 && recompute(es, todo[0]) == Err(msg)
    ensures PropagateWith(recompute, dependents, es, todo, fuel) == Propagation(es, [], [], Failed(msg))
  {
  }

  lemma PropagateStepDependentsFail(recompute: Recompute, dependents: FindDependents, es: Store, todo: seq<IdMright>, fuel: nat, u: Update, msg: string)
    requires |todo| > 0 && fuel > 0 && recompute(es, todo[0]) == Ok(u)
    requires todo[0].mright == Member && u.result == Modified && dependents(u.es, todo[0].id) == Err(msg)
    ensures PropagateWith(recompute, dependents, es, todo, fuel) == After([todo[0]], [u.log], Propagation(u.es, [], [], Failed(msg)))
  {
  }

  lemma PropagateStep(recompute: Recompute, dependents: FindDependents, es: Store, todo: seq<IdMright>, fuel: nat, u: Update, deps: seq<IdMright>)
    requires |todo| > 0 && fuel > 0 && recompute(es, todo[0]) == Ok(u)
    requires (if todo[0].mright == Member && u.result == Modified then dependents(u.es, todo[0].id) else Ok([])) == Ok(deps)
    ensures PropagateWith(recompute, dependents, es, todo, fuel) ==
              After([todo[0]], [u.log], PropagateWith(recompute, dependents, u.es, todo[1..] + deps, fuel - 1))
  {
  }

  lemma AfterAfter(trace: seq<IdMright>, logs: seq<FlattenedLog>, trace': seq<IdMright>, logs': seq<FlattenedLog>, p: Propagation)
    ensures After(trace, logs, After(trace', logs', p)) == After(trace + trace', logs + logs', p)
  {
    assert trace + (trace' + p.trace) == (trace + trace') + p.trace;
    assert logs + (logs' + p.logs) == (logs + logs') + p.logs;
  }

  /** A turn that recomputed `one` extends the trace and the logs kept before the rest of the propagation. */
  lemma AfterTurn(whole: Propagation, trace: seq<IdMright>, logs: seq<FlattenedLog>, before: Propagation,
                  one: IdMright, log: FlattenedLog, rest: Propagation)
    requires whole == After(trace, logs, before) && before == After([one], [log], rest)
    ensures whole == After(trace + [one], logs + [log], rest)
  {
    AfterAfter(trace, logs, [one], [log], rest);
  }

  /** One turn of the worklist loop: the propagation stops here, or goes on with `todo` after recomputing `one`. */
  datatype Turn = GoOn(one: IdMright, log: FlattenedLog, todo: seq<IdMright>) | Halt(p: Propagation)

  /** `may_update_flattened_mrights` on one item. */
  function RecomputeItem(cfg: Config, rem: Remotes, es: Store, one: IdMright): Result<Update>
  {
    RecomputeSpec(cfg, rem, es, one.id, one.mright)
  }

  /**
   * `recompute` and `dependents` are those of the system. (The equations are
   * used only where a recompute or a dependents search is spelled out, which
   * keeps the worklist reasoning apart from what one recompute does.)
   */
  ghost predicate IsEngine(recompute: Recompute, dependents: FindDependents, cfg: Config, rem: Remotes)
  {
    && (forall es: Store, one: IdMright {:trigger RecomputeItem(cfg, rem, es, one)} :: recompute(es, one) == RecomputeItem(cfg, rem, es, one))
    && (forall es: Store, id: string {:trigger DependentsSpec(cfg.ldap, es, id)} :: dependents(es, id) == DependentsSpec(cfg.ldap, es, id))
  }

  /** One turn of `may_update_flattened_mrights_rec`: recompute the first item, queue the dependents of a written `member`. */
  method PropagateTurn(dir: Directory, cfg: Config, rem: Remotes, ghost recompute: Recompute, ghost dependents: FindDependents,
                       todo: seq<IdMright>, left: nat, ghost rest: Propagation) returns (t: Turn, ghost next: Propagation)
    requires dir.Valid() && |todo| > 0 && left > 0
    requires IsEngine(recompute, dependents, cfg, rem)
    requires rest == PropagateWith(recompute, dependents, dir.entries, todo, left)
    modifies dir
    ensures dir.Valid()
    ensures t.Halt? ==> rest == t.p && t.p.es == dir.entries
    ensures t.GoOn? ==> next == PropagateWith(recompute, dependents, dir.entries, t.todo, left - 1) && rest == After([t.one], [t.log], next)
  {
    var one := todo[0];
    ghost var es := dir.entries;
    var result := MayUpdateFlattenedMrights(dir, cfg, rem, one.id, one.mright);
    assert recompute(es, one) == RecomputeItem(cfg, rem, es, one);
    if result.Err? {
      PropagateStepFails(recompute, dependents, es, todo, left, result.msg);
      return Halt(Propagation(dir.entries, [], [], Failed(result.msg))), rest;
    }
    ghost var u := Update(result.value.0, dir.entries, result.value.1);
    var deps: seq<IdMright> := [];
    if one.mright == Member && result.value.0 == Modified {
      var found := SearchGroupsMrightsDependingOnThisGroup(dir, cfg.ldap, one.id);
      assert dependents(u.es, one.id) == DependentsSpec(cfg.ldap, u.es, one.id);
      if found.Err? {
        PropagateStepDependentsFail(recompute, dependents, es, todo, left, u, found.msg);
        return Halt(After([one], [result.value.1], Propagation(dir.entries, [], [], Failed(found.msg)))), rest;
      }
      deps := found.value;
    }
    PropagateStep(recompute, dependents, es, todo, left, u, deps);
    return GoOn(one, result.value.1, todo[1..] + deps), PropagateWith(recompute, dependents, dir.entries, todo[1..] + deps, left - 1);
  }

  /** Where the worklist loop stands after a turn: it goes on with the trace so far and `todo`, or it is over with `p`. */
  datatype Progress = Continue(trace: seq<IdMright>, logs: seq<FlattenedLog>, todo: seq<IdMright>) | Finished(p: Propagation)

  /**
   * A turn of the loop with what it has recomputed so far: stop on an empty
   * worklist or when the fuel is spent, else take one turn and record it.
   */
  method PropagateAdvance(dir: Directory, cfg: Config, rem: Remotes, ghost recompute: Recompute, ghost dependents: FindDependents,
                          todo: seq<IdMright>, left: nat, trace: seq<IdMright>, logs: seq<FlattenedLog>,
                          ghost whole: Propagation, ghost rest: Propagation) returns (s: Progress, ghost next: Propagation)
    requires dir.Valid()
    requires IsEngine(recompute, dependents, cfg, rem)
    requires rest == PropagateWith(recompute, dependents, dir.entries, todo, left)
    requires whole == After(trace, logs, rest)
    modifies dir
    ensures dir.Valid()
    ensures s.Finished? ==> s.p == whole && s.p.es == dir.entries
    ensures s.Continue? ==> left > 0 && next == PropagateWith(recompute, dependents, dir.entries, s.todo, left - 1) &&
                            whole == After(s.trace, s.logs, next)
  {
    if |todo| == 0 || left == 0 {
      PropagateStops(recompute, dependents, dir.entries, todo, left);
      return Finished(After(trace, logs, Propagation(dir.entries, [], [], if |todo| == 0 then Done else OutOfFuel(todo)))), rest;
    }
    var t, after_one := PropagateTurn(dir, cfg, rem, recompute, dependents, todo, left, rest);
    if t.Halt? {
      return Finished(After(trace, logs, t.p)), rest;
    }
    AfterTurn(whole, trace, logs, rest, t.one, t.log, after_one);
    return Continue(trace + [t.one], logs + [t.log], t.todo), after_one;
  }

  /** The worklist loop, for the system's `recompute` and `dependents`. */
  method PropagateLoop(dir: Directory, cfg: Config, rem: Remotes, ghost recompute: Recompute, ghost dependents: FindDependents,
                       todo0: seq<IdMright>, fuel: nat) returns (p: Propagation)
    requires dir.Valid()
    requires IsEngine(recompute, dependents, cfg, rem)
    modifies dir
    ensures dir.Valid()
    ensures p == PropagateWith(recompute, dependents, old(dir.entries), todo0, fuel) && dir.entries == p.es
  {
    var todo := todo0;
    var trace: seq<IdMright> := [];
    var logs: seq<FlattenedLog> := [];
    var left := fuel;
    ghost var whole := PropagateWith(recompute, dependents, dir.entries, todo0, fuel);
    ghost var rest := whole;
    while true
      invariant dir.Valid()
      invariant rest == PropagateWith(recompute, dependents, dir.entries, todo, left)
      invariant whole == After(trace, logs, rest)
      decreases left
    {
      var s, next := PropagateAdvance(dir, cfg, rem, recompute, dependents, todo, left, trace, logs, whole, rest);
      if s.Finished? {
        return s.p;
      }
      rest := next;
      trace := s.trace;
      logs := s.logs;
      todo := s.todo;
      left := left - 1;
    }
  }

  /** `may_update_flattened_mrights_rec` */
  method MayUpdateFlattenedMrightsRec(dir: Directory, cfg: Config, rem: Remotes, todo: seq<IdMright>, fuel: nat)
    returns (p: Propagation)
    requires dir.Valid()
    modifies dir
    ensures dir.Valid()
    ensures p == PropagateSpec(cfg, rem, old(dir.entries), todo, fuel) && dir.entries == p.es
  {
    p := PropagateLoop(dir, cfg, rem, Recomputer(cfg, rem), DependentsFinder(cfg.ldap), todo, fuel);
  }

  /**
   * First in, first out: the items of the worklist are recomputed before
   * anything they enqueue, in their order, and a propagation that ends
   * normally has recomputed all of them.
   */
  lemma {:induction false} PropagateSeedFirst(recompute: Recompute, dependents: FindDependents, es: Store, todo: seq<IdMright>, fuel: nat)
    ensures var p := PropagateWith(recompute, dependents, es, todo, fuel);
            forall i :: 0 <= i < |todo| && i < |p.trace| ==> p.trace[i] == todo[i]
    ensures var p := PropagateWith(recompute, dependents, es, todo, fuel);
            p.stop.Done? ==> |p.trace| >= |todo|
    decreases fuel
  {
    if |todo| > 0 && fuel > 0 {
      var one := todo[0];
      match recompute(es, one)
      case Err(_) =>
      case Ok(u) =>
        var more := if one.mright == Member && u.result == Modified then dependents(u.es, one.id) else Ok([]);
        match more
        case Err(_) =>
        case Ok(deps) =>
          var next := todo[1..] + deps;
          PropagateSeedFirst(recompute, dependents, u.es, next, fuel - 1);
          var rest := PropagateWith(recompute, dependents, u.es, next, fuel - 1);
          assert PropagateWith(recompute, dependents, es, todo, fuel).trace == [one] + rest.trace;
          forall i | 1 <= i < |todo| && i - 1 < |rest.trace|
            ensures rest.trace[i - 1] == todo[i]
          {
            assert next[i - 1] == todo[i];
          }
    }
  }

  /**
   * Only a written `member` enqueues anything: a worklist of rights is
   * recomputed item by item, nothing more, and entirely unless it stops early.
   */
  lemma {:induction false} RightsEnqueueNothing(recompute: Recompute, dependents: FindDependents, es: Store, todo: seq<IdMright>, fuel: nat)
    requires forall i :: 0 <= i < |todo| ==> todo[i].mright != Member
    ensures var p := PropagateWith(recompute, dependents, es, todo, fuel);
            && p.trace <= todo
            && (p.stop.Done? ==> p.trace == todo)
            && (p.stop.OutOfFuel? ==> |todo| > fuel)
    decreases fuel
  {
    if |todo| > 0 && fuel > 0 {
      var one := todo[0];
      match recompute(es, one)
      case Err(_) =>
      case Ok(u) =>
        assert todo[1..] + [] == todo[1..];
        RightsEnqueueNothing(recompute, dependents, u.es, todo[1..], fuel - 1);
        assert todo == [one] + todo[1..];
    }
  }

  /** A recompute that writes nothing enqueues nothing. */
  lemma UnchangedEnqueuesNothing(cfg: Config, rem: Remotes, es: Store, todo: seq<IdMright>, fuel: nat)
    requires |todo| > 0 && fuel > 0
    requires RecomputeSpec(cfg, rem, es, todo[0].id, todo[0].mright).Ok?
    requires RecomputeSpec(cfg, rem, es, todo[0].id, todo[0].mright).value.result == Unchanged
    ensures var u := RecomputeSpec(cfg, rem, es, todo[0].id, todo[0].mright).value;
            PropagateSpec(cfg, rem, es, todo, fuel) == After([todo[0]], [u.log], PropagateSpec(cfg, rem, es, todo[1..], fuel - 1))
  {
    var u := RecomputeSpec(cfg, rem, es, todo[0].id, todo[0].mright).value;
    assert todo[1..] + [] == todo[1..];
    UpdateFlattenedResultUnchanged(cfg, rem, es, todo[0].id, todo[0].mright);
    PropagateStep(Recomputer(cfg, rem), DependentsFinder(cfg.ldap), es, todo, fuel, u, []);
  }

  lemma UpdateFlattenedResultUnchanged(cfg: Config, rem: Remotes, es: Store, id: string, m: Mright)
    requires RecomputeSpec(cfg, rem, es, id, m).Ok? && RecomputeSpec(cfg, rem, es, id, m).value.result == Unchanged
    ensures RecomputeSpec(cfg, rem, es, id, m).value.es == es
  {
    var direct := DirectDns(cfg, rem, es, SgroupIdToDn(cfg.ldap, id), m).value;
    UpdateFlattenedOk(cfg.ldap, es, id, m, Keys(direct));
    UpdateFlattenedResult(cfg.ldap, es, id, m, Keys(direct));
  }

  // ------------------------------------------------ the write operations

  /**
   * The read-right and non-recursion check of api_post.ts:275-294 for a
   * user, an edited group, its edits and the directory.
   */
  type SubjectsCheck = (string, string, MyMods, Store) -> Outcome

  /**
   * The checks of `modify_members_or_rights` before any write, in order: the
   * id, the right the edits need, the group for a `member` edit (read by
   * `may_check_member_ttl`), the subjects, then `check_and_simplify_mods`.
   */
  function CheckedMods(cfg: LdapConfig, es: Store, subjects_ok: SubjectsCheck, logged_user: LoggedUser, id: string, my_mods: MyMods): Result<MyMods>
    requires StemSeparator(cfg) != ""
  {
    if !ValidSgroupId(id, StemSeparator(cfg), RootId(cfg)) then Err("invalid sgroup id")
    else
      var allowed := CheckRightOnSelfOrAnyParents(cfg, es, logged_user, id, MyModsToRight(my_mods));
      if allowed.Fail? then Err(allowed.msg)
      else if Get(my_mods, Member).Some? && ReadSgroup(cfg, es, id).None? then Err(InternalError)
      else
        var subjects := if logged_user.TrustedAdmin? then Pass else subjects_ok(logged_user.user, id, my_mods, es);
        if subjects.Fail? then Err(subjects.msg)
        else CheckAndSimplifySpec(cfg, es, IsStem(id, RootId(cfg)), id, my_mods)
  }

  /** What `modify_direct_members_or_rights` leaves in the directory. */
  function DirectWrite(cfg: LdapConfig, es: Store, id: string, my_mods: MyMods): Result<Store>
  {
    var dn := SgroupIdToDn(cfg, id);
    if IsStem(id, RootId(cfg)) && Get(my_mods, Member).Some? then Err("Member not allowed for stems")
    else if Get(es, dn).None? then Err("noSuchObject")
    else
      var e :- ApplyChanges(Get(es, dn).value, ToLdapModsSpec(my_mods));
      Ok(Put(es, dn, e))
  }

  /** The worklist of an edit: the group with each edited mright, in the order of the edits. */
  function TodoOf(id: string, my_mods: MyMods): (r: seq<IdMright>)
    ensures |r| == |my_mods| && forall i :: 0 <= i < |my_mods| ==> r[i] == IdMright(id, my_mods[i].0)
  {
    if |my_mods| == 0 then [] else [IdMright(id, my_mods[0].0)] + TodoOf(id, my_mods[1..])
  }

  // ------------------------------------------------------- action log

  /** The data of an action log line: the edits, the attributes before a delete, or the remote query set. */
  datatype ActionData = ModsData(mods: MyMods) | AttrsData(attrs: MonoAttrs) | RemoteData(remote: Option<RemoteQuery>)

  /** What `log_sgroup_action` receives after a write (its clock reading is not modelled). */
  datatype ActionLog = ActionLog(who: LoggedUser, id: string, action: string, msg: Option<string>, data: ActionData)

  /** The checks of `modify_members_or_rights`, run against the directory; nothing is written. */
  method CheckMods(dir: Directory, cfg: LdapConfig, subjects_ok: SubjectsCheck, logged_user: LoggedUser, id: string, my_mods: MyMods)
    returns (r: Result<MyMods>)
    requires dir.Valid() && StemSeparator(cfg) != ""
    ensures r == CheckedMods(cfg, dir.entries, subjects_ok, logged_user, id, my_mods)
  {
    var valid := ValidateSgroupId(id, StemSeparator(cfg), RootId(cfg));
    if valid.Fail? {
      return Err(valid.msg);
    }
    var allowed := CheckRightOnSelfOrAnyParents(cfg, dir.entries, logged_user, id, MyModsToRight(my_mods));
    if allowed.Fail? {
      return Err(allowed.msg);
    }
    // may_check_member_ttl: its TTL check is commented out in the source, only the read remains
    if Get(my_mods, Member).Some? && ReadSgroup(cfg, dir.entries, id).None? {
      return Err(InternalError);
    }
    if logged_user.User? {
      var subjects := subjects_ok(logged_user.user, id, my_mods, dir.entries);
      if subjects.Fail? {
        return Err(subjects.msg);
      }
    }
    r := CheckAndSimplifyMods(dir, cfg, IsStem(id, RootId(cfg)), id, my_mods);
  }

  /**
   * `modify_members_or_rights`: refused without a write when a check fails;
   * nothing written when the edits simplify to nothing; otherwise one write
   * of the direct mrights, then the propagation from each edited mright.
   */
  method ModifyMembersOrRights(dir: Directory, cfg: Config, rem: Remotes, subjects_ok: SubjectsCheck, logged_user: LoggedUser,
                               id: string, my_mods: MyMods, msg: Option<string>, fuel: nat)
    returns (r: Result<Propagation>, log: Option<ActionLog>)
    requires dir.Valid() && StemSeparator(cfg.ldap) != ""
    modifies dir
    ensures dir.Valid()
    ensures var checked := CheckedMods(cfg.ldap, old(dir.entries), subjects_ok, logged_user, id, my_mods);
            && (checked.Err? ==> r == Err(checked.msg) && dir.entries == old(dir.entries))
            && (checked.Ok? && |checked.value| == 0 ==> r == Ok(Propagation(old(dir.entries), [], [], Done)) && dir.entries == old(dir.entries))
            && (checked.Ok? && |checked.value| > 0 ==>
                  var written := DirectWrite(cfg.ldap, old(dir.entries), id, checked.value);
                  && (written.Err? ==> r.Err? && dir.entries == old(dir.entries))
                  && (written.Ok? ==> r == Ok(PropagateSpec(cfg, rem, written.value, TodoOf(id, checked.value), fuel)) && dir.entries == r.value.es))
    ensures var checked := CheckedMods(cfg.ldap, old(dir.entries), subjects_ok, logged_user, id, my_mods);
            && (log.Some? <==> checked.Ok? && |checked.value| > 0 && DirectWrite(cfg.ldap, old(dir.entries), id, checked.value).Ok?)
            && (log.Some? ==> log.value == ActionLog(logged_user, id, "modify_members_or_rights", msg, ModsData(checked.value)))
  {
    log := None;
    var my_mods_ := CheckMods(dir, cfg.ldap, subjects_ok, logged_user, id, my_mods);
    if my_mods_.Err? {
      return Err(my_mods_.msg), None;
    }
    if |my_mods_.value| == 0 {
      return Ok(Propagation(dir.entries, [], [], Done)), None;
    }
    r := WriteAndPropagate(dir, cfg, rem, id, my_mods_.value, fuel);
    if r.Ok? {
      log := Some(ActionLog(logged_user, id, "modify_members_or_rights", msg, ModsData(my_mods_.value)));
    }
  }

  /** The write of the checked edits, then the propagation from each edited mright. */
  method WriteAndPropagate(dir: Directory, cfg: Config, rem: Remotes, id: string, my_mods: MyMods, fuel: nat)
    returns (r: Result<Propagation>)
    requires dir.Valid()
    modifies dir
    ensures dir.Valid()
    ensures var written := DirectWrite(cfg.ldap, old(dir.entries), id, my_mods);
            && (written.Err? ==> r.Err? && dir.entries == old(dir.entries))
            && (written.Ok? ==> r == Ok(PropagateSpec(cfg, rem, written.value, TodoOf(id, my_mods), fuel)) && dir.entries == r.value.es)
  {
    var written := ModifyDirectMembersOrRights(dir, cfg.ldap, id, my_mods);
    if written.Fail? {
      return Err(written.msg);
    }
    var todo := MapToArray(my_mods, (_: SubMods, m: Mright) => IdMright(id, m));
    assert todo == TodoOf(id, my_mods);
    var p := MayUpdateFlattenedMrightsRec(dir, cfg, rem, todo, fuel);
    return Ok(p);
  }

  /**
   * Edits of `member` and `reader` only need `updater`; as soon as an
   * `updater` or `admin` edit is among them, `admin` is needed.
   */
  lemma ModifyNeedsRight(cfg: LdapConfig, es: Store, subjects_ok: SubjectsCheck, logged_user: LoggedUser, id: string, my_mods: MyMods)
    requires StemSeparator(cfg) != ""
    requires CheckedMods(cfg, es, subjects_ok, logged_user, id, my_mods).Ok?
    ensures ValidSgroupId(id, StemSeparator(cfg), RootId(cfg))
    ensures (forall i :: 0 <= i < |my_mods| ==> my_mods[i].0 == Reader || my_mods[i].0 == Member) ==>
              CheckRightOnSelfOrAnyParents(cfg, es, logged_user, id, Updater).Pass?
    ensures (exists i :: 0 <= i < |my_mods| && (my_mods[i].0 == Updater || my_mods[i].0 == Admin)) ==>
              CheckRightOnSelfOrAnyParents(cfg, es, logged_user, id, Admin).Pass?
  {
    CheckedModsAllowed(cfg, es, subjects_ok, logged_user, id, my_mods);
  }

  /** Checked edits passed the id check and the right check for the right they need. */
  lemma CheckedModsAllowed(cfg: LdapConfig, es: Store, subjects_ok: SubjectsCheck, logged_user: LoggedUser, id: string, my_mods: MyMods)
    requires StemSeparator(cfg) != ""
    requires CheckedMods(cfg, es, subjects_ok, logged_user, id, my_mods).Ok?
    ensures ValidSgroupId(id, StemSeparator(cfg), RootId(cfg))
    ensures CheckRightOnSelfOrAnyParents(cfg, es, logged_user, id, MyModsToRight(my_mods)).Pass?
  {
  }

  /** A `member` edit on a stem is refused, and nothing is written. */
  lemma StemMemberEditRejected(cfg: LdapConfig, es: Store, subjects_ok: SubjectsCheck, logged_user: LoggedUser, id: string, my_mods: MyMods)
    requires StemSeparator(cfg) != ""
    requires IsStem(id, RootId(cfg)) && Member in KeySet(my_mods)
    ensures CheckedMods(cfg, es, subjects_ok, logged_user, id, my_mods).Err?
  {
    StemMemberEditFails(cfg, es, id, my_mods);
  }

  /** The groups of the groups branch that are children of `id` for `sgroup_children`. */
  predicate HasChildren(cfg: LdapConfig, es: Store, id: string)
  {
    Read(es, cfg.groups_dn).Some? &&
    exists p :: p in es && InSubtree(p.0, cfg.groups_dn) && "cn" in p.1 &&
                (exists v :: v in p.1["cn"] && id <= v) && (id != "" ==> id !in p.1["cn"])
  }

  /** `one_group_matches_filter(sgroup_children(id))` holds exactly when `id` has children. */
  lemma ChildrenSearchMeaning(cfg: LdapConfig, es: Store, id: string)
    ensures OneGroupMatchesFilter(cfg, es, SgroupChildrenF(id)) <==> HasChildren(cfg, es, id)
  {
    OneGroupMatchesFilterMeaning(cfg, es, SgroupChildrenF(id));
    forall p | p in es
      ensures Matches(SgroupChildrenF(id), p.1) <==>
                "cn" in p.1 && (exists v :: v in p.1["cn"] && id <= v) && (id != "" ==> id !in p.1["cn"])
    {
      SgroupChildrenMeaning(id, p.1);
    }
  }

  /** `current_sgroup_attrs`: the configured attributes of the group, single-valued. */
  function CurrentSgroupAttrs(cfg: LdapConfig, e: Entry): MonoAttrs
  {
    MonoAttrsOf(LdapSubject.RawEntry(e), cfg.sgroup_attrs)
  }

  /**
   * `delete_`: refused, deleting nothing, for an invalid id, without `admin`,
   * when the stem has children, or when the group does not exist.
   */
  method Delete(dir: Directory, cfg: LdapConfig, logged_user: LoggedUser, id: string) returns (r: Outcome, log: Option<ActionLog>)
    requires dir.Valid() && StemSeparator(cfg) != ""
    modifies dir
    ensures dir.Valid()
    ensures log.Some? <==> r.Pass?
    ensures log.Some? ==> ReadSgroup(cfg, old(dir.entries), id).Some? &&
                          log.value == ActionLog(logged_user, id, "delete", None,
                                                 AttrsData(CurrentSgroupAttrs(cfg, ReadSgroup(cfg, old(dir.entries), id).value)))
    ensures r.Pass? <==>
              && ValidSgroupId(id, StemSeparator(cfg), RootId(cfg))
              && CheckRightOnSelfOrAnyParents(cfg, old(dir.entries), logged_user, id, Admin).Pass?
              && !HasChildren(cfg, old(dir.entries), id)
              && ReadSgroup(cfg, old(dir.entries), id).Some?
    ensures (ValidSgroupId(id, StemSeparator(cfg), RootId(cfg)) &&
             CheckRightOnSelfOrAnyParents(cfg, old(dir.entries), logged_user, id, Admin).Pass? &&
             HasChildren(cfg, old(dir.entries), id)) ==> r == Fail("can not remove stem with existing children")
    ensures r.Fail? ==> dir.entries == old(dir.entries)
    ensures r.Pass? ==> dir.entries == Remove(old(dir.entries), SgroupIdToDn(cfg, id))
  {
    var valid := ValidateSgroupId(id, StemSeparator(cfg), RootId(cfg));
    if valid.Fail? {
      return valid, None;
    }
    var allowed := CheckRightOnSelfOrAnyParents(cfg, dir.entries, logged_user, id, Admin);
    if allowed.Fail? {
      return allowed, None;
    }
    ChildrenSearchMeaning(cfg, dir.entries, id);
    if OneGroupMatchesFilter(cfg, dir.entries, SgroupChildrenF(id)) {
      return Fail("can not remove stem with existing children"), None;
    }
    // current_sgroup_attrs: kept for the action log
    var current := ReadSgroup(cfg, dir.entries, id);
    if current.None? {
      return Fail(InternalError), None;
    }
    var attrs := CurrentSgroupAttrs(cfg, current.value);
    r := DeleteSgroup(dir, cfg, id);
    log := if r.Pass? then Some(ActionLog(logged_user, id, "delete", None, AttrsData(attrs))) else None;
  }

  // ------------------------------------------------ remote queries and sync

  /** The URL a remote query is stored as. */
  function RemoteUrl(remote: RemoteQuery): string
  {
    match remote
    case Sql(q) => ToSqlUrl(q)
    case Ldap(q) => ToLdapUrl(q)
  }

  /** The two replacements of `modify_remote_query_`: no value at all when the group stops being synchronized. */
  function RemoteChanges(cfg: Config, remote: Option<RemoteQuery>): seq<Change>
  {
    var forced := if remote.Some? then remote.value.ForcedPeriodicity() else None;
    [Change(OpReplace, AttrSynchronized, if remote.Some? then [RemoteUrl(remote.value)] else []),
     Change(OpReplace, cfg.remote_forced_periodicity_attr, if forced.Some? then [forced.value] else [])]
  }

  /** The group entry once `modify_remote_query_` has written it. */
  function StoredRemote(cfg: Config, e: Entry, remote: Option<RemoteQuery>): (r: Entry)
    requires cfg.remote_forced_periodicity_attr != AttrSynchronized
    ensures ApplyChanges(e, RemoteChanges(cfg, remote)) == Ok(r)
    ensures Values(r, AttrSynchronized) == if remote.Some? then [RemoteUrl(remote.value)] else []
    ensures remote.Some? && remote.value.ForcedPeriodicity().Some? ==>
              Values(r, cfg.remote_forced_periodicity_attr) == [remote.value.ForcedPeriodicity().value]
    ensures (remote.None? || remote.value.ForcedPeriodicity().None?) ==> cfg.remote_forced_periodicity_attr !in r
    ensures forall a :: a != AttrSynchronized && a != cfg.remote_forced_periodicity_attr ==>
              (a in r <==> a in e) && (a in e ==> r[a] == e[a])
  {
    var cs := RemoteChanges(cfg, remote);
    var e1 := WithValues(e, AttrSynchronized, cs[0].values);
    assert ApplyChange(e, cs[0]) == Ok(e1);
    var e2 := WithValues(e1, cfg.remote_forced_periodicity_attr, cs[1].values);
    assert ApplyChange(e1, cs[1]) == Ok(e2);
    assert ApplyChanges(e1, cs[1..]) == ApplyChanges(e2, cs[2..]);
    assert cs[2..] == [];
    e2
  }

  /**
   * `modify_remote_query_`: a query refused by `validate_remote` writes
   * nothing; otherwise the group's remote query and forced periodicity are
   * replaced (both removed for `{}`).
   */
  method WriteRemoteQuery(dir: Directory, cfg: Config, id: string, remote: Option<RemoteQuery>) returns (r: Outcome)
    requires dir.Valid() && cfg.remote_forced_periodicity_attr != AttrSynchronized
    modifies dir
    ensures dir.Valid()
    ensures remote.Some? && ApiGet.ValidateRemote(cfg, remote.value).Fail? ==>
              r == ApiGet.ValidateRemote(cfg, remote.value) && dir.entries == old(dir.entries)
    ensures (remote.None? || ApiGet.ValidateRemote(cfg, remote.value).Pass?) && Get(old(dir.entries), SgroupIdToDn(cfg.ldap, id)).None? ==>
              r == Fail("noSuchObject") && dir.entries == old(dir.entries)
    ensures (remote.None? || ApiGet.ValidateRemote(cfg, remote.value).Pass?) && Get(old(dir.entries), SgroupIdToDn(cfg.ldap, id)).Some? ==>
              r == Pass && dir.entries == Put(old(dir.entries), SgroupIdToDn(cfg.ldap, id),
                                             StoredRemote(cfg, Get(old(dir.entries), SgroupIdToDn(cfg.ldap, id)).value, remote))
  {
    if remote.Some? {
      var valid := ApiGet.ValidateRemote(cfg, remote.value);
      if valid.Fail? {
        return valid;
      }
    }
    var dn := SgroupIdToDn(cfg.ldap, id);
    if Get(dir.entries, dn).Some? {
      var _ := StoredRemote(cfg, Get(dir.entries, dn).value, remote);
    }
    r := dir.Modify(dn, RemoteChanges(cfg, remote));
  }

  /**
   * Once stored, an SQL query is what computes the group's members (its
   * forced periodicity is kept aside, in its own attribute).
   */
  lemma StoredSqlQueryIsRun(cfg: Config, rem: Remotes, es: Store, dn: Dn, q: RemoteSqlQuery)
    requires cfg.remote_forced_periodicity_attr != AttrSynchronized
    requires Serialisable(q.(forced_periodicity := None))
    requires Read(es, dn).Some?
    ensures var es' := Put(es, dn, StoredRemote(cfg, Read(es, dn).value, Some(Sql(q))));
            DirectDns(cfg, rem, es', dn, Member) == RemoteToDns(cfg, rem, es', Sql(q.(forced_periodicity := None)))
  {
    var q' := q.(forced_periodicity := None);
    var es' := Put(es, dn, StoredRemote(cfg, Read(es, dn).value, Some(Sql(q))));
    assert ToSqlUrl(q) == ToSqlUrl(q');
    assert ToSqlUrl(q)[0] == 's';
    assert SyncQueryOf(Read(es', dn).value) == Some(ToSqlUrl(q'));
    ApiGet.ParseRemoteQuerySql(q', rem.parse);
  }

  /** Once the remote query is removed, the members are again those stored in the group. */
  lemma RemovedQueryUsesStoredMembers(cfg: Config, rem: Remotes, es: Store, dn: Dn)
    requires cfg.remote_forced_periodicity_attr != AttrSynchronized && cfg.remote_forced_periodicity_attr != ToAttr(Member)
    requires Read(es, dn).Some?
    ensures var es' := Put(es, dn, StoredRemote(cfg, Read(es, dn).value, None));
            DirectDns(cfg, rem, es', dn, Member) == Ok(UrlsToDns(Values(Read(es, dn).value, ToAttr(Member))))
  {
    var e := Read(es, dn).value;
    var e' := StoredRemote(cfg, e, None);
    var es' := Put(es, dn, e');
    assert Read(es', dn) == Some(e');
    assert SyncQueryOf(e').None?;
    assert ToAttr(Member) != AttrSynchronized;
    assert Values(e', ToAttr(Member)) == Values(e, ToAttr(Member));
  }

  /**
   * `modify_remote_query`: after the write, the group's members are
   * recomputed and propagated; the caches are cleared once that is done.
   */
  method ModifyRemoteQuery(dir: Directory, caches: Cache.Caches, cfg: Config, rem: Remotes, logged_user: LoggedUser, id: string,
                           remote: Option<RemoteQuery>, msg: Option<string>, fuel: nat)
    returns (r: Result<Propagation>, log: Option<ActionLog>)
    requires dir.Valid() && cfg.remote_forced_periodicity_attr != AttrSynchronized
    requires StemSeparator(cfg.ldap) != ""
    modifies dir, caches
    ensures dir.Valid()
    ensures log.Some? <==> r.Ok?
    ensures log.Some? ==> log.value == ActionLog(logged_user, id, "modify_remote_query", msg, RemoteData(remote))
    ensures !ValidSgroupId(id, StemSeparator(cfg.ldap), RootId(cfg.ldap)) ==>
              r == Err("invalid sgroup id") && dir.entries == old(dir.entries)
    ensures ValidSgroupId(id, StemSeparator(cfg.ldap), RootId(cfg.ldap)) && remote.Some? && ApiGet.ValidateRemote(cfg, remote.value).Fail? ==>
              r == Err(ApiGet.ValidateRemote(cfg, remote.value).msg) && dir.entries == old(dir.entries)
    ensures ValidSgroupId(id, StemSeparator(cfg.ldap), RootId(cfg.ldap)) && (remote.None? || ApiGet.ValidateRemote(cfg, remote.value).Pass?) &&
            Get(old(dir.entries), SgroupIdToDn(cfg.ldap, id)).None?
            ==> r.Err?
    ensures r.Err? ==> dir.entries == old(dir.entries)
    ensures r.Ok? ==>
              var dn := SgroupIdToDn(cfg.ldap, id);
              && Get(old(dir.entries), dn).Some?
              && r.value == PropagateSpec(cfg, rem, Put(old(dir.entries), dn, StoredRemote(cfg, Get(old(dir.entries), dn).value, remote)),
                                          [IdMright(id, Member)], fuel)
              && dir.entries == r.value.es
    ensures r.Ok? && r.value.stop.Done? ==> caches.remote_to_sgroup_ids.None?
    ensures r.Err? ==> caches.remote_to_sgroup_ids == old(caches.remote_to_sgroup_ids)
  {
    var valid := ValidateSgroupId(id, StemSeparator(cfg.ldap), RootId(cfg.ldap));
    if valid.Fail? {
      return Err(valid.msg), None;
    }
    var written := WriteRemoteQuery(dir, cfg, id, remote);
    if written.Fail? {
      return Err(written.msg), None;
    }
    log := Some(ActionLog(logged_user, id, "modify_remote_query", msg, RemoteData(remote)));
    var p := MayUpdateFlattenedMrightsRec(dir, cfg, rem, [IdMright(id, Member)], fuel);
    if p.stop.Done? {
      caches.ClearAll();
    }
    return Ok(p), log;
  }

  /** The worklist of `sync`: the group with each mright asked for. */
  function SyncTodo(id: string, mrights: seq<Mright>): (r: seq<IdMright>)
    ensures |r| == |mrights| && forall i :: 0 <= i < |mrights| ==> r[i] == IdMright(id, mrights[i])
  {
    if |mrights| == 0 then [] else [IdMright(id, mrights[0])] + SyncTodo(id, mrights[1..])
  }

  /** `sync`: with `updater` on the group, each asked mright is recomputed and propagated. */
  method Sync(dir: Directory, cfg: Config, rem: Remotes, logged_user: LoggedUser, id: string, mrights: seq<Mright>, fuel: nat)
    returns (r: Result<Propagation>)
    requires dir.Valid() && StemSeparator(cfg.ldap) != ""
    modifies dir
    ensures dir.Valid()
    ensures !ValidSgroupId(id, StemSeparator(cfg.ldap), RootId(cfg.ldap)) ==>
              r == Err("invalid sgroup id") && dir.entries == old(dir.entries)
    ensures ValidSgroupId(id, StemSeparator(cfg.ldap), RootId(cfg.ldap)) &&
            CheckRightOnSelfOrAnyParents(cfg.ldap, old(dir.entries), logged_user, id, Updater).Fail? ==>
              r == Err(CheckRightOnSelfOrAnyParents(cfg.ldap, old(dir.entries), logged_user, id, Updater).msg) &&
              dir.entries == old(dir.entries)
    ensures ValidSgroupId(id, StemSeparator(cfg.ldap), RootId(cfg.ldap)) &&
            CheckRightOnSelfOrAnyParents(cfg.ldap, old(dir.entries), logged_user, id, Updater).Pass? ==>
              r == Ok(PropagateSpec(cfg, rem, old(dir.entries), SyncTodo(id, mrights), fuel)) && dir.entries == r.value.es
  {
    var valid := ValidateSgroupId(id, StemSeparator(cfg.ldap), RootId(cfg.ldap));
    if valid.Fail? {
      return Err(valid.msg);
    }
    var allowed := CheckRightOnSelfOrAnyParents(cfg.ldap, dir.entries, logged_user, id, Updater);
    if allowed.Fail? {
      return Err(allowed.msg);
    }
    var todo := SyncTodo(id, mrights);
    var p := MayUpdateFlattenedMrightsRec(dir, cfg, rem, todo, fuel);
    return Ok(p);
  }
}
