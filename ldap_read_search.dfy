// Reads and searches against the directory (server/ldap_read_search.ts), as
// functions of the directory's entries.
module LdapReadSearch {
  import opened Wrappers
  import opened JsString
  import opened MyTypes
  import opened LdapFilter
  import opened LdapHelpers
  import opened LdapServer

  /** `dn` is `base` or lies below it. */
  predicate InSubtree(dn: Dn, base: Dn)
  {
    dn == base || EndsWith(dn, "," + base)
  }

  /** The entries at or below `base` that satisfy `f`, in directory order. */
  function MatchingUnder(es: Store, base: Dn, f: Filter): (r: seq<(Dn, Entry)>)
    ensures forall p :: p in r <==> p in es && InSubtree(p.0, base) && Matches(f, p.1)
    ensures |r| <= |es|
  {
    if |es| == 0 then []
    else
      var rest := MatchingUnder(es[1..], base, f);
      assert forall p :: p in es <==> p == es[0] || p in es[1..];
      if InSubtree(es[0].0, base) && Matches(f, es[0].1) then [es[0]] + rest else rest
  }

  /**
   * `searchRaw` over the subtree of `base`: a missing base is the
   * NoSuchObject error, which gives no entries.
   */
  function SearchRaw(es: Store, base: Dn, f: Filter): (r: seq<(Dn, Entry)>)
    ensures Get(es, base).None? ==> r == []
    ensures Get(es, base).Some? ==> forall p :: p in r <==> p in es && InSubtree(p.0, base) && Matches(f, p.1)
  {
    if Get(es, base).None? then [] else MatchingUnder(es, base, f)
  }

  /** `read`: the entry stored at `dn`. */
  function Read(es: Store, dn: Dn): (r: Option<Entry>)
    ensures r.None? <==> dn !in KeySet(es)
    ensures UniqueKeys(es) ==> forall i :: 0 <= i < |es| && es[i].0 == dn ==> r == Some(es[i].1)
  {
    Get(es, dn)
  }

  /** `read_or_err` */
  function ReadOrErr(es: Store, dn: Dn): (r: Result<Entry>)
    ensures r.Err? <==> Read(es, dn).None?
    ensures r.Ok? ==> Read(es, dn) == Some(r.value)
  {
    match Read(es, dn)
    case Some(e) => Ok(e)
    case None => Err("internal error (read_or_err expects " + dn + " to exist)")
  }

  /** `read_one_multi_attr`: no entry gives none, an absent attribute gives `[]`. */
  function ReadOneMultiAttr(es: Store, dn: Dn, attr: string): (r: Option<seq<string>>)
    ensures Read(es, dn).None? ==> r.None?
    ensures Read(es, dn).Some? && attr !in Read(es, dn).value ==> r == Some([])
    ensures Read(es, dn).Some? && attr in Read(es, dn).value ==> r == Some(Read(es, dn).value[attr])
  {
    match Read(es, dn)
    case None => None
    case Some(e) => Some(MultiValue(Multi(Values(e, attr))))
  }

  /** `read_one_multi_attr__or_err` */
  function ReadOneMultiAttrOrErr(es: Store, dn: Dn, attr: string): (r: Result<seq<string>>)
    ensures r.Err? <==> Read(es, dn).None?
    ensures r.Ok? ==> Some(r.value) == ReadOneMultiAttr(es, dn, attr)
  {
    match ReadOneMultiAttr(es, dn, attr)
    case Some(vs) => Ok(vs)
    case None => Err("internal error (read_one_multi_attr__or_err expects " + dn + " to exist)")
  }

  /** `read_one_mono_attr__or_err`: an error for a missing entry, none for an absent attribute. */
  function ReadOneMonoAttrOrErr(es: Store, dn: Dn, attr: string): (r: Result<Option<string>>)
    ensures r.Err? <==> Read(es, dn).None?
    ensures r.Ok? && attr !in Read(es, dn).value ==> r.value.None?
    ensures r.Ok? && attr in Read(es, dn).value && |Read(es, dn).value[attr]| > 0 ==>
              r.value == Some(Read(es, dn).value[attr][0])
  {
    var e :- ReadOrErr(es, dn);
    Ok(if attr in e then SingleValue(Some(Multi(e[attr]))) else None)
  }

  /** `read_flattened_mright_raw`: the stored flattened values, sentinel included. */
  function ReadFlattenedMrightRaw(cfg: LdapConfig, es: Store, dn: Dn, m: Mright): (r: Result<seq<Dn>>)
    ensures r.Ok? <==> m in cfg.groups_flattened_attr && Read(es, dn).Some?
    ensures r.Ok? ==> r.value == Values(Read(es, dn).value, cfg.groups_flattened_attr[m])
  {
    var attr :- ToFlattenedAttr(cfg, m);
    ReadOneMultiAttrOrErr(es, dn, attr)
  }

  /** `[""]`, the value a group without members stores (a group needs a `member`). */
  const EmptySentinel: seq<Dn> := [""]

  /** `read_flattened_mright`: the sentinel `[""]` reads as no DN at all. */
  function ReadFlattenedMright(cfg: LdapConfig, es: Store, dn: Dn, m: Mright): (r: Result<seq<Dn>>)
    ensures r.Ok? <==> ReadFlattenedMrightRaw(cfg, es, dn, m).Ok?
    ensures r.Ok? && ReadFlattenedMrightRaw(cfg, es, dn, m).value == EmptySentinel ==> r.value == []
    ensures r.Ok? && ReadFlattenedMrightRaw(cfg, es, dn, m).value != EmptySentinel ==>
              r.value == ReadFlattenedMrightRaw(cfg, es, dn, m).value
  {
    var l :- ReadFlattenedMrightRaw(cfg, es, dn, m);
    Ok(if |l| == 1 && l[0] == "" then [] else l)
  }

  /** `is_dn_matching_filter`: the entry at `dn` exists and satisfies `f`. */
  predicate IsDnMatchingFilter(es: Store, dn: Dn, f: Filter)
  {
    Read(es, dn).Some? && Matches(f, Read(es, dn).value)
  }

  /** `is_dn_existing` */
  predicate IsDnExisting(es: Store, dn: Dn)
  {
    IsDnMatchingFilter(es, dn, FPresent("objectClass"))
  }

  /** `one_group_matches_filter`: some entry of the groups branch satisfies `f`. */
  predicate OneGroupMatchesFilter(cfg: LdapConfig, es: Store, f: Filter)
  {
    |SearchRaw(es, cfg.groups_dn, f)| > 0
  }

  /** `one_group_matches_filter` is an existential over the groups branch. */
  lemma OneGroupMatchesFilterMeaning(cfg: LdapConfig, es: Store, f: Filter)
    ensures OneGroupMatchesFilter(cfg, es, f) <==>
              Read(es, cfg.groups_dn).Some? && exists p :: p in es && InSubtree(p.0, cfg.groups_dn) && Matches(f, p.1)
  {
    var r := SearchRaw(es, cfg.groups_dn, f);
    if |r| > 0 {
      assert r[0] in r;
    }
  }

  /** An entry whose `objectClass` is set exists for `is_dn_existing`. */
  lemma ExistingWithObjectClass(es: Store, dn: Dn)
    requires Read(es, dn).Some? && |Values(Read(es, dn).value, "objectClass")| > 0
    ensures IsDnExisting(es, dn)
  {
  }
}
