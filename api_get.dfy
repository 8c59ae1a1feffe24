// The read side of the API (server/api_get.ts): a user's right on a group and
// on its ancestors, the children of a stem, the attributes shown for a group,
// remote queries and the filters of the group search.
//
// Group searches go through `SgroupSearcher`: the search of the groups branch
// with a filter string and an optional size limit, as the directory answers it.
module ApiGet {
  import opened Wrappers
  import opened JsString
  import opened MyTypes
  import opened DnCodec
  import opened StemHelpers
  import opened LdapFilter
  import opened LdapHelpers
  import opened LdapSubject
  import opened LdapServer
  import opened LdapCheckRights
  import opened RemoteSql
  import opened RemoteLdap
  import Sgroups = LdapSgroupReadSearchModify

  /** `search_sgroups`: the entries of the groups branch a filter string selects, cut at the size limit. */
  type SgroupSearcher = (string, Option<nat>) -> seq<(Dn, Entry)>

  /** `LoggedUserDn`: the trusted admin, or a user known by DN. */
  datatype LoggedUserDn = TrustedAdminDn | UserDn(dn: Dn)

  /** `user_dn` */
  function UserDnOf(cfg: LdapConfig, logged_user: LoggedUser): (r: LoggedUserDn)
    ensures logged_user.TrustedAdmin? <==> r.TrustedAdminDn?
    ensures logged_user.User? ==> r.dn == PeopleIdToDn(cfg, logged_user.user)
  {
    match logged_user
    case TrustedAdmin => TrustedAdminDn
    case User(user) => UserDn(PeopleIdToDn(cfg, user))
  }

  // ------------------------------------------------------------ highest right

  /** The user's DN is among the values of the flattened attribute of `right`. */
  predicate HoldsRight(cfg: LdapConfig, attrs: Entry, user_dn: Dn, right: Right)
  {
    right in cfg.groups_flattened_attr &&
    var attr := cfg.groups_flattened_attr[right];
    attr in attrs && user_dn in attrs[attr]
  }

  /** The first of `rights` whose flattened attribute holds the user, failing on an unconfigured one met first. */
  function FirstRightHeld(cfg: LdapConfig, attrs: Entry, user_dn: Dn, rights: seq<Right>): (r: Result<Option<Right>>)
  {
    if |rights| == 0 then Ok(None)
    else
      match ToFlattenedAttr(cfg, rights[0])
      case Err(msg) => Err(msg)
      case Ok(attr) =>
        if attr in attrs && user_dn in attrs[attr] then Ok(Some(rights[0]))
        else FirstRightHeld(cfg, attrs, user_dn, rights[1..])
  }

  /** What `user_highest_right` returns: the rights are tried best first. */
  function HighestRight(cfg: LdapConfig, attrs: Entry, user_dn: Dn): Result<Option<Right>>
  {
    FirstRightHeld(cfg, attrs, user_dn, ToAllowedRights(Reader))
  }

  /** `user_highest_right` */
  method UserHighestRight(cfg: LdapConfig, attrs: Entry, user_dn: Dn) returns (r: Result<Option<Right>>)
    ensures r == HighestRight(cfg, attrs, user_dn)
  {
    r := FirstRightHeldScan(cfg, attrs, user_dn, ToAllowedRights(Reader));
  }

  /** The loop of `user_highest_right` over `rights`, best first. */
  method FirstRightHeldScan(cfg: LdapConfig, attrs: Entry, user_dn: Dn, rights: seq<Right>) returns (r: Result<Option<Right>>)
    ensures r == FirstRightHeld(cfg, attrs, user_dn, rights)
  {
    var i := 0;
    while i < |rights|
      invariant 0 <= i <= |rights|
      invariant FirstRightHeld(cfg, attrs, user_dn, rights) == FirstRightHeld(cfg, attrs, user_dn, rights[i..])
    {
      FirstRightHeldFrom(cfg, attrs, user_dn, rights, i);
      var attr := ToFlattenedAttr(cfg, rights[i]);
      if attr.Err? {
        return Err(attr.msg);
      }
      if attr.value in attrs && user_dn in attrs[attr.value] {
        return Ok(Some(rights[i]));
      }
      i := i + 1;
    }
    return Ok(None);
  }

  /** One step of the scan, from position `i`. */
  lemma FirstRightHeldFrom(cfg: LdapConfig, attrs: Entry, user_dn: Dn, rights: seq<Right>, i: nat)
    requires i < |rights|
    ensures ToFlattenedAttr(cfg, rights[i]).Err? ==>
              FirstRightHeld(cfg, attrs, user_dn, rights[i..]) == Err(ToFlattenedAttr(cfg, rights[i]).msg)
    ensures ToFlattenedAttr(cfg, rights[i]).Ok? ==>
              var attr := ToFlattenedAttr(cfg, rights[i]).value;
              FirstRightHeld(cfg, attrs, user_dn, rights[i..]) ==
                if attr in attrs && user_dn in attrs[attr] then Ok(Some(rights[i]))
                else FirstRightHeld(cfg, attrs, user_dn, rights[i + 1..])
  {
    assert rights[i..][0] == rights[i];
    assert rights[i..][1..] == rights[i + 1..];
  }

  /** With the rights all configured, the scan gives the first right held, or nothing when none is. */
  lemma {:induction false} FirstRightHeldMeaning(cfg: LdapConfig, attrs: Entry, user_dn: Dn, rights: seq<Right>)
    requires forall x :: x in rights ==> x in cfg.groups_flattened_attr
    ensures FirstRightHeld(cfg, attrs, user_dn, rights).Ok?
    ensures var r := FirstRightHeld(cfg, attrs, user_dn, rights).value;
            && (r.None? <==> forall k :: 0 <= k < |rights| ==> !HoldsRight(cfg, attrs, user_dn, rights[k]))
            && (r.Some? ==> exists k :: (0 <= k < |rights| && rights[k] == r.value && HoldsRight(cfg, attrs, user_dn, r.value) &&
                  forall j :: 0 <= j < k ==> !HoldsRight(cfg, attrs, user_dn, rights[j])))
  {
    if |rights| > 0 {
      assert rights[0] in rights;
      assert forall k :: 1 <= k < |rights| ==> rights[k] == rights[1..][k - 1];
      FirstRightHeldMeaning(cfg, attrs, user_dn, rights[1..]);
      var r := FirstRightHeld(cfg, attrs, user_dn, rights).value;
      if !HoldsRight(cfg, attrs, user_dn, rights[0]) && r.Some? {
        var k :| 0 <= k < |rights[1..]| && rights[1..][k] == r.value && HoldsRight(cfg, attrs, user_dn, r.value) &&
                 forall j :: 0 <= j < k ==> !HoldsRight(cfg, attrs, user_dn, rights[1..][j]);
        assert rights[k + 1] == r.value;
      }
    }
  }

  /** The scan fails only on an unconfigured right, reached after the rights before it were found not held. */
  lemma {:induction false} FirstRightHeldErr(cfg: LdapConfig, attrs: Entry, user_dn: Dn, rights: seq<Right>)
    ensures FirstRightHeld(cfg, attrs, user_dn, rights).Err? ==>
              && FirstRightHeld(cfg, attrs, user_dn, rights).msg == "missing ${mright} key in ldap.groups_flattened_attr configuration"
              && exists k :: 0 <= k < |rights| && rights[k] !in cfg.groups_flattened_attr &&
                   forall j :: 0 <= j < k ==> !HoldsRight(cfg, attrs, user_dn, rights[j])
  {
    if FirstRightHeld(cfg, attrs, user_dn, rights).Err? {
      if rights[0] in cfg.groups_flattened_attr {
        assert !HoldsRight(cfg, attrs, user_dn, rights[0]);
        FirstRightHeldErr(cfg, attrs, user_dn, rights[1..]);
        var k :| 0 <= k < |rights[1..]| && rights[1..][k] !in cfg.groups_flattened_attr &&
                 forall j :: 0 <= j < k ==> !HoldsRight(cfg, attrs, user_dn, rights[1..][j]);
        forall j | 0 <= j < k + 1
          ensures !HoldsRight(cfg, attrs, user_dn, rights[j])
        {
          if j > 0 {
            assert rights[j] == rights[1..][j - 1];
          }
        }
        assert rights[k + 1] == rights[1..][k];
      }
    }
  }

  /**
   * With every right configured, `user_highest_right` gives the strongest
   * right the user holds, and nothing exactly when the user holds none.
   */
  lemma HighestRightMeaning(cfg: LdapConfig, attrs: Entry, user_dn: Dn)
    requires Admin in cfg.groups_flattened_attr && Updater in cfg.groups_flattened_attr && Reader in cfg.groups_flattened_attr
    ensures HighestRight(cfg, attrs, user_dn).Ok?
    ensures var r := HighestRight(cfg, attrs, user_dn).value;
            && (r.Some? ==> HoldsRight(cfg, attrs, user_dn, r.value))
            && (r.Some? ==> forall x: Right :: Rank(Some(x)) > Rank(r) ==> !HoldsRight(cfg, attrs, user_dn, x))
            && (r.None? <==> forall x: Right :: !HoldsRight(cfg, attrs, user_dn, x))
  {
    var rights := ToAllowedRights(Reader);
    assert forall x: Right :: x in rights;
    FirstRightHeldMeaning(cfg, attrs, user_dn, rights);
    var r := HighestRight(cfg, attrs, user_dn).value;
    if r.Some? {
      var k :| 0 <= k < |rights| && rights[k] == r.value && HoldsRight(cfg, attrs, user_dn, r.value) &&
               forall j :: 0 <= j < k ==> !HoldsRight(cfg, attrs, user_dn, rights[j]);
      forall x: Right | Rank(Some(x)) > Rank(r) ensures !HoldsRight(cfg, attrs, user_dn, x) {
        var j :| 0 <= j < |rights| && rights[j] == x;
        assert j < k;
      }
    }
    if r.None? {
      forall x: Right ensures !HoldsRight(cfg, attrs, user_dn, x) {
        var j :| 0 <= j < |rights| && rights[j] == x;
      }
    }
  }

  /** An unconfigured right makes `user_highest_right` fail only when no stronger right is held. */
  lemma HighestRightErr(cfg: LdapConfig, attrs: Entry, user_dn: Dn)
    ensures HighestRight(cfg, attrs, user_dn).Err? ==>
              && HighestRight(cfg, attrs, user_dn).msg == "missing ${mright} key in ldap.groups_flattened_attr configuration"
              && exists x: Right :: x !in cfg.groups_flattened_attr &&
                   forall y: Right :: Rank(Some(y)) > Rank(Some(x)) ==> !HoldsRight(cfg, attrs, user_dn, y)
  {
    var rights := ToAllowedRights(Reader);
    FirstRightHeldErr(cfg, attrs, user_dn, rights);
    if HighestRight(cfg, attrs, user_dn).Err? {
      var k :| 0 <= k < |rights| && rights[k] !in cfg.groups_flattened_attr &&
               forall j :: 0 <= j < k ==> !HoldsRight(cfg, attrs, user_dn, rights[j]);
      forall y: Right | Rank(Some(y)) > Rank(Some(rights[k])) ensures !HoldsRight(cfg, attrs, user_dn, y) {
        StrongerComesFirst(y, k);
        var j :| 0 <= j < k && rights[j] == y;
      }
    }
  }

  /** In `to_allowed_rights(reader)`, a right stronger than the one at `k` comes before it. */
  lemma StrongerComesFirst(y: Right, k: nat)
    requires k < |ToAllowedRights(Reader)| && Rank(Some(y)) > Rank(Some(ToAllowedRights(Reader)[k]))
    ensures exists j :: 0 <= j < k && ToAllowedRights(Reader)[j] == y
  {
    var rights := ToAllowedRights(Reader);
    assert y in rights;
    var j :| 0 <= j < |rights| && rights[j] == y;
    assert j < k;
  }

  // ------------------------------------------------------------ sgroup attributes

  /** The text after the last `:`, what `replace(/.*:/, '')` leaves. */
  function AfterLastColon(s: string): (r: string)
    ensures ':' !in r
    ensures ':' !in s ==> r == s
    ensures |r| <= |s| && r == s[|s| - |r|..]
  {
    match LastIndexOf(s, ":")
    case None =>
      NotContainsColon(s);
      s
    case Some(i) =>
      NoColonAfterLast(s, i);
      s[i + 1..]
  }

  lemma NotContainsColon(s: string)
    requires LastIndexOf(s, ":").None?
    ensures ':' !in s
  {
    forall k | 0 <= k < |s| ensures s[k] != ':' {
      OccursAtChar(s, ':', k);
    }
  }

  lemma NoColonAfterLast(s: string, i: nat)
    requires LastIndexOf(s, ":") == Some(i)
    ensures i < |s| && s[i] == ':' && ':' !in s[i + 1..]
  {
    OccursAtChar(s, ':', i);
    forall k | i + 1 <= k < |s| ensures s[k] != ':' {
      OccursAtChar(s, ':', k);
    }
  }

  /** `simplify_hierachical_ou`: a non-empty `ou` keeps only its text after the last `:`. */
  function SimplifyHierarchicalOu(attrs: MonoAttrs): (r: MonoAttrs)
    requires UniqueKeys(attrs)
    ensures UniqueKeys(r)
    ensures forall k :: k != "ou" ==> Get(r, k) == Get(attrs, k)
    ensures Get(attrs, "ou").Some? && Get(attrs, "ou").value.Some? && AfterLastColon(Get(attrs, "ou").value.value) != "" ==>
              Get(r, "ou") == Some(Some(AfterLastColon(Get(attrs, "ou").value.value)))
    ensures !(Get(attrs, "ou").Some? && Get(attrs, "ou").value.Some? && AfterLastColon(Get(attrs, "ou").value.value) != "") ==>
              r == attrs
  {
    var ou := Get(attrs, "ou");
    if ou.Some? && ou.value.Some? && AfterLastColon(ou.value.value) != "" then Put(attrs, "ou", Some(AfterLastColon(ou.value.value)))
    else attrs
  }

  /** Simplifying twice is simplifying once. */
  lemma SimplifyHierarchicalOuIdempotent(attrs: MonoAttrs)
    requires UniqueKeys(attrs)
    ensures SimplifyHierarchicalOu(SimplifyHierarchicalOu(attrs)) == SimplifyHierarchicalOu(attrs)
  {
    var once := SimplifyHierarchicalOu(attrs);
    var ou := Get(attrs, "ou");
    if ou.Some? && ou.value.Some? && AfterLastColon(ou.value.value) != "" {
      var v := AfterLastColon(ou.value.value);
      assert Get(once, "ou") == Some(Some(v));
      assert AfterLastColon(v) == v;
      PutSame(once, "ou", Some(v));
    }
  }

  /** Writing back the value a key already has changes nothing. */
  lemma {:induction false} PutSame<K(!new), V>(m: MyMap<K, V>, k: K, v: V)
    requires Get(m, k) == Some(v)
    ensures Put(m, k, v) == m
  {
    if m[0].0 != k {
      assert Get(m[1..], k) == Some(v);
      PutSame(m[1..], k, v);
      assert Put(m, k, v) == [m[0]] + Put(m[1..], k, v);
      assert m == [m[0]] + m[1..];
    } else {
      assert m[0] == (k, v);
      assert Put(m, k, v) == [(k, v)] + m[1..];
      assert m == [m[0]] + m[1..];
    }
  }

  /** The label the source gives the root. */
  const RootOu := "Racine"

  /** `to_sgroup_attrs`: the configured attributes, with `ou` forced for the root and simplified elsewhere. */
  function ToSgroupAttrs(cfg: LdapConfig, id: string, e: Entry): (r: MonoAttrs)
    ensures UniqueKeys(r)
    ensures id == "" ==> Get(r, "ou") == Some(Some(RootOu))
    ensures id != "" ==> r == SimplifyHierarchicalOu(MonoAttrsOf(RawEntry(e), cfg.sgroup_attrs))
    ensures forall k :: k != "ou" ==> Get(r, k) == Get(MonoAttrsOf(RawEntry(e), cfg.sgroup_attrs), k)
  {
    var attrs := MonoAttrsOf(RawEntry(e), cfg.sgroup_attrs);
    if id == "" then Put(attrs, "ou", Some(RootOu)) else SimplifyHierarchicalOu(attrs)
  }

  // ------------------------------------------------------------ parents

  /** `SgroupOutAndRight` */
  datatype SgroupOutAndRight = SgroupOutAndRight(attrs: MonoAttrs, right: Option<Right>, sgroup_id: string)

  /** The right `get_parents_raw` computes for an entry: `admin` for the trusted admin. */
  function EntryRight(cfg: LdapConfig, user_dn: LoggedUserDn, e: Entry): (r: Result<Option<Right>>)
    ensures user_dn.TrustedAdminDn? ==> r == Ok(Some(Admin))
    ensures user_dn.UserDn? ==> r == HighestRight(cfg, e, user_dn.dn)
  {
    if user_dn.TrustedAdminDn? then Ok(Some(Admin)) else HighestRight(cfg, e, user_dn.dn)
  }

  /** The pair `get_parents_raw` makes of one entry: none for a DN that names no group. */
  function ParentPair(cfg: LdapConfig, user_dn: LoggedUserDn, e: (Dn, Entry)): Result<Option<(string, SgroupOutAndRight)>>
  {
    var right :- EntryRight(cfg, user_dn, e.1);
    match DnToSgroupId(cfg, e.0)
    case None => Ok(None)
    case Some(id) => Ok(Some((id, SgroupOutAndRight(ToSgroupAttrs(cfg, id, e.1), right, id))))
  }

  /**
   * `get_parents_raw` fails on an entry iff its right can not be computed, and
   * keeps, for an entry whose DN names a group, that group with its right.
   */
  lemma ParentPairMeaning(cfg: LdapConfig, user_dn: LoggedUserDn, e: (Dn, Entry))
    ensures ParentPair(cfg, user_dn, e).Ok? <==> EntryRight(cfg, user_dn, e.1).Ok?
    ensures ParentPair(cfg, user_dn, e).Ok? ==> (ParentPair(cfg, user_dn, e).value.Some? <==> DnToSgroupId(cfg, e.0).Some?)
    ensures ParentPair(cfg, user_dn, e).Ok? && DnToSgroupId(cfg, e.0).Some? ==>
              var id := DnToSgroupId(cfg, e.0).value;
              ParentPair(cfg, user_dn, e).value.value == (id, SgroupOutAndRight(ToSgroupAttrs(cfg, id, e.1), EntryRight(cfg, user_dn, e.1).value, id))
  {
  }

  /** `found.map(...)`, failing on the first entry whose right can not be computed. */
  function ParentPairs(cfg: LdapConfig, user_dn: LoggedUserDn, found: seq<(Dn, Entry)>): (r: Result<seq<Option<(string, SgroupOutAndRight)>>>)
    ensures r.Ok? <==> forall i :: 0 <= i < |found| ==> EntryRight(cfg, user_dn, found[i].1).Ok?
    ensures r.Ok? ==> |r.value| == |found| && forall i :: 0 <= i < |found| ==> Ok(r.value[i]) == ParentPair(cfg, user_dn, found[i])
  {
    if |found| == 0 then Ok([])
    else
      var rest := ParentPairs(cfg, user_dn, found[1..]);
      assert forall i :: 1 <= i < |found| ==> found[i] == found[1..][i - 1];
      var head :- ParentPair(cfg, user_dn, found[0]);
      var tail :- rest;
      Ok([head] + tail)
  }

  /**
   * `get_parents_raw`: the groups found, by id, each with the right held
   * directly on it. The wanted attributes are computed first, so a missing
   * admin, updater or reader flattened attribute fails before any search,
   * whoever the user is.
   */
  function GetParentsRaw(cfg: LdapConfig, search: SgroupSearcher, filter: string, user_dn: LoggedUserDn, sizeLimit: Option<nat>)
    : (r: Result<MyMap<string, SgroupOutAndRight>>)
    ensures r.Ok? <==> ToAllowedFlattenedAttrs(cfg, Reader).Ok? &&
                       forall e :: e in search(filter, sizeLimit) ==> EntryRight(cfg, user_dn, e.1).Ok?
    ensures ToAllowedFlattenedAttrs(cfg, Reader).Err? ==> r == Err(ToAllowedFlattenedAttrs(cfg, Reader).msg)
    ensures r.Ok? ==> UniqueKeys(r.value)
  {
    var wanted_flattened :- ToAllowedFlattenedAttrs(cfg, Reader);
    var found := search(filter, sizeLimit);
    assert (forall i :: 0 <= i < |found| ==> EntryRight(cfg, user_dn, found[i].1).Ok?) <==>
           (forall e :: e in found ==> EntryRight(cfg, user_dn, e.1).Ok?);
    var pairs :- ParentPairs(cfg, user_dn, found);
    Ok(FromOptionPairsSpec(pairs))
  }

  /**
   * Each id `get_parents_raw` returns is the id of an entry found, bound to
   * that entry's attributes and right; every group found is returned.
   */
  lemma GetParentsRawLookup(cfg: LdapConfig, search: SgroupSearcher, filter: string, user_dn: LoggedUserDn, sizeLimit: Option<nat>, id: string)
    requires GetParentsRaw(cfg, search, filter, user_dn, sizeLimit).Ok?
    ensures var found := search(filter, sizeLimit);
            var got := Get(GetParentsRaw(cfg, search, filter, user_dn, sizeLimit).value, id);
            && (got.Some? <==> exists i :: 0 <= i < |found| && DnToSgroupId(cfg, found[i].0) == Some(id))
            && (got.Some? ==>
                  exists i :: (0 <= i < |found| && DnToSgroupId(cfg, found[i].0) == Some(id) &&
                    got.value == SgroupOutAndRight(ToSgroupAttrs(cfg, id, found[i].1), EntryRight(cfg, user_dn, found[i].1).value, id)))
  {
    var found := search(filter, sizeLimit);
    assert GetParentsRaw(cfg, search, filter, user_dn, sizeLimit) == Ok(FromOptionPairsSpec(ParentPairs(cfg, user_dn, found).value));
    ParentPairsLookup(cfg, user_dn, found, ParentPairs(cfg, user_dn, found).value, id);
  }

  /** `GetParentsRawLookup` for the pairs made of the entries found. */
  lemma ParentPairsLookup(cfg: LdapConfig, user_dn: LoggedUserDn, found: seq<(Dn, Entry)>, pairs: seq<Option<(string, SgroupOutAndRight)>>, id: string)
    requires |pairs| == |found| && forall i :: 0 <= i < |found| ==> Ok(pairs[i]) == ParentPair(cfg, user_dn, found[i])
    ensures var got := Get(FromOptionPairsSpec(pairs), id);
            && (got.Some? <==> exists i :: 0 <= i < |found| && DnToSgroupId(cfg, found[i].0) == Some(id))
            && (got.Some? ==>
                  exists i :: (0 <= i < |found| && DnToSgroupId(cfg, found[i].0) == Some(id) &&
                    EntryRight(cfg, user_dn, found[i].1).Ok? &&
                    got.value == SgroupOutAndRight(ToSgroupAttrs(cfg, id, found[i].1), EntryRight(cfg, user_dn, found[i].1).value, id)))
  {
    var got := Get(FromOptionPairsSpec(pairs), id);
    FromOptionPairsLookup(pairs, id);
    LastValueSome(pairs, id);
    if exists i :: 0 <= i < |found| && DnToSgroupId(cfg, found[i].0) == Some(id) {
      var i :| 0 <= i < |found| && DnToSgroupId(cfg, found[i].0) == Some(id);
      ParentPairMeaning(cfg, user_dn, found[i]);
      assert pairs[i].Some? && pairs[i].value.0 == id;
    }
    if got.Some? {
      var i :| 0 <= i < |pairs| && pairs[i] == Some((id, got.value));
      ParentPairMeaning(cfg, user_dn, found[i]);
      assert Ok(pairs[i]) == ParentPair(cfg, user_dn, found[i]);
    }
  }

  /** `sgroup_filter` of each id. */
  function SgroupFilters(ids: seq<string>): (r: seq<string>)
    ensures |r| == |ids| && forall i :: 0 <= i < |ids| ==> r[i] == SgroupFilter(ids[i])
  {
    if |ids| == 0 then [] else [SgroupFilter(ids[0])] + SgroupFilters(ids[1..])
  }

  function Reverse<T>(s: seq<T>): (r: seq<T>)
    ensures |r| == |s| && forall i :: 0 <= i < |s| ==> r[i] == s[|s| - 1 - i]
  {
    if |s| == 0 then [] else Reverse(s[1..]) + [s[0]]
  }

  /** `_.compact(ids.map(id => parents[id]))`: the groups found, in the order of `ids`. */
  function OrderedParents(parents: MyMap<string, SgroupOutAndRight>, ids: seq<string>): (r: seq<SgroupOutAndRight>)
    ensures |r| <= |ids|
  {
    if |ids| == 0 then []
    else
      var rest := OrderedParents(parents, ids[1..]);
      match Get(parents, ids[0])
      case Some(p) => [p] + rest
      case None => rest
  }

  /** The ids of `ids` that are keys of `parents`, in order. */
  function PresentIds(parents: MyMap<string, SgroupOutAndRight>, ids: seq<string>): seq<string>
  {
    if |ids| == 0 then []
    else if Get(parents, ids[0]).Some? then [ids[0]] + PresentIds(parents, ids[1..])
    else PresentIds(parents, ids[1..])
  }

  function SgroupIds(l: seq<SgroupOutAndRight>): (r: seq<string>)
    ensures |r| == |l| && forall i :: 0 <= i < |l| ==> r[i] == l[i].sgroup_id
  {
    if |l| == 0 then [] else [l[0].sgroup_id] + SgroupIds(l[1..])
  }

  /** Every value is stored under its own id. */
  ghost predicate IdsAreKeys(parents: MyMap<string, SgroupOutAndRight>)
  {
    forall id :: Get(parents, id).Some? ==> Get(parents, id).value.sgroup_id == id
  }

  /** The ordered parents are the groups found among `ids`, in the order of `ids`. */
  lemma {:induction false} OrderedParentsIds(parents: MyMap<string, SgroupOutAndRight>, ids: seq<string>)
    requires IdsAreKeys(parents)
    ensures SgroupIds(OrderedParents(parents, ids)) == PresentIds(parents, ids)
  {
    if |ids| > 0 {
      OrderedParentsIds(parents, ids[1..]);
      var rest := OrderedParents(parents, ids[1..]);
      if Get(parents, ids[0]).Some? {
        var l := [Get(parents, ids[0]).value] + rest;
        assert SgroupIds(l) == [ids[0]] + SgroupIds(rest) by {
          assert l[1..] == rest;
        }
      }
    }
  }

  /** Values of `get_parents_raw` are stored under their own id. */
  lemma GetParentsRawIdsAreKeys(cfg: LdapConfig, search: SgroupSearcher, filter: string, user_dn: LoggedUserDn, sizeLimit: Option<nat>)
    requires GetParentsRaw(cfg, search, filter, user_dn, sizeLimit).Ok?
    ensures IdsAreKeys(GetParentsRaw(cfg, search, filter, user_dn, sizeLimit).value)
  {
    forall id | Get(GetParentsRaw(cfg, search, filter, user_dn, sizeLimit).value, id).Some?
      ensures Get(GetParentsRaw(cfg, search, filter, user_dn, sizeLimit).value, id).value.sgroup_id == id
    {
      GetParentsRawLookup(cfg, search, filter, user_dn, sizeLimit, id);
    }
  }

  /** The right given to the last group so far, `best` before the first. */
  function LastRight(r: seq<SgroupOutAndRight>, best: Option<Right>): Option<Right>
  {
    if |r| == 0 then best else r[|r| - 1].right
  }

  /** The running-max loop of `get_parents`: each right becomes the best right so far. */
  function InheritRights(l: seq<SgroupOutAndRight>, best: Option<Right>): (r: seq<SgroupOutAndRight>)
    ensures |r| == |l|
    ensures forall i :: 0 <= i < |l| ==> r[i].attrs == l[i].attrs && r[i].sgroup_id == l[i].sgroup_id
  {
    if |l| == 0 then []
    else
      var n := |l| - 1;
      var init := InheritRights(l[..n], best);
      assert forall i :: 0 <= i < n ==> l[..n][i] == l[i];
      init + [l[n].(right := Max(LastRight(init, best), l[n].right))]
  }

  /** The last right is the one step adds to the rights before it. */
  lemma InheritRightsLast(l: seq<SgroupOutAndRight>, best: Option<Right>)
    requires |l| > 0
    ensures var r := InheritRights(l, best);
            var n := |l| - 1;
            && r[..n] == InheritRights(l[..n], best)
            && r[n].right == Max(LastRight(r[..n], best), l[n].right)
  {
    var n := |l| - 1;
    var r := InheritRights(l, best);
    assert r[..n] == InheritRights(l[..n], best);
  }

  /** Each right is at least the starting right. */
  lemma {:induction false} InheritRightsAboveStart(l: seq<SgroupOutAndRight>, best: Option<Right>)
    ensures var r := InheritRights(l, best);
            forall i :: 0 <= i < |l| ==> Rank(r[i].right) >= Rank(best)
  {
    if |l| > 0 {
      var n := |l| - 1;
      var r := InheritRights(l, best);
      InheritRightsLast(l, best);
      InheritRightsAboveStart(l[..n], best);
      forall i | 0 <= i < n
        ensures Rank(r[i].right) >= Rank(best)
      {
        assert r[i] == r[..n][i];
      }
      if n > 0 {
        assert r[n - 1] == r[..n][n - 1];
      }
    }
  }

  /** Each right is at least the right of every group up to it. */
  lemma {:induction false} InheritRightsAboveEach(l: seq<SgroupOutAndRight>, best: Option<Right>)
    ensures var r := InheritRights(l, best);
            forall i, k :: 0 <= k <= i < |l| ==> Rank(r[i].right) >= Rank(l[k].right)
  {
    if |l| > 0 {
      var n := |l| - 1;
      var r := InheritRights(l, best);
      InheritRightsLast(l, best);
      InheritRightsAboveEach(l[..n], best);
      forall i, k | 0 <= k <= i < |l|
        ensures Rank(r[i].right) >= Rank(l[k].right)
      {
        if i < n {
          assert r[i] == r[..n][i] && l[k] == l[..n][k];
        } else if k < n {
          assert r[n - 1] == r[..n][n - 1] && l[k] == l[..n][k];
        }
      }
    }
  }

  /** Each right is the starting right or the right of a group up to it. */
  lemma {:induction false} InheritRightsAttained(l: seq<SgroupOutAndRight>, best: Option<Right>)
    ensures var r := InheritRights(l, best);
            forall i :: 0 <= i < |l| ==> r[i].right == best || exists k :: 0 <= k <= i && r[i].right == l[k].right
  {
    if |l| > 0 {
      var n := |l| - 1;
      var r := InheritRights(l, best);
      InheritRightsLast(l, best);
      InheritRightsAttained(l[..n], best);
      forall i | 0 <= i < |l|
        ensures r[i].right == best || exists k :: 0 <= k <= i && r[i].right == l[k].right
      {
        if i < n {
          assert r[i] == r[..n][i];
          if r[i].right != best {
            var k :| 0 <= k <= i && r[..n][i].right == l[..n][k].right;
            assert l[..n][k] == l[k];
          }
        } else if r[n].right != l[n].right && n > 0 {
          assert r[n].right == r[..n][n - 1].right;
          if r[n].right != best {
            var k :| 0 <= k <= n - 1 && r[..n][n - 1].right == l[..n][k].right;
            assert l[..n][k] == l[k];
          }
        }
      }
    }
  }

  /** Rights never decrease along the list. */
  lemma {:induction false} InheritRightsNondecreasing(l: seq<SgroupOutAndRight>, best: Option<Right>)
    ensures var r := InheritRights(l, best);
            forall i, j :: 0 <= i <= j < |l| ==> Rank(r[i].right) <= Rank(r[j].right)
  {
    if |l| > 0 {
      var n := |l| - 1;
      var r := InheritRights(l, best);
      InheritRightsLast(l, best);
      InheritRightsNondecreasing(l[..n], best);
      forall i, j | 0 <= i <= j < |l|
        ensures Rank(r[i].right) <= Rank(r[j].right)
      {
        if j < n {
          assert r[i] == r[..n][i] && r[j] == r[..n][j];
        } else if i < n {
          assert r[i] == r[..n][i] && r[n - 1] == r[..n][n - 1];
        }
      }
    }
  }

  /** What `get_parents` returns: the existing ancestors, root first, with inherited rights. */
  function GetParentsSpec(cfg: LdapConfig, search: SgroupSearcher, id: string, user_dn: LoggedUserDn): Result<seq<SgroupOutAndRight>>
    requires StemSeparator(cfg) != ""
  {
    var ids := ParentStemsSpec(id, StemSeparator(cfg), RootId(cfg));
    match GetParentsRaw(cfg, search, Or(SgroupFilters(ids)), user_dn, None)
    case Err(msg) => Err(msg)
    case Ok(parents) => Ok(InheritRights(OrderedParents(parents, Reverse(ids)), None))
  }

  /** The loop of `get_parents`, raising each right to the best right so far. */
  method InheritRightsLoop(ordered: seq<SgroupOutAndRight>) returns (ordered_parents: seq<SgroupOutAndRight>)
    ensures ordered_parents == InheritRights(ordered, None)
  {
    ordered_parents := ordered;
    var best: Option<Right> := None;
    var i := 0;
    while i < |ordered_parents|
      invariant 0 <= i <= |ordered_parents| == |ordered|
      invariant ordered_parents[i..] == ordered[i..]
      invariant ordered_parents[..i] == InheritRights(ordered[..i], None)
      invariant best == LastRight(ordered_parents[..i], None)
    {
      InheritRightsLast(ordered[..i + 1], None);
      assert ordered[..i + 1][..i] == ordered[..i];
      assert ordered_parents[i] == ordered[i];
      assert ordered_parents[i + 1..] == ordered[i..][1..] == ordered[i + 1..];
      best := Max(best, ordered_parents[i].right);
      ordered_parents := ordered_parents[i := ordered_parents[i].(right := best)];
      assert ordered_parents[..i + 1] == ordered_parents[..i] + [ordered_parents[i]];
      i := i + 1;
    }
    assert ordered_parents[..i] == ordered_parents && ordered[..i] == ordered;
  }

  /** `get_parents` */
  method GetParents(cfg: LdapConfig, search: SgroupSearcher, id: string, user_dn: LoggedUserDn) returns (r: Result<seq<SgroupOutAndRight>>)
    requires StemSeparator(cfg) != ""
    ensures r == GetParentsSpec(cfg, search, id, user_dn)
  {
    var parents_id := ParentStems(id, StemSeparator(cfg), RootId(cfg));
    var filter := Or(SgroupFilters(parents_id));
    var parents := GetParentsRaw(cfg, search, filter, user_dn, None);
    if parents.Err? {
      return Err(parents.msg);
    }
    parents_id := Reverse(parents_id);
    var ordered_parents := InheritRightsLoop(OrderedParents(parents.value, parents_id));
    return Ok(ordered_parents);
  }

  /** The rights along the ordered parents: the groups found among `ids`, in order, rights never decreasing. */
  lemma OrderedInheritedMeaning(parents: MyMap<string, SgroupOutAndRight>, ids: seq<string>)
    requires IdsAreKeys(parents)
    ensures var r := InheritRights(OrderedParents(parents, ids), None);
            && SgroupIds(r) == PresentIds(parents, ids)
            && (forall i, j :: 0 <= i <= j < |r| ==> Rank(r[i].right) <= Rank(r[j].right))
  {
    var ordered := OrderedParents(parents, ids);
    OrderedParentsIds(parents, ids);
    InheritRightsNondecreasing(ordered, None);
    assert SgroupIds(InheritRights(ordered, None)) == SgroupIds(ordered);
  }

  /** A successful `get_parents` is the rights loop over the groups its search found. */
  lemma GetParentsUnfold(cfg: LdapConfig, search: SgroupSearcher, id: string, user_dn: LoggedUserDn)
    requires StemSeparator(cfg) != ""
    requires GetParentsSpec(cfg, search, id, user_dn).Ok?
    ensures var ids := ParentStemsSpec(id, StemSeparator(cfg), RootId(cfg));
            var raw := GetParentsRaw(cfg, search, Or(SgroupFilters(ids)), user_dn, None);
            && raw.Ok?
            && GetParentsSpec(cfg, search, id, user_dn).value == InheritRights(OrderedParents(raw.value, Reverse(ids)), None)
  {
  }

  /**
   * `get_parents` lists the ancestors the search found, root first (the
   * reverse of `parent_stems`), with rights that never decrease along the list.
   */
  lemma GetParentsMeaning(cfg: LdapConfig, search: SgroupSearcher, id: string, user_dn: LoggedUserDn)
    requires StemSeparator(cfg) != ""
    requires GetParentsSpec(cfg, search, id, user_dn).Ok?
    ensures var ids := ParentStemsSpec(id, StemSeparator(cfg), RootId(cfg));
            var parents := GetParentsRaw(cfg, search, Or(SgroupFilters(ids)), user_dn, None).value;
            var r := GetParentsSpec(cfg, search, id, user_dn).value;
            && SgroupIds(r) == PresentIds(parents, Reverse(ids))
            && (forall i, j :: 0 <= i <= j < |r| ==> Rank(r[i].right) <= Rank(r[j].right))
  {
    var ids := ParentStemsSpec(id, StemSeparator(cfg), RootId(cfg));
    var filter := Or(SgroupFilters(ids));
    GetParentsUnfold(cfg, search, id, user_dn);
    GetParentsRawIdsAreKeys(cfg, search, filter, user_dn, None);
    OrderedInheritedMeaning(GetParentsRaw(cfg, search, filter, user_dn, None).value, Reverse(ids));
  }

  // ------------------------------------------------------------ right on a group

  /** The loop of `get_right_and_parents`: the strongest of `best` and the parents' rights. */
  function RightsFold(parents: seq<SgroupOutAndRight>, best: Option<Right>): Option<Right>
  {
    if |parents| == 0 then best else RightsFold(parents[1..], Max(parents[0].right, best))
  }

  /** The fold gives the strongest right among `best` and the parents' rights. */
  lemma {:induction false} RightsFoldMeaning(parents: seq<SgroupOutAndRight>, best: Option<Right>)
    ensures var r := RightsFold(parents, best);
            && Rank(r) >= Rank(best)
            && (forall i :: 0 <= i < |parents| ==> Rank(r) >= Rank(parents[i].right))
            && (r == best || exists i :: 0 <= i < |parents| && r == parents[i].right)
  {
    if |parents| > 0 {
      var b := Max(parents[0].right, best);
      RightsFoldMeaning(parents[1..], b);
      assert forall i :: 1 <= i < |parents| ==> parents[i] == parents[1..][i - 1];
      var r := RightsFold(parents, best);
      if r != best && r != b {
        var i :| 0 <= i < |parents[1..]| && r == parents[1..][i].right;
        assert r == parents[i + 1].right;
      }
    }
  }

  /** The right `get_right_and_parents` starts from: `admin` for the trusted admin. */
  function SelfRight(cfg: LdapConfig, user_dn: LoggedUserDn, self_attrs: Entry): Result<Option<Right>>
  {
    EntryRight(cfg, user_dn, self_attrs)
  }

  /** What `get_right_and_parents` returns. */
  function GetRightAndParentsSpec(cfg: LdapConfig, search: SgroupSearcher, logged_user: LoggedUser, id: string, self_attrs: Entry)
    : Result<(Right, seq<SgroupOutAndRight>)>
    requires StemSeparator(cfg) != ""
  {
    var user_dn := UserDnOf(cfg, logged_user);
    match SelfRight(cfg, user_dn, self_attrs)
    case Err(msg) => Err(msg)
    case Ok(self_right) =>
      match GetParentsSpec(cfg, search, id, user_dn)
      case Err(msg) => Err(msg)
      case Ok(parents) => RightOrDeny(RightsFold(parents, self_right), parents, id)
  }

  /** The end of `get_right_and_parents`: the best right, or the refusal when there is none. */
  function RightOrDeny(best: Option<Right>, parents: seq<SgroupOutAndRight>, id: string): (r: Result<(Right, seq<SgroupOutAndRight>)>)
    ensures r.Err? <==> best.None?
    ensures r.Err? ==> r.msg == "no right to read sgroup \"" + id + "\""
    ensures r.Ok? ==> r.value == (best.value, parents)
  {
    if best.None? then Err("no right to read sgroup \"" + id + "\"") else Ok((best.value, parents))
  }

  /** `get_right_and_parents` */
  method GetRightAndParents(cfg: LdapConfig, search: SgroupSearcher, logged_user: LoggedUser, id: string, self_attrs: Entry)
    returns (r: Result<(Right, seq<SgroupOutAndRight>)>)
    requires StemSeparator(cfg) != ""
    ensures r == GetRightAndParentsSpec(cfg, search, logged_user, id, self_attrs)
  {
    var user_dn := UserDnOf(cfg, logged_user);
    var self_right: Option<Right>;
    if user_dn.TrustedAdminDn? {
      self_right := Some(Admin);
    } else {
      var highest := UserHighestRight(cfg, self_attrs, user_dn.dn);
      if highest.Err? {
        return Err(highest.msg);
      }
      self_right := highest.value;
    }
    var parents := GetParents(cfg, search, id, user_dn);
    if parents.Err? {
      return Err(parents.msg);
    }
    var best := self_right;
    for i := 0 to |parents.value|
      invariant RightsFold(parents.value, self_right) == RightsFold(parents.value[i..], best)
    {
      assert parents.value[i..][1..] == parents.value[i + 1..];
      best := Max(parents.value[i].right, best);
    }
    assert parents.value[|parents.value|..] == [];
    if best.None? {
      return Err("no right to read sgroup \"" + id + "\"");
    }
    return Ok((best.value, parents.value));
  }

  /**
   * Once the group's own right and the parents are known, the effective right
   * is their fold (whose meaning `RightOrDenyFold` states).
   */
  lemma GetRightAndParentsUnfold(cfg: LdapConfig, search: SgroupSearcher, logged_user: LoggedUser, id: string, self_attrs: Entry)
    requires StemSeparator(cfg) != ""
    requires SelfRight(cfg, UserDnOf(cfg, logged_user), self_attrs).Ok?
    requires GetParentsSpec(cfg, search, id, UserDnOf(cfg, logged_user)).Ok?
    ensures var self_right := SelfRight(cfg, UserDnOf(cfg, logged_user), self_attrs).value;
            var parents := GetParentsSpec(cfg, search, id, UserDnOf(cfg, logged_user)).value;
            GetRightAndParentsSpec(cfg, search, logged_user, id, self_attrs) == RightOrDeny(RightsFold(parents, self_right), parents, id)
  {
  }

  /** The right from a fold: the strongest found, or the refusal when none is. */
  lemma RightOrDenyFold(parents: seq<SgroupOutAndRight>, self_right: Option<Right>, id: string)
    ensures var r := RightOrDeny(RightsFold(parents, self_right), parents, id);
            && (r.Err? <==> self_right.None? && forall i :: 0 <= i < |parents| ==> parents[i].right.None?)
            && (r.Err? ==> r.msg == "no right to read sgroup \"" + id + "\"")
            && (r.Ok? ==> r.value.1 == parents && Rank(Some(r.value.0)) >= Rank(self_right))
            && (r.Ok? ==> forall i :: 0 <= i < |parents| ==> Rank(Some(r.value.0)) >= Rank(parents[i].right))
            && (r.Ok? ==> Some(r.value.0) == self_right || exists i :: 0 <= i < |parents| && Some(r.value.0) == parents[i].right)
            && (self_right == Some(Admin) ==> r == Ok((Admin, parents)))
  {
    RightsFoldMeaning(parents, self_right);
  }

  /** The trusted admin always gets `admin`, whatever the rights found. */
  lemma GetRightAndParentsTrustedAdmin(cfg: LdapConfig, search: SgroupSearcher, id: string, self_attrs: Entry)
    requires StemSeparator(cfg) != ""
    requires GetParentsSpec(cfg, search, id, TrustedAdminDn).Ok?
    ensures GetRightAndParentsSpec(cfg, search, TrustedAdmin, id, self_attrs) == Ok((Admin, GetParentsSpec(cfg, search, id, TrustedAdminDn).value))
  {
    var parents := GetParentsSpec(cfg, search, id, TrustedAdminDn).value;
    GetRightAndParentsUnfold(cfg, search, TrustedAdmin, id, self_attrs);
    RightOrDenyFold(parents, Some(Admin), id);
  }

  /**
   * Even the trusted admin is refused when a flattened attribute of the
   * rights at least as strong as `reader` is not configured.
   */
  lemma TrustedAdminNeedsFlattenedAttrs(cfg: LdapConfig, search: SgroupSearcher, id: string, self_attrs: Entry)
    requires StemSeparator(cfg) != ""
    requires ToAllowedFlattenedAttrs(cfg, Reader).Err?
    ensures GetRightAndParentsSpec(cfg, search, TrustedAdmin, id, self_attrs)
            == Err(ToAllowedFlattenedAttrs(cfg, Reader).msg)
  {
    var ids := ParentStemsSpec(id, StemSeparator(cfg), RootId(cfg));
    assert GetParentsRaw(cfg, search, Or(SgroupFilters(ids)), TrustedAdminDn, None).Err?;
  }

  // ------------------------------------------------------------ children

  /** What `get_children` keeps of one entry found: none for a DN naming no group, for the root (`""`) or for a grandchild. */
  function ChildPair(cfg: LdapConfig, id: string, e: (Dn, Entry)): Option<(string, MonoAttrs)>
  {
    var child_id := DnToSgroupId(cfg, e.0);
    if child_id.None? || child_id.value == "" || IsGrandchild(id, child_id.value, StemSeparator(cfg)) then None
    else Some((child_id.value, SimplifyHierarchicalOu(MonoAttrsOf(RawEntry(e.1), cfg.sgroup_attrs))))
  }

  /** What `get_children` keeps of an entry whose DN names the group `child`. */
  lemma ChildPairMeaning(cfg: LdapConfig, id: string, e: (Dn, Entry), child: string)
    requires DnToSgroupId(cfg, e.0) == Some(child)
    ensures ChildPair(cfg, id, e).Some? <==> child != "" && !IsGrandchild(id, child, StemSeparator(cfg))
    ensures ChildPair(cfg, id, e).Some? ==>
              ChildPair(cfg, id, e).value == (child, SimplifyHierarchicalOu(MonoAttrsOf(RawEntry(e.1), cfg.sgroup_attrs)))
  {
  }

  function ChildPairs(cfg: LdapConfig, id: string, found: seq<(Dn, Entry)>): (r: seq<Option<(string, MonoAttrs)>>)
    ensures |r| == |found| && forall i :: 0 <= i < |found| ==> r[i] == ChildPair(cfg, id, found[i])
  {
    if |found| == 0 then [] else [ChildPair(cfg, id, found[0])] + ChildPairs(cfg, id, found[1..])
  }

  /** The filter of `get_children`: the groups under `id`, narrowed by `sgroup_filter` when one is configured. */
  function ChildrenFilter(cfg: LdapConfig, id: string): string
  {
    And2IfSome(SgroupChildren(id), cfg.sgroup_filter)
  }

  /** `get_children` */
  function GetChildren(cfg: LdapConfig, search: SgroupSearcher, id: string): (r: MyMap<string, MonoAttrs>)
    ensures UniqueKeys(r)
  {
    FromOptionPairsSpec(ChildPairs(cfg, id, search(ChildrenFilter(cfg, id), None)))
  }

  /**
   * The children are exactly the non-root, non-grandchild ids of the groups
   * found, each with the simplified attributes of an entry found for it.
   */
  lemma GetChildrenLookup(cfg: LdapConfig, search: SgroupSearcher, id: string, child: string)
    ensures var found := search(ChildrenFilter(cfg, id), None);
            var got := Get(GetChildren(cfg, search, id), child);
            && (got.Some? <==> child != "" && !IsGrandchild(id, child, StemSeparator(cfg)) &&
                                exists i :: 0 <= i < |found| && DnToSgroupId(cfg, found[i].0) == Some(child))
            && (got.Some? ==>
                  exists i :: (0 <= i < |found| && DnToSgroupId(cfg, found[i].0) == Some(child) &&
                    got.value == SimplifyHierarchicalOu(MonoAttrsOf(RawEntry(found[i].1), cfg.sgroup_attrs))))
  {
    var found := search(ChildrenFilter(cfg, id), None);
    var pairs := ChildPairs(cfg, id, found);
    var got := Get(GetChildren(cfg, search, id), child);
    FromOptionPairsLookup(pairs, child);
    assert got == LastValue(pairs, child);
    LastValueSome(pairs, child);
    if child != "" && !IsGrandchild(id, child, StemSeparator(cfg)) && exists i :: 0 <= i < |found| && DnToSgroupId(cfg, found[i].0) == Some(child) {
      var i :| 0 <= i < |found| && DnToSgroupId(cfg, found[i].0) == Some(child);
      ChildPairMeaning(cfg, id, found[i], child);
      assert pairs[i].Some? && pairs[i].value.0 == child;
    }
    if got.Some? {
      var i :| 0 <= i < |pairs| && pairs[i] == Some((child, got.value));
      assert pairs[i] == ChildPair(cfg, id, found[i]);
      assert DnToSgroupId(cfg, found[i].0) == Some(child);
      ChildPairMeaning(cfg, id, found[i], child);
    }
  }

  // ------------------------------------------------------------ remote queries

  /** `JSON.stringify` of a `to_subject_source`, an absent `id_attr` left out. */
  function ToSubjectSourceJson(tss: ToSubjectSource): string
  {
    "{\"ssdn\":" + JsonQuote(tss.ssdn) + (if tss.id_attr.Some? then ",\"id_attr\":" + JsonQuote(tss.id_attr.value) else "") + "}"
  }

  /**
   * The DN in the message reads back from it: the `ssdn` member is the JSON
   * string of the DN, whatever `\` or `"` it holds.
   */
  lemma ToSubjectSourceJsonReadBack(tss: ToSubjectSource)
    ensures var text := ToSubjectSourceJson(tss);
            var body := JsonEscape(tss.ssdn);
            && text[..9 + |body|] == "{\"ssdn\":\"" + body
            && text[9 + |body|] == '"'
            && JsonUnescape(body) == Some(tss.ssdn)
  {
    JsonEscapeRoundTrip(tss.ssdn);
  }

  /** A DN escape such as `cn=a\,b` has its backslash doubled in the message. */
  lemma ToSubjectSourceJsonBackslash()
    ensures ToSubjectSourceJson(ToSubjectSource("cn=a\\,b", None)) == "{\"ssdn\":\"cn=a\\\\,b\"}"
  {
    EscapedDnComma();
    assert ToSubjectSourceJson(ToSubjectSource("cn=a\\,b", None)) == "{\"ssdn\":" + ("\"" + "cn=a\\\\,b" + "\"") + "" + "}";
  }

  lemma EscapedDnComma()
    ensures JsonEscape("cn=a\\,b") == "cn=a\\\\,b"
  {
    var a, b := "cn=a", ",b";
    assert "cn=a\\,b" == a + "\\" + b;
    JsonEscapeAppend(a + "\\", b);
    JsonEscapeAppend(a, "\\");
    JsonEscapePlain(a);
    JsonEscapePlain(b);
    JsonEscapeBackslash();
    assert a + "\\\\" + b == "cn=a\\\\,b";
  }

  lemma JsonEscapeBackslash()
    ensures JsonEscape("\\") == "\\\\"
  {
    assert JsonEscape("\\") == JsonEscapeChar('\\') + JsonEscape("");
  }

  /** A subject source of the configuration has this DN. */
  predicate KnownSubjectSource(cfg: LdapConfig, ssdn: Dn)
  {
    exists ss :: ss in cfg.subject_sources && ss.dn == ssdn
  }

  /** `validate_remote`: the checks in order, the first failing one giving the error. */
  function ValidateRemote(cfg: Config, remote: RemoteQuery): (r: Outcome)
    ensures r.Pass? <==>
              && (remote.Sql? ==> remote.RemoteCfgName() != "")
              && (remote.RemoteCfgName() != "" ==> remote.RemoteCfgName() in cfg.remotes)
              && (remote.Sql? && remote.sql.to_subject_source.Some? ==> KnownSubjectSource(cfg.ldap, remote.sql.to_subject_source.value.ssdn))
    ensures remote.Sql? && remote.RemoteCfgName() == "" ==> r == Fail("remote_cfg_name is mandatory for remote SQL query")
    ensures remote.RemoteCfgName() != "" && remote.RemoteCfgName() !in cfg.remotes ==>
              r == Fail("unknown remote_cfg_name " + remote.RemoteCfgName())
    ensures (remote.Sql? ==> remote.RemoteCfgName() != "") &&
            (remote.RemoteCfgName() != "" ==> remote.RemoteCfgName() in cfg.remotes) &&
            remote.Sql? && remote.sql.to_subject_source.Some? && !KnownSubjectSource(cfg.ldap, remote.sql.to_subject_source.value.ssdn) ==>
              r == Fail("unknown to_subject_source.ssdn " + ToSubjectSourceJson(remote.sql.to_subject_source.value))
  {
    if remote.Sql? && remote.RemoteCfgName() == "" then Fail("remote_cfg_name is mandatory for remote SQL query")
    else if remote.RemoteCfgName() != "" && remote.RemoteCfgName() !in cfg.remotes then Fail("unknown remote_cfg_name " + remote.RemoteCfgName())
    else if remote.Sql? && remote.sql.to_subject_source.Some? && !KnownSubjectSource(cfg.ldap, remote.sql.to_subject_source.value.ssdn) then
      Fail("unknown to_subject_source.ssdn " + ToSubjectSourceJson(remote.sql.to_subject_source.value))
    else Pass
  }

  /** A validated SQL query names a configured remote: running it fails only on a driver that is not SQL. */
  lemma ValidSqlRemoteIsKnown(cfg: Config, q: RemoteSqlQuery, run: SqlRunner)
    requires ValidateRemote(cfg, Sql(q)).Pass?
    ensures q.remote_cfg_name in cfg.remotes
    ensures SqlQuery(cfg.remotes, q, run) ==
              if IsSqlDriver(cfg.remotes[q.remote_cfg_name].driver) then run(cfg.remotes[q.remote_cfg_name], q.select_query)
              else Err("internal error: remote is not SQL " + q.remote_cfg_name)
  {
  }

  /**
   * `validate_remote` lets an LDAP query on the main directory (remote name
   * `""`) through, which `ldap_query` then rejects as an unknown remote.
   */
  lemma ValidLocalhostQueryStillFails(cfg: Config, q: RemoteLdapQuery, search: LdapSearcher)
    requires q.remote_cfg_name == "" && "" !in cfg.remotes
    ensures ValidateRemote(cfg, Ldap(q)).Pass?
    ensures LdapQuery(cfg.remotes, q, cfg.ldap.base_dn, search) == Err("internal error: unknown remote ")
  {
  }

  /** `parse_remote_query`: the SQL form first, then the LDAP form. */
  function ParseRemoteQuery(rq: string, parse: LdapUrlParser): (r: Result<RemoteQuery>)
  {
    match ParseSqlUrl(rq)
    case Err(msg) => Err(msg)
    case Ok(Some(q)) => Ok(Sql(q))
    case Ok(None) =>
      match ParseLdapUrl(rq, parse)
      case Err(msg) => Err(msg)
      case Ok(Some(q)) => Ok(Ldap(q))
      case Ok(None) => Err("invalid remote query " + rq)
  }

  /** A serialisable SQL query is read back from its URL. */
  lemma ParseRemoteQuerySql(q: RemoteSqlQuery, parse: LdapUrlParser)
    requires Serialisable(q)
    ensures ParseRemoteQuery(ToSqlUrl(q), parse) == Ok(Sql(q))
  {
    SqlUrlRoundTrip(q);
  }

  /** An LDAP query on a named remote is read back from its URL, once the URL library splits it into its parts. */
  lemma ParseRemoteQueryLdap(rlq: RemoteLdapQuery, parse: LdapUrlParser)
    requires rlq.remote_cfg_name !in {"", "localhost"} && rlq.remote_cfg_name[0] != '/' && rlq.forced_periodicity.None?
    requires parse(ToLdapUrl(rlq)) ==
               LdapUrlParts(rlq.remote_cfg_name, rlq.dn, if rlq.attribute.Some? then Some([rlq.attribute.value]) else None, rlq.filter)
    ensures ParseRemoteQuery(ToLdapUrl(rlq), parse) == Ok(Ldap(rlq))
  {
    var url := ToLdapUrl(rlq);
    assert url[0] == 'l';
    assert !("sql:" <= url);
    LdapUrlRoundTrip(rlq, parse);
  }

  /** Text in neither form, and the member URLs of a group, are not remote queries. */
  lemma ParseRemoteQueryRejects(rq: string, parse: LdapUrlParser)
    requires !("sql:" <= rq)
    requires !("ldap:" <= rq) || UrlToDn(rq).Some?
    ensures ParseRemoteQuery(rq, parse) == Err("invalid remote query " + rq)
  {
  }

  /** A group's member URL is not a remote query. */
  lemma MemberUrlIsNotRemoteQuery(dn: Dn, opts: DirectOptions, parse: LdapUrlParser)
    requires NoQuestionMark(dn)
    ensures ParseRemoteQuery(DnOptsToUrl(dn, opts), parse) == Err("invalid remote query " + DnOptsToUrl(dn, opts))
  {
    var url := DnOptsToUrl(dn, opts);
    MemberUrlRoundTrip(dn, opts);
    assert url[0] == 'l';
    assert !("sql:" <= url);
    MemberUrlIsNotRemote(dn, opts, parse);
  }

  // ------------------------------------------------------------ testing a remote query

  datatype TestRemoteQueryOut = TestRemoteQueryOut(count: nat, values: seq<string>, values_truncated: bool,
                                                   ss_guess: Option<(ToSubjectSource, DnsOpts)>)

  const MaxValues: nat := 10

  /** The extract `test_remote_query` returns: the first `MaxValues` values. */
  function Extract(all: seq<string>): (r: seq<string>)
    ensures r <= all
    ensures |r| <= MaxValues
    ensures r == all <==> |all| <= MaxValues
  {
    if |all| <= MaxValues then all else all[..MaxValues]
  }

  /** The values a remote query gives: the selected values, or the DNs the LDAP search finds. */
  function RemoteValues(cfg: Config, run: SqlRunner, ldap_search: LdapSearcher, rq: RemoteQuery): (r: Result<seq<string>>)
  {
    match rq
    case Sql(q) => SqlQuery(cfg.remotes, q, run)
    case Ldap(q) =>
      match LdapQuery(cfg.remotes, q, cfg.ldap.base_dn, ldap_search)
      case Err(msg) => Err(msg)
      case Ok(dns) => Ok(Keys(dns))
  }

  /** The values of a valid LDAP query are distinct DNs, each found by the search. */
  lemma RemoteValuesLdap(cfg: Config, run: SqlRunner, ldap_search: LdapSearcher, q: RemoteLdapQuery)
    requires RemoteValues(cfg, run, ldap_search, Ldap(q)).Ok?
    ensures var values := RemoteValues(cfg, run, ldap_search, Ldap(q)).value;
            var remote_cfg := cfg.remotes[q.remote_cfg_name];
            && q.remote_cfg_name in cfg.remotes && remote_cfg.driver == "ldap"
            && (forall i, j :: 0 <= i < j < |values| ==> values[i] != values[j])
            && forall v :: v in values ==>
                 v in ldap_search(Some(remote_cfg), SearchBase(Some(remote_cfg), q, cfg.ldap.base_dn).value, QueryFilter(q))
  {
    var dns := LdapQuery(cfg.remotes, q, cfg.ldap.base_dn, ldap_search).value;
    forall v | v in Keys(dns)
      ensures v in KeySet(dns)
    {
      var i :| 0 <= i < |dns| && Keys(dns)[i] == v;
      KeySetIndex(dns, v);
    }
  }

  /**
   * `test_remote_query`: after the id, the remote and the admin right are
   * checked, the number of values, an extract of at most ten, and a guess of
   * the subject source for a non-empty SQL result.
   */
  method TestRemoteQuery(cfg: Config, es: Store, run: SqlRunner, ldap_search: LdapSearcher, logged_user: LoggedUser, id: string, rq: RemoteQuery)
    returns (r: Result<TestRemoteQueryOut>)
    requires StemSeparator(cfg.ldap) != ""
    ensures !ValidSgroupId(id, StemSeparator(cfg.ldap), RootId(cfg.ldap)) ==> r == Err("invalid sgroup id")
    ensures ValidSgroupId(id, StemSeparator(cfg.ldap), RootId(cfg.ldap)) && ValidateRemote(cfg, rq).Fail? ==>
              r == Err(ValidateRemote(cfg, rq).msg)
    ensures ValidSgroupId(id, StemSeparator(cfg.ldap), RootId(cfg.ldap)) && ValidateRemote(cfg, rq).Pass? &&
            CheckRightOnSelfOrAnyParents(cfg.ldap, es, logged_user, id, Admin).Fail? ==>
              r == Err(CheckRightOnSelfOrAnyParents(cfg.ldap, es, logged_user, id, Admin).msg)
    ensures r.Ok? <==>
              && ValidSgroupId(id, StemSeparator(cfg.ldap), RootId(cfg.ldap))
              && ValidateRemote(cfg, rq).Pass?
              && CheckRightOnSelfOrAnyParents(cfg.ldap, es, logged_user, id, Admin).Pass?
              && RemoteValues(cfg, run, ldap_search, rq).Ok?
    ensures r.Ok? ==>
              var all := RemoteValues(cfg, run, ldap_search, rq).value;
              && r.value.count == |all|
              && r.value.values == Extract(all)
              && (r.value.values_truncated <==> |all| > MaxValues)
              && (r.value.ss_guess.Some? ==> rq.Sql? && |all| > 0 && !AllDns(cfg.ldap, r.value.values))
              && (rq.Sql? && |all| > 0 && AllDns(cfg.ldap, r.value.values) ==> r.value.ss_guess.None?)
  {
    var valid := ValidateSgroupId(id, StemSeparator(cfg.ldap), RootId(cfg.ldap));
    if valid.Fail? {
      return Err(valid.msg);
    }
    var remote_ok := ValidateRemote(cfg, rq);
    if remote_ok.Fail? {
      return Err(remote_ok.msg);
    }
    var allowed := CheckRightOnSelfOrAnyParents(cfg.ldap, es, logged_user, id, Admin);
    if allowed.Fail? {
      return Err(allowed.msg);
    }
    var all_values := RemoteValues(cfg, run, ldap_search, rq);
    if all_values.Err? {
      return Err(all_values.msg);
    }
    var count := |all_values.value|;
    var values := Extract(all_values.value);
    var ss_guess: Option<(ToSubjectSource, DnsOpts)> := None;
    if count > 0 && rq.Sql? {
      ss_guess := GuessSubjectSource(cfg.ldap, es, values);
    }
    return Ok(TestRemoteQueryOut(count, values, count > MaxValues, ss_guess));
  }

  // ------------------------------------------------------------ searching groups

  /** The string with its leading white space removed. */
  function SkipWs(s: string): (r: string)
    ensures |r| <= |s| && r == s[|s| - |r|..]
    ensures |r| > 0 ==> !IsWhitespace(r[0])
    ensures |s| > 0 && IsWhitespace(s[0]) ==> |r| < |s|
    ensures forall i :: 0 <= i < |s| - |r| ==> IsWhitespace(s[i])
  {
    if |s| > 0 && IsWhitespace(s[0]) then
      var r := SkipWs(s[1..]);
      assert forall i :: 1 <= i < |s| - |r| ==> s[i] == s[1..][i - 1];
      r
    else s
  }

  /** The split of `cur + s` on runs of white space, `cur` being a token begun. */
  function SplitWsFrom(s: string, cur: string): (r: seq<string>)
    ensures |r| >= 1
    decreases |s|
  {
    if |s| == 0 then [cur]
    else if IsWhitespace(s[0]) then [cur] + SplitWsFrom(SkipWs(s), "")
    else SplitWsFrom(s[1..], cur + [s[0]])
  }

  /** `s.split(/\s+/)` */
  function SplitWs(s: string): seq<string>
  {
    SplitWsFrom(s, "")
  }

  /** The characters of `s` that are not white space. */
  function RemoveWs(s: string): (r: string)
  {
    if |s| == 0 then "" else (if IsWhitespace(s[0]) then "" else [s[0]]) + RemoveWs(s[1..])
  }

  predicate HasWs(s: string)
  {
    exists i :: 0 <= i < |s| && IsWhitespace(s[i])
  }

  lemma {:induction false} RemoveWsSkip(s: string)
    ensures RemoveWs(s) == RemoveWs(SkipWs(s))
  {
    if |s| > 0 && IsWhitespace(s[0]) {
      RemoveWsSkip(s[1..]);
    }
  }

  /** No token holds white space. */
  lemma {:induction false} SplitWsFromNoWs(s: string, cur: string)
    requires !HasWs(cur)
    ensures forall t :: t in SplitWsFrom(s, cur) ==> !HasWs(t)
    decreases |s|
  {
    if |s| > 0 && IsWhitespace(s[0]) {
      SplitWsFromNoWs(SkipWs(s), "");
    } else if |s| > 0 {
      var cur' := cur + [s[0]];
      assert forall i :: 0 <= i < |cur| ==> cur'[i] == cur[i];
      SplitWsFromNoWs(s[1..], cur');
    }
  }

  /** The tokens put together are the begun token and the string without its white space. */
  lemma {:induction false} SplitWsFromConcat(s: string, cur: string)
    ensures Concat(SplitWsFrom(s, cur)) == cur + RemoveWs(s)
    decreases |s|
  {
    if |s| == 0 {
      assert Concat([cur]) == cur + Concat([]);
    } else if IsWhitespace(s[0]) {
      var rest := SplitWsFrom(SkipWs(s), "");
      SplitWsFromConcat(SkipWs(s), "");
      RemoveWsSkip(s);
      assert ([cur] + rest)[1..] == rest;
    } else {
      SplitWsFromConcat(s[1..], cur + [s[0]]);
      assert cur + RemoveWs(s) == (cur + [s[0]]) + RemoveWs(s[1..]);
    }
  }

  /** The split gives more than one token exactly when the string holds white space. */
  lemma {:induction false} SplitWsFromCount(s: string, cur: string)
    ensures |SplitWsFrom(s, cur)| > 1 <==> HasWs(s)
    decreases |s|
  {
    if |s| > 0 && !IsWhitespace(s[0]) {
      SplitWsFromCount(s[1..], cur + [s[0]]);
      if HasWs(s) {
        var i :| 0 <= i < |s| && IsWhitespace(s[i]);
        assert IsWhitespace(s[1..][i - 1]);
      }
      if HasWs(s[1..]) {
        var i :| 0 <= i < |s[1..]| && IsWhitespace(s[1..][i]);
        assert IsWhitespace(s[i + 1]);
      }
    }
  }

  /**
   * The tokens of `search_sgroups`: none holds white space, together they are
   * the search text without its white space, and there are several exactly
   * when the text holds white space.
   */
  lemma SplitWsMeaning(s: string)
    ensures forall t :: t in SplitWs(s) ==> !HasWs(t)
    ensures Concat(SplitWs(s)) == RemoveWs(s)
    ensures |SplitWs(s)| > 1 <==> HasWs(s)
  {
    SplitWsFromNoWs(s, "");
    SplitWsFromConcat(s, "");
    SplitWsFromCount(s, "");
  }

  /** The subject-source search filter for each token. */
  function TokenFilters(sscfg: SubjectSourceConfig, tokens: seq<string>): (r: seq<string>)
    ensures |r| == |tokens| && forall i :: 0 <= i < |tokens| ==> r[i] == SearchFilter(sscfg, tokens[i])
  {
    if |tokens| == 0 then [] else [SearchFilter(sscfg, tokens[0])] + TokenFilters(sscfg, tokens[1..])
  }

  /**
   * The term filters of `search_sgroups`: the filter for the whole text, then,
   * for several tokens, the AND of the filters of each token.
   */
  function TermFilters(cfg: LdapConfig, search_token: string): (r: Result<seq<string>>)
    ensures r.Err? <==> SgroupSscfg(cfg).Err?
    ensures r.Ok? ==> |r.value| == (if HasWs(search_token) then 2 else 1)
    ensures r.Ok? ==> r.value[0] == SearchFilter(SgroupSscfg(cfg).value, search_token)
    ensures r.Ok? && HasWs(search_token) ==> r.value[1] == And(TokenFilters(SgroupSscfg(cfg).value, SplitWs(search_token)))
  {
    SplitWsMeaning(search_token);
    match SgroupSscfg(cfg)
    case Err(msg) => Err(msg)
    case Ok(sscfg) =>
      var search_tokens := SplitWs(search_token);
      var term_filters := [SearchFilter(sscfg, search_token)];
      if |search_tokens| > 1 then Ok(term_filters + [And(TokenFilters(sscfg, search_tokens))]) else Ok(term_filters)
  }

  /** The DNs of the entries found. */
  function DnsOf(found: seq<(Dn, Entry)>): (r: seq<Dn>)
    ensures |r| == |found| && forall i :: 0 <= i < |found| ==> r[i] == found[i].0
  {
    if |found| == 0 then [] else [found[0].0] + DnsOf(found[1..])
  }

  /** `get_all_stems_id_with_user_right`: the ids of the stems on which the user holds the right directly. */
  function StemsIdWithUserRight(cfg: LdapConfig, search: SgroupSearcher, user_dn: Dn, right: Right): (r: Result<seq<string>>)
    ensures UserHasRightOnSgroupFilter(cfg, user_dn, right).Err? ==> r.Err?
    ensures UserHasRightOnSgroupFilter(cfg, user_dn, right).Ok? ==>
              var found := search(And2(cfg.stem.filter, UserHasRightOnSgroupFilter(cfg, user_dn, right).value), None);
              && (r.Ok? <==> forall i :: 0 <= i < |found| ==> DnToSgroupId(cfg, found[i].0).Some?)
              && (r.Ok? ==> |r.value| == |found| && forall i :: 0 <= i < |found| ==> Some(r.value[i]) == DnToSgroupId(cfg, found[i].0))
  {
    match UserHasRightOnSgroupFilter(cfg, user_dn, right)
    case Err(msg) => Err(msg)
    case Ok(f) => Sgroups.DnsToSgroupIds(cfg, DnsOf(search(And2(cfg.stem.filter, f), None)))
  }

  /** `sgroup_self_and_children` of each stem. */
  function SelfAndChildrenFilters(ids: seq<string>): (r: seq<string>)
    ensures |r| == |ids| && forall i :: 0 <= i < |ids| ==> r[i] == SgroupSelfAndChildren(ids[i])
  {
    if |ids| == 0 then [] else [SgroupSelfAndChildren(ids[0])] + SelfAndChildrenFilters(ids[1..])
  }

  /**
   * `user_right_filter`: the OR of the user's direct-right tests and of the
   * filters selecting each stem with the right and everything under it.
   */
  function UserRightFilter(cfg: LdapConfig, search: SgroupSearcher, user: string, right: Right): (r: Result<string>)
    ensures r.Ok? <==> UserHasDirectRightOnGroupFilter(cfg, PeopleIdToDn(cfg, user), right).Ok? &&
                       StemsIdWithUserRight(cfg, search, PeopleIdToDn(cfg, user), right).Ok?
    ensures r.Ok? ==> r.value == Or(UserHasDirectRightOnGroupFilter(cfg, PeopleIdToDn(cfg, user), right).value +
                                    SelfAndChildrenFilters(StemsIdWithUserRight(cfg, search, PeopleIdToDn(cfg, user), right).value))
  {
    var user_dn := PeopleIdToDn(cfg, user);
    match UserHasDirectRightOnGroupFilter(cfg, user_dn, right)
    case Err(msg) => Err(msg)
    case Ok(direct) =>
      match StemsIdWithUserRight(cfg, search, user_dn, right)
      case Err(msg) => Err(msg)
      case Ok(stems) => Ok(Or(direct + SelfAndChildrenFilters(stems)))
  }

  /** `_.compact` on strings: the empty ones dropped, the order kept. */
  function CompactStrings(l: seq<string>): (r: seq<string>)
    ensures forall x :: x in r <==> x in l && x != ""
    ensures |r| <= |l|
  {
    if |l| == 0 then []
    else if l[0] == "" then CompactStrings(l[1..])
    else [l[0]] + CompactStrings(l[1..])
  }

  /** The filter a user searches with for one term filter: the AND of the right filter, the term and `sgroup_filter`. */
  function RestrictedFilter(right_filter: string, term_filter: string, sgroup_filter: Option<string>): string
  {
    And(CompactStrings([right_filter, term_filter] + (if sgroup_filter.Some? then [sgroup_filter.value] else [])))
  }

  function RestrictedFilters(right_filter: string, term_filters: seq<string>, sgroup_filter: Option<string>): (r: seq<string>)
    ensures |r| == |term_filters|
    ensures forall i :: 0 <= i < |term_filters| ==> r[i] == RestrictedFilter(right_filter, term_filters[i], sgroup_filter)
  {
    if |term_filters| == 0 then []
    else [RestrictedFilter(right_filter, term_filters[0], sgroup_filter)] + RestrictedFilters(right_filter, term_filters[1..], sgroup_filter)
  }

  /** The filters `search_sgroups` searches with. */
  function GroupFilters(cfg: LdapConfig, search: SgroupSearcher, logged_user: LoggedUser, right: Right, search_token: string): (r: Result<seq<string>>)
  {
    match TermFilters(cfg, search_token)
    case Err(msg) => Err(msg)
    case Ok(term_filters) =>
      match logged_user
      case TrustedAdmin => Ok(term_filters)
      case User(user) =>
        match UserRightFilter(cfg, search, user, right)
        case Err(msg) => Err(msg)
        case Ok(right_filter) => Ok(RestrictedFilters(right_filter, term_filters, cfg.sgroup_filter))
  }

  /**
   * The trusted admin searches with the term filters alone; a user searches
   * with the same filters, each ANDed with the user's right filter and
   * `sgroup_filter`. Either way there are two filters exactly when the search
   * text holds white space.
   */
  lemma GroupFiltersMeaning(cfg: LdapConfig, search: SgroupSearcher, user: string, right: Right, search_token: string)
    ensures GroupFilters(cfg, search, TrustedAdmin, right, search_token) == TermFilters(cfg, search_token)
    ensures var admin := GroupFilters(cfg, search, TrustedAdmin, right, search_token);
            var filters := GroupFilters(cfg, search, User(user), right, search_token);
            var right_filter := UserRightFilter(cfg, search, user, right);
            && (filters.Ok? <==> admin.Ok? && right_filter.Ok?)
            && (filters.Ok? ==> |filters.value| == |admin.value| == (if HasWs(search_token) then 2 else 1))
            && (filters.Ok? ==> forall i :: 0 <= i < |filters.value| ==>
                  filters.value[i] == RestrictedFilter(right_filter.value, admin.value[i], cfg.sgroup_filter))
  {
    var terms := TermFilters(cfg, search_token);
    var right_filter := UserRightFilter(cfg, search, user, right);
    if terms.Ok? && right_filter.Ok? {
      assert GroupFilters(cfg, search, User(user), right, search_token) == Ok(RestrictedFilters(right_filter.value, terms.value, cfg.sgroup_filter));
    }
  }

  /** The right filter, the term and a non-empty `sgroup_filter` all take part in a user's filter. */
  lemma RestrictedFilterParts(right_filter: string, term_filter: string, sgroup_filter: Option<string>)
    requires right_filter != "" && term_filter != ""
    ensures var parts := CompactStrings([right_filter, term_filter] + (if sgroup_filter.Some? then [sgroup_filter.value] else []));
            && RestrictedFilter(right_filter, term_filter, sgroup_filter) == And(parts)
            && right_filter in parts && term_filter in parts
            && (sgroup_filter.Some? && sgroup_filter.value != "" ==> sgroup_filter.value in parts)
            && (forall x :: x in parts ==> x == right_filter || x == term_filter || (sgroup_filter.Some? && x == sgroup_filter.value))
  {
    var l := [right_filter, term_filter] + (if sgroup_filter.Some? then [sgroup_filter.value] else []);
    assert right_filter == l[0] && term_filter == l[1];
    if sgroup_filter.Some? {
      assert sgroup_filter.value == l[2];
    }
  }

  /** All the entries the searches find, one filter after the other. */
  function AllFound(search: SgroupSearcher, filters: seq<string>, sizeLimit: Option<nat>): seq<(Dn, Entry)>
  {
    if |filters| == 0 then []
    else AllFound(search, filters[..|filters| - 1], sizeLimit) + search(filters[|filters| - 1], sizeLimit)
  }

  /** What `search_sgroups_with_attrs` keeps of one entry found: none for a DN naming no group or for the root `""`. */
  function SgroupPair(cfg: LdapConfig, e: (Dn, Entry)): Option<(string, MonoAttrs)>
  {
    var id := DnToSgroupId(cfg, e.0);
    if id.Some? && id.value != "" then Some((id.value, MonoAttrsOf(RawEntry(e.1), cfg.sgroup_attrs))) else None
  }

  function SgroupPairs(cfg: LdapConfig, entries: seq<(Dn, Entry)>): (r: seq<Option<(string, MonoAttrs)>>)
    ensures |r| == |entries| && forall i :: 0 <= i < |entries| ==> r[i] == SgroupPair(cfg, entries[i])
  {
    if |entries| == 0 then [] else [SgroupPair(cfg, entries[0])] + SgroupPairs(cfg, entries[1..])
  }

  /** What `search_sgroups_with_attrs` builds from the entries found: each group by id, a later entry overwriting. */
  function SgroupsWithAttrsSpec(cfg: LdapConfig, entries: seq<(Dn, Entry)>): (r: MyMap<string, MonoAttrs>)
    ensures UniqueKeys(r)
  {
    FromOptionPairsSpec(SgroupPairs(cfg, entries))
  }

  /**
   * The groups found by id: an id is present exactly when some entry found
   * has it (the root `""` excepted), bound to the attributes of such an
   * entry, the last one found.
   */
  lemma SgroupsWithAttrsLookup(cfg: LdapConfig, entries: seq<(Dn, Entry)>, id: string)
    ensures var got := Get(SgroupsWithAttrsSpec(cfg, entries), id);
            && got == LastValue(SgroupPairs(cfg, entries), id)
            && (got.Some? <==> id != "" && exists i :: 0 <= i < |entries| && DnToSgroupId(cfg, entries[i].0) == Some(id))
            && (got.Some? ==> exists i :: (0 <= i < |entries| && DnToSgroupId(cfg, entries[i].0) == Some(id) &&
                  got.value == MonoAttrsOf(RawEntry(entries[i].1), cfg.sgroup_attrs)))
  {
    var pairs := SgroupPairs(cfg, entries);
    FromOptionPairsLookup(pairs, id);
    LastValueSome(pairs, id);
    var got := LastValue(pairs, id);
    if id != "" && exists i :: 0 <= i < |entries| && DnToSgroupId(cfg, entries[i].0) == Some(id) {
      var i :| 0 <= i < |entries| && DnToSgroupId(cfg, entries[i].0) == Some(id);
      assert pairs[i] == SgroupPair(cfg, entries[i]);
      assert pairs[i].Some? && pairs[i].value.0 == id;
    }
    if got.Some? {
      var i :| 0 <= i < |pairs| && pairs[i] == Some((id, got.value));
      assert pairs[i] == SgroupPair(cfg, entries[i]);
      assert DnToSgroupId(cfg, entries[i].0) == Some(id) && id != "";
      assert got.value == MonoAttrsOf(RawEntry(entries[i].1), cfg.sgroup_attrs);
    }
  }

  /** One more entry found: its pair is added last. */
  lemma SgroupPairsSnoc(cfg: LdapConfig, entries: seq<(Dn, Entry)>, e: (Dn, Entry))
    ensures SgroupPairs(cfg, entries + [e]) == SgroupPairs(cfg, entries) + [SgroupPair(cfg, e)]
  {
    var pairs := SgroupPairs(cfg, entries + [e]);
    assert forall i :: 0 <= i < |entries| ==> (entries + [e])[i] == entries[i];
  }

  /** `fromOptionPairs` with one more pair: a present pair is put last, an absent one changes nothing. */
  lemma FromOptionPairsSnoc<K(!new), V>(pairs: seq<Option<(K, V)>>, x: Option<(K, V)>)
    ensures FromOptionPairsSpec(pairs + [x]) ==
              if x.Some? then Put(FromOptionPairsSpec(pairs), x.value.0, x.value.1) else FromOptionPairsSpec(pairs)
  {
    assert (pairs + [x])[..|pairs|] == pairs;
  }

  /** One more entry found: a group it names (other than the root) is put with its attributes. */
  lemma SgroupsWithAttrsSnoc(cfg: LdapConfig, entries: seq<(Dn, Entry)>, e: (Dn, Entry))
    ensures var id := DnToSgroupId(cfg, e.0);
            SgroupsWithAttrsSpec(cfg, entries + [e]) ==
              if id.Some? && id.value != "" then Put(SgroupsWithAttrsSpec(cfg, entries), id.value, MonoAttrsOf(RawEntry(e.1), cfg.sgroup_attrs))
              else SgroupsWithAttrsSpec(cfg, entries)
  {
    SgroupPairsSnoc(cfg, entries, e);
    FromOptionPairsSnoc(SgroupPairs(cfg, entries), SgroupPair(cfg, e));
  }

  lemma AppendPrefixStep<T>(before: seq<T>, found: seq<T>, j: nat)
    requires j < |found|
    ensures before + found[..j + 1] == (before + found[..j]) + [found[j]]
  {
    assert found[..j + 1] == found[..j] + [found[j]];
  }

  /** One more filter: its entries come after those of the filters before it. */
  lemma AllFoundSnoc(search: SgroupSearcher, filters: seq<string>, k: nat, sizeLimit: Option<nat>)
    requires k < |filters|
    ensures AllFound(search, filters[..k + 1], sizeLimit) == AllFound(search, filters[..k], sizeLimit) + search(filters[k], sizeLimit)
  {
    assert filters[..k + 1][..k] == filters[..k];
  }

  /** The inner loop of `search_sgroups_with_attrs`: the groups of one search added by id. */
  method AddFoundSgroups(cfg: LdapConfig, ghost before: seq<(Dn, Entry)>, id2attrs0: MyMap<string, MonoAttrs>, found: seq<(Dn, Entry)>)
    returns (id2attrs: MyMap<string, MonoAttrs>)
    requires id2attrs0 == SgroupsWithAttrsSpec(cfg, before)
    ensures id2attrs == SgroupsWithAttrsSpec(cfg, before + found)
  {
    id2attrs := id2attrs0;
    assert before + found[..0] == before;
    for j := 0 to |found|
      invariant id2attrs == SgroupsWithAttrsSpec(cfg, before + found[..j])
    {
      AppendPrefixStep(before, found, j);
      SgroupsWithAttrsSnoc(cfg, before + found[..j], found[j]);
      var id := DnToSgroupId(cfg, found[j].0);
      if id.Some? && id.value != "" {
        id2attrs := Put(id2attrs, id.value, MonoAttrsOf(RawEntry(found[j].1), cfg.sgroup_attrs));
      }
    }
    assert found[..|found|] == found;
  }

  /** `search_sgroups_with_attrs` */
  method SearchSgroupsWithAttrs(cfg: LdapConfig, search: SgroupSearcher, filters: seq<string>, sizeLimit: Option<nat>)
    returns (id2attrs: MyMap<string, MonoAttrs>)
    ensures id2attrs == SgroupsWithAttrsSpec(cfg, AllFound(search, filters, sizeLimit))
  {
    id2attrs := [];
    for k := 0 to |filters|
      invariant id2attrs == SgroupsWithAttrsSpec(cfg, AllFound(search, filters[..k], sizeLimit))
    {
      var found := search(filters[k], sizeLimit);
      id2attrs := AddFoundSgroups(cfg, AllFound(search, filters[..k], sizeLimit), id2attrs, found);
      AllFoundSnoc(search, filters, k, sizeLimit);
    }
    assert filters[..|filters|] == filters;
  }

  /** `search_sgroups` */
  method SearchSgroups(cfg: LdapConfig, search: SgroupSearcher, logged_user: LoggedUser, right: Right, search_token: string, sizeLimit: nat)
    returns (r: Result<MyMap<string, MonoAttrs>>)
    ensures r.Err? <==> GroupFilters(cfg, search, logged_user, right, search_token).Err?
    ensures r.Ok? ==> r.value == SgroupsWithAttrsSpec(cfg, AllFound(search, GroupFilters(cfg, search, logged_user, right, search_token).value, Some(sizeLimit)))
  {
    var group_filters := GroupFilters(cfg, search, logged_user, right, search_token);
    if group_filters.Err? {
      return Err(group_filters.msg);
    }
    var found := SearchSgroupsWithAttrs(cfg, search, group_filters.value, Some(sizeLimit));
    return Ok(found);
  }

  /** The filter of `mygroups`: the groups on which the user holds `updater` or better directly. */
  function MyGroupsFilter(cfg: LdapConfig, user: string): (r: Result<string>)
    ensures r.Ok? <==> UserHasDirectRightOnGroupFilter(cfg, PeopleIdToDn(cfg, user), Updater).Ok?
    ensures r.Ok? ==> r.value == And2(Or(UserHasDirectRightOnGroupFilter(cfg, PeopleIdToDn(cfg, user), Updater).value), cfg.group_filter)
  {
    match UserHasDirectRightOnGroupFilter(cfg, PeopleIdToDn(cfg, user), Updater)
    case Err(msg) => Err(msg)
    case Ok(filters) => Ok(And2(Or(filters), cfg.group_filter))
  }

  /** `mygroups`: refused to the trusted admin; otherwise the groups found with `MyGroupsFilter`. */
  method MyGroups(cfg: LdapConfig, search: SgroupSearcher, logged_user: LoggedUser) returns (r: Result<MyMap<string, MonoAttrs>>)
    ensures logged_user.TrustedAdmin? ==> r == Err("mygroups need a real user")
    ensures logged_user.User? ==> (r.Ok? <==> MyGroupsFilter(cfg, logged_user.user).Ok?)
    ensures r.Ok? ==> r.value == SgroupsWithAttrsSpec(cfg, search(MyGroupsFilter(cfg, logged_user.user).value, None))
  {
    if logged_user.TrustedAdmin? {
      return Err("mygroups need a real user");
    }
    var filter := MyGroupsFilter(cfg, logged_user.user);
    if filter.Err? {
      return Err(filter.msg);
    }
    var found := SearchSgroupsWithAttrs(cfg, search, [filter.value], None);
    AllFoundSnoc(search, [filter.value], 0, None);
    assert [filter.value][..1] == [filter.value] && [filter.value][..0] == [];
    assert [] + search(filter.value, None) == search(filter.value, None);
    return Ok(found);
  }
}
