// The process-wide cache of which synchronized groups each remote feeds
// (server/cache.ts).
module Cache {
  import opened Wrappers
  import opened MyTypes
  import opened Helpers
  import opened DnCodec
  import opened LdapFilter
  import opened LdapHelpers
  import opened LdapServer
  import opened LdapSgroupReadSearchModify
  import opened RemoteLdap
  import ApiGet

  /** For each `remote_cfg_name`, the ids of the groups its queries feed. */
  type RemoteToSgroupIds = map<string, set<string>>

  /** `(map[name] ??= new Set()).add(id)` */
  function AddId(m: RemoteToSgroupIds, name: string, id: string): (r: RemoteToSgroupIds)
    ensures r.Keys == m.Keys + {name}
    ensures r[name] == (if name in m then m[name] else {}) + {id}
    ensures forall k :: k in m && k != name ==> r[k] == m[k]
  {
    m[name := (if name in m then m[name] else {}) + {id}]
  }

  /** The synchronized attribute of a found entry, as `mono_attrs` reads it. */
  function SyncUrl(e: Entry): Option<string>
  {
    if AttrSynchronized in e then SingleValue(Some(Multi(e[AttrSynchronized]))) else None
  }

  /** The remote a found group is fed by, with the group's id; an internal error or the parse error otherwise. */
  function FedBy(cfg: LdapConfig, p: (Dn, Entry), parse: LdapUrlParser): (r: Result<(string, string)>)
    ensures r.Ok? <==> DnToSgroupId(cfg, p.0).Some? && SyncUrl(p.1).Some? && ApiGet.ParseRemoteQuery(SyncUrl(p.1).value, parse).Ok?
    ensures r.Ok? ==> r.value == (ApiGet.ParseRemoteQuery(SyncUrl(p.1).value, parse).value.RemoteCfgName(), DnToSgroupId(cfg, p.0).value)
    ensures DnToSgroupId(cfg, p.0).None? ==> r == Err(InternalError)
  {
    match DnToSgroupId(cfg, p.0)
    case None => Err(InternalError)
    case Some(id) =>
      match SyncUrl(p.1)
      case None => Err(InternalError)
      case Some(url) =>
        var remote :- ApiGet.ParseRemoteQuery(url, parse);
        Ok((remote.RemoteCfgName(), id))
  }

  /** The map built from the groups' `(remote, id)` pairs, one after the other; the first failure fails it. */
  function Collect(feds: seq<Result<(string, string)>>): (r: Result<RemoteToSgroupIds>)
  {
    if |feds| == 0 then Ok(map[])
    else
      var prev :- Collect(feds[..|feds| - 1]);
      var fed :- feds[|feds| - 1];
      Ok(AddId(prev, fed.0, fed.1))
  }

  /** The `(remote, id)` pair of each found group. */
  function FedEach(cfg: LdapConfig, found: seq<(Dn, Entry)>, parse: LdapUrlParser): (r: seq<Result<(string, string)>>)
    ensures |r| == |found| && forall i :: 0 <= i < |found| ==> r[i] == FedBy(cfg, found[i], parse)
  {
    seq(|found|, i requires 0 <= i < |found| => FedBy(cfg, found[i], parse))
  }

  /** The groups a `get_remote_to_sgroup_ids_` scan visits: those with a synchronized attribute. */
  function SynchronizedGroups(cfg: LdapConfig, es: Store): seq<(Dn, Entry)>
  {
    SearchSgroups(cfg, es, FPresent(AttrSynchronized), None)
  }

  /** What `get_remote_to_sgroup_ids_` computes from the directory. */
  function RemoteToSgroupIdsSpec(cfg: LdapConfig, es: Store, parse: LdapUrlParser): Result<RemoteToSgroupIds>
  {
    Collect(FedEach(cfg, SynchronizedGroups(cfg, es), parse))
  }

  /** The scan succeeds iff every visited group has an id and a parsable query. */
  lemma {:induction false} CollectOk(feds: seq<Result<(string, string)>>)
    ensures Collect(feds).Ok? <==> forall i :: 0 <= i < |feds| ==> feds[i].Ok?
  {
    if |feds| > 0 {
      var n := |feds| - 1;
      CollectOk(feds[..n]);
      assert forall i :: 0 <= i < n ==> feds[..n][i] == feds[i];
    }
  }

  /** A successful scan maps each remote name to exactly the ids of the groups whose query names it. */
  lemma {:induction false} CollectLookup(feds: seq<Result<(string, string)>>, name: string, id: string)
    requires Collect(feds).Ok?
    ensures (name in Collect(feds).value && id in Collect(feds).value[name]) <==> Ok((name, id)) in feds
  {
    if |feds| > 0 {
      var n := |feds| - 1;
      CollectLookup(feds[..n], name, id);
      assert feds == feds[..n] + [feds[n]];
    }
  }

  /**
   * `get_remote_to_sgroup_ids_` succeeds iff every group with a synchronized
   * attribute has an id and a parsable query; it then maps each remote name
   * to exactly the ids of those groups whose query names that remote.
   */
  lemma RemoteToSgroupIdsMeaning(cfg: LdapConfig, es: Store, parse: LdapUrlParser, name: string, id: string)
    ensures RemoteToSgroupIdsSpec(cfg, es, parse).Ok? <==>
              forall p :: p in SynchronizedGroups(cfg, es) ==> FedBy(cfg, p, parse).Ok?
    ensures RemoteToSgroupIdsSpec(cfg, es, parse).Ok? ==>
              ((name in RemoteToSgroupIdsSpec(cfg, es, parse).value && id in RemoteToSgroupIdsSpec(cfg, es, parse).value[name]) <==>
                 exists p :: p in SynchronizedGroups(cfg, es) && FedBy(cfg, p, parse) == Ok((name, id)))
  {
    var found := SynchronizedGroups(cfg, es);
    var feds := FedEach(cfg, found, parse);
    CollectOk(feds);
    if Collect(feds).Ok? {
      CollectLookup(feds, name, id);
      if Ok((name, id)) in feds {
        var i :| 0 <= i < |feds| && feds[i] == Ok((name, id));
        assert found[i] in found;
      }
    }
  }

  /** A failure stays a failure when the scan goes on. */
  lemma {:induction false} CollectErrSticks(feds: seq<Result<(string, string)>>, i: nat)
    requires i <= |feds|
    requires Collect(feds[..i]).Err?
    ensures Collect(feds) == Collect(feds[..i])
    decreases |feds| - i
  {
    if i < |feds| {
      assert feds[..i + 1][..i] == feds[..i];
      CollectErrSticks(feds, i + 1);
    } else {
      assert feds[..i] == feds;
    }
  }

  /** `get_remote_to_sgroup_ids_`: one search, then each found group added to its remote's set. */
  method ComputeRemoteToSgroupIds(cfg: LdapConfig, dir: Directory, parse: LdapUrlParser) returns (r: Result<RemoteToSgroupIds>)
    ensures r == RemoteToSgroupIdsSpec(cfg, dir.entries, parse)
  {
    var found := SynchronizedGroups(cfg, dir.entries);
    ghost var feds := FedEach(cfg, found, parse);
    var m: RemoteToSgroupIds := map[];
    var i := 0;
    while i < |found|
      invariant 0 <= i <= |found|
      invariant Collect(feds[..i]) == Ok(m)
    {
      assert feds[..i + 1][..i] == feds[..i];
      var (dn, e) := found[i];
      var sgroup_id := DnToSgroupId(cfg, dn);
      var url := SyncUrl(e);
      if sgroup_id.None? || url.None? {
        assert Collect(feds[..i + 1]) == Err(InternalError);
        CollectErrSticks(feds, i + 1);
        return Err(InternalError);
      }
      var remote := ApiGet.ParseRemoteQuery(url.value, parse);
      if remote.Err? {
        assert Collect(feds[..i + 1]) == Err(remote.msg);
        CollectErrSticks(feds, i + 1);
        return Err(remote.msg);
      }
      m := AddId(m, remote.value.RemoteCfgName(), sgroup_id.value);
      i := i + 1;
    }
    assert feds[..i] == feds;
    r := Ok(m);
  }

  /** `_all_caches`: the remote to groups map, filled on first use. */
  class Caches {
    var remote_to_sgroup_ids: Option<RemoteToSgroupIds>

    constructor ()
      ensures remote_to_sgroup_ids.None?
    {
      remote_to_sgroup_ids := None;
    }

    /**
     * `get_remote_to_sgroup_ids`: the stored map when there is one, without
     * looking at the directory; otherwise the map of the directory, kept
     * for later calls when it could be built.
     */
    method GetRemoteToSgroupIds(cfg: LdapConfig, dir: Directory, parse: LdapUrlParser) returns (r: Result<RemoteToSgroupIds>)
      modifies this
      ensures old(remote_to_sgroup_ids).Some? ==>
                r == Ok(old(remote_to_sgroup_ids).value) && remote_to_sgroup_ids == old(remote_to_sgroup_ids)
      ensures old(remote_to_sgroup_ids).None? ==>
                r == RemoteToSgroupIdsSpec(cfg, dir.entries, parse) &&
                remote_to_sgroup_ids == (if r.Ok? then Some(r.value) else None)
    {
      if remote_to_sgroup_ids.Some? {
        return Ok(remote_to_sgroup_ids.value);
      }
      r := ComputeRemoteToSgroupIds(cfg, dir, parse);
      if r.Ok? {
        remote_to_sgroup_ids := Some(r.value);
      }
    }

    /** `clear_all`: the next `get_remote_to_sgroup_ids` rebuilds the map. */
    method ClearAll()
      modifies this
      ensures remote_to_sgroup_ids.None?
    {
      remote_to_sgroup_ids := None;
    }
  }
}
