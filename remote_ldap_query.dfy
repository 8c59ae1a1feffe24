// LDAP remote queries (server/remote_ldap_query.ts): the `ldap://` descriptor
// a synchronized group stores, and the choice of search base and filter.
// Splitting an LDAP URL into its parts (section 2 of RFC 4516) is done by a
// library and is a parameter here, as is the search itself.
module RemoteLdap {
  import opened Wrappers
  import opened JsString
  import opened MyTypes
  import opened DnCodec
  import opened RemoteSql

  /** `to_ldap_url`: `ldap://<remote>/<DN>?<attribute>??<filter>`, missing parts empty. */
  function ToLdapUrl(rlq: RemoteLdapQuery): string
  {
    "ldap://" + rlq.remote_cfg_name + "/" + rlq.dn.GetOr("") + "?" + rlq.attribute.GetOr("") + "??" + rlq.filter.GetOr("")
  }

  /** The parts of an LDAP URL as the URL library gives them. */
  datatype LdapUrlParts = LdapUrlParts(hostname: string, dn: Option<string>, attributes: Option<seq<string>>, filter: Option<string>)

  type LdapUrlParser = string -> LdapUrlParts

  /** The remote name a host stands for: `localhost` names the main directory. */
  function HostToRemoteName(hostname: string): (r: string)
    ensures r == "" <==> hostname == "" || hostname == "localhost"
    ensures hostname != "localhost" ==> r == hostname
  {
    if hostname == "localhost" then "" else hostname
  }

  /**
   * `parse_ldap_url`: none for strings that are not LDAP URLs and for plain
   * member URLs; an error for more than one attribute.
   */
  function ParseLdapUrl(url: string, parse: LdapUrlParser): (r: Result<Option<RemoteLdapQuery>>)
    ensures !("ldap:" <= url) || UrlToDn(url).Some? ==> r == Ok(None)
    ensures "ldap:" <= url && UrlToDn(url).None? ==>
              (r.Err? <==> parse(url).attributes.Some? && |parse(url).attributes.value| > 1)
    ensures r.Err? ==> r.msg == "only one attribute handled where multiple attributes were found in " + url
    ensures r.Ok? && r.value.Some? ==>
              var parts := parse(url);
              && r.value.value.remote_cfg_name == HostToRemoteName(parts.hostname)
              && r.value.value.dn == parts.dn && r.value.value.filter == parts.filter
              && r.value.value.forced_periodicity.None?
              && (r.value.value.attribute.Some? <==> parts.attributes.Some? && |parts.attributes.value| == 1)
              && (r.value.value.attribute.Some? ==> r.value.value.attribute.value == parts.attributes.value[0])
  {
    if !("ldap:" <= url) then Ok(None)
    else if UrlToDn(url).Some? then Ok(None)
    else
      var parts := parse(url);
      if parts.attributes.Some? && |parts.attributes.value| > 1 then
        Err("only one attribute handled where multiple attributes were found in " + url)
      else
        var attribute := if parts.attributes.Some? && |parts.attributes.value| > 0 then Some(parts.attributes.value[0]) else None;
        Ok(Some(RemoteLdapQuery(HostToRemoteName(parts.hostname), parts.dn, attribute, parts.filter, None)))
  }

  /** The member URLs `dn_opts_to_url` writes are never taken for remote queries. */
  lemma MemberUrlIsNotRemote(dn: Dn, opts: DirectOptions, parse: LdapUrlParser)
    requires NoQuestionMark(dn)
    ensures ParseLdapUrl(DnOptsToUrl(dn, opts), parse) == Ok(None)
  {
    MemberUrlRoundTrip(dn, opts);
  }

  /** A URL naming a remote host is an LDAP URL that `url_to_dn` rejects. */
  lemma RemoteUrlIsNotMember(rlq: RemoteLdapQuery)
    requires rlq.remote_cfg_name != "" && rlq.remote_cfg_name[0] != '/'
    ensures "ldap:" <= ToLdapUrl(rlq)
    ensures UrlToDn(ToLdapUrl(rlq)).None?
  {
    var url := ToLdapUrl(rlq);
    assert url == "ldap:" + "//" + rlq.remote_cfg_name + "/" + rlq.dn.GetOr("") + "?" + rlq.attribute.GetOr("") + "??" + rlq.filter.GetOr("");
    assert url[..8][7] == url[7] == rlq.remote_cfg_name[0];
  }

  /**
   * Writing a query to a URL and reading it back gives the query, once the
   * URL library splits that URL into the parts it was made of.
   */
  lemma LdapUrlRoundTrip(rlq: RemoteLdapQuery, parse: LdapUrlParser)
    requires rlq.remote_cfg_name !in {"", "localhost"} && rlq.remote_cfg_name[0] != '/' && rlq.forced_periodicity.None?
    requires parse(ToLdapUrl(rlq)) ==
               LdapUrlParts(rlq.remote_cfg_name, rlq.dn, if rlq.attribute.Some? then Some([rlq.attribute.value]) else None, rlq.filter)
    ensures ParseLdapUrl(ToLdapUrl(rlq), parse) == Ok(Some(rlq))
  {
    RemoteUrlIsNotMember(rlq);
  }

  // ----------------------------------------------------------- the search

  /** The search: on a remote (`Some`) or on the main directory (`None`), from a base with a filter; the DNs found. */
  type LdapSearcher = (Option<RemoteConfig>, Dn, string) -> seq<Dn>

  const AllObjectsFilter := "(objectClass=*)"

  /** The filter of `raw_query`: the query's own, else every object. */
  function QueryFilter(remote: RemoteLdapQuery): (r: string)
    ensures remote.filter.Some? ==> r == remote.filter.value
    ensures remote.filter.None? ==> r == AllObjectsFilter
  {
    remote.filter.GetOr(AllObjectsFilter)
  }

  /** A present and non-empty string: what `||` keeps. */
  function OrElse(a: Option<string>, b: Option<string>): (r: Option<string>)
    ensures a.Some? && a.value != "" ==> r == a
    ensures !(a.Some? && a.value != "") ==> r == (if b.Some? && b.value != "" then b else None)
  {
    if a.Some? && a.value != "" then a else if b.Some? && b.value != "" then b else None
  }

  /**
   * The base of `raw_query`: on a remote, the query's DN, else the remote's
   * search branch, else an error; on the main directory, the DN, else `base_dn`.
   */
  function SearchBase(remote_cfg: Option<RemoteConfig>, remote: RemoteLdapQuery, base_dn: Dn): (r: Result<Dn>)
    ensures remote.dn.Some? && remote.dn.value != "" ==> r == Ok(remote.dn.value)
    ensures remote_cfg.None? ==> r.Ok?
    ensures remote_cfg.None? && !(remote.dn.Some? && remote.dn.value != "") ==> r == Ok(base_dn)
    ensures r.Err? <==> remote_cfg.Some? && OrElse(remote.dn, remote_cfg.value.search_branch).None?
    ensures r.Err? ==> r.msg == "remote config has no base_dn, and ldap URI has no DN"
  {
    if remote_cfg.Some? then
      match OrElse(remote.dn, remote_cfg.value.search_branch)
      case None => Err("remote config has no base_dn, and ldap URI has no DN")
      case Some(base) => Ok(base)
    else Ok(OrElse(remote.dn, Some(base_dn)).GetOr(base_dn))
  }

  /** `raw_query`: the DNs the search finds, each with no options. */
  function RawQuery(remote_cfg: Option<RemoteConfig>, remote: RemoteLdapQuery, base_dn: Dn, search: LdapSearcher): (r: Result<DnsOpts>)
    ensures r.Err? <==> SearchBase(remote_cfg, remote, base_dn).Err?
    ensures r.Ok? ==> UniqueKeys(r.value) && AllNoOptions(r.value)
    ensures r.Ok? ==> forall dn :: dn in KeySet(r.value) <==>
              dn in search(remote_cfg, SearchBase(remote_cfg, remote, base_dn).value, QueryFilter(remote))
  {
    var base :- SearchBase(remote_cfg, remote, base_dn);
    var found := ValuesAsDns(search(remote_cfg, base, QueryFilter(remote)));
    assert forall dn :: dn in KeySet(found) <==> Get(found, dn).Some?;
    Ok(found)
  }

  /** `ldap_query`: an error for an unknown remote or one whose driver is not LDAP. */
  function LdapQuery(remotes: map<string, RemoteConfig>, remote: RemoteLdapQuery, base_dn: Dn, search: LdapSearcher): (r: Result<DnsOpts>)
    ensures remote.remote_cfg_name !in remotes ==> r == Err("internal error: unknown remote " + remote.remote_cfg_name)
    ensures remote.remote_cfg_name in remotes && remotes[remote.remote_cfg_name].driver != "ldap" ==>
              r == Err("internal error: remote is not LDAP " + remote.remote_cfg_name)
    ensures remote.remote_cfg_name in remotes && remotes[remote.remote_cfg_name].driver == "ldap" ==>
              r == RawQuery(Some(remotes[remote.remote_cfg_name]), remote, base_dn, search)
  {
    if remote.remote_cfg_name !in remotes then Err("internal error: unknown remote " + remote.remote_cfg_name)
    else
      var remote_cfg := remotes[remote.remote_cfg_name];
      if remote_cfg.driver != "ldap" then Err("internal error: remote is not LDAP " + remote.remote_cfg_name)
      else RawQuery(Some(remote_cfg), remote, base_dn, search)
  }

  /**
   * As written, `ldap_query` never reaches the main-directory branch of
   * `raw_query`: the `localhost` URLs it is meant for carry the remote name
   * `""`, which is not a configured remote, so the query fails.
   */
  lemma LocalhostQueryFails(url: string, parse: LdapUrlParser, remotes: map<string, RemoteConfig>, base_dn: Dn, search: LdapSearcher)
    requires "" !in remotes
    requires ParseLdapUrl(url, parse).Ok? && ParseLdapUrl(url, parse).value.Some?
    requires parse(url).hostname == "localhost"
    ensures LdapQuery(remotes, ParseLdapUrl(url, parse).value.value, base_dn, search) == Err("internal error: unknown remote ")
  {
  }

  /** `ldap_query` with the main directory used for the remote name `""`, as `raw_query` intends. */
  function LdapQueryCorrected(remotes: map<string, RemoteConfig>, remote: RemoteLdapQuery, base_dn: Dn, search: LdapSearcher): (r: Result<DnsOpts>)
    ensures remote.remote_cfg_name == "" ==> r == RawQuery(None, remote, base_dn, search)
    ensures remote.remote_cfg_name != "" ==> r == LdapQuery(remotes, remote, base_dn, search)
  {
    if remote.remote_cfg_name == "" then RawQuery(None, remote, base_dn, search)
    else LdapQuery(remotes, remote, base_dn, search)
  }

  /** With the correction, a `localhost` query searches the main directory from its DN or `base_dn`. */
  lemma LocalhostQuerySearchesMainDirectory(url: string, parse: LdapUrlParser, remotes: map<string, RemoteConfig>, base_dn: Dn, search: LdapSearcher)
    requires ParseLdapUrl(url, parse).Ok? && ParseLdapUrl(url, parse).value.Some?
    requires parse(url).hostname == "localhost"
    ensures var q := ParseLdapUrl(url, parse).value.value;
            var base := if q.dn.Some? && q.dn.value != "" then q.dn.value else base_dn;
            && LdapQueryCorrected(remotes, q, base_dn, search).Ok?
            && forall dn :: dn in KeySet(LdapQueryCorrected(remotes, q, base_dn, search).value) <==> dn in search(None, base, QueryFilter(q))
  {
  }
}
