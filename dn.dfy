// Distinguished names: group ids <-> DNs, and DNs with options <-> the
// member URLs stored in `memberURL;x-<mright>` (server/dn.ts). A member URL
// follows the `ldap:///<dn>` layout of section 2 of RFC 4516, with an end date
// appended as `???(serverTime<<generalized time>)`.
module DnCodec {
  import opened Wrappers
  import opened JsString
  import opened MyTypes
  import opened Helpers

  /** `sgroup_id_to_dn` */
  function SgroupIdToDn(cfg: LdapConfig, cn: string): (r: Dn)
    ensures cn == RootId(cfg) ==> r == cfg.groups_dn
    ensures cn != RootId(cfg) ==> r == "cn=" + cn + "," + cfg.groups_dn
  {
    if cn == RootId(cfg) then cfg.groups_dn else "cn=" + cn + "," + cfg.groups_dn
  }

  /** `people_id_to_dn` */
  function PeopleIdToDn(cfg: LdapConfig, cn: string): Dn
  {
    "uid=" + cn + ",ou=people," + cfg.base_dn
  }

  /** `dn_to_sgroup_id` */
  function DnToSgroupId(cfg: LdapConfig, dn: Dn): (r: Option<string>)
    ensures dn == cfg.groups_dn ==> r == Some("")
    ensures dn != cfg.groups_dn && r.Some? ==> dn == "cn=" + r.value + "," + cfg.groups_dn
    ensures dn != cfg.groups_dn && r.None? ==> forall id :: dn != "cn=" + id + "," + cfg.groups_dn
  {
    if dn == cfg.groups_dn then Some("")
    else
      match StripSuffix(dn, "," + cfg.groups_dn)
      case None =>
        assert forall id :: dn != "cn=" + id + "," + cfg.groups_dn by {
          forall id ensures dn != "cn=" + id + "," + cfg.groups_dn {
            var d := "cn=" + id + "," + cfg.groups_dn;
            assert d == ("cn=" + id) + ("," + cfg.groups_dn);
            assert EndsWith(d, "," + cfg.groups_dn);
          }
        }
        None
      case Some(s) =>
        assert forall id :: dn == "cn=" + id + "," + cfg.groups_dn ==> s == "cn=" + id by {
          forall id | dn == "cn=" + id + "," + cfg.groups_dn ensures s == "cn=" + id {
            assert dn == ("cn=" + id) + ("," + cfg.groups_dn);
          }
        }
        var r := StripPrefix(s, "cn=");
        assert r.Some? ==> dn == "cn=" + r.value + "," + cfg.groups_dn by {
          if r.Some? { assert dn == s + "," + cfg.groups_dn; }
        }
        r
  }

  /** With the root id `""`, `dn_to_sgroup_id` inverts `sgroup_id_to_dn`. */
  lemma SgroupIdDnRoundTrip(cfg: LdapConfig, id: string)
    requires RootId(cfg) == ""
    ensures DnToSgroupId(cfg, SgroupIdToDn(cfg, id)) == Some(id)
  {
    if id != "" {
      var dn := SgroupIdToDn(cfg, id);
      assert |dn| > |cfg.groups_dn|;
      assert dn == ("cn=" + id) + ("," + cfg.groups_dn);
    }
  }

  /** Any other root id comes back as `""`. */
  lemma RootIdNotRecovered(cfg: LdapConfig)
    requires RootId(cfg) != ""
    ensures DnToSgroupId(cfg, SgroupIdToDn(cfg, RootId(cfg))) == Some("")
  {
  }

  /** `dn_is_sgroup`: a plain suffix test on `groups_dn`. */
  function DnIsSgroup(cfg: LdapConfig, dn: Dn): (r: bool)
    ensures r <==> EndsWith(dn, cfg.groups_dn)
  {
    EndsWith(dn, cfg.groups_dn)
  }

  /** Every group DN passes `dn_is_sgroup`. */
  lemma SgroupDnIsSgroup(cfg: LdapConfig, id: string)
    ensures DnIsSgroup(cfg, SgroupIdToDn(cfg, id))
  {
    var dn := SgroupIdToDn(cfg, id);
    if id != RootId(cfg) {
      assert dn == ("cn=" + id + ",") + cfg.groups_dn;
      assert dn[|dn| - |cfg.groups_dn|..] == cfg.groups_dn;
    } else {
      assert dn[|dn| - |cfg.groups_dn|..] == dn;
    }
  }

  /** `dn_to_subject_source_cfg`: the first subject source whose DN ends `dn`. */
  function DnToSubjectSourceCfg(cfg: LdapConfig, dn: Dn): (r: Option<SubjectSourceConfig>)
    ensures r.Some? ==> r.value in cfg.subject_sources && EndsWith(dn, r.value.dn)
    ensures r.None? <==> forall s :: s in cfg.subject_sources ==> !EndsWith(dn, s.dn)
  {
    FindSource(cfg.subject_sources, (s: SubjectSourceConfig) => EndsWith(dn, s.dn))
  }

  /** `exact_dn_to_subject_source_cfg`: the first subject source whose DN is `dn`. */
  function ExactDnToSubjectSourceCfg(cfg: LdapConfig, dn: Dn): (r: Option<SubjectSourceConfig>)
    ensures r.Some? ==> r.value in cfg.subject_sources && r.value.dn == dn
    ensures r.None? <==> forall s :: s in cfg.subject_sources ==> s.dn != dn
  {
    FindSource(cfg.subject_sources, (s: SubjectSourceConfig) => s.dn == dn)
  }

  /** `dn_to_rdn_and_parent_dn`: split at the first comma. */
  function DnToRdnAndParentDn(dn: Dn): (r: Option<(string, Dn)>)
    ensures r.None? <==> forall j: nat :: !OccursAt(dn, ",", j)
    ensures r.Some? ==> r.value.0 + "," + r.value.1 == dn && forall j: nat :: j < |r.value.0| ==> !OccursAt(dn, ",", j)
  {
    BeforeAndAfter(dn, ",")
  }

  // ------------------------------------------------------------ member URLs

  const ServerTimeMarker := "???(serverTime<"

  /** `dn_to_url` */
  function DnToUrl(dn: Dn): string
  {
    "ldap:///" + dn
  }

  /** An end date that is set, non-empty and convertible to Generalized Time. */
  predicate HasEnddate(opts: DirectOptions)
  {
    opts.enddate.Some? && opts.enddate.value != "" && Iso8601ToGeneralizedTime(opts.enddate.value).Some?
  }

  /** `dn_opts_to_url` */
  function DnOptsToUrl(dn: Dn, opts: DirectOptions): (r: string)
    ensures HasEnddate(opts) ==> r == "ldap:///" + dn + ServerTimeMarker + Iso8601ToGeneralizedTime(opts.enddate.value).value + ")"
    ensures !HasEnddate(opts) ==> r == DnToUrl(dn)
  {
    if opts.enddate.Some? && opts.enddate.value != "" then
      match Iso8601ToGeneralizedTime(opts.enddate.value)
      case Some(gtime) => "ldap:///" + dn + ServerTimeMarker + gtime + ")"
      case None => DnToUrl(dn)
    else DnToUrl(dn)
  }

  /**
   * The regular expression `(.*)[?][?][?]\(serverTime<(.*)\)$` of
   * `url_to_dn`: the greedy first group ends at the last marker that still
   * leaves the closing parenthesis at the very end.
   */
  function ServerTimeMatch(dn: string): (r: Option<(string, string)>)
    ensures r.Some? ==> r.value.0 + ServerTimeMarker + r.value.1 + ")" == dn
    ensures r.None? ==> |dn| == 0 || dn[|dn| - 1] != ')' || !Contains(dn[..|dn| - 1], ServerTimeMarker)
  {
    if |dn| > 0 && dn[|dn| - 1] == ')' then
      var body := dn[..|dn| - 1];
      match LastIndexOf(body, ServerTimeMarker)
      case None => None
      case Some(i) =>
        assert body[i..i + |ServerTimeMarker|] == ServerTimeMarker;
        assert body == body[..i] + body[i..i + |ServerTimeMarker|] + body[i + |ServerTimeMarker|..];
        assert dn == body + ")";
        Some((body[..i], body[i + |ServerTimeMarker|..]))
    else None
  }

  /** `url_to_dn` */
  function UrlToDn(url: string): (r: Option<(Dn, DirectOptions)>)
    ensures !("ldap:///" <= url) ==> r.None?
    ensures "ldap:///" <= url && ServerTimeMatch(url[8..]).Some? ==>
              r == Some((ServerTimeMatch(url[8..]).value.0, DirectOptions(GeneralizedTimeToIso8601(ServerTimeMatch(url[8..]).value.1))))
    ensures "ldap:///" <= url && ServerTimeMatch(url[8..]).None? ==>
              (r.None? <==> Contains(url[8..], "?")) && (r.Some? ==> r.value == (url[8..], NoOptions))
  {
    match StripPrefix(url, "ldap:///")
    case None => None
    case Some(dn) =>
      match ServerTimeMatch(dn)
      case Some((d, gtime)) => Some((d, DirectOptions(GeneralizedTimeToIso8601(gtime))))
      case None => if Contains(dn, "?") then None else Some((dn, NoOptions))
  }

  /** The options a member URL keeps: an end date that converts, in its ISO 8601 spelling. */
  function StoredOptions(opts: DirectOptions): DirectOptions
  {
    if HasEnddate(opts) then
      DirectOptions(GeneralizedTimeToIso8601(Iso8601ToGeneralizedTime(opts.enddate.value).value))
    else NoOptions
  }

  predicate NoQuestionMark(dn: Dn)
  {
    forall i :: 0 <= i < |dn| ==> dn[i] != '?'
  }

  /** `url_to_dn` reads back the DN and options `dn_opts_to_url` wrote. */
  lemma MemberUrlRoundTrip(dn: Dn, opts: DirectOptions)
    requires NoQuestionMark(dn)
    ensures UrlToDn(DnOptsToUrl(dn, opts)) == Some((dn, StoredOptions(opts)))
  {
    var url := DnOptsToUrl(dn, opts);
    if !HasEnddate(opts) {
      assert url[8..] == dn;
      NoMarkerWithoutQuestionMark(dn);
      NoQuestionMarkNotContained(dn);
    } else {
      var g := Iso8601ToGeneralizedTime(opts.enddate.value).value;
      var rest := dn + ServerTimeMarker + g + ")";
      assert url == "ldap:///" + rest;
      assert url[8..] == rest;
      LastMarkerAfterDn(dn, g);
      var body := rest[..|rest| - 1];
      assert body == dn + ServerTimeMarker + g;
      assert body[..|dn|] == dn;
      assert body[|dn| + |ServerTimeMarker|..] == g;
      assert ServerTimeMatch(rest) == Some((dn, g));
    }
  }

  lemma NoQuestionMarkNotContained(dn: Dn)
    requires NoQuestionMark(dn)
    ensures !Contains(dn, "?")
  {
    forall j: nat ensures !OccursAt(dn, "?", j) {
      if j + 1 <= |dn| {
        assert dn[j..j + 1][0] == dn[j];
      }
    }
  }

  /** A DN without `?` holds no end-date marker. */
  lemma NoMarkerWithoutQuestionMark(dn: Dn)
    requires NoQuestionMark(dn)
    ensures ServerTimeMatch(dn).None?
  {
    if |dn| > 0 && dn[|dn| - 1] == ')' {
      var body := dn[..|dn| - 1];
      forall j: nat ensures !OccursAt(body, ServerTimeMarker, j) {
        if j + |ServerTimeMarker| <= |body| {
          assert body[j] == dn[j] != '?';
          assert body[j..j + |ServerTimeMarker|][0] == body[j];
          assert ServerTimeMarker[0] == '?';
        }
      }
    }
  }

  /** In `dn???(serverTime<g` the last marker starts right after the DN. */
  lemma LastMarkerAfterDn(dn: Dn, g: string)
    requires NoQuestionMark(dn) && IsGeneralizedTime(g)
    ensures LastIndexOf(dn + ServerTimeMarker + g, ServerTimeMarker) == Some(|dn|)
  {
    var s := dn + ServerTimeMarker + g;
    var m := ServerTimeMarker;
    assert s[|dn|..|dn| + |m|] == m;
    assert OccursAt(s, m, |dn|);
    forall j: nat | j > |dn| ensures !OccursAt(s, m, j) {
      if j + |m| <= |s| {
        var w := s[j..j + |m|];
        if j == |dn| + 1 {
          assert w[2] == m[3] != m[2];
        } else if j == |dn| + 2 {
          assert w[1] == m[3] != m[1];
        } else if j < |dn| + |m| {
          assert w[0] == m[j - |dn|] != m[0];
        } else {
          var k := j - |dn| - |m|;
          assert w[0] == g[k];
          assert k < 14 ==> g[..14][k] == g[k];
          assert g[k] != m[0];
        }
      }
    }
    assert LastIndexOf(s, m).Some?;
  }

  /** An end date written as a canonical ISO 8601 instant is kept verbatim. */
  lemma CanonicalEnddateKept(dn: Dn, e: string)
    requires IsCanonicalIso(e)
    ensures StoredOptions(DirectOptions(Some(e))) == DirectOptions(Some(e))
  {
    Iso8601RoundTrip(e);
  }

  /** The pairs `urls.map(url_to_dn)`. */
  function DecodedUrls(urls: seq<string>): (r: seq<Option<(Dn, DirectOptions)>>)
    ensures |r| == |urls| && forall i :: 0 <= i < |urls| ==> r[i] == UrlToDn(urls[i])
  {
    seq(|urls|, i requires 0 <= i < |urls| => UrlToDn(urls[i]))
  }

  /** `urls_to_dns` */
  function UrlsToDns(urls: seq<string>): (r: DnsOpts)
    ensures UniqueKeys(r)
  {
    FromOptionPairsSpec(DecodedUrls(urls))
  }

  /** The options of the last URL naming `dn`, if any URL names it. */
  function LastOptionsFor(urls: seq<string>, dn: Dn): Option<DirectOptions>
  {
    if |urls| == 0 then None
    else
      var d := UrlToDn(urls[|urls| - 1]);
      if d.Some? && d.value.0 == dn then Some(d.value.1)
      else LastOptionsFor(urls[..|urls| - 1], dn)
  }

  /** `urls_to_dns` drops rejected URLs and keeps the last options given for a DN. */
  lemma {:induction false} UrlsToDnsLookup(urls: seq<string>, dn: Dn)
    ensures Get(UrlsToDns(urls), dn) == LastOptionsFor(urls, dn)
  {
    FromOptionPairsLookup(DecodedUrls(urls), dn);
    LastValueOfDecoded(urls, dn);
  }

  lemma {:induction false} LastValueOfDecoded(urls: seq<string>, dn: Dn)
    ensures LastValue(DecodedUrls(urls), dn) == LastOptionsFor(urls, dn)
  {
    if |urls| > 0 {
      assert DecodedUrls(urls)[..|urls| - 1] == DecodedUrls(urls[..|urls| - 1]);
      LastValueOfDecoded(urls[..|urls| - 1], dn);
    }
  }
}
