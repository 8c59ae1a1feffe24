# groupald core, modelled in Dafny

This project models the core of the groupald server, the TypeScript server of
esup-groudap. The server manages groups and stems ("sgroups") stored in an LDAP
directory. For every group it keeps two kinds of attribute:

- **direct** attributes: member and right URLs;
- **flattened** attributes: the DNs after expanding the groups included as
  members, plus a remote SQL or LDAP query for synchronised groups.

The model replaces the LDAP server with an in-memory directory: a map from DN to
attributes, held by a `Directory` class whose methods change it in place. The
SQL and remote LDAP back-ends become oracle functions passed as parameters.

Each TypeScript file becomes one Dafny module:

| TypeScript file | Dafny module (file) |
|---|---|
| server/api_post.ts | `ApiPost` (api_post.dfy) |
| server/api_get.ts | `ApiGet` (api_get.dfy) |
| server/my_ldap_check_rights.ts | `LdapCheckRights` (my_ldap_check_rights.dfy) |
| server/stem_helpers.ts | `StemHelpers` (stem_helpers.dfy) |
| server/my_types.ts | `MyTypes` (my_types.dfy) |
| server/ldap_helpers.ts | `LdapHelpers` (ldap_helpers.dfy) |
| server/dn.ts | `DnCodec` (dn.dfy) |
| server/helpers.ts | `Helpers` (helpers.dfy) |
| server/ldap_filter.ts | `LdapFilter` (ldap_filter.dfy) |
| server/ldap_read_search.ts | `LdapReadSearch` (ldap_read_search.dfy), over the store of `LdapServer` (ldap_server.dfy) |
| server/ldap_sgroup_read_search_modify.ts | `LdapSgroupReadSearchModify` (ldap_sgroup_read_search_modify.dfy) |
| server/ldap_subject.ts | `LdapSubject` (ldap_subject.dfy) |
| server/remote_query.ts | `RemoteSql` (remote_query.dfy) |
| server/remote_ldap_query.ts | `RemoteLdap` (remote_ldap_query.dfy) |
| server/periodicity.ts | `Periodicity` (periodicity.dfy) |
| server/cache.ts | `Cache` (cache.dfy) |
| server/api_log.ts | `ApiLog` (api_log.dfy) |
| server/migration-grouper/grouper_loader.ts | `GrouperLoader` (grouper_loader.dfy) |
| server/migration-grouper/migration_helpers.ts | `MigrationHelpers` (migration_helpers.dfy) |
| ui/src/ldap_filter_parser.ts | `LdapFilterParser` (ldap_filter_parser.dfy) |

Two more modules support the rest:

- `Wrappers` (wrappers.dfy) holds the `Option`, `Result` and `Outcome` types. A
  thrown exception is an `Err`/`Fail` carrying the source's message.
- `JsString` (js_string.dfy) holds the JavaScript string operations the source
  relies on: `indexOf`, `lastIndexOf`, `split`, `trimStart`/`trimEnd`,
  `replace` with a global pattern (including the `$` patterns of its
  replacement, as section 22.1.3.19.1 of ECMA-262 defines them) and
  number-to-text.

Following the source, code that updates state step by step becomes methods with
loops: the flattening worklist, the parent walk, the chunked subject lookup,
`blank_partial_line`, the lazily filled cache and the parser's offset loop. Each
such method is proved equal to a specification function. The lemmas then state
what the source promises about that function:

- rights inheritance and "best right" resolution;
- the filters that decide who may read or edit a group;
- the round trips of the DN, URL, SQL-URL and generalized-time codecs;
- the FIFO propagation of flattened membership and what one recomputation writes;
- the next-run computation of synchronisation periodicities;
- the Grouper migration mappings;
- parsing and re-printing of LDAP filters in the UI.

## Model

| member | source | states |
|---|---|---|
| StemHelpers.Rbefore | server/stem_helpers.ts:7-10 | absent iff `end` never occurs in `s`; otherwise a prefix of `s` ending with `end`, cut at the last occurrence |
| StemHelpers.ParentStem | server/stem_helpers.ts:20-28 | undefined exactly for the root id; otherwise a prefix of the id ending with the separator and strictly shorter (after one trailing separator is stripped), or the root when no separator is left |
| StemHelpers.ParentStems | server/stem_helpers.ts:31-40 | the loop collects exactly the chain of `parent_stem` ancestors, nearest first |
| StemHelpers.ParentStemsEndAtRoot | server/stem_helpers.ts:31-40 | the ancestor list is empty iff the id is the root, and otherwise ends with the root |
| StemHelpers.ParentStemsAreProperAncestors | server/stem_helpers.ts:31-40 | every listed ancestor is the root or a strictly shorter prefix ending with the separator; the id itself is never listed |
| StemHelpers.ValidateSgroupId | server/stem_helpers.ts:41-50 | passes iff the id is the root or every separator-delimited segment (after one trailing separator is stripped) is non-empty and made of word characters or `-`; fails with "invalid sgroup id" |
| StemHelpers.IsStem | server/stem_helpers.ts:52-54 | true iff the id is the root or ends with `.` |
| StemHelpers.IsStemHardcodesDot | server/stem_helpers.ts:52-54 | with separator `:`, `parent_stem("a:b")` is `"a:"` yet `is_stem("a:")` is false: the `.` is hardcoded |
| StemHelpers.IsGrandchild | server/stem_helpers.ts:56-65 | true iff `gchild` starts with `parent` and the rest, minus one trailing separator, still contains the separator |
| StemHelpers.DirectChildIsNotGrandchild | server/stem_helpers.ts:56-65 | a direct child (group or stem) of `parent` is never a grandchild |
| StemHelpers.TwoLevelsDownIsGrandchild | server/stem_helpers.ts:56-65 | an id two segments below `parent` is a grandchild |
| MyTypes.IsGT | server/my_types.ts:14-18 | true iff `v1` is present and `v2` is absent or smaller |
| MyTypes.Get | server/my_types.ts:21 | a lookup in the insertion-ordered object: absent iff the key is not a key of the map, else the value stored with the key |
| MyTypes.Put | server/my_types.ts:56 | `r[k] = v`: the key now maps to `v`, every other key is unchanged, keys stay unique |
| MyTypes.PutAbsentAppends | server/my_types.ts:56 | assigning a new key appends it at the end of the insertion order |
| MyTypes.Remove | server/my_types.ts:21 | `delete r[k]`: the key is gone and every other key is unchanged |
| MyTypes.FromOptionPairs | server/my_types.ts:53-59 | the loop builds the map of the present pairs, with unique keys |
| MyTypes.FromOptionPairsLookup | server/my_types.ts:53-59 | each key maps to the value of its LAST present pair; undefined pairs are skipped |
| MyTypes.MapToArray | server/my_types.ts:30-36 | one callback result per entry, in insertion order |
| MyTypes.MapValues | server/my_types.ts:37-39 | same keys in the same order, each value mapped |
| MyTypes.Compact | server/my_types.ts:66-68 | drops exactly the undefined values and keeps the others under the same keys |
| MyTypes.ToAttr | server/my_types.ts:209-211 | `"memberURL;x-" + m` |
| MyTypes.ToAttrInjective | server/my_types.ts:209-214 | distinct mrights give distinct attributes, none equal to the synchronized attribute |
| MyTypes.ToAllowedRights | server/my_types.ts:221-227 | exactly the rights at least as strong as `r`, strictly best first, starting with admin |
| MyTypes.Max | server/my_types.ts:237-242 | one of the two arguments, at least as strong as both |
| MyTypes.MaxLattice | server/my_types.ts:237-242 | `max` is commutative and associative with undefined as identity |
| MyTypes.FindSource | server/my_types.ts:148-150 | the first subject source satisfying the predicate, absent iff none does |
| MyTypes.SgroupSscfg | server/my_types.ts:153-159 | the subject source whose dn is `groups_dn`; an error iff there is none |
| Helpers.StripPrefix | server/helpers.ts:71-73 | present iff `s` starts with the prefix, and then prefix + result == s |
| Helpers.StripSuffix | server/helpers.ts:75-77 | present iff `s` ends with the suffix, and then result + suffix == s |
| Helpers.MayStripSuffix | server/helpers.ts:79-81 | strips the suffix when present, else returns `s` unchanged |
| Helpers.BeforeAndAfter | server/helpers.ts:83-86 | absent iff the separator does not occur; otherwise before + sep + after == s, split at the first occurrence |
| Helpers.BeforeAndAfterChar | server/helpers.ts:83-86 | for a one-character separator: absent iff the character is not in `s`, and the part before never contains it |
| Helpers.BeforeAndBetweenAndAfter | server/helpers.ts:88-96 | absent iff either of the two chained splits fails; otherwise the three parts and both separators rebuild `s`, the first split at the first occurrence |
| Helpers.BuildUrlFromParts | server/helpers.ts:3-8 | scheme (defaulting to https only for ports 443/8443), `://`, host, `:port` unless the port is absent, 80 or 443, then the path |
| Helpers.ParseHostAndPort | server/helpers.ts:10-18 | a port iff the host contains `:`; host + ":" + port rebuilds the input, split at the last `:`; `.` read as matching line terminators too |
| Helpers.ParseHostAndPortInverse | server/helpers.ts:10-18 | `parse_host_and_port(host + ":" + port)` gives back host and port when the port has no `:` |
| Helpers.BuildUrlAuthorityRoundTrip | server/helpers.ts:3-18 | the authority written by `build_url_from_parts` parses back to the same host, and to the same port unless the port was omitted |
| Helpers.AddSeconds | server/helpers.ts:137-141 | the result lies exactly `seconds` after `date` |
| Helpers.Digits | server/helpers.ts:22 | `replace(/\D/g, '')`: only digits, never longer than the input |
| Helpers.DigitsChar | server/helpers.ts:22 | one character is kept iff it is a digit |
| Helpers.DigitsAppend | server/helpers.ts:22 | the digits of `a + b` are the digits of `a` followed by those of `b` |
| Helpers.DigitsMembers | server/helpers.ts:22 | a character is in the result iff it is in the input and is a digit |
| Helpers.DigitsAroundSeparator | server/helpers.ts:22 | a non-digit between two digit runs is dropped and the runs are concatenated |
| Helpers.Iso8601ToGeneralizedTime | server/helpers.ts:21-24 | present iff the input holds at least 14 digits; then the first 14 digits followed by `Z` |
| Helpers.GeneralizedTimeToIso8601 | server/helpers.ts:27-35 | present iff the input has at least 15 characters with `Z` at index 14; then `yyyy-mm-ddThh:mm:ss` built from the first 14 characters, trailing text ignored; `.` read as matching line terminators too |
| Helpers.GeneralizedTimeRoundTrip | server/helpers.ts:21-35 | for a 14-digit Generalized Time `t`, converting to ISO 8601 and back gives `t` |
| Helpers.Iso8601RoundTrip | server/helpers.ts:21-35 | for a canonical `yyyy-mm-ddThh:mm:ss`, converting to Generalized Time and back gives the input |
| Helpers.HashmapDifference | server/helpers.ts:37-46 | the loop builds the difference map (with a value comparison) in m1's key order |
| Helpers.DifferenceLookup | server/helpers.ts:37-46 | a key is kept iff it is in m1 and m2 lacks it or holds another value, and then with m1's value |
| Helpers.HashmapDifferenceAsWritten | server/helpers.ts:37-46 | with JS `!==` on object values: keeps every entry of m1 whose value is not the very same object in m2 |
| Helpers.HashmapDifferenceIdentityCounterexample | server/helpers.ts:41 | two distinct but equal objects under the same key are kept by the code as written and dropped by the value comparison |
| Helpers.AsWrittenKeepsOtherObjects | server/helpers.ts:37-46 | as written, when every value of m2 is an object created apart from m1's values, the difference is the whole of m1 |
| DnCodec.SgroupIdToDn | server/dn.ts:7-13 | the root id gives `groups_dn`; any other id gives `"cn=<id>," + groups_dn` |
| DnCodec.DnToSgroupId | server/dn.ts:17-24 | `groups_dn` gives `""`; otherwise the id `x` with dn == `"cn=x," + groups_dn`, and undefined iff no such `x` exists |
| DnCodec.SgroupIdDnRoundTrip | server/dn.ts:7-24 | with root id `""`, `dn_to_sgroup_id(sgroup_id_to_dn(id)) == id` for every id |
| DnCodec.RootIdNotRecovered | server/dn.ts:7-24 | with another root id, the root's DN decodes to `""`, not to the configured root id |
| DnCodec.DnIsSgroup | server/dn.ts:25-27 | true iff the DN ends with `groups_dn` |
| DnCodec.SgroupDnIsSgroup | server/dn.ts:7-27 | every DN built by `sgroup_id_to_dn` is recognised by `dn_is_sgroup` |
| DnCodec.DnToSubjectSourceCfg | server/dn.ts:29-31 | a configured subject source whose dn is a suffix of the DN; absent iff none is |
| DnCodec.ExactDnToSubjectSourceCfg | server/dn.ts:33-35 | a configured subject source whose dn equals the DN; absent iff none does |
| DnCodec.DnToRdnAndParentDn | server/dn.ts:37-39 | absent iff the DN has no comma; otherwise rdn + "," + parent == dn, split at the first comma |
| DnCodec.DnOptsToUrl | server/dn.ts:41-54 | `ldap:///<dn>???(serverTime<gtime>)` when the enddate converts to a Generalized Time, else `ldap:///<dn>` |
| DnCodec.ServerTimeMatch | server/dn.ts:59 | the regex split: prefix + `???(serverTime<` + time + `)` == input, at the last marker; absent only when the input cannot match; `.` read as matching line terminators too |
| DnCodec.UrlToDn | server/dn.ts:56-67 | undefined without the `ldap:///` prefix; the enddate is recovered from a `???(serverTime<…)` suffix; any other `?` gives undefined; otherwise the DN with no options; `.` read as matching line terminators too |
| DnCodec.MemberUrlRoundTrip | server/dn.ts:41-67 | for a DN without `?`, decoding an encoded member URL gives back the DN and its options (the enddate normalised through Generalized Time) |
| DnCodec.CanonicalEnddateKept | server/dn.ts:41-67 | a canonical `yyyy-mm-ddThh:mm:ss` enddate survives the round trip unchanged |
| DnCodec.UrlsToDns | server/dn.ts:69-71 | a map with unique DNs built from the decodable URLs |
| DnCodec.UrlsToDnsLookup | server/dn.ts:69-71 | each DN maps to the options of its LAST decodable URL; rejected URLs are dropped |
| LdapFilter.EscapeChar | server/ldap_filter.ts:1 | `*`, `(`, `)`, `\` and NUL become a three-character `\xx` escape (section 3 of RFC 4515); every other character is kept |
| LdapFilter.Escape | server/ldap_filter.ts:16-18 | the escaped value never contains `*`, `(`, `)` or NUL |
| LdapFilter.EscapeRoundTrip | server/ldap_filter.ts:16-18 | unescaping an escaped value gives it back, so `eq` never changes the compared value |
| LdapFilter.Without | server/ldap_filter.ts:6 | `filter(e => e !== x)`: exactly the elements different from `x` |
| LdapFilter.And | server/ldap_filter.ts:4-8 | drops `(&)` operands; a lone remaining operand is returned unchanged; `(|)` among the operands gives `(|)`; otherwise `(&…)` around the rest, so `and([])` is `(&)` |
| LdapFilter.Or | server/ldap_filter.ts:10-14 | the dual of `and`: drops `(|)`, is absorbed by `(&)`, `or([])` is `(|)` |
| LdapFilter.And2IfSome | server/ldap_filter.ts:41-43 | returns filter1 unchanged when filter2 is absent or empty |
| LdapFilter.Render | server/ldap_filter.ts:16-64 | the string form of a filter tree (section 3 of RFC 4515): always a parenthesised filter |
| LdapFilter.RenderEmptyConnectives | server/ldap_filter.ts:4-14 | only the empty AND renders as `(&)` and only the empty OR as `(|)` |
| LdapFilter.AndRendersAndF | server/ldap_filter.ts:4-8 | the string `and` of rendered filters is the rendering of the simplified AND tree |
| LdapFilter.OrRendersOrF | server/ldap_filter.ts:10-14 | the string `or` of rendered filters is the rendering of the simplified OR tree |
| LdapFilter.AndFMeaning | server/ldap_filter.ts:4-8 | the filter built by `and` matches an entry iff every operand does (so `(&)` is true, and an absorbing `(|)` is false) |
| LdapFilter.OrFMeaning | server/ldap_filter.ts:10-14 | the filter built by `or` matches an entry iff some operand does |
| LdapFilter.SgroupChildrenRenders | server/ldap_filter.ts:57-64 | `sgroup_children` is the rendering of "cn starts with id and cn is not id" (just `(cn=*)` for the root) |
| LdapFilter.SgroupChildrenMeaning | server/ldap_filter.ts:57-64 | an entry matches iff some cn starts with the id and (for a non-root id) no cn equals it |
| LdapFilter.SgroupSelfAndChildrenMeaning | server/ldap_filter.ts:53-55 | `sgroup_self_and_children` renders the prefix filter and matches iff some cn starts with the id |
| LdapHelpers.ToFlattenedAttr | server/ldap_helpers.ts:10-14 | the configured flattened attribute of the mright; an error iff the configuration lacks it |
| LdapHelpers.ToFlattenedAttrs | server/ldap_helpers.ts:16 | maps `to_flattened_attr` over a list in order, failing iff some element is not configured |
| LdapHelpers.ToAllowedFlattenedAttrs | server/ldap_helpers.ts:15-17 | the flattened attributes of the rights at least as strong as `right`, best first; an error iff one is not configured |
| LdapHelpers.UserHasDirectRightOnGroupFilter | server/ldap_helpers.ts:27-31 | one `eq(attr, user_dn)` per allowed flattened attribute, best first |
| LdapHelpers.ValidateSgroupsAttrs | server/ldap_helpers.ts:19-25 | passes iff every attribute is listed in `sgroup_attrs`; otherwise fails with the message naming the FIRST unlisted attribute |
| LdapHelpers.SgroupFilter | server/ldap_helpers.ts:33-37 | `(objectClass=organizationalUnit)` for the root, `eq("cn", id)` otherwise |
| LdapHelpers.SingleValue | server/ldap_helpers.ts:39-46 | the first element of a list (undefined for an empty list), the string itself, or undefined |
| LdapHelpers.MultiValue | server/ldap_helpers.ts:48-50 | a list unchanged, a scalar wrapped in a one-element list |
| LdapHelpers.SingleOfMultiValue | server/ldap_helpers.ts:39-50 | `singleValue` of `multiValue(v)` equals `singleValue(v)` |
| LdapHelpers.MonoAttrsOf | server/ldap_helpers.ts:58-62 | a map with unique attribute names |
| LdapHelpers.MonoAttrsOfLookup | server/ldap_helpers.ts:58-62 | an attribute is present iff it is wanted and present in the entry, and then holds its single value |
| LdapServer.RemoveValues | server/ldap_sgroup_read_search_modify.ts:84 | exactly the values not removed, in their order |
| LdapServer.WithValues | server/ldap_sgroup_read_search_modify.ts:64 | the attribute gets the new values (none removes it) and every other attribute is unchanged |
| LdapServer.ApplyChange | server/ldap_sgroup_read_search_modify.ts:84 | one modify change per section 4.6 of RFC 4511: `add` fails iff a value is already there or repeated, and appends; `delete` fails iff a listed value is absent (or, with no values, the attribute is), and removes; `replace` always succeeds; other attributes are untouched |
| LdapServer.ApplyChanges | server/ldap_sgroup_read_search_modify.ts:84 | the changes applied in order; attributes no change names are untouched |
| LdapServer.AddThenDelete | server/ldap_sgroup_read_search_modify.ts:84 | adding new values and then deleting the same values restores the attribute |
| LdapServer.Directory.Add | server/ldap_sgroup_read_search_modify.ts:25 | adds the entry at the end, or fails with entryAlreadyExists and changes nothing |
| LdapServer.Directory.Delete | server/ldap_sgroup_read_search_modify.ts:29 | removes the entry, or fails with noSuchObject and changes nothing |
| LdapServer.Directory.Modify | server/ldap_sgroup_read_search_modify.ts:84 | replaces the entry by the result of applying all changes atomically; a missing entry or a failing change leaves the store unchanged |
| LdapReadSearch.MatchingUnder | server/ldap_read_search.ts:16-29 | exactly the store entries under the base that match the filter |
| LdapReadSearch.SearchRaw | server/ldap_read_search.ts:16-29 | a missing base (noSuchObject) gives `[]`; otherwise exactly the matching entries of the subtree |
| LdapReadSearch.Read | server/ldap_read_search.ts:31-37 | the entry stored under the DN; undefined iff there is none |
| LdapReadSearch.ReadOrErr | server/ldap_read_search.ts:39-41 | the entry, or an error iff it is missing |
| LdapReadSearch.ReadOneMultiAttr | server/ldap_read_search.ts:43-48 | undefined for a missing entry, `[]` for an absent attribute, otherwise its values |
| LdapReadSearch.ReadOneMultiAttrOrErr | server/ldap_read_search.ts:55-58 | the same values, with an error instead of undefined |
| LdapReadSearch.ReadOneMonoAttrOrErr | server/ldap_read_search.ts:50-53 | an error for a missing entry, undefined for an absent attribute, otherwise its first value |
| LdapReadSearch.ReadFlattenedMrightRaw | server/ldap_read_search.ts:60-62 | the stored values of the mright's flattened attribute; an error iff the group or the configuration entry is missing |
| LdapReadSearch.ReadFlattenedMright | server/ldap_read_search.ts:64-68 | the same list, except that the sentinel `[""]` reads as `[]` |
| LdapReadSearch.OneGroupMatchesFilterMeaning | server/ldap_read_search.ts:78-80 | true iff the groups branch exists and some entry under it matches the filter |
| LdapReadSearch.ExistingWithObjectClass | server/ldap_read_search.ts:74-76 | an entry with an objectClass exists for `is_dn_existing` |
| LdapSgroupReadSearchModify.OverrideAttrs | server/ldap_sgroup_read_search_modify.ts:24 | `{...base, ...attrs}`: given attributes override, the others keep the base value |
| LdapSgroupReadSearchModify.GroupBaseEntry | server/ldap_sgroup_read_search_modify.ts:20-24 | a stem gets the stem object classes and cn only; a group gets the group object classes, cn and `member: ""` |
| LdapSgroupReadSearchModify.NewGroupEntry | server/ldap_sgroup_read_search_modify.ts:20-24 | the attributes of the base entry overridden by the given ones |
| LdapSgroupReadSearchModify.LdapAddGroup | server/ldap_sgroup_read_search_modify.ts:20-26 | the new entry is added under `sgroup_id_to_dn(cn)`, or nothing changes when the DN exists |
| LdapSgroupReadSearchModify.MonoToRaw | server/ldap_sgroup_read_search_modify.ts:58-60 | present values become single raw values, undefined ones are dropped |
| LdapSgroupReadSearchModify.CreateSgroup | server/ldap_sgroup_read_search_modify.ts:58-60 | `ldap_add_group` with the present attributes |
| LdapSgroupReadSearchModify.DeleteSgroup | server/ldap_sgroup_read_search_modify.ts:28-30 | removes the group's entry, or fails and changes nothing |
| LdapSgroupReadSearchModify.ReadDirectMright | server/ldap_sgroup_read_search_modify.ts:32-35 | the decoded `memberURL;x-<mright>` URLs of the group; an error iff the group is missing |
| LdapSgroupReadSearchModify.SearchSgroups | server/ldap_sgroup_read_search_modify.ts:42-44 | entries found under `groups_dn`, at most `sizeLimit` of them |
| LdapSgroupReadSearchModify.SearchSgroupsDn | server/ldap_sgroup_read_search_modify.ts:46-48 | the DNs of those entries, in order |
| LdapSgroupReadSearchModify.DnsToSgroupIds | server/ldap_sgroup_read_search_modify.ts:51-55 | the ids of all DNs, or the error "weird DN …" naming a DN that maps to no id |
| LdapSgroupReadSearchModify.SearchSgroupsId | server/ldap_sgroup_read_search_modify.ts:50-56 | succeeds iff every found DN maps to an id, and then lists those ids in order |
| LdapSgroupReadSearchModify.SgroupAttrsChanges | server/ldap_sgroup_read_search_modify.ts:62-64 | one replace per attribute; `""` (or undefined) becomes an empty value list |
| LdapSgroupReadSearchModify.ReplacesAlwaysApply | server/ldap_sgroup_read_search_modify.ts:62-65 | a list of replaces can never fail on an existing entry |
| LdapSgroupReadSearchModify.ModifySgroupAttrs | server/ldap_sgroup_read_search_modify.ts:62-65 | the group's entry gets every given attribute replaced; a missing group changes nothing |
| LdapSgroupReadSearchModify.DnsOptsToUrls | server/ldap_sgroup_read_search_modify.ts:72 | `dn_opts_to_url` of every entry, in order |
| LdapSgroupReadSearchModify.MrightChanges | server/ldap_sgroup_read_search_modify.ts:70-74 | one change per present operation of the mright, on `memberURL;x-<mright>` with the encoded URLs |
| LdapSgroupReadSearchModify.ToLdapModsShape | server/ldap_sgroup_read_search_modify.ts:67-77 | every emitted change comes from one (mright, operation) pair of the input, on that mright's attribute |
| LdapSgroupReadSearchModify.ToLdapMods | server/ldap_sgroup_read_search_modify.ts:67-77 | the nested loops emit the changes of each mright in turn, in the input order |
| LdapSgroupReadSearchModify.ModifyDirectMembersOrRights | server/ldap_sgroup_read_search_modify.ts:79-86 | a `member` edit on a stem fails with "Member not allowed for stems" before any write; otherwise all the changes are applied atomically to the group's entry, or nothing changes |
| LdapCheckRights.EqEach | server/my_ldap_check_rights.ts:11-13 | one equality test of the user DN per attribute, in order |
| LdapCheckRights.UserHasRightOnSgroupFilter | server/my_ldap_check_rights.ts:9-15 | the OR of the equality tests built; an error iff an allowed flattened attribute is not configured |
| LdapCheckRights.UserHasRightOnSgroupFilterRenders | server/my_ldap_check_rights.ts:9-15 | the string filter is the rendering of the filter tree |
| LdapCheckRights.UserHasRightOnSgroupFilterMeaning | server/my_ldap_check_rights.ts:9-15 | an entry matches iff the user DN is in the flattened attribute of some right at least as strong as the requested one |
| LdapCheckRights.SgroupFilterRenders | server/ldap_helpers.ts:33-37 | the id filter used by the rights check is the rendering of its filter tree |
| LdapCheckRights.SgroupFilterEachMeaning | server/my_ldap_check_rights.ts:18 | the OR of the id filters matches iff one id's filter does |
| LdapCheckRights.AtLeastOneFilterMeaning | server/my_ldap_check_rights.ts:18-22 | the combined filter matches iff the entry is one of the ids AND the user holds the right on it |
| LdapCheckRights.UserHasRightOnAtLeastOneSgroups | server/my_ldap_check_rights.ts:17-25 | a boolean, or an error iff a flattened attribute is not configured |
| LdapCheckRights.UserHasRightOnAtLeastOneSgroupsMeaning | server/my_ldap_check_rights.ts:17-25 | true iff some group under `groups_dn` is one of the ids and grants the user the right (or a stronger one) |
| LdapCheckRights.CheckRightOnAnyParents | server/my_ldap_check_rights.ts:27-43 | TrustedAdmin fails only when the immediate parent stem is non-root and missing ("stem … does not exist"); a user passes iff the right holds on one of the proper ancestors |
| LdapCheckRights.AnyParentsIgnoresSelf | server/my_ldap_check_rights.ts:34-41 | for a user, the check reads the ancestors only; the id itself is not among them |
| LdapCheckRights.CheckRightOnSelfOrAnyParents | server/my_ldap_check_rights.ts:45-59 | always passes for TrustedAdmin; for a user passes iff the right holds on the id or one of its ancestors |
| LdapCheckRights.SelfOrAnyParentsMeaning | server/my_ldap_check_rights.ts:45-59 | the user check passes iff some group among the id and its ancestors grants the right |
| LdapSubject.NoSpaces | server/ldap_subject.ts:14 | `replace(/ /g, "")`: no space is left |
| LdapSubject.SearchFilter | server/ldap_subject.ts:13-15 | the configured filter with every `%TERM%` replaced as `String.replace` does (the `$$`, `$&`, `` $` `` and `$'` patterns of the term included) and all spaces removed: the result holds no space |
| LdapSubject.SearchFilterSubstitutes | server/ldap_subject.ts:13-15 | a filter `a%TERM%b` (no other marker) becomes `a`, the term with its `$` patterns expanded against `a` and `b`, then `b`, every space removed; a term without `$` is inserted as it is |
| LdapSubject.ReplaceAllOnce | server/ldap_subject.ts:14 | `replace(/%TERM%/g, t)` on a text with one marker: the marker gives way to the substitution of `t` |
| LdapSubject.SearchTermPatterns | server/ldap_subject.ts:14 | in a term, `$&` inserts the marker itself, `$'` the filter text after it, `$$` a single `$` |
| JsString.Substitution | server/ldap_subject.ts:14 | a replacement without `$` is inserted literally |
| JsString.JsonEscapeChar | server/api_get.ts:345 | `JSON.stringify`'s escape of one character: unchanged when plain, otherwise a backslash escape |
| JsString.JsonEscapeNoControl | server/api_get.ts:345 | no control character is left in an escaped string |
| JsString.JsonEscapePlain | server/api_get.ts:345 | text without `"`, `\` or control characters is written as it is |
| JsString.JsonEscapeAppend | server/api_get.ts:345 | escaping distributes over concatenation |
| JsString.JsonEscapeRoundTrip | server/api_get.ts:345 | reading back the escaped text gives the original string |
| LdapSubject.SearchFilterWithoutMarker | server/ldap_subject.ts:13-15 | a filter without `%TERM%` only loses its spaces |
| LdapSubject.FromPairsGrouped | server/ldap_subject.ts:40-44 | a map with unique keys |
| LdapSubject.FromPairsGroupedLookup | server/ldap_subject.ts:40-44 | each key maps to all its values in input order, duplicates kept; keys without values are absent |
| LdapSubject.RdnPairs | server/ldap_subject.ts:53-55 | every pair comes from a DN of the input split at its first comma, and every DN with a comma contributes its pair |
| LdapSubject.ParentDnToRdnsSound | server/ldap_subject.ts:53-55 | every RDN grouped under a parent DN rebuilds one of the input DNs |
| LdapSubject.SearchSubjects | server/ldap_subject.ts:18-26 | the loop builds one subject per found entry and removes the used keys from `dn2opts` |
| LdapSubject.SearchSubjectsKeys | server/ldap_subject.ts:18-26 | the subjects are keyed by exactly the found DNs; `dn2opts` loses exactly those DNs |
| LdapSubject.SearchSubjectsOptions | server/ldap_subject.ts:20-24 | for distinct found DNs, each subject carries its options from `dn2opts`, `{}` by default |
| LdapSubject.SearchSubjectsUntouched | server/ldap_subject.ts:22 | options of DNs that were not found stay in `dn2opts` |
| LdapSubject.AssignLookup | server/ldap_subject.ts:66 | `Object.assign`: keys of the source override, the others keep the target's value |
| LdapSubject.RdnFilters | server/ldap_subject.ts:29 | one `(<rdn>)` filter per RDN |
| LdapSubject.SearchChunk | server/ldap_subject.ts:64-65 | one branch query; the count added is the number of subjects it found |
| LdapSubject.BranchStepSearches | server/ldap_subject.ts:64-66 | one loop turn merges the found subjects into the result and counts them |
| LdapSubject.ChunkLoopTurn | server/ldap_subject.ts:63-70 | after a chunk, the loop stops iff a size limit is set and the branch count has reached it |
| LdapSubject.SearchBranch | server/ldap_subject.ts:62-70 | the `for … break` loop over the chunks of one branch computes the chunk loop's result |
| LdapSubject.GetSubjects | server/ldap_subject.ts:52-75 | the subjects gathered over every branch that maps to a subject source, in the grouped order |
| LdapSubject.ChunkLoopChunks | server/ldap_subject.ts:63-70 | the queries are a non-empty prefix of the chunks, all of them when there is no size limit |
| LdapSubject.ChunkLoopStops | server/ldap_subject.ts:67-69 | every query but the first starts below the limit, and the loop stops early only once the branch count reached the limit |
| LdapSubject.GroupsRunQueries | server/ldap_subject.ts:59-70 | every query covers 1 to 10 RDNs of a single branch that maps to a subject source, each RDN from the input DNs |
| LdapSubject.GetSubjectsQueries | server/ldap_subject.ts:52-75 | the same for the whole lookup: parents without a subject source are never queried |
| RemoteSql.StripPrefixAndTrim | server/remote_query.ts:80-82 | present iff the prefix is there; the rest with leading spaces trimmed |
| RemoteSql.GetParam | server/remote_query.ts:83-88 | present iff `s` starts with `name=` and a `:` follows; then the value before the first `:` (end-trimmed) and the rest (start-trimmed) |
| RemoteSql.GetParamOf | server/remote_query.ts:83-88 | `get_param(name, name=v:rest)` gives `v` and `rest`, trimmed, when `v` has no `:` |
| RemoteSql.OptionalParam | server/remote_query.ts:90-92 | `get_param`'s result, or (undefined, s) when the parameter is absent |
| RemoteSql.ParseToSubjectSource | server/remote_query.ts:97-100 | fails with "expected ou=xxx,dc=xxx?uid, got …" iff there is no `?`; otherwise split at the first `?`, with `*` read as no id_attr |
| RemoteSql.SubjectSourceRoundTrip | server/remote_query.ts:66-100 | parsing `ssdn?id_attr` written by `toString` gives back the subject source |
| RemoteSql.ParseSqlUrl | server/remote_query.ts:102-112 | undefined iff the input does not start with `sql:`; "remote= is missing in …" when there is no `remote=` parameter; never sets a forced periodicity |
| RemoteSql.SqlUrlShape | server/remote_query.ts:73-78 | `sql: remote=<name>[ : subject=<ssdn>?<id_attr or *>] : <select_query>` |
| RemoteSql.SqlUrlRoundTrip | server/remote_query.ts:73-112 | `parse_sql_url(to_sql_url(q)) == q` when the name has no `:` and no surrounding spaces, the ssdn has no `?` and the query does not start with whitespace or `subject=` |
| RemoteSql.Chunks | server/remote_query.ts:53 | `_.chunk`: non-empty chunks of at most n values whose concatenation is the input |
| RemoteSql.ValueFiltersMeaning | server/remote_query.ts:54-58 | the OR of the equalities matches an entry iff one of its id attributes holds one of the values |
| RemoteSql.PutFound | server/remote_query.ts:59-61 | the found DNs are added with empty options |
| RemoteSql.ValuesToDnsSpecKeys | server/remote_query.ts:51-64 | the chunked lookups find exactly the DNs one lookup over all values would find |
| RemoteSql.SqlValuesToDnsChunked | server/remote_query.ts:51-64 | the nested loops compute the chunk-by-chunk lookup with chunks of 10 |
| RemoteSql.SqlValuesToDnsMeaning | server/remote_query.ts:51-64 | the DNs found are exactly those of the source's entries whose id attributes hold one of the values |
| RemoteSql.ToSsToIdAttrs | server/remote_query.ts:127-130 | the id_attrs of the subject source whose dn is the ssdn; an error when it is not configured or has none |
| RemoteSql.ValuesAsDns | server/remote_query.ts:138 | every value becomes a DN with empty options |
| RemoteSql.SqlValuesToDns | server/remote_query.ts:132-140 | values are DNs without a subject source; otherwise the chunked lookup with the given id_attr or the configured ones, failing iff those are missing |
| RemoteSql.Candidates | server/remote_query.ts:148-149 | exactly the (source, id_attr) pairs of the configuration |
| RemoteSql.BestIndexMeaning | server/remote_query.ts:147-157 | no candidate iff every count is 0; otherwise the FIRST candidate with the largest count |
| RemoteSql.BestIndexStep | server/remote_query.ts:152-154 | a later candidate replaces the best only with a strictly larger count |
| RemoteSql.GuessSubjectSource | server/remote_query.ts:142-162 | undefined when every value ends with `base_dn`; otherwise the first candidate with strictly the most matches and its DNs, undefined when nothing matches |
| RemoteSql.SqlQuery | server/remote_query.ts:114-125 | "internal error: unknown remote …" for an unknown remote, "internal error: remote is not SQL …" for a non-SQL driver, else the query run on that remote |
| RemoteLdap.HostToRemoteName | server/remote_ldap_query.ts:23 | `localhost` becomes the empty remote name; any other host is kept |
| RemoteLdap.ParseLdapUrl | server/remote_ldap_query.ts:13-28 | undefined for text not starting with `ldap:` and for plain member URLs; throws "only one attribute handled …" on more than one attribute; otherwise the remote name, DN, single attribute and filter of the parsed URL |
| RemoteLdap.MemberUrlIsNotRemote | server/remote_ldap_query.ts:16 | every member URL written by `dn_opts_to_url` is left to `url_to_dn` |
| RemoteLdap.RemoteUrlIsNotMember | server/remote_ldap_query.ts:9-16 | a URL written by `to_ldap_url` for a named remote starts with `ldap:` and is not a member URL |
| RemoteLdap.LdapUrlRoundTrip | server/remote_ldap_query.ts:9-28 | parsing `to_ldap_url(q)` gives back `q` when the URL parser splits it into its parts and the remote is named |
| RemoteLdap.QueryFilter | server/remote_ldap_query.ts:32 | the given filter, else `(objectClass=*)` |
| RemoteLdap.SearchBase | server/remote_ldap_query.ts:35-47 | the URL's DN when non-empty; with a remote config its `search_branch`, else "remote config has no base_dn, and ldap URI has no DN"; without one the main `base_dn` |
| RemoteLdap.RawQuery | server/remote_ldap_query.ts:30-49 | fails iff the base cannot be chosen; otherwise exactly the DNs found, each with empty options |
| RemoteLdap.LdapQuery | server/remote_ldap_query.ts:51-64 | "internal error: unknown remote …" for an unknown remote, "internal error: remote is not LDAP …" for another driver, else the raw query |
| RemoteLdap.LocalhostQueryFails | server/remote_ldap_query.ts:23-62 | a `localhost` URL parses to remote name `""`, which `ldap_query` then rejects as an unknown remote |
| RemoteLdap.LdapQueryCorrected | server/remote_ldap_query.ts:44-47 | the empty remote name reaches the main-connection branch of `raw_query`; named remotes behave as before |
| RemoteLdap.LocalhostQuerySearchesMainDirectory | server/remote_ldap_query.ts:44-47 | with the correction a `localhost` URL searches the main directory under its DN (or `base_dn`) |
| Periodicity.LeadingDigits | server/periodicity.ts:16-19 | the length of the run of digits `\d+` at the start of the text |
| Periodicity.CountAfterMeaning | server/periodicity.ts:16-19 | the optional `(\d+ )` group before the unit reads as k iff the text is `<digits of k> <unit>…`, or just `<unit>…` for k = 1 |
| Periodicity.EveryCountMeaning | server/periodicity.ts:16-19 | the same after the `toutes les ` prefix |
| Periodicity.ToSecondsHours | server/periodicity.ts:16-17 | `toutes les [N ]heures…` gives N·3600 |
| Periodicity.ToSecondsMinutes | server/periodicity.ts:18-19 | `toutes les [N ]minutes…` gives N·60 when the hours form does not match |
| Periodicity.ToSecondsNone | server/periodicity.ts:12-23 | undefined iff the text is not `tous les jours` and matches neither the hours nor the minutes form |
| Periodicity.MinutesPeriodicity | server/periodicity.ts:18-19 | `toutes les <d> minutes` gives d·60 |
| Periodicity.HourlyPeriodicity | server/periodicity.ts:16-17 | `toutes les heures` gives 3600 (N defaults to 1) |
| Periodicity.DailyAtIsNotAnInterval | server/periodicity.ts:12-23 | a `tous les jours à HhM` text is not an interval |
| Periodicity.JamaisIsNotAnInterval | server/periodicity.ts:12-33 | `jamais` is neither an interval nor a daily time |
| Periodicity.DailyAtOf | server/periodicity.ts:33 | `tous les jours à <h>h<m>…` yields the hour and minute numbers |
| Periodicity.DayStart | server/periodicity.ts:35-36 | the local midnight at or before the instant |
| Periodicity.SetHours | server/periodicity.ts:36 | `setHours`: same local day, hour h, minutes and seconds kept |
| Periodicity.SetMinutes | server/periodicity.ts:37 | `setMinutes`: same local hour, minute m, seconds kept |
| Periodicity.ClearSeconds | server/periodicity.ts:38-39 | `setSeconds(0)` and `setMilliseconds(0)` at whole-second resolution |
| Periodicity.SettersLandOn | server/periodicity.ts:35-39 | the three setters land on local midnight + h hours + m minutes of the same day |
| Periodicity.DailyIsNext | server/periodicity.ts:35-42 | that instant, moved one day later only when strictly before `now`, is the first instant at or after `now` with that local time of day |
| Periodicity.DailyElapse | server/periodicity.ts:35-42 | the step-by-step date update returns the next instant at or after `now` whose local time is h:m; for a time within the day, none earlier |
| Periodicity.DailyOrRefused | server/periodicity.ts:33-44 | the daily form as above, or "internal error: not handled periodicity …" |
| Periodicity.NextElapse | server/periodicity.ts:25-46 | a non-zero interval gives now + seconds; `jamais` gives 9999-01-01T00:00:00Z; a daily time gives its next occurrence; anything else, and a zero interval not in another form, throws "internal error: not handled periodicity …" |
| Cache.AddId | server/cache.ts:26 | `(map[name] ??= new Set()).add(id)`: the remote's set gains the id, other remotes are unchanged |
| Cache.FedBy | server/cache.ts:23-25 | the (remote name, id) pair of one synchronized group; an internal error iff its DN maps to no id or its attribute is missing or unparseable |
| Cache.CollectOk | server/cache.ts:22-27 | the scan succeeds iff no entry raises the internal error |
| Cache.CollectLookup | server/cache.ts:22-27 | an id is in a remote's set iff that pair was produced by some entry |
| Cache.RemoteToSgroupIdsMeaning | server/cache.ts:19-29 | the map sends each remote name to exactly the ids of the synchronized groups that name it; it is an error iff some group raises the internal error |
| Cache.CollectErrSticks | server/cache.ts:23-25 | once an entry has thrown, the later entries do not change the outcome |
| Cache.ComputeRemoteToSgroupIds | server/cache.ts:19-29 | the loop computes that map |
| Cache.Caches.constructor | server/cache.ts:11-13 | the cache starts empty |
| Cache.Caches.GetRemoteToSgroupIds | server/cache.ts:15-17 | returns the stored map without rescanning when there is one; otherwise computes it and stores it on success |
| Cache.Caches.ClearAll | server/cache.ts:31-33 | the cache is empty again, so the next call recomputes |
| ApiLog.NoSlashKept | server/api_log.ts:8 | an id without `/` is used as is |
| ApiLog.LogFileInjective | server/api_log.ts:7-10 | two ids without `/` share a log file only when they are equal |
| ApiLog.LogFileStaysInDir | server/api_log.ts:7-10 | an id with at most one `/` gets a file directly inside the log directory, `<dir>/<name>` with no `/` in the name |
| ApiLog.ActionAndSyncLogsDiffer | server/api_log.ts:9 | the action log and the `-sync` log of a group are distinct files |
| ApiLog.FirstLf | server/api_log.ts:15 | the index of the first `\n` |
| ApiLog.Spaces | server/api_log.ts:13 | n space bytes |
| ApiLog.BlankedMeaning | server/api_log.ts:12-17 | same length; every byte up to and including the first `\n` becomes a space and the rest is unchanged |
| ApiLog.BlankPartialLine | server/api_log.ts:12-17 | the in-place loop over the buffer produces exactly that blanking; for a buffer holding a line feed |
| ApiLog.AsWrittenLosesFirstEntry | server/api_log.ts:22 | for a one-line file read with `bytes` equal to its size, the code as written blanks the only entry; the corrected window keeps it |
| ApiLog.FullLinesKeepEntries | server/api_log.ts:19-30 | the corrected window: `whole_file` iff bytes ≥ size; reads min(bytes, size) bytes from the end; blanks the partial first line only when not whole |
| ApiLog.ReadWindow | server/api_log.ts:19-30 | computes the corrected window |
| ApiLog.LogFiles.ReadFullLines | server/api_log.ts:19-30 | the corrected window (`whole_file` iff bytes ≥ size) of an existing file, ENOENT otherwise; for a partial window holding a line feed |
| ApiLog.LogFiles.ReadJsonl | server/api_log.ts:38-50 | a missing file reads as `{ whole_file: true }` with nothing in it; an existing one through the corrected window; for a partial window holding a line feed |
| ApiLog.LogFiles.GetSgroupLogs | server/api_log.ts:62-66 | "you must configure conf.log_dir first" without a log directory; otherwise the corrected window of the group's log file; for a partial window holding a line feed |
| ApiLog.LogFiles.Audit | server/api_log.ts:52-54 | appends the message and `\n` to the file, creating it if needed |
| ApiLog.LogFiles.LogSgroupAction | server/api_log.ts:78-86 | appends one line to the group's log file, and does nothing without a log directory |
| ApiLog.LogFiles.LogSgroupFlattenedModifications | server/api_log.ts:92-99 | appends one line to the group's `-sync` log file, and does nothing without a log directory |
| GrouperLoader.FromIntervalSeconds | server/migration-grouper/grouper_loader.ts:16-23 | fails with "from_intervalSeconds: not implemented …" for any value other than 600, 3600 and 86400 |
| GrouperLoader.IntervalSecondsKept | server/migration-grouper/grouper_loader.ts:16-23 | every accepted interval maps to a periodicity of exactly that many seconds |
| GrouperLoader.TenMinutes | server/migration-grouper/grouper_loader.ts:18 | `toutes les 10 minutes` is 600 seconds |
| GrouperLoader.OneHour | server/migration-grouper/grouper_loader.ts:19 | `toutes les heures` is 3600 seconds |
| GrouperLoader.OneDay | server/migration-grouper/grouper_loader.ts:20 | `tous les jours` is 86400 seconds |
| GrouperLoader.Digits | server/migration-grouper/grouper_loader.ts:28-32 | the `\d+` run at the start and the rest; absent iff the text does not start with a digit |
| GrouperLoader.DailyCron | server/migration-grouper/grouper_loader.ts:32 | the minute and hour digit runs of `S M H * * ?` |
| GrouperLoader.CronMinutes | server/migration-grouper/grouper_loader.ts:28-29 | `S 0/N * * * ?` gives `toutes les N minutes`, N without leading zeros |
| GrouperLoader.QuartzMinutes | server/migration-grouper/grouper_loader.ts:28-29 | any text the first pattern matches gives the minutes periodicity |
| GrouperLoader.CronHourly | server/migration-grouper/grouper_loader.ts:30-31 | `S M * * * ?` gives `toutes les heures` |
| GrouperLoader.CronDaily | server/migration-grouper/grouper_loader.ts:32-34 | `S M H * * ?` gives `tous les jours à <H>h<MM>`, a one-digit minute zero-padded |
| GrouperLoader.QuartzDaily | server/migration-grouper/grouper_loader.ts:32-34 | any text only the third pattern matches gives the daily periodicity |
| GrouperLoader.PadDigits | server/migration-grouper/grouper_loader.ts:27 | `pad` adds a `0` before a single digit only |
| GrouperLoader.CronNever | server/migration-grouper/grouper_loader.ts:35-36 | a Feb 30/31 cron `S M H 30 2 ?` gives `jamais` |
| GrouperLoader.QuartzNever | server/migration-grouper/grouper_loader.ts:35-36 | any text ending in `30 2 ?`/`31 2 ?` that no earlier pattern matches gives `jamais` |
| GrouperLoader.CronPeriodicityMeaning | server/migration-grouper/grouper_loader.ts:25-40 | every converted cron reads back as the periodicity module reads it: N minutes is N·60 seconds, hourly is 3600, the daily form yields the cron's hour and minute, the rest is `jamais` |
| GrouperLoader.ZeroMinutesCron | server/migration-grouper/grouper_loader.ts:28-29 | `S 0/0 * * * ?` converts to `toutes les 0 minutes`, an interval of 0 seconds, which `next_elapse` (server/periodicity.ts:27-28) does not take as an interval |
| GrouperLoader.ZeroMinutesNotDaily | server/periodicity.ts:30-44 | `toutes les 0 minutes` is not a daily time either, so `next_elapse` throws on it |
| GrouperLoader.Claim | server/migration-grouper/grouper_loader.ts:60-68 | the first claimant of a short name records its full name and gets the short name; later claimants get their full `type_name` |
| GrouperLoader.FirstClaimWins | server/migration-grouper/grouper_loader.ts:60-68 | after a first claim, another full name gets its full name, and the first one keeps getting the short name |
| GrouperLoader.ShortNames.constructor | server/migration-grouper/grouper_loader.ts:55 | no short name is claimed yet |
| GrouperLoader.ShortNames.UniqueName | server/migration-grouper/grouper_loader.ts:60-68 | updates the recorded full names and returns the name as `Claim` does |
| GrouperLoader.MaxBy | server/migration-grouper/grouper_loader.ts:152 | `maxBy`: the FIRST entry with the largest count; absent iff there is none |
| GrouperLoader.MaxCount | server/migration-grouper/grouper_loader.ts:151-153 | the key of that entry |
| GrouperLoader.WithForced | server/migration-grouper/grouper_loader.ts:211 | the same query with the forced periodicity changed |
| GrouperLoader.DropUnneededKeepsPeriodicity | server/migration-grouper/grouper_loader.ts:208-214 | `forced_periodicity` is removed exactly where it equals the remote's default, and the periodicity in effect is unchanged |
| GrouperLoader.RemoveUnneededForcedPeriodicities | server/migration-grouper/grouper_loader.ts:208-214 | the in-place loop drops the unneeded forced periodicity of every query and changes nothing else |
| MigrationHelpers.ReplaceChar | server/migration-grouper/migration_helpers.ts:20 | `replace(/:/g, sep)`: no `:` is left when the replacement has none; text without `:` is unchanged |
| MigrationHelpers.ReplaceCharBack | server/migration-grouper/migration_helpers.ts:20 | replacing back a separator absent from the input restores it |
| MigrationHelpers.ToIdHasNoColon | server/migration-grouper/migration_helpers.ts:17-23 | with a separator other than `:`, the id has no `:` left |
| MigrationHelpers.ToIdStem | server/migration-grouper/migration_helpers.ts:17-23 | a non-empty stem id ends with `.` (so `is_stem` holds); a group id is the input with `:` replaced by the separator, unless the separator is `:` |
| MigrationHelpers.ToIdReadBack | server/migration-grouper/migration_helpers.ts:17-23 | for a one-character separator absent from the Grouper name, the Grouper name is recovered from the id |
| MigrationHelpers.Sgroup2Dn | server/migration-grouper/migration_helpers.ts:25-27 | `""` gives `groups_dn`; otherwise `"cn=<to_id>," + groups_dn` |
| MigrationHelpers.Sgroup2DnIsSgroupIdToDn | server/migration-grouper/migration_helpers.ts:25-27 | it agrees with `sgroup_id_to_dn` of the migrated id, which `dn_to_sgroup_id` then recovers |
| MigrationHelpers.Subject2Dn | server/migration-grouper/migration_helpers.ts:34-52 | `g:gsa` gives a group DN, `g:isa` maps only GrouperAll, `grouperExternal` and other `g:isa` subjects give undefined, an unknown source throws `unknown subject source "…"` |
| MigrationHelpers.LdapSubjectIsPerson | server/migration-grouper/migration_helpers.ts:35-37 | an `ldap` subject, with or without `@univ-paris1.fr`, gives that person's uid DN |
| MigrationHelpers.ToMyMods | server/migration-grouper/migration_helpers.ts:54-56 | a single edit for the single mright |
| MigrationHelpers.ToMyModsMeaning | server/migration-grouper/migration_helpers.ts:54-56 | the edit adds, deletes or replaces exactly the one subject DN, and needs updater for member/reader, admin otherwise |
| MigrationHelpers.GrouperRightToGroupaldRight | server/migration-grouper/migration_helpers.ts:59-83 | the table entry, including "ignore"; "unknown grouper privilege …" for a privilege not in the table |
| MigrationHelpers.GroupaldNamesKept | server/migration-grouper/migration_helpers.ts:75-78 | the groupald names map to themselves |
| MigrationHelpers.MemberAndIgnoredPrivileges | server/migration-grouper/migration_helpers.ts:59-83 | only `member` maps to member; exactly `optin` and `optout` are ignored |
| MigrationHelpers.MissingObjectClasses | server/migration-grouper/migration_helpers.ts:110-112 | exactly the expected object classes (stem or group) not already on the entry; an error iff the entry is missing |
| MigrationHelpers.EnsureSgroupObjectClasses | server/migration-grouper/migration_helpers.ts:109-118 | adds exactly the missing object classes, and writes nothing when none are missing |
| MigrationHelpers.ObjectClassesComplete | server/migration-grouper/migration_helpers.ts:109-118 | after the add every expected class is present, so a second call finds nothing missing |
| ApiGet.UserDnOf | server/api_get.ts:20-24 | TrustedAdmin stays TrustedAdmin; a user becomes their people DN |
| ApiGet.UserHighestRight | server/api_get.ts:26-34 | the loop returns the first of admin, updater, reader whose flattened attribute holds the user DN |
| ApiGet.FirstRightHeldMeaning | server/api_get.ts:26-34 | with every right configured: undefined iff the user holds none; otherwise a right the user holds, with every earlier one not held |
| ApiGet.FirstRightHeldErr | server/api_get.ts:28 | an error only for an unconfigured flattened attribute, reached after every earlier right was not held |
| ApiGet.HighestRightMeaning | server/api_get.ts:26-34 | the result is held and no strictly higher right is held; undefined iff no right is held |
| ApiGet.HighestRightErr | server/api_get.ts:26-34 | the missing-configuration error names a right not configured, and no higher right is held |
| ApiGet.AfterLastColon | server/api_get.ts:233 | `replace(/.*:/, '')`: a suffix of the input with no `:`; the whole input when it has none; `.` read as matching line terminators too |
| ApiGet.SimplifyHierarchicalOu | server/api_get.ts:232-236 | only `ou` changes, to the text after its last `:` when that text is non-empty; otherwise the attributes are unchanged; `.` read as matching line terminators too |
| ApiGet.SimplifyHierarchicalOuIdempotent | server/api_get.ts:232-236 | simplifying twice equals simplifying once |
| ApiGet.ToSgroupAttrs | server/api_get.ts:238-247 | the root gets `ou` = "Racine"; other ids get the simplified display attributes; every attribute other than `ou` is the entry's own; `.` read as matching line terminators too |
| ApiGet.EntryRight | server/api_get.ts:70 | TrustedAdmin gets admin; a user gets their highest direct right |
| ApiGet.ParentPairs | server/api_get.ts:69-75 | succeeds iff every entry's right can be computed; one pair per entry |
| ApiGet.GetParentsRaw | server/api_get.ts:66-77 | succeeds iff the admin, updater and reader flattened attributes are all configured (`to_allowed_flattened_attrs('reader')`, line 68, fails first, even for TrustedAdmin or an empty search) and every found entry's right can be computed; the result has unique ids |
| ApiGet.GetParentsRawLookup | server/api_get.ts:66-77 | an id is present iff some found DN maps to it; its value holds that entry's attributes, direct right and id |
| ApiGet.OrderedParentsIds | server/api_get.ts:84-86 | the ordered parents are exactly the ids present in the map, in the given order |
| ApiGet.InheritRights | server/api_get.ts:88-92 | the same length, and attributes and ids unchanged |
| ApiGet.InheritRightsLast | server/api_get.ts:88-92 | the last right is the max of the previous running best and its own right |
| ApiGet.InheritRightsAboveStart | server/api_get.ts:88-92 | every inherited right is at least the starting best |
| ApiGet.InheritRightsAboveEach | server/api_get.ts:88-92 | each inherited right is at least the own right of every ancestor above it |
| ApiGet.InheritRightsAttained | server/api_get.ts:88-92 | each inherited right is the starting best or the own right of some ancestor above it |
| ApiGet.InheritRightsNondecreasing | server/api_get.ts:88-92 | rights never decrease along the list |
| ApiGet.InheritRightsLoop | server/api_get.ts:89-92 | the in-place loop computes exactly the inherited rights |
| ApiGet.GetParents | server/api_get.ts:78-94 | the method computes the ordered parents with inherited rights |
| ApiGet.OrderedInheritedMeaning | server/api_get.ts:84-92 | the present ids in the given order, with nondecreasing rights |
| ApiGet.GetParentsUnfold | server/api_get.ts:78-94 | the result is the inheritance over the reversed `parent_stems` looked up in the raw parents |
| ApiGet.GetParentsMeaning | server/api_get.ts:78-94 | the ancestors the group search returns, root first, with rights that never decrease |
| ApiGet.RightsFoldMeaning | server/api_get.ts:105-108 | the best is at least the own right and every parent's right, and is one of them |
| ApiGet.RightOrDeny | server/api_get.ts:110-111 | throws `no right to read sgroup "<id>"` iff no right was found; otherwise the best right and the parents |
| ApiGet.GetRightAndParents | server/api_get.ts:96-112 | the method computes its specification |
| ApiGet.GetRightAndParentsUnfold | server/api_get.ts:96-112 | the result is RightOrDeny of the fold of the parents' rights over the own right |
| ApiGet.RightOrDenyFold | server/api_get.ts:105-111 | denied iff neither the sgroup nor any parent gives a right; otherwise the max, attained, and admin on self gives admin |
| ApiGet.GetRightAndParentsTrustedAdmin | server/api_get.ts:96-112 | TrustedAdmin gets admin whenever the parents can be read |
| ApiGet.TrustedAdminNeedsFlattenedAttrs | server/api_get.ts:66-68 | TrustedAdmin too is refused, with the configuration error, when a flattened attribute of admin, updater or reader is missing |
| ApiGet.ChildPairs | server/api_get.ts:55-61 | one optional pair per found entry |
| ApiGet.GetChildren | server/api_get.ts:50-63 | the children map has unique ids |
| ApiGet.GetChildrenLookup | server/api_get.ts:50-63 | a child is present iff it is not the root, not a grandchild and some found DN maps to it; its attributes have `ou` simplified |
| ApiGet.ValidateRemote | server/api_get.ts:335-348 | passes iff SQL has a remote name, a named remote exists and a `to_subject_source` is a known source; the error message of each check, the third with the `JSON.stringify` text of the subject source |
| ApiGet.ToSubjectSourceJsonReadBack | server/api_get.ts:345 | the `ssdn` member of the message is the JSON string of the DN, which reads back to the DN |
| ApiGet.ToSubjectSourceJsonBackslash | server/api_get.ts:345 | the DN `cn=a\,b` appears as `cn=a\\,b`, as `JSON.stringify` writes it |
| ApiGet.ValidSqlRemoteIsKnown | server/api_get.ts:335-341 | a validated SQL query runs against its configured remote |
| ApiGet.ValidLocalhostQueryStillFails | server/api_get.ts:339 | a validated LDAP query with an empty remote name still fails with `unknown remote` in `ldap_query` |
| ApiGet.ParseRemoteQuerySql | server/api_get.ts:350-352 | a serialised SQL query parses back to itself |
| ApiGet.ParseRemoteQueryLdap | server/api_get.ts:350-352 | a serialised remote LDAP query parses back to itself, given a URL parser that reads it back |
| ApiGet.ParseRemoteQueryRejects | server/api_get.ts:350-352 | neither `sql:` nor a DN-carrying `ldap:` URL: `invalid remote query <rq>` |
| ApiGet.MemberUrlIsNotRemoteQuery | server/api_get.ts:350-352 | a plain member URL is not a remote query |
| ApiGet.Extract | server/api_get.ts:363-364 | a prefix of at most 10 values, the whole list iff it has at most 10 |
| ApiGet.RemoteValuesLdap | server/api_get.ts:361 | LDAP values are distinct and each was found on the configured LDAP remote |
| ApiGet.TestRemoteQuery | server/api_get.ts:354-372 | the invalid-id, validation and rights errors in order; on success the count, the extract, `values_truncated` iff count > 10, and a guess only for a non-empty SQL result |
| ApiGet.SkipWs | server/api_get.ts:275 | drops exactly the leading whitespace |
| ApiGet.SplitWsMeaning | server/api_get.ts:275 | `split(/\s+/)`: no token has whitespace, their concatenation is the input without whitespace, and there are several tokens iff the input has whitespace |
| ApiGet.TokenFilters | server/api_get.ts:281-283 | one search filter per token |
| ApiGet.TermFilters | server/api_get.ts:276-285 | the whole-token filter, plus the AND of the token filters iff the token has whitespace |
| ApiGet.StemsIdWithUserRight | server/api_get.ts:263-270 | the ids of the stems found with the stem filter and the right filter, an error iff a DN has no id |
| ApiGet.SelfAndChildrenFilters | server/api_get.ts:317 | one self-and-children filter per stem id |
| ApiGet.UserRightFilter | server/api_get.ts:305-324 | the OR of the direct-right group filters and the self-and-children filters of the stems with that right |
| ApiGet.CompactStrings | server/api_get.ts:293-297 | `_.compact`: exactly the non-empty strings |
| ApiGet.RestrictedFilters | server/api_get.ts:292-298 | one restricted filter per term filter |
| ApiGet.GroupFiltersMeaning | server/api_get.ts:287-300 | TrustedAdmin uses the term filters; a user gets each term filter ANDed with the right filter and `sgroup_filter` |
| ApiGet.RestrictedFilterParts | server/api_get.ts:293-297 | the AND holds the right filter, the term filter and a non-empty `sgroup_filter`, and nothing else |
| ApiGet.SgroupPairs | server/api_get.ts:224-226 | one optional pair per entry |
| ApiGet.SgroupsWithAttrsLookup | server/api_get.ts:220-230 | an id is present iff some entry's DN maps to it; its value is the last such entry's attributes |
| ApiGet.AddFoundSgroups | server/api_get.ts:224-227 | the inner loop extends the map with one search's entries |
| ApiGet.SearchSgroupsWithAttrs | server/api_get.ts:220-230 | the loop over filters computes the map of every found entry, in order |
| ApiGet.SearchSgroups | server/api_get.ts:272-302 | an error iff the filters cannot be built; otherwise the map of the sgroups found by the group filters with the size limit |
| ApiGet.MyGroupsFilter | server/api_get.ts:256-257 | the OR of the user's direct updater filters, ANDed with `group_filter` |
| ApiGet.MyGroups | server/api_get.ts:251-260 | TrustedAdmin throws "mygroups need a real user"; a user gets the groups found by that filter |
| ApiPost.MyModsToRight | server/api_post.ts:80-87 | admin iff some edited mright is neither reader nor member; updater iff all are reader or member |
| ApiPost.ToSubmods | server/api_post.ts:89-95 | `from_submods` reads the three lists back; empty add/delete are dropped; empty iff nothing to add, delete or replace |
| ApiPost.SubmodsRoundTrip | server/api_post.ts:89-102 | for submods without empty add/delete, `to_submods(from_submods(s)) == s` |
| ApiPost.AssignLookup | server/api_post.ts:110-111 | `Object.assign`: a DN takes the source's options when present there, else keeps the target's |
| ApiPost.TransformReplaceSpec | server/api_post.ts:104-116 | with the corrected (value) comparison: a replace of at most 4 DNs is kept; a longer one becomes add/delete with no replace, failing iff the sgroup is missing |
| ApiPost.MayTransformReplaceIntoAddDelete | server/api_post.ts:104-116 | the method computes the corrected specification from the directory |
| ApiPost.LongReplaceMeaning | server/api_post.ts:107-113 | with the corrected comparison, per DN: added iff wanted with other options than now, deleted iff present now with other options than wanted |
| ApiPost.LongReplaceSameEffect | server/api_post.ts:107-113 | with the corrected comparison, applying the computed add/delete to the current DNs gives exactly the requested replace |
| ApiPost.TransformReplaceAsWritten | server/api_post.ts:104-116 | the code as written, where `hashmap_difference` compares option objects by identity: a short replace is kept, a long one succeeds iff the sgroup exists |
| ApiPost.LongReplaceAsWrittenAddsAll | server/api_post.ts:106-113 | as written, a long replace adds every requested DN and deletes every current DN, since the freshly parsed options are never the same objects |
| ApiPost.AddOfStoredUrlFails | server/ldap_sgroup_read_search_modify.ts:79-85 | an edit whose add holds a value the attribute already stores makes the directory modify fail |
| ApiPost.LongReplaceAsWrittenFails | server/api_post.ts:106-116 | as written, a long replace sharing a DN with the current members turns into a modify that adds a value already stored, so the write fails |
| ApiPost.CheckEach | server/api_post.ts:122-130 | each mright is checked and simplified on its own, with the corrected long-replace comparison |
| ApiPost.GatherOk | server/api_post.ts:122-131 | succeeds iff every mright's check succeeds |
| ApiPost.GatherLookup | server/api_post.ts:127-129 | an mright is kept iff its simplified edit is not empty |
| ApiPost.CheckAndSimplifyOk | server/api_post.ts:120-132 | succeeds iff no member edit on a stem and every long replace reads an existing sgroup |
| ApiPost.StemMemberEditFails | server/api_post.ts:123-125 | a member edit on a stem is rejected |
| ApiPost.CheckAndSimplifyLookup | server/api_post.ts:120-132 | each kept mright holds its simplified edit (corrected long-replace comparison), and nothing is added |
| ApiPost.CheckEachGet | server/api_post.ts:122-130 | each mright's entry is the check of its own edit, with the corrected long-replace comparison |
| ApiPost.CheckAndSimplifyMods | server/api_post.ts:120-132 | the method computes its specification, with the corrected long-replace comparison |
| ApiPost.RemoteToDns | server/api_post.ts:183-196 | LDAP queries go to `ldap_query`; SQL succeeds iff the query and the DN mapping succeed |
| ApiPost.RemoteQueryToDns | server/api_post.ts:188-199 | a query string that does not parse gives the parse error; otherwise its DNs |
| ApiPost.SyncQueryOf | server/api_post.ts:203-204 | the first non-empty value of the synchronisation attribute |
| ApiPost.DirectDns | server/api_post.ts:201-210 | a missing group errors; a synchronised group's members come from its remote query; otherwise the DNs of the stored URLs |
| ApiPost.RemoteToDnsRun | server/api_post.ts:183-196 | the method computes its specification |
| ApiPost.UrlsToDnsHandlingRemote | server/api_post.ts:201-210 | the method computes its specification |
| ApiPost.SubgroupsMembersMeaning | server/api_post.ts:175-178 | succeeds iff every sgroup DN can be read; then exactly the flattened members of the listed sgroups |
| ApiPost.FlattenedDnsMeaning | server/api_post.ts:173-181 | the direct DNs plus the flattened members of the sgroups among them, and nothing else |
| ApiPost.GetFlattenedDns | server/api_post.ts:173-181 | the loop computes its specification |
| ApiPost.Uniq | server/api_post.ts:213 | `_.uniq`: no duplicates, the same elements |
| ApiPost.FlattenedWriteApplies | server/api_post.ts:150-170 | the add/delete diff applies cleanly and leaves exactly the wanted values, other attributes unchanged |
| ApiPost.UpdateFlattenedOk | server/api_post.ts:212-225 | the update succeeds iff subgroups can be read, the mright has a flattened attribute and the group exists |
| ApiPost.UpdateFlattenedResult | server/api_post.ts:212-225 | afterwards the flattened attribute holds exactly the wanted DNs; Unchanged iff it already did; nothing else changes |
| ApiPost.UpdateFlattenedLog | server/api_post.ts:213-223 | the log counts the distinct flattened DNs and lists the added and removed DNs without ""; an empty member list stores [""] |
| ApiPost.UpdateFlattenedLogIs | server/api_post.ts:213-223 | the log is exactly the uniq count and the compacted differences |
| ApiPost.RecomputeAgainUnchanged | server/api_post.ts:212-225 | recomputing again right away reports Unchanged and writes nothing |
| ApiPost.WriteFlattenedDiff | server/api_post.ts:150-170 | no change gives Unchanged and no write; a failed modify gives `update_flattened_mright failed on <id>: …`; otherwise Modified and exactly the entry is rewritten |
| ApiPost.MayUpdateFlattenedMrights_ | server/api_post.ts:212-225 | the method writes exactly its specification's new store, or nothing on error |
| ApiPost.MayUpdateFlattenedMrights | server/api_post.ts:230-236 | the same, starting from the group's direct DNs |
| ApiPost.WithMright | server/api_post.ts:141-143 | each found id is paired with the mright |
| ApiPost.DependentsForMeaning | server/api_post.ts:140-144 | an (id, mright) is listed iff that group's flattened mright holds the group DN |
| ApiPost.DependentsOverMeaning | server/api_post.ts:140-144 | the same, over a list of mrights |
| ApiPost.DependentsMeaning | server/api_post.ts:137-146 | exactly the groups whose flattened mrights hold this group's DN |
| ApiPost.DependentsOverStep | server/api_post.ts:140-144 | each mright appends its own found groups |
| ApiPost.PushAll | server/api_post.ts:141-143 | `push` appends one pair per id |
| ApiPost.SearchGroupsMrightsDependingOnThisGroup | server/api_post.ts:137-146 | the loop computes its specification |
| ApiPost.GroupDnInBranch | server/api_post.ts:139 | a group DN lies under `groups_dn` and maps back to its id |
| ApiPost.RecomputedGroupIsDependent | server/api_post.ts:239-248 | after recomputing g, g is found as a dependent of every sgroup among its direct members |
| ApiPost.PropagateStepFails | server/api_post.ts:243 | a failed recomputation stops the queue without writing |
| ApiPost.PropagateStepDependentsFail | server/api_post.ts:244-246 | a failed dependents search stops after the write |
| ApiPost.PropagateStep | server/api_post.ts:240-247 | one turn: shift, recompute, and push dependents only for a modified member list |
| ApiPost.AfterAfter | server/api_post.ts:240-247 | the trace and logs of consecutive turns concatenate |
| ApiPost.PropagateTurn | server/api_post.ts:241-246 | one loop turn performs exactly one step of the specification |
| ApiPost.PropagateLoop | server/api_post.ts:239-248 | the `for(;;)` loop computes its specification and leaves its store |
| ApiPost.MayUpdateFlattenedMrightsRec | server/api_post.ts:239-248 | the same, with the recomputation and dependents search of the engine |
| ApiPost.PropagateSeedFirst | server/api_post.ts:239-248 | the queue is handled first-in first-out: the initial items come first, and all are handled on success |
| ApiPost.RightsEnqueueNothing | server/api_post.ts:244 | rights changes never enqueue anything |
| ApiPost.UnchangedEnqueuesNothing | server/api_post.ts:244 | an unchanged member list enqueues nothing |
| ApiPost.UpdateFlattenedResultUnchanged | server/api_post.ts:161-163 | Unchanged writes nothing |
| ApiPost.TodoOf | server/api_post.ts:322 | one (id, mright) per kept mright |
| ApiPost.CheckMods | server/api_post.ts:304-310 | the checks run in order and give their specification, ending with the corrected simplification |
| ApiPost.ModifyMembersOrRights | server/api_post.ts:302-325 | with the corrected long-replace comparison: a failed check writes nothing; an empty simplified edit returns early; otherwise the direct write then the propagation of its mrights; the `modify_members_or_rights` action record (with the message and the simplified edits) is returned iff the direct write succeeded |
| ApiPost.ModifyNeedsRight | server/api_post.ts:304-306 | an accepted edit has a valid id, and the user has updater for member/reader edits, admin for updater/admin edits |
| ApiPost.StemMemberEditRejected | server/api_post.ts:123-125 | a member edit on a stem is rejected |
| ApiPost.ChildrenSearchMeaning | server/api_post.ts:68 | the children filter matches iff the sgroup has a child |
| ApiPost.Delete | server/api_post.ts:63-77 | removes exactly the entry iff the id is valid, the user is admin, it has no children and it exists; "can not remove stem with existing children"; on success the `delete` action record holds the group's attributes read before removal |
| ApiPost.StoredRemote | server/api_post.ts:340-347 | the replace changes store exactly the query URL and its forced periodicity, other attributes unchanged |
| ApiPost.WriteRemoteQuery | server/api_post.ts:332-348 | a failed validation or a missing sgroup writes nothing; otherwise the entry is rewritten with the stored remote |
| ApiPost.StoredSqlQueryIsRun | server/api_post.ts:337-347 | a stored SQL query is what the next recomputation runs |
| ApiPost.RemovedQueryUsesStoredMembers | server/api_post.ts:340-343 | removing the query makes the stored member URLs count again |
| ApiPost.ModifyRemoteQuery | server/api_post.ts:356-369 | the invalid-id and validation errors and a missing group fail, and every failure writes nothing; on success the query is stored, member is propagated and a finished run clears the cache; on success the `modify_remote_query` action record holds the message and the new query |
| ApiPost.SyncTodo | server/api_post.ts:376 | one (id, mright) per requested mright |
| ApiPost.Sync | server/api_post.ts:371-378 | the invalid-id and rights errors write nothing; otherwise the requested mrights are propagated |
| LdapFilterParser.SpacesEnd | ui/src/ldap_filter_parser.ts:17-24 | the end of the run of spaces, newlines and tabs starting at the offset |
| LdapFilterParser.SkipSpaces | ui/src/ldap_filter_parser.ts:17-24 | the loop returns the skipped spaces and the first offset that is not a space |
| LdapFilterParser.RunEnd | ui/src/ldap_filter_parser.ts:65 | the longest run without `(`, `)` (and `=` for the attribute), as the regular expression matches |
| LdapFilterParser.MatchItem | ui/src/ldap_filter_parser.ts:65-68 | `^([^=()]*)=([^()]*)`: a match is the text `attr=value`, followed by the end, `(` or `)` |
| LdapFilterParser.RecF | ui/src/ldap_filter_parser.ts:25-79 | a parse always consumes at least one character |
| LdapFilterParser.Rec | ui/src/ldap_filter_parser.ts:25-79 | the recursive method with its sub-filter loop computes its specification |
| LdapFilterParser.Parse | ui/src/ldap_filter_parser.ts:16-82 | the method computes its specification |
| LdapFilterParser.FormatLines | ui/src/ldap_filter_parser.ts:86-101 | the first line starts with `(`; only indentation gives several lines |
| LdapFilterParser.ParseKeepsText | ui/src/ldap_filter_parser.ts:16-82 | nothing is lost: formatting with `keep_spaces` followed by the unparsed text gives back the input exactly, valid or not |
| LdapFilterParser.CompactRoundTrip | ui/src/__tests__/ldap_filter_parser.spec.ts:60-79 | on text without spaces, formatting with `remove_spaces` plus the unparsed rest gives back the input |
| LdapFilterParser.ParseWellFormed | ui/src/__tests__/ldap_filter_parser.spec.ts:14-39 | parsing a closed, well-formed filter's text, followed by anything, gives back that filter and leaves the rest unparsed |
| LdapFilterParser.RecShaped | ui/src/ldap_filter_parser.ts:25-79 | only the last sub-filter of a parsed composite may be unclosed, and then so is its parent |
| LdapFilterParser.ParseNotOpen | ui/src/ldap_filter_parser.ts:26-30 | text that does not start with `(` gives no tree and is all unparsed |
| LdapFilterParser.UndentIndented | ui/src/ldap_filter_parser.ts:94 | removing the indentation undoes adding it |
| LdapFilterParser.IndentIsLayout | ui/src/ldap_filter_parser.ts:86-103 | indentation only adds layout: removing it from the lines gives the `remove_spaces` text |
| LdapFilterParser.IndentSplits | ui/src/ldap_filter_parser.ts:93-97 | a composite is split iff its sub-filters give several lines or one line over 60 characters; then `(op`, the indented lines, and the closing line |
| LdapFilterParser.ColourOf | ui/src/ldap_filter_parser.ts:114-115 | the parenthesis class is `punctuation` followed by the count modulo 6 |
| LdapFilterParser.SubsHtmlStep | ui/src/ldap_filter_parser.ts:120-121 | each sub-filter is rendered with the count left by the sub-filters before it |
| LdapFilterParser.HtmlFormatter.constructor | ui/src/ldap_filter_parser.ts:111 | the count starts at 0 |
| LdapFilterParser.HtmlFormatter.Rec | ui/src/ldap_filter_parser.ts:112-125 | renders the tree from the current count and advances the count by the number of nodes |
| LdapFilterParser.HtmlFormatter.MapRec | ui/src/ldap_filter_parser.ts:120 | renders the sub-filters in order, each from the count left by the previous ones |
| LdapFilterParser.FormatFilterHtml | ui/src/ldap_filter_parser.ts:109-127 | the HTML of the tree numbered from 0 |
| LdapFilterParser.ChildNumber | ui/src/ldap_filter_parser.ts:112-121 | the count given to a sub-filter is its position in the pre-order of the tree |
| LdapFilterParser.HtmlText | ui/src/ldap_filter_parser.ts:109-127 | without the span markup, the HTML text is the `keep_spaces` text |
| LdapFilterParser.IndentFilter | ui/src/ldap_filter_parser.ts:129-132 | an unparsable filter is returned as is; otherwise the indented lines joined by newlines plus the rest, whose layout is removable |
| LdapFilterParser.ToHtml | ui/src/ldap_filter_parser.ts:134-137 | the tree's HTML and the unparsed rest marked `invalid`, with nothing for an empty part |

## Left out

- HTTP routes, authentication, logging to the console and the JSON serialisation of answers are not modelled. `console.log` calls have no effect on results.
- The LDAP server is an in-memory store. Searches use subtree scope, in store order. A missing base gives `[]`, as NoSuchObject does. `sizeLimit` truncates. Equality is exact string equality. The library's own default scope is not part of this model.
- The SQL drivers (`server/sql.ts`, `driver_query` in server/remote_query.ts:19-49) and the connections to remote LDAP servers are oracle parameters (`SqlRunner`, `LdapSearcher`).
- `ldapjs.url.parse` is the `LdapUrlParser` oracle parameter. ldapjs `escape` follows section 3 of RFC 4515 (`*`, `(`, `)`, `\` and NUL become `\2a`, `\28`, `\29`, `\5c`, `\00`).
- The check that the logged user may read the groups named as subjects, and that no membership cycle is created (server/api_post.ts:275-294), is an oracle predicate (`SubjectsCheck`). Its helper `avoid_group_and_groups_including_it__filter` is not part of this model. (`user_right_filter`, server/api_get.ts:305-324, is modelled as `ApiGet.UserRightFilter`.)
- `may_check_member_ttl` (server/api_post.ts:250-273): for a `member` edit it reads the group with `current_sgroup_attrs`, and that read fails for a missing group. `ApiPost.CheckMods` and `ApiPost.CheckedMods` model this read and its failure. Only the TTL check that follows is left out, because the source has it commented out (server/api_post.ts:256-270).
- ApiPost.MayUpdateFlattenedMrightsRec: the `for(;;)` worklist loop runs with a `fuel` bound. When the fuel runs out, the result reports `OutOfFuel` with the items still queued. The source has no bound and relies on the membership-cycle check to terminate.
- `create` and `modify_sgroup_attrs` at the API level (server/api_post.ts:24-58) are left out. Their store operations are modelled: `ldap_add_group`, `create_sgroup` and `modify_sgroup_attrs` in `LdapSgroupReadSearchModify`.
- API routes other than those modelled are left out: `get_sgroup`, `get_sgroup_direct_rights`, `get_group_flattened_mright`, `search_subjects` and `get_sgroup_logs` of server/api_get.ts. Their building blocks are modelled: rights, parents, children, subjects and the flattened reads.
- ApiGet.TestRemoteQuery: the subject-source guess is stated only by when it is present (a non-empty SQL result whose values are not all DNs). The guessed source itself is stated by `RemoteSql.GuessSubjectSource`.
- RemoteSql.GuessSubjectSource: returns the DN map of the best source rather than the subjects that `get_subjects_` would read from it, because `get_subjects_` is an LDAP read of display attributes.
- `parse_jsonl` and file I/O (`fs.open`, `fs.read`, `fs.writeFile`) are left out. Log files are a map from path to bytes in the `LogFiles` class; JSON parsing is not modelled.
- `read_and_parse_mysql_tsv` and `grouper_sql_query` (server/migration-grouper/migration_helpers.ts:86-107, 120-128) run an external `mysql` process and are left out. So are the XML, properties and SQL reading of server/migration-grouper/grouper_loader.ts:51-112 and 216-273.
- `from_raw_remote_query` and the per-loader query assembly of grouper_loader.ts are left out with the SQL reading they depend on.
- `remotes_periodicity_checker` and `server/systemd_calendar_events.ts` spawn an external process and are left out.
- `get_periodicities` (server/migration-grouper/grouper_loader.ts:191-207) is left out. It groups the migrated remote queries by remote with lodash `groupBy` and `countBy`, then picks a default with `maxCount` (modelled as `GrouperLoader.MaxCount`). Its input is the set of queries read from the Grouper database, and that reading is left out above. Besides the default it returns, it only writes a console message. `GrouperLoader.RemoveUnneededForcedPeriodicities` takes the defaults as a parameter.
- Time is integer seconds with a fixed local UTC offset. Milliseconds, daylight saving changes and JavaScript `Date` overflow are not modelled.
- Strings are sequences of characters. JavaScript's UTF-16 length (used by the 60-character line limit of the filter indenter) is taken as the character count.
- MigrationHelpers.ReplaceChar: `$` patterns in the replacement string of `String.replace` are not interpreted. The separator is taken literally.
- ApiPost.TransformReplaceSpec: states the corrected `hashmap_difference`, which compares options by value (see Findings). As written, a long replace adds every requested DN and deletes every current DN; `ApiPost.LongReplaceAsWrittenAddsAll` and `ApiPost.LongReplaceAsWrittenFails` state that behaviour.
- ApiPost.MayTransformReplaceIntoAddDelete: computes the corrected specification, not the identity comparison of the code as written.
- ApiPost.LongReplaceMeaning: holds for the corrected comparison only. As written, every requested DN is added, including those already present with the same options.
- ApiPost.LongReplaceSameEffect: holds for the corrected comparison only. As written, a long replace that keeps one of the current DNs fails in the directory (`ApiPost.LongReplaceAsWrittenFails`).
- ApiPost.CheckEach: checks each mright with the corrected long-replace transform (`ApiPost.TransformReplaceSpec`). As written, a long replace that keeps one of the current DNs passes the check, and the later modify fails (`ApiPost.LongReplaceAsWrittenFails`).
- ApiPost.CheckAndSimplifyLookup: the edit kept for each mright is the one of the corrected long-replace transform, not the add-all/delete-all edit of server/api_post.ts:106-113.
- ApiPost.CheckEachGet: each entry is the check with the corrected long-replace transform.
- ApiPost.CheckAndSimplifyMods: computes the corrected simplification. As written, a long replace becomes an add of every requested DN and a delete of every current one.
- ApiPost.CheckMods: its last step is the corrected simplification. So a long replace that keeps one of the current DNs passes here, while in the source the edit it passes on fails in the directory.
- ApiPost.ModifyMembersOrRights: follows the corrected long-replace comparison. Current members uid=a to uid=e replaced with uid=a to uid=f is written and propagated by the model. In the source, uid=a is added again and the directory modify fails (`ApiPost.LongReplaceAsWrittenFails`).
- ApiLog.BlankPartialLine: requires a line feed in the buffer. Without one, the loop of server/api_log.ts:15 never ends in the source: a read past the end of a Buffer gives undefined, which is never the line feed, and writes past the end are ignored. The model states nothing for that case.
- ApiLog.LogFiles.ReadFullLines: requires a line feed in a partial window, because the source's `blank_partial_line` never ends without one. Such windows come from `bytes = 0` on a non-empty log, or a tail of the file with no newline. `bytes` comes straight from the caller.
- ApiLog.LogFiles.ReadJsonl: the same requirement as `ReadFullLines`, for the same non-termination in the source.
- ApiLog.LogFiles.GetSgroupLogs: the same requirement, on the group's log file. A `bytes` value that gives a window without a newline hangs the source and is excluded from the model.
- Helpers.ParseHostAndPort: reads `"(.*):(.*)"` (server/helpers.ts:11) with `.` matching every character. In JavaScript `.` does not match line terminators, so the source matches only within one line: "a\nb:c" gives host "b" in the source and "a\nb" in the model.
- Helpers.GeneralizedTimeToIso8601: reads `/^(....)(..)(..)(..)(..)(..)Z/` (server/helpers.ts:28) with `.` matching every character. In the source a line terminator in the first 14 characters makes the match fail, so "202\n0101000000Z" is undefined there and converted by the model.
- DnCodec.ServerTimeMatch: reads the regex of server/dn.ts:59 with `.` matching every character. In JavaScript `.` excludes line terminators and the pattern is not anchored at the start, so the match lies within the last line: for "a\nb???(serverTime<t)" the source's prefix is "b" and the model's is "a\nb".
- DnCodec.UrlToDn: inherits the line-terminator difference of `DnCodec.ServerTimeMatch`. "ldap:///a???(serverTime<x\ny)" does not match in the source, whose `?` test then gives undefined, while the model decodes it.
- ApiGet.AfterLastColon: reads `replace(/.*:/, '')` (server/api_get.ts:233) with `.` matching every character. In JavaScript the match stays within the first line that holds a `:`, so "x\ny:z" gives "x\nz" in the source and "z" in the model.
- ApiGet.SimplifyHierarchicalOu: inherits the line-terminator difference of `ApiGet.AfterLastColon` for an `ou` holding a line terminator.
- ApiGet.ToSgroupAttrs: its `ou` goes through `ApiGet.SimplifyHierarchicalOu`, with the same line-terminator difference.
- ApiLog.LogFiles.ReadFullLines: reads through the corrected window, where `whole_file` holds iff bytes ≥ size. As written (`bytes > stat.size`), a read of exactly the file's size blanks its first complete line (`ApiLog.AsWrittenLosesFirstEntry`).
- ApiLog.LogFiles.ReadJsonl: reads an existing file through the same corrected window.
- ApiLog.LogFiles.GetSgroupLogs: reads the group's log through the same corrected window.
- ApiGet.GetParentsMeaning: lists the ancestors that the group search returns. That the search returns exactly the existing groups matching its filter is not stated; see the next line.
- The group search (`SgroupSearcher`, api_get.dfy) and the subject-branch search (`SubjectSearcher`, ldap_subject.dfy) are oracle parameters. They stand for the directory's answer to a filter string and are not tied to the in-memory store. `ApiGet.GetParents`, `ApiGet.GetChildrenLookup`, `ApiGet.SearchSgroups`, `ApiGet.MyGroups` and `LdapSubject.GetSubjects` therefore state their results in terms of what the search returns.
- The API operations return the record that `log_sgroup_action` writes (an `ActionLog`: user, id, action, message, data). The timestamp it adds and its append to the group's log file are left to `ApiLog.LogFiles.LogSgroupAction`.
- `MyMap` keeps every key in insertion order. JavaScript objects list integer-like keys (such as `"12"`) first, in ascending order. DNs, rights and attribute names are never integer-like. Only an all-digit group id used as a map key would be listed in another order by the source.
- StemHelpers.ParentStems: requires a non-empty stem separator, as do the members that call it. With an empty separator, `parent_stem` returns the id itself and the source's `parent_stems` loop (server/stem_helpers.ts:33-38) never ends.
- GrouperLoader.UniqueName: a later claimant's `<type>_<name>` can itself collide with a short name claimed afterwards; the model keeps that behaviour and proves nothing about it.
- GrouperLoader.ShortNames.UniqueName: `fullnames` and `remap_remote_cfg_name[type_]` are plain lookups here, in `GrouperLoader.Claim` and `GrouperLoader.ShortName`. In the source, `!fullnames[name_]` (server/migration-grouper/grouper_loader.ts:63) finds an inherited key such as `constructor` on the object's prototype. So the source never claims that short name and returns `ldap_constructor`, while the model claims it and returns `constructor`. `remap_remote_cfg_name[type_][name] ?? name` (line 62) has the same difference in `ShortName`.
- The privilege table of `grouperRight_to_groupaldRight` (`MigrationHelpers.GrouperRightToGroupaldRight`) is a plain lookup. The JavaScript quirk that an inherited key such as `constructor` would be found on the object's prototype is not modelled.
- GrouperLoader.FromIntervalSeconds: the table of `from_intervalSeconds` (server/migration-grouper/grouper_loader.ts:17-22) is a plain lookup. In the source, an inherited key such as `constructor` finds a function on the object's prototype, which is truthy, so no error is thrown; the model refuses it.
- ApiGet.ValidateRemote: `conf.remotes[name]` (server/api_get.ts:335-348) is a plain lookup. In the source, a remote named after a prototype member such as `toString` passes the "unknown remote" check; the model refuses it.
- RemoteLdap.LdapQuery: the `conf.remotes[name]` lookup of `to_RemoteLdapConfig` is a plain lookup, so a prototype member name such as `toString` is an unknown remote in the model. In the source it is found and then fails the driver check with another message.
- RemoteSql.SqlQuery: the `conf.remotes[name]` lookup is a plain lookup, with the same prototype difference as `RemoteLdap.LdapQuery`.
- LdapHelpers.ValidateSgroupsAttrs: the `sgroup_attrs` lookup (server/ldap_helpers.ts:19-25) is a plain lookup. In the source, an attribute named after a prototype member such as `constructor` is accepted; the model names it as unlisted.
- LdapFilterParser.IndentIsLayout: proved for indent strings that do not start with a parenthesis (the source uses two spaces).
- The "format_filter: invalid filter AST" throws (ui/src/ldap_filter_parser.ts:99, 123) cannot be reached from a typed tree and are not modelled. HTML special characters are not escaped, as in the source. An absent `post_spaces`/`before_sub_spaces` is the empty string.

### Behaviour of the code worth noting

- Dependent groups are found through their **flattened** attributes (server/api_post.ts:141), not their direct ones. A group is not excluded from its own dependents.
- A replace is turned into add/delete when it has **more than 4** DNs (server/api_post.ts:107).
- The direct right of a user is read from the flattened attributes only (server/api_get.ts:28).
- `modify_remote_query` checks the sgroup id but does no rights check (server/api_post.ts:356-369).
- server/my_types.ts is older than its callers. `RemoteQuery`, `isRqSql`, `toRqSql` and `hMright.attr_synchronized` are defined from their uses. The synchronisation attribute is `memberURL;x-member;x-remote`.
- `blank_partial_line` also overwrites the `\n` with a space (server/api_log.ts:16). The test at server/tests/api_log.test.ts:12 expects the `\n` to be kept.
- `parse(serialize(q)) == q` holds only under the conditions stated by `RemoteSql.SqlUrlRoundTrip` and `ApiGet.ParseRemoteQueryLdap`: no `:` in the remote name, no `?` in the subject DN, and a query not starting with whitespace or `subject=`.

## Findings

| source | as written | input that shows it | evidently intended | confidence | as-written member | corrected member |
|---|---|---|---|---|---|---|
| server/helpers.ts:41 | `m2[k] !== v` compares option objects by identity, so two equal `{}` options differ | m1 = {"uid=a": {}} and m2 = {"uid=a": {}} as distinct objects: the DN is kept | keep a key only when m2 lacks it or holds a different value (server/tests/helpers.test.ts:49-51 expect this) | not executed | Helpers.HashmapDifferenceIdentityCounterexample | Helpers.DifferenceLookup |
| server/remote_ldap_query.ts:23 | `localhost` becomes remote name `""`, but `ldap_query` looks `""` up in `conf.remotes` and throws, so the main-connection branch of `raw_query` (lines 44-47) is never reached | `ldap://localhost/ou=people,dc=x??(uid=a)` with no remote named `""` | the empty name searches the main directory | not executed | RemoteLdap.LocalhostQueryFails | RemoteLdap.LocalhostQuerySearchesMainDirectory |
| server/api_log.ts:22 | `whole_file = bytes > stat.size`: when bytes equals the size, the read is treated as partial and the first, complete line is blanked | a one-line log file `a\n` read with bytes = 2 | `whole_file` iff bytes ≥ size; `ReadFullLines`, `ReadJsonl` and `GetSgroupLogs` of `ApiLog.LogFiles` read through this corrected window | not executed | ApiLog.AsWrittenLosesFirstEntry | ApiLog.FullLinesKeepEntries |
| server/api_post.ts:106-107 | `hashmap_difference` compares the freshly parsed options by identity, so a long replace adds every requested DN and deletes every current one; the add of a DN already stored makes the modify fail | current members uid=a … uid=e, replace with uid=a … uid=f (six DNs): uid=a is added although present | add only the DNs whose options change, delete only those no longer wanted, so the replace takes effect | not executed | ApiPost.LongReplaceAsWrittenFails | ApiPost.LongReplaceSameEffect |
