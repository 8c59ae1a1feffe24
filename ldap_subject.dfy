// Subjects (people, groups) looked up in the branch each DN belongs to
// (server/ldap_subject.ts). The directory search with a filter string is a
// parameter: the filters come from configured templates.
module LdapSubject {
  import opened Wrappers
  import opened JsString
  import opened MyTypes
  import opened Helpers
  import opened LdapFilter
  import opened LdapHelpers
  import opened DnCodec
  import opened RemoteSql

  // ------------------------------------------------------------ search filter

  const TermMarker := "%TERM%"

  /** `replace(/ /g, "")`: the text with its spaces left out. */
  function NoSpaces(s: string): (r: string)
    ensures ' ' !in r
  {
    if |s| == 0 then "" else (if s[0] == ' ' then "" else [s[0]]) + NoSpaces(s[1..])
  }

  lemma {:induction false} NoSpacesAppend(a: string, b: string)
    ensures NoSpaces(a + b) == NoSpaces(a) + NoSpaces(b)
  {
    if |a| > 0 {
      assert (a + b)[0] == a[0] && (a + b)[1..] == a[1..] + b;
      NoSpacesAppend(a[1..], b);
      var head := if a[0] == ' ' then "" else [a[0]];
      assert NoSpaces(a + b) == head + NoSpaces(a[1..] + b);
      assert NoSpaces(a) == head + NoSpaces(a[1..]);
    } else {
      assert a + b == b;
    }
  }

  lemma {:induction false} NoSpacesKeeps(s: string)
    requires ' ' !in s
    ensures NoSpaces(s) == s
  {
    if |s| > 0 {
      NoSpacesKeeps(s[1..]);
    }
  }

  /** From an index after which the pattern's first character is absent, nothing is replaced. */
  lemma ReplaceAllFromAbsent(s: string, pat: string, t: string, from: nat)
    requires pat != "" && from <= |s| && pat[0] !in s[from..]
    ensures ReplaceAllFrom(s, pat, t, from) == s[from..]
  {
    forall j: nat | from <= j
      ensures !OccursAt(s, pat, j)
    {
      if j + |pat| <= |s| {
        assert s[j..j + |pat|][0] == s[j] == s[from..][j - from];
      }
    }
  }

  /** A text holding the pattern once, between two parts without its first character. */
  lemma ReplaceAllOnce(a: string, pat: string, b: string, t: string)
    requires pat != "" && pat[0] !in a && pat[0] !in b
    ensures ReplaceAll(a + pat + b, pat, t) == a + Substitution(t, pat, a, b) + b
  {
    var s := a + pat + b;
    assert s[|a|..|a| + |pat|] == pat;
    assert OccursAt(s, pat, |a|);
    forall j: nat | j < |a|
      ensures !OccursAt(s, pat, j)
    {
      assert s[j] == a[j] != pat[0];
      assert j + |pat| <= |s| ==> s[j..j + |pat|][0] == s[j];
    }
    assert IndexFrom(s, pat, 0) == Some(|a|);
    assert s[..|a|] == a && s[|a| + |pat|..] == b;
    ReplaceAllFromAbsent(s, pat, t, |a| + |pat|);
  }

  /**
   * `hSubjectSourceConfig.search_filter_`: every `%TERM%` replaced by the
   * term, whose `$` patterns `String.replace` interprets, then every space
   * removed.
   */
  function SearchFilter(sscfg: SubjectSourceConfig, term: string): (r: string)
    ensures ' ' !in r
  {
    NoSpaces(ReplaceAll(sscfg.search_filter, TermMarker, term))
  }

  /**
   * A template with one `%TERM%` gives its two sides around the term's
   * substitution, all without spaces.
   */
  lemma SearchFilterSubstitutes(sscfg: SubjectSourceConfig, a: string, b: string, term: string)
    requires sscfg.search_filter == a + TermMarker + b && '%' !in a && '%' !in b
    ensures SearchFilter(sscfg, term) == NoSpaces(a) + NoSpaces(Substitution(term, TermMarker, a, b)) + NoSpaces(b)
    ensures '$' !in term ==> SearchFilter(sscfg, term) == NoSpaces(a) + NoSpaces(term) + NoSpaces(b)
  {
    var sub := Substitution(term, TermMarker, a, b);
    ReplaceAllOnce(a, TermMarker, b, term);
    NoSpacesAppend(a + sub, b);
    NoSpacesAppend(a, sub);
  }

  /**
   * A search token holding `$&` or `$'` is not inserted as typed: in
   * `(cn=*%TERM%*)`, `a$&b` puts `%TERM%` back and `x$'` repeats the end of
   * the template.
   */
  lemma SearchTermPatterns()
    ensures Substitution("a$&b", TermMarker, "(cn=*", "*)") == "a%TERM%b"
    ensures Substitution("x$'", TermMarker, "(cn=*", "*)") == "x*)"
    ensures Substitution("$$", TermMarker, "(cn=*", "*)") == "$"
  {
    assert "a$&b"[1..] == "$&b" && "$&b"[2..] == "b" && "b"[1..] == "";
    assert "x$'"[1..] == "$'" && "$'"[2..] == "";
    assert "$$"[2..] == "";
  }

  /** A template without `%TERM%` ignores the term. */
  lemma SearchFilterWithoutMarker(sscfg: SubjectSourceConfig, term: string)
    requires '%' !in sscfg.search_filter
    ensures SearchFilter(sscfg, term) == NoSpaces(sscfg.search_filter)
  {
    ReplaceAllFromAbsent(sscfg.search_filter, TermMarker, term, 0);
    assert sscfg.search_filter[0..] == sscfg.search_filter;
  }

  // ------------------------------------------------------------ grouping

  /** The values paired with `k`, in input order. */
  function ValuesFor<K(==), V>(l: seq<(K, V)>, k: K): (r: seq<V>)
  {
    if |l| == 0 then []
    else
      var last := l[|l| - 1];
      ValuesFor(l[..|l| - 1], k) + (if last.0 == k then [last.1] else [])
  }

  lemma {:induction false} ValuesForMember<K, V>(l: seq<(K, V)>, k: K, v: V)
    requires v in ValuesFor(l, k)
    ensures (k, v) in l
  {
    var n := |l| - 1;
    if v in ValuesFor(l[..n], k) {
      ValuesForMember(l[..n], k, v);
      assert l[..n] <= l;
    }
  }

  /** `fromPairsGrouped`: the values of each key, in input order; keys in order of first appearance. */
  function FromPairsGrouped<K(==,!new), V>(l: seq<(K, V)>): (r: MyMap<K, seq<V>>)
    ensures UniqueKeys(r)
  {
    if |l| == 0 then []
    else
      var r := FromPairsGrouped(l[..|l| - 1]);
      var p := l[|l| - 1];
      Put(r, p.0, Get(r, p.0).GetOr([]) + [p.1])
  }

  /** Each key is bound to all of its values, duplicates and order kept; a key never given is absent. */
  lemma {:induction false} FromPairsGroupedLookup<K(!new), V>(l: seq<(K, V)>, k: K)
    ensures Get(FromPairsGrouped(l), k) == if ValuesFor(l, k) == [] then None else Some(ValuesFor(l, k))
  {
    if |l| > 0 {
      var n := |l| - 1;
      var prefix := l[..n];
      var p := l[n];
      FromPairsGroupedLookup(prefix, k);
      var r := FromPairsGrouped(prefix);
      assert FromPairsGrouped(l) == Put(r, p.0, Get(r, p.0).GetOr([]) + [p.1]);
      assert ValuesFor(l, k) == ValuesFor(prefix, k) + (if p.0 == k then [p.1] else []);
      if p.0 == k {
        assert Get(r, k).GetOr([]) == ValuesFor(prefix, k);
        assert Get(FromPairsGrouped(l), k) == Some(ValuesFor(prefix, k) + [p.1]);
        assert ValuesFor(l, k) == ValuesFor(prefix, k) + [p.1] != [];
      } else {
        assert Get(FromPairsGrouped(l), k) == Get(r, k);
        assert ValuesFor(l, k) == ValuesFor(prefix, k);
      }
    }
  }

  /** The `(parent DN, RDN)` pairs of the DNs that have a parent. */
  function RdnPairs(dns: seq<Dn>): (r: seq<(Dn, string)>)
    ensures forall p :: p in r ==> p.1 + "," + p.0 in dns
    ensures forall i :: 0 <= i < |dns| && DnToRdnAndParentDn(dns[i]).Some? ==>
              (DnToRdnAndParentDn(dns[i]).value.1, DnToRdnAndParentDn(dns[i]).value.0) in r
  {
    if |dns| == 0 then []
    else
      var rest := RdnPairs(dns[1..]);
      assert forall i :: 1 <= i < |dns| ==> dns[i] == dns[1..][i - 1];
      match DnToRdnAndParentDn(dns[0])
      case None => rest
      case Some(split) => [(split.1, split.0)] + rest
  }

  /** The RDNs of the given DNs, grouped by parent DN. */
  function ParentDnToRdns(dns: seq<Dn>): (r: MyMap<Dn, seq<string>>)
    ensures UniqueKeys(r)
  {
    FromPairsGrouped(RdnPairs(dns))
  }

  /** Every grouped RDN, put back in front of its parent, is one of the DNs. */
  lemma ParentDnToRdnsSound(dns: seq<Dn>, i: nat, rdn: string)
    requires i < |ParentDnToRdns(dns)| && rdn in ParentDnToRdns(dns)[i].1
    ensures rdn + "," + ParentDnToRdns(dns)[i].0 in dns
  {
    var groups := ParentDnToRdns(dns);
    var parent := groups[i].0;
    FromPairsGroupedLookup(RdnPairs(dns), parent);
    assert Get(groups, parent) == Some(groups[i].1);
    ValuesForMember(RdnPairs(dns), parent, rdn);
  }

  // ------------------------------------------------------------ search

  /** `SubjectAttrs`: the display attributes, the group id of a group DN, the membership options. */
  datatype SubjectAttrs = SubjectAttrs(attrs: MonoAttrs, sgroup_id: Option<string>, options: DirectOptions)

  type Subjects = MyMap<Dn, SubjectAttrs>

  /** A directory search from a base DN with a filter string: the entries found. */
  type SubjectSearcher = (Dn, string) -> seq<(Dn, Entry)>

  /** An entry's values as the directory client hands them over. */
  function RawEntry(e: Entry): map<string, LdapRawValue>
  {
    map a | a in e :: Multi(e[a])
  }

  /** The DNs of the entries. */
  function FoundDns(entries: seq<(Dn, Entry)>): (r: set<Dn>)
    ensures forall dn :: dn in r <==> exists i :: 0 <= i < |entries| && entries[i].0 == dn
  {
    if |entries| == 0 then {}
    else
      var n := |entries| - 1;
      var r := FoundDns(entries[..n]) + {entries[n].0};
      assert forall i :: 0 <= i < n ==> entries[..n][i] == entries[i];
      r
  }

  predicate DistinctDns(entries: seq<(Dn, Entry)>)
  {
    forall i, j :: 0 <= i < j < |entries| ==> entries[i].0 != entries[j].0
  }

  /** The subject `search_subjects` makes of one entry, with the given options. */
  function ToSubject(cfg: LdapConfig, e: (Dn, Entry), attrs: seq<string>, options: DirectOptions): SubjectAttrs
  {
    SubjectAttrs(MonoAttrsOf(RawEntry(e.1), attrs), DnToSgroupId(cfg, e.0), options)
  }

  /** What `search_subjects` builds, one entry at a time: the subjects and what is left of `dn2opts`. */
  function SearchSubjectsSpec(cfg: LdapConfig, entries: seq<(Dn, Entry)>, attrs: seq<string>, dn2opts: DnsOpts): (r: (Subjects, DnsOpts))
    requires UniqueKeys(dn2opts)
    ensures UniqueKeys(r.0) && UniqueKeys(r.1)
  {
    if |entries| == 0 then ([], dn2opts)
    else
      var n := |entries| - 1;
      var (subjects, rest) := SearchSubjectsSpec(cfg, entries[..n], attrs, dn2opts);
      var options := Get(rest, entries[n].0).GetOr(NoOptions);
      (Put(subjects, entries[n].0, ToSubject(cfg, entries[n], attrs, options)), Remove(rest, entries[n].0))
  }

  /** `search_subjects` (after the search): each found DN takes its options out of `dn2opts`. */
  method SearchSubjects(cfg: LdapConfig, entries: seq<(Dn, Entry)>, attrs: seq<string>, dn2opts: DnsOpts)
    returns (subjects: Subjects, rest: DnsOpts)
    requires UniqueKeys(dn2opts)
    ensures (subjects, rest) == SearchSubjectsSpec(cfg, entries, attrs, dn2opts)
  {
    subjects, rest := [], dn2opts;
    var i := 0;
    while i < |entries|
      invariant 0 <= i <= |entries|
      invariant UniqueKeys(rest)
      invariant (subjects, rest) == SearchSubjectsSpec(cfg, entries[..i], attrs, dn2opts)
    {
      assert entries[..i + 1][..i] == entries[..i];
      var entry := entries[i];
      var options := Get(rest, entry.0).GetOr(NoOptions);
      rest := Remove(rest, entry.0);
      subjects := Put(subjects, entry.0, ToSubject(cfg, entry, attrs, options));
      i := i + 1;
    }
    assert entries[..i] == entries;
  }

  /** The found DNs are the subjects' keys, and they are taken out of `dn2opts`. */
  lemma {:induction false} SearchSubjectsKeys(cfg: LdapConfig, entries: seq<(Dn, Entry)>, attrs: seq<string>, dn2opts: DnsOpts)
    requires UniqueKeys(dn2opts)
    ensures KeySet(SearchSubjectsSpec(cfg, entries, attrs, dn2opts).0) == FoundDns(entries)
    ensures forall dn :: Get(SearchSubjectsSpec(cfg, entries, attrs, dn2opts).1, dn) ==
              if dn in FoundDns(entries) then None else Get(dn2opts, dn)
  {
    if |entries| > 0 {
      var n := |entries| - 1;
      var prefix := entries[..n];
      SearchSubjectsKeys(cfg, prefix, attrs, dn2opts);
      var (subjects, rest) := SearchSubjectsSpec(cfg, prefix, attrs, dn2opts);
      var options := Get(rest, entries[n].0).GetOr(NoOptions);
      assert SearchSubjectsSpec(cfg, entries, attrs, dn2opts) ==
        (Put(subjects, entries[n].0, ToSubject(cfg, entries[n], attrs, options)), Remove(rest, entries[n].0));
      assert FoundDns(entries) == FoundDns(prefix) + {entries[n].0};
    }
  }

  /** One more entry: its subject is put with the options left for its DN. */
  lemma SearchSubjectsLast(cfg: LdapConfig, entries: seq<(Dn, Entry)>, attrs: seq<string>, dn2opts: DnsOpts)
    requires UniqueKeys(dn2opts) && |entries| > 0
    ensures var n := |entries| - 1;
            var p := SearchSubjectsSpec(cfg, entries[..n], attrs, dn2opts);
            Get(SearchSubjectsSpec(cfg, entries, attrs, dn2opts).0, entries[n].0) ==
              Some(ToSubject(cfg, entries[n], attrs, Get(p.1, entries[n].0).GetOr(NoOptions)))
  {
  }

  /** One more entry leaves the subjects of the other DNs as they were. */
  lemma SearchSubjectsOther(cfg: LdapConfig, entries: seq<(Dn, Entry)>, attrs: seq<string>, dn2opts: DnsOpts, dn: Dn)
    requires UniqueKeys(dn2opts) && |entries| > 0 && dn != entries[|entries| - 1].0
    ensures Get(SearchSubjectsSpec(cfg, entries, attrs, dn2opts).0, dn) ==
              Get(SearchSubjectsSpec(cfg, entries[..|entries| - 1], attrs, dn2opts).0, dn)
  {
  }

  /** When no DN is found twice, each subject carries the options `dn2opts` gave its DN, or none. */
  lemma {:induction false} SearchSubjectsOptions(cfg: LdapConfig, entries: seq<(Dn, Entry)>, attrs: seq<string>, dn2opts: DnsOpts, i: nat)
    requires UniqueKeys(dn2opts) && DistinctDns(entries) && i < |entries|
    ensures Get(SearchSubjectsSpec(cfg, entries, attrs, dn2opts).0, entries[i].0) ==
              Some(ToSubject(cfg, entries[i], attrs, Get(dn2opts, entries[i].0).GetOr(NoOptions)))
  {
    var n := |entries| - 1;
    var prefix := entries[..n];
    if i < n {
      assert DistinctDns(prefix);
      assert prefix[i] == entries[i];
      SearchSubjectsOptions(cfg, prefix, attrs, dn2opts, i);
      SearchSubjectsOther(cfg, entries, attrs, dn2opts, entries[i].0);
    } else {
      SearchSubjectsOptionsLast(cfg, entries, attrs, dn2opts, i);
    }
  }

  /** The last entry's subject, when its DN is not found before: the options `dn2opts` gave it. */
  lemma SearchSubjectsOptionsLast(cfg: LdapConfig, entries: seq<(Dn, Entry)>, attrs: seq<string>, dn2opts: DnsOpts, n: nat)
    requires UniqueKeys(dn2opts) && DistinctDns(entries) && n == |entries| - 1
    ensures Get(SearchSubjectsSpec(cfg, entries, attrs, dn2opts).0, entries[n].0) ==
              Some(ToSubject(cfg, entries[n], attrs, Get(dn2opts, entries[n].0).GetOr(NoOptions)))
  {
    var prefix := entries[..n];
    forall j | 0 <= j < |prefix|
      ensures prefix[j].0 != entries[n].0
    {
      assert prefix[j] == entries[j];
    }
    SearchSubjectsUntouched(cfg, prefix, attrs, dn2opts, entries[n].0);
    SearchSubjectsLast(cfg, entries, attrs, dn2opts);
  }

  /** The options of a DN no entry has are left in `dn2opts`. */
  lemma {:induction false} SearchSubjectsUntouched(cfg: LdapConfig, entries: seq<(Dn, Entry)>, attrs: seq<string>, dn2opts: DnsOpts, dn: Dn)
    requires UniqueKeys(dn2opts)
    requires forall j :: 0 <= j < |entries| ==> entries[j].0 != dn
    ensures Get(SearchSubjectsSpec(cfg, entries, attrs, dn2opts).1, dn) == Get(dn2opts, dn)
  {
    if |entries| > 0 {
      var n := |entries| - 1;
      var prefix := entries[..n];
      assert forall j :: 0 <= j < n ==> prefix[j] == entries[j];
      SearchSubjectsUntouched(cfg, prefix, attrs, dn2opts, dn);
      var left := SearchSubjectsSpec(cfg, prefix, attrs, dn2opts).1;
      assert SearchSubjectsSpec(cfg, entries, attrs, dn2opts).1 == Remove(left, entries[n].0);
    }
  }

  /** `Object.assign(target, source)`: the source's entries put one by one. */
  function Assign(target: Subjects, source: Subjects): (r: Subjects)
    ensures UniqueKeys(target) ==> UniqueKeys(r)
  {
    if |source| == 0 then target
    else Put(Assign(target, source[..|source| - 1]), source[|source| - 1].0, source[|source| - 1].1)
  }

  /** After the assignment, the source's keys take the source's values and the other keys keep theirs. */
  lemma {:induction false} AssignLookup(target: Subjects, source: Subjects, dn: Dn)
    requires UniqueKeys(source)
    ensures Get(Assign(target, source), dn) == if dn in KeySet(source) then Get(source, dn) else Get(target, dn)
  {
    if |source| > 0 {
      var n := |source| - 1;
      assert UniqueKeys(source[..n]);
      AssignLookup(target, source[..n], dn);
      PrefixGet(source, n);
      assert source[..n + 1] == source;
    }
  }

  // ------------------------------------------------------------ get_subjects

  /** `rdns.map(ldap_filter.rdn)` */
  function RdnFilters(rdns: seq<string>): (r: seq<string>)
    ensures |r| == |rdns| && forall i :: 0 <= i < |rdns| ==> r[i] == Rdn(rdns[i])
  {
    if |rdns| == 0 then [] else [Rdn(rdns[0])] + RdnFilters(rdns[1..])
  }

  /** The `(|(rdn1)(rdn2)...)` filter of one branch, and'ed with the search term's filter when there is a term. */
  function BranchFilter(sscfg: SubjectSourceConfig, rdns: seq<string>, search_token: Option<string>): string
  {
    var rdns_filter := Or(RdnFilters(rdns));
    if search_token.Some? && search_token.value != "" then And2(rdns_filter, SearchFilter(sscfg, search_token.value))
    else rdns_filter
  }

  /** What is left of `dn2opts`: still one entry per DN. */
  type Opts = m: DnsOpts | UniqueKeys(m) witness []

  /** The state `get_subjects` threads from search to search: the subjects so far and what is left of `dn2opts`. */
  datatype Gathered = Gathered(subjects: Subjects, dn2opts: Opts)

  /** The search of one chunk of a branch, given the state: the new state and how many subjects it found. */
  type Step = (seq<string>, Gathered) -> (Gathered, nat)

  /** `get_subjects_from_same_branch` followed by `Object.assign`: one search, its subjects added to the others. */
  function SearchChunk(cfg: LdapConfig, sscfg: SubjectSourceConfig, parent: Dn, search_token: Option<string>, search: SubjectSearcher,
                       chunk: seq<string>, g: Gathered): (r: (Gathered, nat))
    ensures r.1 == |SearchSubjectsSpec(cfg, search(parent, BranchFilter(sscfg, chunk, search_token)), sscfg.display_attrs, g.dn2opts).0|
  {
    var (subjects, rest) := SearchSubjectsSpec(cfg, search(parent, BranchFilter(sscfg, chunk, search_token)), sscfg.display_attrs, g.dn2opts);
    (Gathered(Assign(g.subjects, subjects), rest), |subjects|)
  }

  /** The step of one branch: searches under `parent`, in the subject source `sscfg`. */
  function BranchStep(cfg: LdapConfig, sscfg: SubjectSourceConfig, parent: Dn, search_token: Option<string>, search: SubjectSearcher): Step
  {
    (chunk, g) => SearchChunk(cfg, sscfg, parent, search_token, search, chunk, g)
  }

  /** The step of a branch applied to one chunk is the search of that chunk. */
  lemma BranchStepSearches(cfg: LdapConfig, sscfg: SubjectSourceConfig, parent: Dn, search_token: Option<string>, search: SubjectSearcher,
                           chunk: seq<string>, g: Gathered, subjects: Subjects, rest: DnsOpts)
    requires (subjects, rest) == SearchSubjectsSpec(cfg, search(parent, BranchFilter(sscfg, chunk, search_token)), sscfg.display_attrs, g.dn2opts)
    ensures UniqueKeys(rest)
    ensures BranchStep(cfg, sscfg, parent, search_token, search)(chunk, g) == (Gathered(Assign(g.subjects, subjects), rest), |subjects|)
  {
  }

  /** `if (sizelimit)`: an absent or zero limit does not limit. */
  predicate LimitSet(sizelimit: Option<nat>)
  {
    sizelimit.Some? && sizelimit.value != 0
  }

  const ChunkSize := 10

  /**
   * The loop over the chunks of one branch: the state it leaves, and each
   * chunk searched with how many subjects it found. It stops after the
   * search that brings the branch's count to the limit.
   */
  function ChunkLoop(chunks: seq<seq<string>>, g: Gathered, count: nat, sizelimit: Option<nat>, step: Step): (r: (Gathered, seq<(seq<string>, nat)>))
    decreases |chunks|
  {
    if |chunks| == 0 then (g, [])
    else
      var (next, found) := step(chunks[0], g);
      if LimitSet(sizelimit) && count + found >= sizelimit.value then (next, [(chunks[0], found)])
      else
        var (last, log) := ChunkLoop(chunks[1..], next, count + found, sizelimit, step);
        (last, [(chunks[0], found)] + log)
  }

  /** A turn of the chunk loop from the `j`th chunk: one search, then the rest of the chunks unless the limit is reached. */
  lemma ChunkLoopTurn(chunks: seq<seq<string>>, j: nat, g: Gathered, count: nat, sizelimit: Option<nat>, step: Step,
                      next: Gathered, found: nat, count': nat)
    requires j < |chunks| && step(chunks[j], g) == (next, found) && count' == count + found
    ensures LimitSet(sizelimit) && count' >= sizelimit.value ==> ChunkLoop(chunks[j..], g, count, sizelimit, step).0 == next
    ensures !(LimitSet(sizelimit) && count' >= sizelimit.value) ==>
              ChunkLoop(chunks[j..], g, count, sizelimit, step).0 == ChunkLoop(chunks[j + 1..], next, count', sizelimit, step).0
  {
    assert chunks[j..][0] == chunks[j] && chunks[j..][1..] == chunks[j + 1..];
  }

  /** One search of a branch: its base, the RDNs it asks for, and how many subjects it found. */
  datatype Query = Query(base: Dn, rdns: seq<string>, found: nat)

  function ToQueries(parent: Dn, log: seq<(seq<string>, nat)>): (r: seq<Query>)
    ensures |r| == |log| && forall k :: 0 <= k < |log| ==> r[k] == Query(parent, log[k].0, log[k].1)
  {
    seq(|log|, k requires 0 <= k < |log| => Query(parent, log[k].0, log[k].1))
  }

  /** The branches in turn; a parent DN that belongs to no subject source is skipped. */
  function GroupsRun(cfg: LdapConfig, groups: MyMap<Dn, seq<string>>, g: Gathered,
                     search_token: Option<string>, sizelimit: Option<nat>, search: SubjectSearcher): (r: (Gathered, seq<Query>))
    decreases |groups|
  {
    if |groups| == 0 then (g, [])
    else
      var parent := groups[0].0;
      match DnToSubjectSourceCfg(cfg, parent)
      case None => GroupsRun(cfg, groups[1..], g, search_token, sizelimit, search)
      case Some(sscfg) =>
        var (next, log) := ChunkLoop(Chunks(groups[0].1, ChunkSize), g, 0, sizelimit, BranchStep(cfg, sscfg, parent, search_token, search));
        var (last, queries) := GroupsRun(cfg, groups[1..], next, search_token, sizelimit, search);
        (last, ToQueries(parent, log) + queries)
  }

  /** What `get_subjects` computes, with the searches it makes. */
  function GetSubjectsSpec(cfg: LdapConfig, dns: seq<Dn>, dn2opts: DnsOpts, search_token: Option<string>,
                           sizelimit: Option<nat>, search: SubjectSearcher): (Gathered, seq<Query>)
    requires UniqueKeys(dn2opts)
  {
    GroupsRun(cfg, ParentDnToRdns(dns), Gathered([], dn2opts), search_token, sizelimit, search)
  }

  /** The inner loop of `get_subjects`: the chunks of one branch, until its count reaches the limit. */
  method SearchBranch(cfg: LdapConfig, sscfg: SubjectSourceConfig, parent: Dn, chunks: seq<seq<string>>, subjects: Subjects, dn2opts: DnsOpts,
                      search_token: Option<string>, sizelimit: Option<nat>, search: SubjectSearcher)
    returns (r: Subjects, rest: DnsOpts)
    requires UniqueKeys(dn2opts)
    ensures UniqueKeys(rest)
    ensures Gathered(r, rest) == ChunkLoop(chunks, Gathered(subjects, dn2opts), 0, sizelimit, BranchStep(cfg, sscfg, parent, search_token, search)).0
  {
    ghost var step := BranchStep(cfg, sscfg, parent, search_token, search);
    ghost var target := ChunkLoop(chunks, Gathered(subjects, dn2opts), 0, sizelimit, step).0;
    r, rest := subjects, dn2opts;
    var count: nat := 0;
    var j := 0;
    assert chunks[j..] == chunks;
    while j < |chunks|
      invariant 0 <= j <= |chunks|
      invariant UniqueKeys(rest)
      invariant target == ChunkLoop(chunks[j..], Gathered(r, rest), count, sizelimit, step).0
    {
      var found := search(parent, BranchFilter(sscfg, chunks[j], search_token));
      var subjects', rest' := SearchSubjects(cfg, found, sscfg.display_attrs, rest);
      ghost var before, count0 := Gathered(r, rest), count;
      BranchStepSearches(cfg, sscfg, parent, search_token, search, chunks[j], before, subjects', rest');
      count := count + |subjects'|;
      r := Assign(r, subjects');
      rest := rest';
      ChunkLoopTurn(chunks, j, before, count0, sizelimit, step, Gathered(r, rest), |subjects'|, count);
      if LimitSet(sizelimit) && count >= sizelimit.value {
        break;
      }
      assert UniqueKeys(rest);
      assert target == ChunkLoop(chunks[j + 1..], Gathered(r, rest), count, sizelimit, step).0;
      j := j + 1;
    }
    assert j == |chunks| ==> chunks[j..] == [];
  }

  /** `get_subjects` */
  method GetSubjects(cfg: LdapConfig, dns: seq<Dn>, dn2opts: DnsOpts, search_token: Option<string>,
                     sizelimit: Option<nat>, search: SubjectSearcher) returns (r: Subjects)
    requires UniqueKeys(dn2opts)
    ensures r == GetSubjectsSpec(cfg, dns, dn2opts, search_token, sizelimit, search).0.subjects
  {
    var groups := ParentDnToRdns(dns);
    var opts := dn2opts;
    r := [];
    var i := 0;
    while i < |groups|
      invariant 0 <= i <= |groups|
      invariant UniqueKeys(opts)
      invariant GetSubjectsSpec(cfg, dns, dn2opts, search_token, sizelimit, search).0 ==
                  GroupsRun(cfg, groups[i..], Gathered(r, opts), search_token, sizelimit, search).0
    {
      var parent := groups[i].0;
      var sscfg := DnToSubjectSourceCfg(cfg, parent);
      assert groups[i..][0] == groups[i] && groups[i..][1..] == groups[i + 1..];
      if sscfg.Some? {
        r, opts := SearchBranch(cfg, sscfg.value, parent, Chunks(groups[i].1, ChunkSize), r, opts, search_token, sizelimit, search);
      }
      i := i + 1;
    }
  }

  // ------------------------------------------------------------ properties

  function SumFound(log: seq<(seq<string>, nat)>): nat
  {
    if |log| == 0 then 0 else log[0].1 + SumFound(log[1..])
  }

  /** One branch: the chunks are searched in order, and without a limit all of them. */
  lemma {:induction false} ChunkLoopChunks(chunks: seq<seq<string>>, g: Gathered, count: nat, sizelimit: Option<nat>, step: Step)
    ensures var log := ChunkLoop(chunks, g, count, sizelimit, step).1;
            && |log| <= |chunks|
            && (|chunks| > 0 ==> |log| > 0)
            && (forall k :: 0 <= k < |log| ==> log[k].0 == chunks[k])
            && (!LimitSet(sizelimit) ==> |log| == |chunks|)
    decreases |chunks|
  {
    if |chunks| > 0 {
      var (next, found) := step(chunks[0], g);
      if !(LimitSet(sizelimit) && count + found >= sizelimit.value) {
        ChunkLoopChunks(chunks[1..], next, count + found, sizelimit, step);
        var log := ChunkLoop(chunks, g, count, sizelimit, step).1;
        var log' := ChunkLoop(chunks[1..], next, count + found, sizelimit, step).1;
        assert log == [(chunks[0], found)] + log';
        forall k | 0 < k < |log|
          ensures log[k].0 == chunks[k]
        {
          assert log[k] == log'[k - 1] && chunks[k] == chunks[1..][k - 1];
        }
      }
    }
  }

  /**
   * With a limit, the searches of a branch stop right after the first chunk
   * that brings the branch's count to the limit: every earlier count is below
   * it, and a branch cut short has reached it.
   */
  lemma {:induction false} ChunkLoopStops(chunks: seq<seq<string>>, g: Gathered, count: nat, sizelimit: Option<nat>, step: Step)
    requires LimitSet(sizelimit)
    ensures var log := ChunkLoop(chunks, g, count, sizelimit, step).1;
            && (forall k :: 0 < k < |log| ==> count + SumFound(log[..k]) < sizelimit.value)
            && (|log| < |chunks| ==> count + SumFound(log) >= sizelimit.value)
    decreases |chunks|
  {
    if |chunks| > 0 {
      var (next, found) := step(chunks[0], g);
      var log := ChunkLoop(chunks, g, count, sizelimit, step).1;
      if count + found >= sizelimit.value {
        assert log == [(chunks[0], found)];
        assert SumFound(log) == found + SumFound([]);
      } else {
        var log' := ChunkLoop(chunks[1..], next, count + found, sizelimit, step).1;
        ChunkLoopStops(chunks[1..], next, count + found, sizelimit, step);
        assert log == [(chunks[0], found)] + log';
        forall k | 0 < k < |log|
          ensures count + SumFound(log[..k]) < sizelimit.value
        {
          assert log[..k][0] == log[0] && log[..k][1..] == log'[..k - 1];
        }
        if |log| < |chunks| {
          assert log[1..] == log';
        }
      }
    }
  }

  /** Every search asks for at most ten RDNs, all of one branch, under a parent that belongs to a subject source. */
  lemma {:induction false} GroupsRunQueries(cfg: LdapConfig, dns: seq<Dn>, groups: MyMap<Dn, seq<string>>, g: Gathered,
                                            search_token: Option<string>, sizelimit: Option<nat>, search: SubjectSearcher)
    requires forall i, rdn :: 0 <= i < |groups| && rdn in groups[i].1 ==> rdn + "," + groups[i].0 in dns
    ensures forall q :: q in GroupsRun(cfg, groups, g, search_token, sizelimit, search).1 ==>
              && 0 < |q.rdns| <= ChunkSize
              && DnToSubjectSourceCfg(cfg, q.base).Some?
              && forall rdn :: rdn in q.rdns ==> rdn + "," + q.base in dns
    decreases |groups|
  {
    if |groups| > 0 {
      var parent := groups[0].0;
      forall i, rdn | 0 <= i < |groups[1..]| && rdn in groups[1..][i].1
        ensures rdn + "," + groups[1..][i].0 in dns
      {
        assert groups[1..][i] == groups[i + 1];
      }
      match DnToSubjectSourceCfg(cfg, parent)
      case None =>
        GroupsRunQueries(cfg, dns, groups[1..], g, search_token, sizelimit, search);
      case Some(sscfg) =>
        var chunks := Chunks(groups[0].1, ChunkSize);
        var (next, log) := ChunkLoop(chunks, g, 0, sizelimit, BranchStep(cfg, sscfg, parent, search_token, search));
        ChunkLoopChunks(chunks, g, 0, sizelimit, BranchStep(cfg, sscfg, parent, search_token, search));
        GroupsRunQueries(cfg, dns, groups[1..], next, search_token, sizelimit, search);
        forall rdn | rdn in Flatten(chunks)
          ensures rdn + "," + parent in dns
        {
          assert groups[0].1 == Flatten(chunks);
        }
        ChunkQueriesInDns(parent, chunks, log, dns);
    }
  }

  /** The searches of one branch ask for one chunk each, under the branch's parent. */
  lemma ChunkQueriesInDns(parent: Dn, chunks: seq<seq<string>>, log: seq<(seq<string>, nat)>, dns: seq<Dn>)
    requires |log| <= |chunks| && forall k :: 0 <= k < |log| ==> log[k].0 == chunks[k]
    requires forall c :: 0 <= c < |chunks| ==> 0 < |chunks[c]| <= ChunkSize
    requires forall rdn :: rdn in Flatten(chunks) ==> rdn + "," + parent in dns
    ensures forall q :: q in ToQueries(parent, log) ==>
              0 < |q.rdns| <= ChunkSize && q.base == parent && forall rdn :: rdn in q.rdns ==> rdn + "," + parent in dns
  {
    var queries := ToQueries(parent, log);
    forall q | q in queries
      ensures 0 < |q.rdns| <= ChunkSize && q.base == parent
      ensures forall rdn :: rdn in q.rdns ==> rdn + "," + parent in dns
    {
      var c :| 0 <= c < |queries| && queries[c] == q;
      forall rdn | rdn in chunks[c]
        ensures rdn + "," + parent in dns
      {
        FlattenMember(chunks, c, rdn);
      }
    }
  }

  /** A value of one chunk is among the values put back together. */
  lemma {:induction false} FlattenMember(chunks: seq<seq<string>>, c: nat, x: string)
    requires c < |chunks| && x in chunks[c]
    ensures x in Flatten(chunks)
  {
    if c > 0 {
      FlattenMember(chunks[1..], c - 1, x);
    }
  }

  /** `get_subjects`: each search covers at most ten RDNs of one branch that belongs to a subject source. */
  lemma GetSubjectsQueries(cfg: LdapConfig, dns: seq<Dn>, dn2opts: DnsOpts, search_token: Option<string>,
                           sizelimit: Option<nat>, search: SubjectSearcher)
    requires UniqueKeys(dn2opts)
    ensures forall q :: q in GetSubjectsSpec(cfg, dns, dn2opts, search_token, sizelimit, search).1 ==>
              && 0 < |q.rdns| <= ChunkSize
              && DnToSubjectSourceCfg(cfg, q.base).Some?
              && forall rdn :: rdn in q.rdns ==> rdn + "," + q.base in dns
  {
    var groups := ParentDnToRdns(dns);
    forall i, rdn | 0 <= i < |groups| && rdn in groups[i].1
      ensures rdn + "," + groups[i].0 in dns
    {
      ParentDnToRdnsSound(dns, i, rdn);
    }
    GroupsRunQueries(cfg, dns, groups, Gathered([], dn2opts), search_token, sizelimit, search);
  }
}
