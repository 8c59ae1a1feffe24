// SQL remote queries (server/remote_query.ts): the `sql:` descriptor a
// synchronized group stores, and turning the values a query returns into
// DNs. Running the query on the database is a parameter (`SqlRunner`).
module RemoteSql {
  import opened Wrappers
  import opened JsString
  import opened MyTypes
  import opened Helpers
  import opened DnCodec
  import opened LdapFilter
  import opened LdapServer
  import opened LdapReadSearch

  // ------------------------------------------------------------ descriptor

  /** `hToSubjectSource.toString`: `<ssdn>?<id_attr>`, with `*` for no attribute. */
  function ToSubjectSourceString(tss: ToSubjectSource): string
  {
    tss.ssdn + "?" + (if tss.id_attr.Some? && tss.id_attr.value != "" then tss.id_attr.value else "*")
  }

  /** `to_sql_url`: `sql: remote=<name>[ : subject=<ssdn>?<id_attr>] : <select_query>`. */
  function ToSqlUrl(rsq: RemoteSqlQuery): string
  {
    var opt := if rsq.to_subject_source.Some? then " : subject=" + ToSubjectSourceString(rsq.to_subject_source.value) else "";
    "sql: remote=" + rsq.remote_cfg_name + opt + " : " + rsq.select_query
  }

  /** `strip_prefix_and_trim` */
  function StripPrefixAndTrim(s: string, prefix: string): (r: Option<string>)
    ensures r.Some? <==> prefix <= s
    ensures r.Some? ==> r.value == TrimStart(s[|prefix|..])
  {
    match StripPrefix(s, prefix)
    case None => None
    case Some(rest) => Some(TrimStart(rest))
  }

  /** `get_param`: `<name>=<value>:<rest>` split at its first `:`, the value right-trimmed and the rest left-trimmed. */
  function GetParam(name: string, s: string): (r: Option<(string, string)>)
    ensures r.None? <==> !(name + "=" <= s) || ':' !in s[|name| + 1..]
    ensures r.Some? ==> exists v, rest :: (s == name + "=" + v + ":" + rest && ':' !in v &&
              r.value == (TrimEnd(v), TrimStart(rest)))
  {
    match StripPrefix(s, name + "=")
    case None => None
    case Some(tail) =>
      BeforeAndAfterChar(tail, ':');
      match BeforeAndAfter(tail, ":")
      case None => None
      case Some((param, rest)) =>
        assert s == name + "=" + param + ":" + rest;
        Some((TrimEnd(param), TrimStart(rest)))
  }

  /** `get_param` reads back a parameter written as `<name>=<value>:<rest>`. */
  lemma GetParamOf(name: string, v: string, rest: string)
    requires ':' !in v
    ensures GetParam(name, name + "=" + v + ":" + rest) == Some((TrimEnd(v), TrimStart(rest)))
  {
    var s := name + "=" + v + ":" + rest;
    var tail := v + [':'] + rest;
    assert s == (name + "=") + tail;
    assert StripPrefix(s, name + "=") == Some(tail);
    BeforeAndAfterCharOf(v, ':', rest);
    assert BeforeAndAfter(tail, ":") == Some((v, rest));
  }

  /** `optional_param`: the parameter if present, else nothing and the whole string. */
  function OptionalParam(name: string, s: string): (r: (Option<string>, string))
    ensures GetParam(name, s).None? ==> r == (None, s)
    ensures GetParam(name, s).Some? ==> r == (Some(GetParam(name, s).value.0), GetParam(name, s).value.1)
  {
    match GetParam(name, s)
    case None => (None, s)
    case Some((param, rest)) => (Some(param), rest)
  }

  /** `parse_to_subject_source`: `<ssdn>?<id_attr>` split at the first `?`, `*` meaning no attribute. */
  function ParseToSubjectSource(s: string): (r: Result<ToSubjectSource>)
    ensures r.Err? <==> '?' !in s
    ensures r.Err? ==> r.msg == "expected ou=xxx,dc=xxx?uid, got " + s
    ensures r.Ok? ==> '?' !in r.value.ssdn && r.value.id_attr != Some("*")
    ensures r.Ok? ==> r.value.ssdn + "?" + r.value.id_attr.GetOr("*") == s
  {
    BeforeAndAfterChar(s, '?');
    match BeforeAndAfter(s, "?")
    case None => Err("expected ou=xxx,dc=xxx?uid, got " + s)
    case Some((ssdn, id_attr)) =>
      Ok(ToSubjectSource(ssdn, if id_attr == "*" then None else Some(id_attr)))
  }

  /** `parse_sql_url`: none without the `sql:` prefix, an error without `remote=`. */
  function ParseSqlUrl(url: string): (r: Result<Option<RemoteSqlQuery>>)
    ensures r == Ok(None) <==> !("sql:" <= url)
    ensures "sql:" <= url && GetParam("remote", TrimStart(url[4..])).None? ==> r == Err("remote= is missing in " + url)
    ensures r.Ok? && r.value.Some? ==> r.value.value.forced_periodicity.None?
  {
    match StripPrefixAndTrim(url, "sql:")
    case None => Ok(None)
    case Some(rest) =>
      match GetParam("remote", rest)
      case None => Err("remote= is missing in " + url)
      case Some((remote_cfg_name, rest')) =>
        var (subject, select_query) := OptionalParam("subject", rest');
        if subject.None? then Ok(Some(RemoteSqlQuery(remote_cfg_name, select_query, None, None)))
        else
          match ParseToSubjectSource(subject.value)
          case Err(msg) => Err(msg)
          case Ok(tss) => Ok(Some(RemoteSqlQuery(remote_cfg_name, select_query, Some(tss), None)))
  }

  /** The white space the serialised form puts around its separators disappears on parsing. */
  predicate NoTrailingSpace(s: string)
  {
    |s| == 0 || !IsWhitespace(s[|s| - 1])
  }

  predicate NoLeadingSpace(s: string)
  {
    |s| == 0 || !IsWhitespace(s[0])
  }

  /** The queries `to_sql_url` writes in a form `parse_sql_url` reads back unchanged. */
  predicate Serialisable(q: RemoteSqlQuery)
  {
    && ':' !in q.remote_cfg_name && NoTrailingSpace(q.remote_cfg_name)
    && NoLeadingSpace(q.select_query)
    && q.forced_periodicity.None?
    && (q.to_subject_source.None? ==> !("subject=" <= q.select_query))
    && (q.to_subject_source.Some? ==>
          var tss := q.to_subject_source.value;
          && '?' !in tss.ssdn && ':' !in tss.ssdn
          && (tss.id_attr.Some? ==> tss.id_attr.value !in {"", "*"} && ':' !in tss.id_attr.value && NoTrailingSpace(tss.id_attr.value)))
  }

  lemma TrimSpaces(x: string)
    ensures NoLeadingSpace(x) ==> TrimStart(" " + x) == x
    ensures NoTrailingSpace(x) ==> TrimEnd(x + " ") == x
  {
    TrimStartCases(' ', x);
    TrimEndCases(x, ' ');
  }

  /** The subject part `to_sql_url` writes is read back by `parse_to_subject_source`. */
  lemma SubjectSourceRoundTrip(tss: ToSubjectSource)
    requires '?' !in tss.ssdn && (tss.id_attr.Some? ==> tss.id_attr.value !in {"", "*"})
    ensures ParseToSubjectSource(ToSubjectSourceString(tss)) == Ok(tss)
  {
    var attr := if tss.id_attr.Some? then tss.id_attr.value else "*";
    assert ToSubjectSourceString(tss) == tss.ssdn + ['?'] + attr;
    BeforeAndAfterCharOf(tss.ssdn, '?', attr);
  }

  /** The subject part holds no `:` and does not end with white space. */
  lemma SubjectSourceStringShape(tss: ToSubjectSource)
    requires ':' !in tss.ssdn && (tss.id_attr.Some? ==> tss.id_attr.value != "" && ':' !in tss.id_attr.value && NoTrailingSpace(tss.id_attr.value))
    ensures ':' !in ToSubjectSourceString(tss) && NoTrailingSpace(ToSubjectSourceString(tss))
  {
    var attr := if tss.id_attr.Some? then tss.id_attr.value else "*";
    assert ToSubjectSourceString(tss) == tss.ssdn + "?" + attr;
  }

  /** What follows `remote=<name> :` in a serialised query. */
  function AfterRemote(q: RemoteSqlQuery): string
  {
    if q.to_subject_source.Some? then "subject=" + ToSubjectSourceString(q.to_subject_source.value) + " : " + q.select_query
    else q.select_query
  }

  lemma SqlUrlShape(q: RemoteSqlQuery)
    ensures ToSqlUrl(q) == "sql:" + " " + ("remote" + "=" + (q.remote_cfg_name + " ") + ":" + (" " + AfterRemote(q)))
  {
  }

  lemma SqlPrefixOf(rest: string)
    ensures StripPrefixAndTrim("sql:" + " " + rest, "sql:") == Some(TrimStart(rest))
  {
    var s := "sql:" + " " + rest;
    assert s[4..] == [' '] + rest;
    TrimStartCases(' ', rest);
  }

  /** The parameters that follow `remote=`: an optional subject, then the select query. */
  lemma AfterRemoteParsed(q: RemoteSqlQuery)
    requires Serialisable(q)
    ensures OptionalParam("subject", AfterRemote(q)) ==
              (if q.to_subject_source.Some? then Some(ToSubjectSourceString(q.to_subject_source.value)) else None, q.select_query)
  {
    if q.to_subject_source.Some? {
      var t := ToSubjectSourceString(q.to_subject_source.value);
      SubjectSourceStringShape(q.to_subject_source.value);
      assert AfterRemote(q) == "subject" + "=" + (t + " ") + ":" + (" " + q.select_query);
      GetParamOf("subject", t + " ", " " + q.select_query);
      TrimSpaces(t);
      TrimSpaces(q.select_query);
    } else {
      assert GetParam("subject", q.select_query).None?;
    }
  }

  lemma AfterRemoteNoLeadingSpace(q: RemoteSqlQuery)
    requires Serialisable(q)
    ensures NoLeadingSpace(AfterRemote(q))
  {
  }

  /** The serialised form starts with `sql:`, then names its remote. */
  lemma SqlUrlPrefixParsed(q: RemoteSqlQuery, rest: string)
    requires Serialisable(q)
    requires rest == "remote" + "=" + (q.remote_cfg_name + " ") + ":" + (" " + AfterRemote(q))
    ensures StripPrefixAndTrim(ToSqlUrl(q), "sql:") == Some(rest)
  {
    SqlUrlShape(q);
    SqlPrefixOf(rest);
    TrimStartCases(' ', rest);
  }

  /** The remote name is read back, followed by the other parameters. */
  lemma SqlUrlRemoteParsed(q: RemoteSqlQuery, rest: string)
    requires Serialisable(q)
    requires rest == "remote" + "=" + (q.remote_cfg_name + " ") + ":" + (" " + AfterRemote(q))
    ensures GetParam("remote", rest) == Some((q.remote_cfg_name, AfterRemote(q)))
  {
    GetParamOf("remote", q.remote_cfg_name + " ", " " + AfterRemote(q));
    TrimSpaces(q.remote_cfg_name);
    AfterRemoteNoLeadingSpace(q);
    TrimSpaces(AfterRemote(q));
  }

  /** Serialising then parsing gives the query back, under the conditions of `Serialisable`. */
  lemma SqlUrlRoundTrip(q: RemoteSqlQuery)
    requires Serialisable(q)
    ensures ParseSqlUrl(ToSqlUrl(q)) == Ok(Some(q))
  {
    var rest := "remote" + "=" + (q.remote_cfg_name + " ") + ":" + (" " + AfterRemote(q));
    SqlUrlPrefixParsed(q, rest);
    SqlUrlRemoteParsed(q, rest);
    AfterRemoteParsed(q);
    if q.to_subject_source.Some? {
      SubjectSourceRoundTrip(q.to_subject_source.value);
    }
  }

  // ---------------------------------------------------------- values to DNs

  /** The chunks put back together. */
  function Flatten(chunks: seq<seq<string>>): seq<string>
  {
    if |chunks| == 0 then [] else chunks[0] + Flatten(chunks[1..])
  }

  lemma {:induction false} FlattenAppend(init: seq<seq<string>>, last: seq<string>)
    ensures Flatten(init + [last]) == Flatten(init) + last
  {
    if |init| > 0 {
      assert (init + [last])[1..] == init[1..] + [last];
      FlattenAppend(init[1..], last);
    }
  }

  /** `_.chunk(values, n)`: non-empty chunks of at most `n` values that put back together give the values. */
  function Chunks(values: seq<string>, n: nat): (r: seq<seq<string>>)
    requires n > 0
    decreases |values|
    ensures forall i :: 0 <= i < |r| ==> 0 < |r[i]| <= n
    ensures Flatten(r) == values
  {
    if |values| == 0 then []
    else if |values| <= n then
      assert Flatten([values]) == values + [];
      [values]
    else
      var rest := Chunks(values[n..], n);
      var r := [values[..n]] + rest;
      assert r[1..] == rest;
      assert values[..n] + values[n..] == values;
      r
  }

  /** One equality per (value, id attribute), value by value (`flatMap`). */
  function ValueFilters(id_attrs: seq<string>, values: seq<string>): (r: seq<Filter>)
    ensures forall f :: f in r <==> exists v, a :: v in values && a in id_attrs && f == FEq(a, v)
  {
    if |values| == 0 then []
    else
      var here := seq(|id_attrs|, i requires 0 <= i < |id_attrs| => FEq(id_attrs[i], values[0]));
      var rest := ValueFilters(id_attrs, values[1..]);
      assert forall f :: f in here <==> exists a :: a in id_attrs && f == FEq(a, values[0]) by {
        forall f | f in here ensures exists a :: a in id_attrs && f == FEq(a, values[0]) {
          var i :| 0 <= i < |id_attrs| && here[i] == f;
          assert id_attrs[i] in id_attrs;
        }
        forall a | a in id_attrs ensures FEq(a, values[0]) in here {
          var i :| 0 <= i < |id_attrs| && id_attrs[i] == a;
          assert here[i] == FEq(a, values[0]);
        }
      }
      assert forall v :: v in values <==> v == values[0] || v in values[1..];
      here + rest
  }

  /** The entry has one of the id attributes set to one of the values. */
  predicate HasSomeValue(e: Entry, id_attrs: seq<string>, values: seq<string>)
  {
    exists a, v :: a in id_attrs && v in values && a in e && v in e[a]
  }

  /** The `or` of the equalities matches the entries holding one of the values. */
  lemma ValueFiltersMeaning(id_attrs: seq<string>, values: seq<string>, e: Entry)
    ensures Matches(OrF(ValueFilters(id_attrs, values)), e) <==> HasSomeValue(e, id_attrs, values)
  {
    var fs := ValueFilters(id_attrs, values);
    OrFMeaning(fs, e);
    if HasSomeValue(e, id_attrs, values) {
      var a, v :| a in id_attrs && v in values && a in e && v in e[a];
      assert FEq(a, v) in fs && Matches(FEq(a, v), e);
    }
  }

  /** Every DN of the map comes with no options. */
  predicate AllNoOptions(r: DnsOpts)
  {
    forall dn :: dn in KeySet(r) ==> Get(r, dn) == Some(NoOptions)
  }

  /** The DN of each entry found, with no options (`r[dn] = {}`), in order. */
  function PutFound(r: DnsOpts, found: seq<(Dn, Entry)>): (r': DnsOpts)
    ensures KeySet(r') == KeySet(r) + set p | p in found :: p.0
    ensures AllNoOptions(r) ==> AllNoOptions(r')
    ensures UniqueKeys(r) ==> UniqueKeys(r')
  {
    if |found| == 0 then r
    else
      var prev := PutFound(r, found[..|found| - 1]);
      assert forall p :: p in found <==> p in found[..|found| - 1] || p == found[|found| - 1];
      Put(prev, found[|found| - 1].0, NoOptions)
  }

  /** The entries of one chunk's search: those of the branch with an id attribute holding one of its values. */
  function ChunkSearch(es: Store, ssdn: Dn, id_attrs: seq<string>, chunk: seq<string>): seq<(Dn, Entry)>
  {
    SearchRaw(es, ssdn, OrF(ValueFilters(id_attrs, chunk)))
  }

  /** What `sql_values_to_dns_` accumulates, chunk after chunk. */
  function ValuesToDnsSpec(es: Store, ssdn: Dn, id_attrs: seq<string>, chunks: seq<seq<string>>): (r: DnsOpts)
    ensures UniqueKeys(r) && AllNoOptions(r)
  {
    if |chunks| == 0 then []
    else PutFound(ValuesToDnsSpec(es, ssdn, id_attrs, chunks[..|chunks| - 1]), ChunkSearch(es, ssdn, id_attrs, chunks[|chunks| - 1]))
  }

  /** The DNs of the entries in the branch of `ssdn` that hold one of `values` in an id attribute. */
  function FoundSet(es: Store, ssdn: Dn, id_attrs: seq<string>, values: seq<string>): set<Dn>
  {
    if Get(es, ssdn).None? then {}
    else set p | p in es && InSubtree(p.0, ssdn) && HasSomeValue(p.1, id_attrs, values) :: p.0
  }

  lemma FoundSetAppend(es: Store, ssdn: Dn, id_attrs: seq<string>, a: seq<string>, b: seq<string>)
    ensures FoundSet(es, ssdn, id_attrs, a + b) == FoundSet(es, ssdn, id_attrs, a) + FoundSet(es, ssdn, id_attrs, b)
  {
    forall e: Entry ensures HasSomeValue(e, id_attrs, a + b) <==> HasSomeValue(e, id_attrs, a) || HasSomeValue(e, id_attrs, b) {
      if HasSomeValue(e, id_attrs, a + b) {
        var x, v :| x in id_attrs && v in a + b && x in e && v in e[x];
        assert v in a || v in b;
      }
      if HasSomeValue(e, id_attrs, a) {
        var x, v :| x in id_attrs && v in a && x in e && v in e[x];
        assert v in a + b;
      }
      if HasSomeValue(e, id_attrs, b) {
        var x, v :| x in id_attrs && v in b && x in e && v in e[x];
        assert v in a + b;
      }
    }
  }

  /** The DNs a chunk's search finds are those of the branch entries holding one of the chunk's values. */
  lemma ChunkSearchKeys(es: Store, ssdn: Dn, id_attrs: seq<string>, chunk: seq<string>)
    ensures (set p | p in ChunkSearch(es, ssdn, id_attrs, chunk) :: p.0) == FoundSet(es, ssdn, id_attrs, chunk)
  {
    var found := ChunkSearch(es, ssdn, id_attrs, chunk);
    forall e: Entry ensures Matches(OrF(ValueFilters(id_attrs, chunk)), e) <==> HasSomeValue(e, id_attrs, chunk) {
      ValueFiltersMeaning(id_attrs, chunk, e);
    }
  }

  /** The DNs gathered over the chunks are those found for all their values together. */
  lemma {:induction false} ValuesToDnsSpecKeys(es: Store, ssdn: Dn, id_attrs: seq<string>, chunks: seq<seq<string>>)
    ensures KeySet(ValuesToDnsSpec(es, ssdn, id_attrs, chunks)) == FoundSet(es, ssdn, id_attrs, Flatten(chunks))
  {
    if |chunks| > 0 {
      var init := chunks[..|chunks| - 1];
      var last := chunks[|chunks| - 1];
      ValuesToDnsSpecKeys(es, ssdn, id_attrs, init);
      ChunkSearchKeys(es, ssdn, id_attrs, last);
      assert chunks == init + [last];
      FlattenAppend(init, last);
      FoundSetAppend(es, ssdn, id_attrs, Flatten(init), last);
    } else {
      assert forall e: Entry :: !HasSomeValue(e, id_attrs, []);
    }
  }

  lemma ValuesToDnsSpecStep(es: Store, ssdn: Dn, id_attrs: seq<string>, chunks: seq<seq<string>>, i: nat)
    requires i < |chunks|
    ensures ValuesToDnsSpec(es, ssdn, id_attrs, chunks[..i + 1]) ==
              PutFound(ValuesToDnsSpec(es, ssdn, id_attrs, chunks[..i]), ChunkSearch(es, ssdn, id_attrs, chunks[i]))
  {
    assert chunks[..i + 1][..i] == chunks[..i];
  }

  lemma PutFoundStep(r: DnsOpts, found: seq<(Dn, Entry)>, j: nat)
    requires j < |found|
    ensures PutFound(r, found[..j + 1]) == Put(PutFound(r, found[..j]), found[j].0, NoOptions)
  {
    assert found[..j + 1][..j] == found[..j];
  }

  /** `sql_values_to_dns_`: one search per chunk of 10 values, each DN found recorded with no options. */
  method SqlValuesToDnsChunked(es: Store, ssdn: Dn, id_attrs: seq<string>, sql_values: seq<string>) returns (r: DnsOpts)
    ensures r == ValuesToDnsSpec(es, ssdn, id_attrs, Chunks(sql_values, 10))
  {
    var chunks := Chunks(sql_values, 10);
    r := [];
    var i := 0;
    while i < |chunks|
      invariant 0 <= i <= |chunks|
      invariant r == ValuesToDnsSpec(es, ssdn, id_attrs, chunks[..i])
    {
      var found := SearchRaw(es, ssdn, OrF(ValueFilters(id_attrs, chunks[i])));
      ghost var before := r;
      var j := 0;
      while j < |found|
        invariant 0 <= j <= |found|
        invariant r == PutFound(before, found[..j])
      {
        PutFoundStep(before, found, j);
        r := Put(r, found[j].0, NoOptions);
        j := j + 1;
      }
      assert found[..j] == found;
      ValuesToDnsSpecStep(es, ssdn, id_attrs, chunks, i);
      i := i + 1;
    }
    assert chunks[..i] == chunks;
  }

  /** Whatever the chunking, the DNs found are those of the branch entries holding one of the values. */
  lemma SqlValuesToDnsMeaning(es: Store, ssdn: Dn, id_attrs: seq<string>, sql_values: seq<string>)
    ensures KeySet(ValuesToDnsSpec(es, ssdn, id_attrs, Chunks(sql_values, 10))) == FoundSet(es, ssdn, id_attrs, sql_values)
  {
    ValuesToDnsSpecKeys(es, ssdn, id_attrs, Chunks(sql_values, 10));
  }

  /** `to_ss_to_id_attrs`: the id attributes of the configured subject source with that exact DN. */
  function ToSsToIdAttrs(cfg: LdapConfig, to_ss: ToSubjectSource): (r: Result<seq<string>>)
    ensures r.Ok? <==> ExactDnToSubjectSourceCfg(cfg, to_ss.ssdn).Some? && ExactDnToSubjectSourceCfg(cfg, to_ss.ssdn).value.id_attrs.Some?
    ensures r.Ok? ==> r.value == ExactDnToSubjectSourceCfg(cfg, to_ss.ssdn).value.id_attrs.value
  {
    match ExactDnToSubjectSourceCfg(cfg, to_ss.ssdn)
    case None => Err("invalid remote query: no id_attr and " + to_ss.ssdn + " is not listed in conf.ldap.subject_sources")
    case Some(sscfg) =>
      match sscfg.id_attrs
      case None => Err("no id_attrs for " + sscfg.name + " but needed for remote query on DN " + to_ss.ssdn)
      case Some(attrs) => Ok(attrs)
  }

  /** The id attributes a lookup uses: the given one, else those of the subject source. */
  function IdAttrsFor(cfg: LdapConfig, to_ss: ToSubjectSource): Result<seq<string>>
  {
    if to_ss.id_attr.Some? && to_ss.id_attr.value != "" then Ok([to_ss.id_attr.value]) else ToSsToIdAttrs(cfg, to_ss)
  }

  /** The values themselves as DNs (`_.fromPairs`). */
  function ValuesAsDns(values: seq<string>): (r: DnsOpts)
    ensures UniqueKeys(r)
    ensures forall dn :: Get(r, dn).Some? <==> dn in values
    ensures forall dn :: Get(r, dn).Some? ==> Get(r, dn) == Some(NoOptions)
  {
    if |values| == 0 then []
    else
      var prev := ValuesAsDns(values[..|values| - 1]);
      assert forall v :: v in values <==> v in values[..|values| - 1] || v == values[|values| - 1];
      Put(prev, values[|values| - 1], NoOptions)
  }

  /** `sql_values_to_dns` */
  method SqlValuesToDns(cfg: LdapConfig, es: Store, to_ss: Option<ToSubjectSource>, sql_values: seq<string>) returns (r: Result<DnsOpts>)
    ensures to_ss.None? ==> r == Ok(ValuesAsDns(sql_values))
    ensures to_ss.Some? ==> (r.Ok? <==> IdAttrsFor(cfg, to_ss.value).Ok?)
    ensures to_ss.Some? && r.Err? ==> r == Err(IdAttrsFor(cfg, to_ss.value).msg)
    ensures to_ss.Some? && r.Ok? ==> r.value == ValuesToDnsSpec(es, to_ss.value.ssdn, IdAttrsFor(cfg, to_ss.value).value, Chunks(sql_values, 10))
  {
    if to_ss.Some? {
      var id_attrs := IdAttrsFor(cfg, to_ss.value);
      if id_attrs.Err? {
        return Err(id_attrs.msg);
      }
      var dns := SqlValuesToDnsChunked(es, to_ss.value.ssdn, id_attrs.value, sql_values);
      return Ok(dns);
    }
    return Ok(ValuesAsDns(sql_values));
  }

  // ---------------------------------------------------- subject source guess

  /** Every (subject source DN, id attribute) pair, source by source. */
  function Candidates(sources: seq<SubjectSourceConfig>): (r: seq<(Dn, string)>)
    ensures forall c :: c in r <==> exists s :: s in sources && c.0 == s.dn && c.1 in s.id_attrs.GetOr([])
  {
    if |sources| == 0 then []
    else
      var s := sources[0];
      var attrs := s.id_attrs.GetOr([]);
      var here := seq(|attrs|, i requires 0 <= i < |attrs| => (s.dn, attrs[i]));
      assert forall c :: c in here <==> c.0 == s.dn && c.1 in attrs by {
        forall c: (Dn, string) | c.0 == s.dn && c.1 in attrs ensures c in here {
          var i :| 0 <= i < |attrs| && attrs[i] == c.1;
          assert here[i] == c;
        }
      }
      assert forall x :: x in sources <==> x == s || x in sources[1..];
      here + Candidates(sources[1..])
  }

  /** The number of DNs a candidate finds for the values. */
  function CandidateCount(es: Store, values: seq<string>, c: (Dn, string)): nat
  {
    |ValuesToDnsSpec(es, c.0, [c.1], Chunks(values, 10))|
  }

  /** Every value ends with the base DN: they are DNs already. */
  predicate AllDns(cfg: LdapConfig, values: seq<string>)
  {
    forall v :: v in values ==> EndsWith(v, cfg.base_dn)
  }

  /** `i` is the first index of a positive count that no count after it exceeds. */
  predicate IsFirstMax(counts: seq<nat>, i: nat)
  {
    && i < |counts| && counts[i] > 0
    && (forall j :: 0 <= j < i ==> counts[j] < counts[i])
    && (forall j :: i < j < |counts| ==> counts[j] <= counts[i])
  }

  /** The index the scan of `guess_subject_source` keeps: replaced only by a strictly larger count. */
  function BestIndex(counts: seq<nat>): (r: Option<nat>)
    ensures r.Some? ==> r.value < |counts|
  {
    if |counts| == 0 then None
    else
      var prev := BestIndex(counts[..|counts| - 1]);
      if counts[|counts| - 1] > (if prev.Some? then counts[prev.value] else 0) then Some(|counts| - 1) else prev
  }

  /** The scan finds nothing exactly when every count is zero, and otherwise the first maximum. */
  lemma {:induction false} BestIndexMeaning(counts: seq<nat>)
    ensures BestIndex(counts).None? <==> forall j :: 0 <= j < |counts| ==> counts[j] == 0
    ensures BestIndex(counts).Some? ==> IsFirstMax(counts, BestIndex(counts).value)
  {
    if |counts| > 0 {
      var init := counts[..|counts| - 1];
      BestIndexMeaning(init);
      assert forall j :: 0 <= j < |init| ==> init[j] == counts[j];
    }
  }

  lemma BestIndexStep(counts: seq<nat>, k: nat)
    requires k < |counts|
    ensures var prev := BestIndex(counts[..k]);
            BestIndex(counts[..k + 1]) == if counts[k] > (if prev.Some? then counts[prev.value] else 0) then Some(k) else prev
  {
    var c := counts[..k + 1];
    assert c[..k] == counts[..k];
    var prev := BestIndex(counts[..k]);
    if prev.Some? {
      assert c[prev.value] == counts[prev.value];
    }
  }

  /** The count of each candidate, in order. */
  function Counts(es: Store, values: seq<string>, cs: seq<(Dn, string)>): (r: seq<nat>)
    ensures |r| == |cs| && forall j :: 0 <= j < |cs| ==> r[j] == CandidateCount(es, values, cs[j])
  {
    seq(|cs|, j requires 0 <= j < |cs| => CandidateCount(es, values, cs[j]))
  }

  /**
   * `guess_subject_source`: none when the values are DNs already; otherwise
   * the candidate the scan keeps, with the DNs it finds.
   */
  method GuessSubjectSource(cfg: LdapConfig, es: Store, values: seq<string>) returns (r: Option<(ToSubjectSource, DnsOpts)>)
    ensures AllDns(cfg, values) ==> r.None?
    ensures !AllDns(cfg, values) ==>
              var cs := Candidates(cfg.subject_sources);
              var best := BestIndex(Counts(es, values, cs));
              && (r.None? <==> best.None?)
              && (r.Some? ==> r.value == (ToSubjectSource(cs[best.value].0, Some(cs[best.value].1)),
                                          ValuesToDnsSpec(es, cs[best.value].0, [cs[best.value].1], Chunks(values, 10))))
  {
    if forall v :: v in values ==> EndsWith(v, cfg.base_dn) {
      return None;
    }
    var cs := Candidates(cfg.subject_sources);
    ghost var counts := Counts(es, values, cs);
    var best: Option<(nat, nat)> := None;
    var best_dns: DnsOpts := [];
    var k := 0;
    while k < |cs|
      invariant 0 <= k <= |cs|
      invariant best.None? <==> BestIndex(counts[..k]).None?
      invariant best.Some? ==> BestIndex(counts[..k]) == Some(best.value.1) && best.value.0 == counts[best.value.1]
      invariant best.Some? ==> best_dns == ValuesToDnsSpec(es, cs[best.value.1].0, [cs[best.value.1].1], Chunks(values, 10))
    {
      var dns := SqlValuesToDnsChunked(es, cs[k].0, [cs[k].1], values);
      var nb_dns := |dns|;
      assert nb_dns == counts[k];
      BestIndexStep(counts, k);
      if nb_dns > (if best.Some? then best.value.0 else 0) {
        best := Some((nb_dns, k));
        best_dns := dns;
      }
      k := k + 1;
    }
    assert counts[..k] == counts;
    if best.None? {
      return None;
    }
    var i := best.value.1;
    return Some((ToSubjectSource(cs[i].0, Some(cs[i].1)), best_dns));
  }

  // ------------------------------------------------------------ running it

  /** The database: the values a select query returns on a configured remote. */
  type SqlRunner = (RemoteConfig, string) -> Result<seq<string>>

  /** `sql_query`: an error for an unknown remote or one whose driver is not SQL. */
  function SqlQuery(remotes: map<string, RemoteConfig>, remote: RemoteSqlQuery, run: SqlRunner): (r: Result<seq<string>>)
    ensures remote.remote_cfg_name !in remotes ==> r == Err("internal error: unknown remote " + remote.remote_cfg_name)
    ensures remote.remote_cfg_name in remotes && !IsSqlDriver(remotes[remote.remote_cfg_name].driver) ==>
              r == Err("internal error: remote is not SQL " + remote.remote_cfg_name)
    ensures remote.remote_cfg_name in remotes && IsSqlDriver(remotes[remote.remote_cfg_name].driver) ==>
              r == run(remotes[remote.remote_cfg_name], remote.select_query)
  {
    if remote.remote_cfg_name !in remotes then Err("internal error: unknown remote " + remote.remote_cfg_name)
    else
      var remote_cfg := remotes[remote.remote_cfg_name];
      if !IsSqlDriver(remote_cfg.driver) then Err("internal error: remote is not SQL " + remote.remote_cfg_name)
      else run(remote_cfg, remote.select_query)
  }
}
