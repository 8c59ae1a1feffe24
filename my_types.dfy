// Shared types of the server (server/my_types.ts): insertion-ordered maps,
// the member/right lattice, the configuration and the query descriptors.
module MyTypes {
  import opened Wrappers

  // ---------------------------------------------------------------- hOption

  /** `hOption.isGT`: `v1` is present and beats an absent or smaller `v2`. */
  function IsGT(v1: Option<int>, v2: Option<int>): (r: bool)
    ensures r <==> v1.Some? && (v2.None? || v1.value > v2.value)
    ensures r ==> v1 != v2
  {
    match v1
    case None => false
    case Some(a) =>
      match v2
      case None => true
      case Some(b) => a > b
  }

  // ----------------------------------------------------------------- hMyMap

  /**
   * A JavaScript object used as a dictionary: its keys keep their insertion
   * order, which `for ... in`, `Object.keys` and `mapToArray` follow.
   */
  type MyMap<K, V> = seq<(K, V)>

  predicate UniqueKeys<K(==,!new), V>(m: MyMap<K, V>)
  {
    forall i, j :: 0 <= i < j < |m| ==> m[i].0 != m[j].0
  }

  function Keys<K, V>(m: MyMap<K, V>): (r: seq<K>)
    ensures |r| == |m| && forall i :: 0 <= i < |m| ==> r[i] == m[i].0
  {
    if |m| == 0 then [] else [m[0].0] + Keys(m[1..])
  }

  function KeySet<K, V>(m: MyMap<K, V>): set<K>
  {
    if |m| == 0 then {} else {m[0].0} + KeySet(m[1..])
  }

  lemma KeySetIndex<K, V>(m: MyMap<K, V>, k: K)
    ensures k in KeySet(m) <==> exists i :: 0 <= i < |m| && m[i].0 == k
  {
    if |m| > 0 {
      KeySetIndex(m[1..], k);
      if k in KeySet(m[1..]) {
        var i :| 0 <= i < |m[1..]| && m[1..][i].0 == k;
        assert m[i + 1].0 == k;
      }
      if exists i :: 0 <= i < |m| && m[i].0 == k {
        var i :| 0 <= i < |m| && m[i].0 == k;
        if i > 0 { assert m[1..][i - 1].0 == k; }
      }
    }
  }

  /** `m[k]` */
  function Get<K(==,!new), V>(m: MyMap<K, V>, k: K): (r: Option<V>)
    ensures r.None? <==> k !in KeySet(m)
    ensures r.Some? ==> exists i :: 0 <= i < |m| && m[i] == (k, r.value)
    ensures UniqueKeys(m) ==> forall i :: 0 <= i < |m| && m[i].0 == k ==> r == Some(m[i].1)
  {
    if |m| == 0 then None
    else if m[0].0 == k then Some(m[0].1)
    else Get(m[1..], k)
  }

  /** `m[k] = v`: a new key goes last, an existing key keeps its place. */
  function Put<K(==,!new), V>(m: MyMap<K, V>, k: K, v: V): (r: MyMap<K, V>)
    ensures Get(r, k) == Some(v)
    ensures forall k' :: k' != k ==> Get(r, k') == Get(m, k')
    ensures KeySet(r) == KeySet(m) + {k}
    ensures UniqueKeys(m) ==> UniqueKeys(r)
  {
    if |m| == 0 then [(k, v)]
    else if m[0].0 == k then
      var r := [(k, v)] + m[1..];
      assert r[1..] == m[1..];
      r
    else
      var rest := Put(m[1..], k, v);
      var r := [m[0]] + rest;
      assert r[1..] == rest;
      assert UniqueKeys(m) ==> UniqueKeys(r) by {
        if UniqueKeys(m) {
          KeySetIndex(m[1..], m[0].0);
          forall i, j | 0 <= i < j < |r| ensures r[i].0 != r[j].0 {
            if i == 0 {
              KeySetIndex(rest, r[j].0);
            }
          }
        }
      }
      r
  }

  /** A new key is appended. */
  lemma {:induction false} PutAbsentAppends<K(!new), V>(m: MyMap<K, V>, k: K, v: V)
    requires Get(m, k).None?
    ensures Put(m, k, v) == m + [(k, v)]
  {
    if |m| > 0 {
      assert m[0].0 != k && Get(m[1..], k).None?;
      PutAbsentAppends(m[1..], k, v);
      assert Put(m, k, v) == [m[0]] + Put(m[1..], k, v);
      assert [m[0]] + (m[1..] + [(k, v)]) == m + [(k, v)];
    }
  }

  /** `delete m[k]` */
  function Remove<K(==,!new), V>(m: MyMap<K, V>, k: K): (r: MyMap<K, V>)
    requires UniqueKeys(m)
    ensures UniqueKeys(r)
    ensures Get(r, k) == None
    ensures forall k' :: k' != k ==> Get(r, k') == Get(m, k')
  {
    if |m| == 0 then []
    else if m[0].0 == k then
      KeySetIndex(m[1..], k);
      m[1..]
    else
      var rest := Remove(m[1..], k);
      var r := [m[0]] + rest;
      assert r[1..] == rest;
      assert UniqueKeys(r) by {
        KeySetIndex(m[1..], m[0].0);
        forall i, j | 0 <= i < j < |r| ensures r[i].0 != r[j].0 {
          if i == 0 {
            KeySetIndex(rest, r[j].0);
            assert Get(rest, r[j].0).Some?;
          }
        }
      }
      r
  }

  /** The value the last present pair with key `k` carries. */
  function LastValue<K(==,!new), V>(pairs: seq<Option<(K, V)>>, k: K): Option<V>
  {
    if |pairs| == 0 then None
    else
      var last := pairs[|pairs| - 1];
      if last.Some? && last.value.0 == k then Some(last.value.1)
      else LastValue(pairs[..|pairs| - 1], k)
  }

  /** A key has a last value exactly when some present pair carries it, and that value comes from such a pair. */
  lemma {:induction false} LastValueSome<K(!new), V>(pairs: seq<Option<(K, V)>>, k: K)
    ensures LastValue(pairs, k).Some? <==> exists i :: 0 <= i < |pairs| && pairs[i].Some? && pairs[i].value.0 == k
    ensures LastValue(pairs, k).Some? ==> exists i :: 0 <= i < |pairs| && pairs[i] == Some((k, LastValue(pairs, k).value))
  {
    if |pairs| > 0 {
      var n := |pairs| - 1;
      var init := pairs[..n];
      LastValueSome(init, k);
      if exists i :: 0 <= i < |init| && init[i].Some? && init[i].value.0 == k {
        var i :| 0 <= i < |init| && init[i].Some? && init[i].value.0 == k;
        assert pairs[i] == init[i];
      }
      if LastValue(init, k).Some? {
        var i :| 0 <= i < |init| && init[i] == Some((k, LastValue(init, k).value));
        assert pairs[i] == init[i];
      }
      if exists i :: 0 <= i < |pairs| && pairs[i].Some? && pairs[i].value.0 == k {
        var i :| 0 <= i < |pairs| && pairs[i].Some? && pairs[i].value.0 == k;
        if i < n { assert init[i] == pairs[i]; }
      }
    }
  }

  /** What `hMyMap.fromOptionPairs` builds, one pair at a time. */
  function FromOptionPairsSpec<K(==,!new), V>(pairs: seq<Option<(K, V)>>): (r: MyMap<K, V>)
    ensures UniqueKeys(r)
  {
    if |pairs| == 0 then []
    else
      var r := FromOptionPairsSpec(pairs[..|pairs| - 1]);
      match pairs[|pairs| - 1]
      case None => r
      case Some(p) => Put(r, p.0, p.1)
  }

  /** `hMyMap.fromOptionPairs`: absent pairs are skipped, later pairs overwrite. */
  method FromOptionPairs<K(==,!new), V>(pairs: seq<Option<(K, V)>>) returns (r: MyMap<K, V>)
    ensures r == FromOptionPairsSpec(pairs)
  {
    r := [];
    var i := 0;
    while i < |pairs|
      invariant 0 <= i <= |pairs|
      invariant r == FromOptionPairsSpec(pairs[..i])
    {
      assert pairs[..i + 1][..i] == pairs[..i];
      var pair := pairs[i];
      if pair.Some? {
        r := Put(r, pair.value.0, pair.value.1);
      }
      i := i + 1;
    }
    assert pairs[..i] == pairs;
  }

  /** Every key of `fromOptionPairs` is bound to the last value given for it. */
  lemma {:induction false} FromOptionPairsLookup<K(!new), V>(pairs: seq<Option<(K, V)>>, k: K)
    ensures Get(FromOptionPairsSpec(pairs), k) == LastValue(pairs, k)
  {
    if |pairs| > 0 {
      FromOptionPairsLookup(pairs[..|pairs| - 1], k);
    }
  }

  /** `hMyMap.mapToArray`: one callback result per entry, in key order. */
  method MapToArray<K, V, R>(m: MyMap<K, V>, f: (V, K) -> R) returns (r: seq<R>)
    ensures |r| == |m|
    ensures forall i :: 0 <= i < |m| ==> r[i] == f(m[i].1, m[i].0)
  {
    r := [];
    var i := 0;
    while i < |m|
      invariant 0 <= i <= |m|
      invariant |r| == i
      invariant forall j :: 0 <= j < i ==> r[j] == f(m[j].1, m[j].0)
    {
      r := r + [f(m[i].1, m[i].0)];
      i := i + 1;
    }
  }

  /** `hMyMap.mapValues`: the same keys, each value transformed. */
  function MapValues<K(==,!new), V, W>(m: MyMap<K, V>, f: V -> W): (r: MyMap<K, W>)
    ensures |r| == |m| && forall i :: 0 <= i < |m| ==> r[i] == (m[i].0, f(m[i].1))
    ensures forall k :: Get(r, k) == if Get(m, k).Some? then Some(f(Get(m, k).value)) else None
    ensures KeySet(r) == KeySet(m)
    ensures UniqueKeys(m) ==> UniqueKeys(r)
  {
    if |m| == 0 then []
    else
      var rest := MapValues(m[1..], f);
      var r := [(m[0].0, f(m[0].1))] + rest;
      assert r[1..] == rest;
      r
  }

  /** `hMyMap.compact`: drop the entries whose value is undefined. */
  function Compact<K(==,!new), V>(m: MyMap<K, Option<V>>): (r: MyMap<K, V>)
    ensures UniqueKeys(m) ==> forall k :: Get(r, k) == if Get(m, k).Some? then Get(m, k).value else None
    ensures KeySet(r) <= KeySet(m)
    ensures UniqueKeys(m) ==> UniqueKeys(r)
    ensures |r| <= |m|
  {
    if |m| == 0 then []
    else
      var rest := Compact(m[1..]);
      if m[0].1.Some? then
        var r := [(m[0].0, m[0].1.value)] + rest;
        assert r[1..] == rest;
        assert UniqueKeys(m) ==> UniqueKeys(r) by {
          if UniqueKeys(m) {
            KeySetIndex(m[1..], m[0].0);
            forall i, j | 0 <= i < j < |r| ensures r[i].0 != r[j].0 {
              if i == 0 {
                KeySetIndex(rest, r[j].0);
              }
            }
          }
        }
        r
      else
        assert UniqueKeys(m) ==> m[0].0 !in KeySet(rest) by {
          if UniqueKeys(m) { KeySetIndex(m[1..], m[0].0); }
        }
        rest
  }

  // ----------------------------------------------------------- member/rights

  /** `Mright`: the member relation or one of the three rights. */
  datatype Mright = Member | Reader | Updater | Admin

  type Right = m: Mright | !m.Member? witness Reader

  function MrightName(m: Mright): string
  {
    match m
    case Member => "member"
    case Reader => "reader"
    case Updater => "updater"
    case Admin => "admin"
  }

  /** `hMright.to_attr`: the attribute holding the direct members or rights. */
  function ToAttr(m: Mright): (r: string)
    ensures r == "memberURL;x-" + MrightName(m)
  {
    "memberURL;x-" + MrightName(m)
  }

  /** `hMright.to_attr_synchronized` */
  function ToAttrSynchronized(m: Mright): string
  {
    "memberURL;x-" + MrightName(m) + ";x-remote"
  }

  /** `hMright.attr_synchronized`: where a synchronized group keeps its remote query. */
  const AttrSynchronized: string := ToAttrSynchronized(Member)

  /** `hMright.list`: every mright, `member` first. */
  const MrightList: seq<Mright> := [Member, Reader, Updater, Admin]

  /** Distinct mrights are stored under distinct attributes, none of them the synchronized one. */
  lemma ToAttrInjective(m1: Mright, m2: Mright)
    ensures ToAttr(m1) == ToAttr(m2) ==> m1 == m2
    ensures ToAttr(m1) != AttrSynchronized
  {
    var p := "memberURL;x-";
    if ToAttr(m1) == ToAttr(m2) {
      assert ToAttr(m1)[|p|..] == MrightName(m1);
      assert ToAttr(m2)[|p|..] == MrightName(m2);
    }
    assert AttrSynchronized[|p|..] == "member;x-remote";
    assert ToAttr(m1)[|p|..] == MrightName(m1);
  }

  /** Strength of an optional right; undefined is the weakest. */
  function Rank(r: Option<Right>): nat
  {
    match r
    case None => 0
    case Some(Reader) => 1
    case Some(Updater) => 2
    case Some(Admin) => 3
  }

  /** `to_allowed_rights`: the rights at least as strong as `r`, best first. */
  function ToAllowedRights(r: Right): (l: seq<Right>)
    ensures |l| > 0 && l[0] == Admin
    ensures forall x: Right :: x in l <==> Rank(Some(x)) >= Rank(Some(r))
    ensures forall i, j :: 0 <= i < j < |l| ==> Rank(Some(l[i])) > Rank(Some(l[j]))
  {
    match r
    case Reader => [Admin, Updater, Reader]
    case Updater => [Admin, Updater]
    case Admin => [Admin]
  }

  /** `hRight.max`: the stronger of two optional rights. */
  function Max(a: Option<Right>, b: Option<Right>): (r: Option<Right>)
    ensures r == a || r == b
    ensures Rank(r) >= Rank(a) && Rank(r) >= Rank(b)
  {
    if a == Some(Admin) || b == Some(Admin) then Some(Admin)
    else if a == Some(Updater) || b == Some(Updater) then Some(Updater)
    else if a == Some(Reader) || b == Some(Reader) then Some(Reader)
    else
      assert a.None? && b.None?;
      None
  }

  lemma MaxLattice(a: Option<Right>, b: Option<Right>, c: Option<Right>)
    ensures Max(a, b) == Max(b, a)
    ensures Max(Max(a, b), c) == Max(a, Max(b, c))
    ensures Max(None, a) == a && Max(a, None) == a
  {
  }

  // ------------------------------------------------------------ mods/values

  /** `MyMod`: the LDAP modify operations. */
  datatype MyMod = Add | Delete | Replace

  /** `DirectOptions`: per-member options, an ISO 8601 end date. */
  datatype DirectOptions = DirectOptions(enddate: Option<string>)

  const NoOptions := DirectOptions(None)

  type Dn = string

  /** `DnsOpts` */
  type DnsOpts = MyMap<Dn, DirectOptions>

  /** The `MyMap<MyMod, DnsOpts>` of one mright, read through its three keys. */
  datatype SubMods = SubMods(add: Option<DnsOpts>, delete: Option<DnsOpts>, replace: Option<DnsOpts>)

  /** `MyMods`: edits per mright. */
  type MyMods = MyMap<Mright, SubMods>

  /** `MonoAttrs`: one value per attribute, undefined when the directory gave none. */
  type MonoAttrs = MyMap<string, Option<string>>

  /** A directory entry: every attribute with its values. */
  type Entry = map<string, seq<string>>

  /** `LoggedUser` (id) and `LoggedUserDn` (DN): a trusted admin or a user. */
  datatype LoggedUser = TrustedAdmin | User(user: string)

  /** `ToSubjectSource`: the branch and attribute used to turn values into DNs. */
  datatype ToSubjectSource = ToSubjectSource(ssdn: Dn, id_attr: Option<string>)

  /** `RemoteSqlQuery`; the periodicity the remote imposes can be overridden per group. */
  datatype RemoteSqlQuery = RemoteSqlQuery(remote_cfg_name: string, select_query: string,
                                           to_subject_source: Option<ToSubjectSource>, forced_periodicity: Option<string>)

  datatype RemoteLdapQuery = RemoteLdapQuery(remote_cfg_name: string, dn: Option<string>, attribute: Option<string>,
                                             filter: Option<string>, forced_periodicity: Option<string>)

  /** `RemoteQuery`: an SQL or an LDAP query feeding a synchronized group. */
  datatype RemoteQuery = Sql(sql: RemoteSqlQuery) | Ldap(ldap: RemoteLdapQuery)
  {
    function RemoteCfgName(): string
    {
      match this
      case Sql(q) => q.remote_cfg_name
      case Ldap(q) => q.remote_cfg_name
    }

    function ForcedPeriodicity(): Option<string>
    {
      match this
      case Sql(q) => q.forced_periodicity
      case Ldap(q) => q.forced_periodicity
    }
  }

  // ---------------------------------------------------------- configuration

  datatype SubjectSourceConfig = SubjectSourceConfig(
    dn: Dn, name: string, display_attrs: seq<string>, id_attrs: Option<seq<string>>, search_filter: string)

  datatype StemConfig = StemConfig(filter: string, separator: Option<string>, root_id: Option<string>)

  datatype LdapConfig = LdapConfig(
    base_dn: Dn,
    groups_dn: Dn,
    stem_object_classes: seq<string>,
    group_object_classes: seq<string>,
    sgroup_filter: Option<string>,
    group_filter: string,
    stem: StemConfig,
    subject_sources: seq<SubjectSourceConfig>,
    groups_flattened_attr: map<Mright, string>,
    sgroup_attrs: seq<string>)

  /** A remote: its driver (`mysql`, `oracle` or `ldap`), periodicity and LDAP search branch. */
  datatype RemoteConfig = RemoteConfig(driver: string, periodicity: string, search_branch: Option<string>)

  datatype Config = Config(
    log_dir: Option<string>,
    ldap: LdapConfig,
    remotes: map<string, RemoteConfig>,
    remote_forced_periodicity_attr: string)

  const DefaultSeparator := "."
  const DefaultRootId := ""

  /** `stem_separator()` */
  function StemSeparator(cfg: LdapConfig): string
  {
    cfg.stem.separator.GetOr(DefaultSeparator)
  }

  /** `root_id()` */
  function RootId(cfg: LdapConfig): string
  {
    cfg.stem.root_id.GetOr(DefaultRootId)
  }

  predicate IsSqlDriver(driver: string)
  {
    driver == "mysql" || driver == "oracle"
  }

  /** `Array.prototype.find` over the subject sources. */
  function FindSource(sources: seq<SubjectSourceConfig>, p: SubjectSourceConfig -> bool): (r: Option<SubjectSourceConfig>)
    ensures r.Some? ==> r.value in sources && p(r.value)
    ensures r.Some? ==> exists i :: 0 <= i < |sources| && sources[i] == r.value && forall j :: 0 <= j < i ==> !p(sources[j])
    ensures r.None? <==> forall s :: s in sources ==> !p(s)
  {
    if |sources| == 0 then None
    else if p(sources[0]) then Some(sources[0])
    else
      var r := FindSource(sources[1..], p);
      assert r.Some? ==> exists i :: 1 <= i < |sources| && sources[i] == r.value && forall j :: 0 <= j < i ==> !p(sources[j]) by {
        if r.Some? {
          var i :| 0 <= i < |sources[1..]| && sources[1..][i] == r.value && forall j :: 0 <= j < i ==> !p(sources[1..][j]);
          assert sources[i + 1] == r.value;
          forall j | 0 <= j < i + 1 ensures !p(sources[j]) {
            if j > 0 { assert sources[j] == sources[1..][j - 1]; }
          }
        }
      }
      r
  }

  /** `hLdapConfig.sgroup_sscfg`: the first subject source whose DN is `groups_dn`. */
  function SgroupSscfg(cfg: LdapConfig): (r: Result<SubjectSourceConfig>)
    ensures r.Err? <==> forall s :: s in cfg.subject_sources ==> s.dn != cfg.groups_dn
    ensures r.Ok? ==> r.value in cfg.subject_sources && r.value.dn == cfg.groups_dn
  {
    match FindSource(cfg.subject_sources, (s: SubjectSourceConfig) => s.dn == cfg.groups_dn)
    case None => Err("internal error (should be checked as startup)")
    case Some(s) => Ok(s)
  }
}
