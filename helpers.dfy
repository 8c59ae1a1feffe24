// String, time and dictionary helpers of the server (server/helpers.ts).
module Helpers {
  import opened Wrappers
  import opened JsString
  import opened MyTypes

  /** The message `internal_error` throws. */
  const InternalError := "internal error"

  // ------------------------------------------------------------ affixes

  /** `strip_prefix` */
  function StripPrefix(s: string, prefix: string): (r: Option<string>)
    ensures r.Some? <==> prefix <= s
    ensures r.Some? ==> prefix + r.value == s
  {
    if prefix <= s then Some(s[|prefix|..]) else None
  }

  /** `strip_suffix` */
  function StripSuffix(s: string, suffix: string): (r: Option<string>)
    ensures r.Some? <==> EndsWith(s, suffix)
    ensures r.Some? ==> r.value + suffix == s
  {
    if EndsWith(s, suffix) then Some(s[..|s| - |suffix|]) else None
  }

  /** `may_strip_suffix` */
  function MayStripSuffix(s: string, suffix: string): (r: string)
    ensures EndsWith(s, suffix) ==> r + suffix == s
    ensures !EndsWith(s, suffix) ==> r == s
  {
    StripSuffix(s, suffix).GetOr(s)
  }

  /** `before_and_after`: split at the first occurrence of `sep`, dropping it. */
  function BeforeAndAfter(s: string, sep: string): (r: Option<(string, string)>)
    ensures r.None? <==> forall j: nat :: !OccursAt(s, sep, j)
    ensures r.Some? ==> r.value.0 + sep + r.value.1 == s
    ensures r.Some? ==> forall j: nat :: j < |r.value.0| ==> !OccursAt(s, sep, j)
  {
    match IndexOf(s, sep)
    case None => None
    case Some(i) =>
      assert s[..i] + sep + s[i + |sep|..] == s by {
        assert s[i..i + |sep|] == sep;
        assert s == s[..i] + s[i..i + |sep|] + s[i + |sep|..];
      }
      Some((s[..i], s[i + |sep|..]))
  }

  /** `before_and_between_and_after`: two splits in a row. */
  function BeforeAndBetweenAndAfter(s: string, sep1: string, sep2: string): (r: Option<(string, string, string)>)
    ensures r.Some? ==> r.value.0 + sep1 + r.value.1 + sep2 + r.value.2 == s
    ensures r.Some? ==> forall j: nat :: j < |r.value.0| ==> !OccursAt(s, sep1, j)
    ensures r.None? <==> BeforeAndAfter(s, sep1).None? || BeforeAndAfter(BeforeAndAfter(s, sep1).value.1, sep2).None?
  {
    match BeforeAndAfter(s, sep1)
    case None => None
    case Some((beg, s')) =>
      match BeforeAndAfter(s', sep2)
      case None => None
      case Some((between, end)) => Some((beg, between, end))
  }

  /** Split at a single character: nothing when it is absent, and the part before never holds it. */
  lemma BeforeAndAfterChar(s: string, c: char)
    ensures BeforeAndAfter(s, [c]).None? <==> c !in s
    ensures BeforeAndAfter(s, [c]).Some? ==> c !in BeforeAndAfter(s, [c]).value.0
  {
    if c in s {
      var j :| 0 <= j < |s| && s[j] == c;
      OccursAtChar(s, c, j);
    }
    var r := BeforeAndAfter(s, [c]);
    if r.Some? {
      var a := r.value.0;
      forall j | 0 <= j < |a| ensures a[j] != c {
        OccursAtChar(s, c, j);
        assert s[j] == (a + [c] + r.value.1)[j];
      }
    } else {
      forall j | 0 <= j < |s| ensures s[j] != c {
        OccursAtChar(s, c, j);
      }
    }
  }

  /** A string built around the first occurrence of a character splits back into its parts. */
  lemma BeforeAndAfterCharOf(a: string, c: char, b: string)
    requires c !in a
    ensures BeforeAndAfter(a + [c] + b, [c]) == Some((a, b))
  {
    var s := a + [c] + b;
    IndexOfFirstChar(a, c, b);
    assert s[..|a|] == a && s[|a| + 1..] == b;
  }

  // -------------------------------------------------------------- URLs

  /** The port `build_url_from_parts` writes out: absent, empty, 80 and 443 are left implicit. */
  function PortSuffix(port: Option<string>): string
  {
    if port.Some? && port.value != "" && port.value != "80" && port.value != "443" then ":" + port.value else ""
  }

  /** The scheme `build_url_from_parts` uses: the given one, else https for ports 443 and 8443 only. */
  function SchemeFor(scheme: Option<string>, port: Option<string>): string
  {
    scheme.GetOr(if port == Some("443") || port == Some("8443") then "https" else "http")
  }

  /** `build_url_from_parts` */
  function BuildUrlFromParts(scheme: Option<string>, host_only: string, port: Option<string>, path_and_query: string): (r: string)
    ensures r == SchemeFor(scheme, port) + "://" + (host_only + PortSuffix(port)) + path_and_query
  {
    var scheme' := scheme.GetOr(if port == Some("443") || port == Some("8443") then "https" else "http");
    if port.Some? && port.value != "" && port.value != "80" && port.value != "443" then
      scheme' + "://" + host_only + ":" + port.value + path_and_query
    else
      scheme' + "://" + host_only + path_and_query
  }

  /** The authority `build_url_from_parts` writes is read back by `parse_host_and_port`. */
  lemma BuildUrlAuthorityRoundTrip(host_only: string, port: Option<string>)
    requires forall j: nat :: !OccursAt(host_only, ":", j)
    requires port.Some? ==> forall j: nat :: !OccursAt(port.value, ":", j)
    ensures PortSuffix(port) != "" ==> ParseHostAndPort(host_only + PortSuffix(port)) == (host_only, port)
    ensures PortSuffix(port) == "" ==> ParseHostAndPort(host_only + PortSuffix(port)) == (host_only, None)
  {
    if PortSuffix(port) != "" {
      AuthorityWithPort(host_only, port.value);
    } else {
      assert host_only + PortSuffix(port) == host_only;
      AuthorityWithoutPort(host_only);
    }
  }

  /** An explicit port is written after a `:` and read back from there. */
  lemma AuthorityWithPort(host_only: string, port: string)
    requires forall j: nat :: !OccursAt(host_only, ":", j)
    requires forall j: nat :: !OccursAt(port, ":", j)
    requires port != "" && port != "80" && port != "443"
    ensures ParseHostAndPort(host_only + PortSuffix(Some(port))) == (host_only, Some(port))
  {
    assert host_only + PortSuffix(Some(port)) == host_only + ":" + port;
    ParseHostAndPortInverse(host_only, port);
  }

  /** A host without `:` reads back with no port. */
  lemma AuthorityWithoutPort(host_only: string)
    requires forall j: nat :: !OccursAt(host_only, ":", j)
    ensures ParseHostAndPort(host_only) == (host_only, None)
  {
  }

  /** `parse_host_and_port`: split at the last `:`. */
  function ParseHostAndPort(host: string): (r: (string, Option<string>))
    ensures r.1.Some? <==> exists j: nat :: OccursAt(host, ":", j)
    ensures r.1.Some? ==> r.0 + ":" + r.1.value == host && forall j: nat :: !OccursAt(r.1.value, ":", j)
    ensures r.1.None? ==> r.0 == host
  {
    match LastIndexOf(host, ":")
    case None => (host, None)
    case Some(i) =>
      var port := host[i + 1..];
      assert host[..i] + ":" + port == host by {
        assert host[i..i + 1] == ":";
      }
      forall j: nat ensures !OccursAt(port, ":", j) {
        if OccursAt(port, ":", j) {
          assert host[i + 1 + j..i + 1 + j + 1] == port[j..j + 1];
          assert OccursAt(host, ":", i + 1 + j);
        }
      }
      (host[..i], Some(port))
  }

  /** A host and a port without `:` come back from the URL authority they form. */
  lemma ParseHostAndPortInverse(host_only: string, port: string)
    requires forall j: nat :: !OccursAt(port, ":", j)
    ensures ParseHostAndPort(host_only + ":" + port) == (host_only, Some(port))
  {
    var h := host_only + ":" + port;
    assert OccursAt(h, ":", |host_only|);
    var r := ParseHostAndPort(h);
    var i := LastIndexOf(h, ":").value;
    if i > |host_only| {
      assert h[i..i + 1] == port[i - |host_only| - 1..i - |host_only|];
      assert OccursAt(port, ":", i - |host_only| - 1);
    }
    assert i == |host_only|;
    assert h[..i] == host_only;
    assert h[i + 1..] == port;
  }

  /** `addSeconds`: an instant in seconds moved by `seconds`. */
  function AddSeconds(date: int, seconds: int): (r: int)
    ensures r - date == seconds
  {
    date + seconds
  }

  // ------------------------------------------------------- Generalized Time

  /** `time.replace(/\D/g, '')` */
  function Digits(s: string): (r: string)
    ensures AllDigits(r) && |r| <= |s|
  {
    if |s| == 0 then ""
    else (if IsDigit(s[0]) then [s[0]] else "") + Digits(s[1..])
  }

  /** A single character is kept iff it is a digit. */
  lemma DigitsChar(c: char)
    ensures Digits([c]) == if IsDigit(c) then [c] else ""
  {
    assert [c][1..] == "";
  }

  /**
   * `Digits` works character by character: with `DigitsChar`, the result is
   * exactly the digits of the text, in order.
   */
  lemma {:induction false} DigitsAppend(a: string, b: string)
    ensures Digits(a + b) == Digits(a) + Digits(b)
  {
    if |a| == 0 {
      assert a + b == b;
    } else {
      assert (a + b)[0] == a[0] && (a + b)[1..] == a[1..] + b;
      DigitsAppend(a[1..], b);
    }
  }

  /** The result keeps the digits and only them. */
  lemma {:induction false} DigitsMembers(s: string, c: char)
    ensures c in Digits(s) <==> c in s && IsDigit(c)
  {
    if |s| > 0 {
      DigitsMembers(s[1..], c);
      assert s == [s[0]] + s[1..];
    }
  }

  lemma {:induction false} DigitsOfDigits(s: string)
    requires AllDigits(s)
    ensures Digits(s) == s
  {
    if |s| > 0 {
      DigitsOfDigits(s[1..]);
    }
  }

  /** Digits, a separator, and more text: the separator vanishes. */
  lemma {:induction false} DigitsAroundSeparator(a: string, c: char, b: string)
    requires AllDigits(a) && !IsDigit(c)
    ensures Digits(a + [c] + b) == a + Digits(b)
  {
    if |a| == 0 {
      var s := [c] + b;
      assert a + [c] + b == s;
      assert s[1..] == b;
    } else {
      var s := a + [c] + b;
      assert s[0] == a[0];
      assert s[1..] == a[1..] + [c] + b;
      DigitsAroundSeparator(a[1..], c, b);
      assert [a[0]] + a[1..] == a;
    }
  }

  /** A Generalized Time of section 3.3.13 of RFC 4517 as the server writes it: 14 digits then `Z`. */
  predicate IsGeneralizedTime(t: string)
  {
    |t| == 15 && AllDigits(t[..14]) && t[14] == 'Z'
  }

  /** `iso8601_to_generalized_time`: the first 14 digits, then `Z`. */
  function Iso8601ToGeneralizedTime(time: string): (r: Option<string>)
    ensures r.Some? <==> |Digits(time)| >= 14
    ensures r.Some? ==> IsGeneralizedTime(r.value) && r.value[..14] <= Digits(time)
  {
    var d := Digits(time);
    var gtime := if |d| <= 14 then d else d[..14];
    if |gtime| == 14 then
      var r := gtime + "Z";
      assert r[..14] == gtime;
      Some(r)
    else None
  }

  /** The layout `YYYY-MM-DDTHH:MM:SS` of `generalized_time_to_iso8601`'s output. */
  predicate IsoSeparators(r: string)
  {
    |r| == 19 && r[4] == '-' && r[7] == '-' && r[10] == 'T' && r[13] == ':' && r[16] == ':'
  }

  /** The six fields of an ISO instant, separators removed. */
  function IsoFields(r: string): string
    requires |r| == 19
  {
    r[0..4] + r[5..7] + r[8..10] + r[11..13] + r[14..16] + r[17..19]
  }

  /** An ISO 8601 instant as this server writes it: every field made of digits. */
  predicate IsCanonicalIso(e: string)
  {
    IsoSeparators(e) && AllDigits(IsoFields(e))
  }

  /** `generalized_time_to_iso8601`: 14 characters then `Z` at the start; the rest is ignored. */
  function GeneralizedTimeToIso8601(gtime: string): (r: Option<string>)
    ensures r.Some? <==> |gtime| >= 15 && gtime[14] == 'Z'
    ensures r.Some? ==> IsoSeparators(r.value) && IsoFields(r.value) == gtime[..14]
  {
    if |gtime| >= 15 && gtime[14] == 'Z' then
      var g := gtime[..14];
      var r := g[0..4] + "-" + g[4..6] + "-" + g[6..8] + "T" + g[8..10] + ":" + g[10..12] + ":" + g[12..14];
      assert r[0..4] == g[0..4] && r[5..7] == g[4..6] && r[8..10] == g[6..8];
      assert r[11..13] == g[8..10] && r[14..16] == g[10..12] && r[17..19] == g[12..14];
      assert g == g[0..4] + g[4..6] + g[6..8] + g[8..10] + g[10..12] + g[12..14];
      Some(r)
    else None
  }

  /** Digits from position `i`: those of the field up to the separator at `j`, then the digits after it. */
  lemma DigitsSkip(e: string, i: nat, j: nat)
    requires i <= j < |e| && AllDigits(e[i..j]) && !IsDigit(e[j])
    ensures Digits(e[i..]) == e[i..j] + Digits(e[j + 1..])
  {
    assert e[i..] == e[i..j] + [e[j]] + e[j + 1..];
    DigitsAroundSeparator(e[i..j], e[j], e[j + 1..]);
  }

  /** The fields of an ISO instant are made of digits when their concatenation is. */
  lemma CanonicalIsoFieldDigits(e: string)
    requires IsCanonicalIso(e)
    ensures AllDigits(e[0..4]) && AllDigits(e[5..7]) && AllDigits(e[8..10])
    ensures AllDigits(e[11..13]) && AllDigits(e[14..16]) && AllDigits(e[17..19])
  {
    var f := IsoFields(e);
    assert f[0..4] == e[0..4] && f[4..6] == e[5..7] && f[6..8] == e[8..10];
    assert f[8..10] == e[11..13] && f[10..12] == e[14..16] && f[12..14] == e[17..19];
  }

  /** The digits of a canonical ISO instant are its fields. */
  lemma DigitsOfCanonicalIso(e: string)
    requires IsCanonicalIso(e)
    ensures Digits(e) == IsoFields(e)
  {
    CanonicalIsoFieldDigits(e);
    assert e[17..] == e[17..19];
    DigitsOfDigits(e[17..19]);
    DigitsSkip(e, 14, 16);
    DigitsSkip(e, 11, 13);
    DigitsSkip(e, 8, 10);
    DigitsSkip(e, 5, 7);
    DigitsSkip(e, 0, 4);
    assert e[0..] == e;
    assert Digits(e) == e[0..4] + (e[5..7] + (e[8..10] + (e[11..13] + (e[14..16] + e[17..19]))));
  }

  /** The separators and the fields determine an ISO instant. */
  lemma IsoLayoutDetermines(a: string, b: string)
    requires IsoSeparators(a) && IsoSeparators(b) && IsoFields(a) == IsoFields(b)
    ensures a == b
  {
    var fa, fb := IsoFields(a), IsoFields(b);
    assert a[0..4] == fa[0..4] == fb[0..4] == b[0..4];
    assert a[5..7] == fa[4..6] == fb[4..6] == b[5..7];
    assert a[8..10] == fa[6..8] == fb[6..8] == b[8..10];
    assert a[11..13] == fa[8..10] == fb[8..10] == b[11..13];
    assert a[14..16] == fa[10..12] == fb[10..12] == b[14..16];
    assert a[17..19] == fa[12..14] == fb[12..14] == b[17..19];
    forall k | 0 <= k < 19 ensures a[k] == b[k] {
      if k < 4 { assert a[k] == a[0..4][k]; assert b[k] == b[0..4][k]; }
      else if 5 <= k < 7 { assert a[k] == a[5..7][k - 5]; assert b[k] == b[5..7][k - 5]; }
      else if 8 <= k < 10 { assert a[k] == a[8..10][k - 8]; assert b[k] == b[8..10][k - 8]; }
      else if 11 <= k < 13 { assert a[k] == a[11..13][k - 11]; assert b[k] == b[11..13][k - 11]; }
      else if 14 <= k < 16 { assert a[k] == a[14..16][k - 14]; assert b[k] == b[14..16][k - 14]; }
      else if 17 <= k { assert a[k] == a[17..19][k - 17]; assert b[k] == b[17..19][k - 17]; }
    }
  }

  /** A Generalized Time survives the trip through ISO 8601 and back. */
  lemma GeneralizedTimeRoundTrip(t: string)
    requires IsGeneralizedTime(t)
    ensures GeneralizedTimeToIso8601(t).Some?
    ensures Iso8601ToGeneralizedTime(GeneralizedTimeToIso8601(t).value) == Some(t)
  {
    var iso := GeneralizedTimeToIso8601(t).value;
    DigitsOfCanonicalIso(iso);
    assert Digits(iso) == t[..14];
    assert t == t[..14] + "Z";
  }

  /** A canonical ISO 8601 instant survives the trip through Generalized Time and back. */
  lemma Iso8601RoundTrip(e: string)
    requires IsCanonicalIso(e)
    ensures Iso8601ToGeneralizedTime(e) == Some(IsoFields(e) + "Z")
    ensures GeneralizedTimeToIso8601(IsoFields(e) + "Z") == Some(e)
  {
    DigitsOfCanonicalIso(e);
    var g := IsoFields(e) + "Z";
    assert g[..14] == IsoFields(e);
    IsoLayoutDetermines(GeneralizedTimeToIso8601(g).value, e);
  }

  // ---------------------------------------------------- hashmap_difference

  /** The entries of `m1` whose key is absent from `m2` or bound there to another value, put one by one. */
  function DifferenceSpec<K(==,!new), V(==)>(m1: MyMap<K, V>, m2: MyMap<K, V>): (r: MyMap<K, V>)
    ensures UniqueKeys(r)
    ensures KeySet(r) <= KeySet(m1)
  {
    if |m1| == 0 then []
    else
      var n := |m1| - 1;
      var prev := DifferenceSpec(m1[..n], m2);
      assert KeySet(m1) == KeySet(m1[..n]) + {m1[n].0} by {
        AppendGet(m1[..n], m1[n]);
        assert m1 == m1[..n] + [m1[n]];
      }
      if Get(m2, m1[n].0) != Some(m1[n].1) then Put(prev, m1[n].0, m1[n].1) else prev
  }

  /**
   * `hashmap_difference` keeps exactly the keys of `m1` whose value `m2`
   * does not hold, with the value of `m1`.
   */
  lemma {:induction false} DifferenceLookup<K(!new), V(!new)>(m1: MyMap<K, V>, m2: MyMap<K, V>, k: K)
    requires UniqueKeys(m1)
    ensures Get(DifferenceSpec(m1, m2), k) == if Get(m1, k).Some? && Get(m2, k) != Get(m1, k) then Get(m1, k) else None
  {
    if |m1| > 0 {
      var n := |m1| - 1;
      assert UniqueKeys(m1[..n]);
      DifferenceLookup(m1[..n], m2, k);
      FreshKey(m1, n);
      AppendGet(m1[..n], m1[n]);
      assert m1 == m1[..n] + [m1[n]];
    }
  }

  /**
   * `hashmap_difference`, comparing values by content: the structural
   * equality its tests expect (see the findings of the README).
   */
  method HashmapDifference<K(==,!new), V(==)>(m1: MyMap<K, V>, m2: MyMap<K, V>) returns (r: MyMap<K, V>)
    ensures r == DifferenceSpec(m1, m2)
  {
    r := [];
    var i := 0;
    while i < |m1|
      invariant 0 <= i <= |m1|
      invariant r == DifferenceSpec(m1[..i], m2)
    {
      var (k, v) := m1[i];
      assert m1[..i + 1][..i] == m1[..i];
      if Get(m2, k) != Some(v) {
        r := Put(r, k, v);
      }
      i := i + 1;
    }
    assert m1[..i] == m1;
  }

  /** With unique keys, the key at `i` is not among the keys before it. */
  lemma FreshKey<K(!new), V>(m: MyMap<K, V>, i: nat)
    requires UniqueKeys(m) && i < |m|
    ensures m[i].0 !in KeySet(m[..i])
  {
    KeySetIndex(m[..i], m[i].0);
    assert forall j :: 0 <= j < i ==> m[..i][j].0 == m[j].0 != m[i].0;
  }

  /** Extending a prefix of a map with unique keys by its next entry. */
  lemma PrefixGet<K(!new), V>(m: MyMap<K, V>, i: nat)
    requires UniqueKeys(m) && i < |m|
    ensures KeySet(m[..i + 1]) == KeySet(m[..i]) + {m[i].0}
    ensures m[i].0 !in KeySet(m[..i])
    ensures Get(m[..i + 1], m[i].0) == Some(m[i].1)
    ensures forall k :: k != m[i].0 ==> Get(m[..i + 1], k) == Get(m[..i], k)
  {
    AppendGet(m[..i], m[i]);
    assert m[..i + 1] == m[..i] + [m[i]];
    KeySetIndex(m[..i], m[i].0);
  }

  lemma {:induction false} AppendGet<K(!new), V>(m: MyMap<K, V>, e: (K, V))
    ensures KeySet(m + [e]) == KeySet(m) + {e.0}
    ensures e.0 !in KeySet(m) ==> Get(m + [e], e.0) == Some(e.1)
    ensures forall k :: k != e.0 ==> Get(m + [e], k) == Get(m, k)
  {
    if |m| > 0 {
      assert (m + [e])[1..] == m[1..] + [e];
      AppendGet(m[1..], e);
    }
  }

  /** A JavaScript value as `!==` sees it: primitives by content, objects by identity. */
  datatype JsValue<V> = Primitive(v: V) | Object(id: nat, content: V)

  predicate StrictlyEqual<V(==)>(a: Option<JsValue<V>>, b: Option<JsValue<V>>)
  {
    match (a, b)
    case (None, None) => true
    case (Some(Primitive(x)), Some(Primitive(y))) => x == y
    case (Some(Object(i, _)), Some(Object(j, _))) => i == j
    case _ => false
  }

  /** `hashmap_difference` as written: `m2[k] !== v`, by identity for objects. */
  function HashmapDifferenceAsWritten<K(==,!new), V(==)>(m1: MyMap<K, JsValue<V>>, m2: MyMap<K, JsValue<V>>): (r: MyMap<K, JsValue<V>>)
    ensures forall i :: 0 <= i < |r| ==> r[i] in m1
    ensures forall i :: 0 <= i < |m1| && !StrictlyEqual(Get(m2, m1[i].0), Some(m1[i].1)) ==> m1[i] in r
  {
    if |m1| == 0 then []
    else
      var (k, v) := m1[0];
      var rest := HashmapDifferenceAsWritten(m1[1..], m2);
      if !StrictlyEqual(Get(m2, k), Some(v)) then [(k, v)] + rest else rest
  }

  /** The JSON-decoded options `{}` of two different requests: equal content, different objects. */
  lemma HashmapDifferenceIdentityCounterexample()
    ensures HashmapDifferenceAsWritten([("a", Object(1, NoOptions))], [("a", Object(2, NoOptions))]) == [("a", Object(1, NoOptions))]
    ensures DifferenceSpec([("a", NoOptions)], [("a", NoOptions)]) == []
  {
  }

  /**
   * The entries of `m` as JavaScript objects built one by one (JSON decoding,
   * `urls_to_dns`): entry `i` is the object numbered `base + i`.
   */
  function AsObjects<K, V>(m: MyMap<K, V>, base: nat): (r: MyMap<K, JsValue<V>>)
    ensures |r| == |m| && forall i :: 0 <= i < |m| ==> r[i] == (m[i].0, Object(base + i, m[i].1))
  {
    seq(|m|, i requires 0 <= i < |m| => (m[i].0, Object(base + i, m[i].1)))
  }

  /** What a JavaScript value holds, whatever its identity. */
  function ContentOf<V>(x: JsValue<V>): V
  {
    match x
    case Primitive(v) => v
    case Object(_, c) => c
  }

  function Contents<K, V>(m: MyMap<K, JsValue<V>>): (r: MyMap<K, V>)
    ensures |r| == |m| && forall i :: 0 <= i < |m| ==> r[i] == (m[i].0, ContentOf(m[i].1))
  {
    seq(|m|, i requires 0 <= i < |m| => (m[i].0, ContentOf(m[i].1)))
  }

  lemma ContentsAsObjects<K, V>(m: MyMap<K, V>, base: nat)
    ensures Contents(AsObjects(m, base)) == m
  {
  }

  /**
   * `hashmap_difference` as written keeps every entry of `m1` when `m2`
   * holds only other objects: equal contents never make two objects `===`.
   */
  lemma {:induction false} AsWrittenKeepsOtherObjects<K(!new), V>(m1: MyMap<K, V>, base: nat, m2: MyMap<K, JsValue<V>>)
    requires forall i :: 0 <= i < |m2| ==> m2[i].1.Object? && (m2[i].1.id < base || base + |m1| <= m2[i].1.id)
    ensures HashmapDifferenceAsWritten(AsObjects(m1, base), m2) == AsObjects(m1, base)
  {
    if |m1| > 0 {
      var objs := AsObjects(m1, base);
      assert objs[1..] == AsObjects(m1[1..], base + 1);
      AsWrittenKeepsOtherObjects(m1[1..], base + 1, m2);
      var got := Get(m2, m1[0].0);
      if got.Some? {
        var i :| 0 <= i < |m2| && m2[i] == (m1[0].0, got.value);
        assert got.value.id != base;
      }
      assert !StrictlyEqual(got, Some(objs[0].1));
      assert objs == [objs[0]] + objs[1..];
    }
  }
}
