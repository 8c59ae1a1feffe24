// LDAP search filters in their string representation (section 3 of RFC 4515),
// as built by server/ldap_filter.ts, together with a small filter syntax tree
// that gives the strings a meaning over directory entries.
module LdapFilter {
  import opened Wrappers
  import opened JsString
  import opened MyTypes

  // ------------------------------------------------------------ escaping

  /** The characters section 3 of RFC 4515 requires to be escaped in an assertion value. */
  predicate IsFilterSpecial(c: char)
  {
    c == '*' || c == '(' || c == ')' || c == '\\' || c == '\0'
  }

  function EscapeChar(c: char): (r: string)
    ensures IsFilterSpecial(c) ==> |r| == 3 && r[0] == '\\'
    ensures !IsFilterSpecial(c) ==> r == [c]
  {
    match c
    case '*' => "\\2a"
    case '(' => "\\28"
    case ')' => "\\29"
    case '\\' => "\\5c"
    case '\0' => "\\00"
    case _ => [c]
  }

  /** `escape` of an assertion value: each special character becomes `\` and two hex digits. */
  function Escape(s: string): (r: string)
    ensures forall i :: 0 <= i < |r| ==> r[i] != '*' && r[i] != '(' && r[i] != ')' && r[i] != '\0'
  {
    if |s| == 0 then "" else EscapeChar(s[0]) + Escape(s[1..])
  }

  /** Reads back an escaped assertion value. */
  function Unescape(s: string): string
  {
    if |s| == 0 then ""
    else if |s| >= 3 && s[0] == '\\' && s[1..3] == "2a" then "*" + Unescape(s[3..])
    else if |s| >= 3 && s[0] == '\\' && s[1..3] == "28" then "(" + Unescape(s[3..])
    else if |s| >= 3 && s[0] == '\\' && s[1..3] == "29" then ")" + Unescape(s[3..])
    else if |s| >= 3 && s[0] == '\\' && s[1..3] == "5c" then "\\" + Unescape(s[3..])
    else if |s| >= 3 && s[0] == '\\' && s[1..3] == "00" then "\0" + Unescape(s[3..])
    else [s[0]] + Unescape(s[1..])
  }

  /** Escaping loses nothing. */
  lemma {:induction false} EscapeRoundTrip(s: string)
    ensures Unescape(Escape(s)) == s
  {
    if |s| > 0 {
      var e := Escape(s);
      var head := EscapeChar(s[0]);
      assert e == head + Escape(s[1..]);
      EscapeRoundTrip(s[1..]);
      if IsFilterSpecial(s[0]) {
        assert e[1..3] == head[1..3];
        assert e[3..] == Escape(s[1..]);
      } else {
        assert e[1..] == Escape(s[1..]);
      }
    }
  }

  // ------------------------------------------------------------ builders

  const AndEmpty := "(&)"
  const OrEmpty := "(|)"

  /** `filters.filter(e => e !== x)` */
  function Without(l: seq<string>, x: string): (r: seq<string>)
    ensures |r| <= |l|
    ensures forall y :: y in r <==> y in l && y != x
  {
    if |l| == 0 then []
    else if l[0] == x then Without(l[1..], x)
    else assert l == [l[0]] + l[1..]; [l[0]] + Without(l[1..], x)
  }

  /** `and`: conjunction, dropping `(&)` operands and absorbed by `(|)`. */
  function And(filters: seq<string>): (r: string)
    ensures |Without(filters, AndEmpty)| == 1 ==> r == Without(filters, AndEmpty)[0]
    ensures |Without(filters, AndEmpty)| != 1 && OrEmpty in filters ==> r == OrEmpty
    ensures |Without(filters, AndEmpty)| != 1 && OrEmpty !in filters ==> r == "(&" + Concat(Without(filters, AndEmpty)) + ")"
  {
    var l := Without(filters, AndEmpty);
    if |l| == 1 then l[0] else if OrEmpty in l then OrEmpty else "(&" + Concat(l) + ")"
  }

  /** `or`: disjunction, dropping `(|)` operands and absorbed by `(&)`. */
  function Or(filters: seq<string>): (r: string)
    ensures |Without(filters, OrEmpty)| == 1 ==> r == Without(filters, OrEmpty)[0]
    ensures |Without(filters, OrEmpty)| != 1 && AndEmpty in filters ==> r == AndEmpty
    ensures |Without(filters, OrEmpty)| != 1 && AndEmpty !in filters ==> r == "(|" + Concat(Without(filters, OrEmpty)) + ")"
  {
    var l := Without(filters, OrEmpty);
    if |l| == 1 then l[0] else if AndEmpty in l then AndEmpty else "(|" + Concat(l) + ")"
  }

  /** `eq` */
  function Eq(attr: string, val: string): string
  {
    "(" + attr + "=" + Escape(val) + ")"
  }

  /** `true_` */
  const TrueFilter := "(objectClass=*)"

  /** `presence` */
  function Presence(attr: string): string
  {
    "(" + attr + "=*)"
  }

  /** `not` */
  function Not(filter: string): string
  {
    "(!" + filter + ")"
  }

  /** `and2` */
  function And2(filter1: string, filter2: string): string
  {
    And([filter1, filter2])
  }

  /** `and2_if_some`: an absent or empty second filter leaves the first unchanged. */
  function And2IfSome(filter1: string, filter2: Option<string>): (r: string)
    ensures filter2.None? || filter2.value == "" ==> r == filter1
  {
    if filter2.Some? && filter2.value != "" then And([filter1, filter2.value]) else filter1
  }

  /** `rdn` */
  function Rdn(rdn: string): string
  {
    "(" + rdn + ")"
  }

  /** `member` */
  function MemberFilter(dn: Dn): string
  {
    Eq("member", dn)
  }

  /** `sgroup_self_and_children` */
  function SgroupSelfAndChildren(id: string): string
  {
    "(cn=" + Escape(id) + "*)"
  }

  /** `sgroup_children` */
  function SgroupChildren(id: string): string
  {
    if id == "" then "(cn=*)"
    else "(&(cn=" + Escape(id) + "*)(!(cn=" + Escape(id) + ")))"
  }

  // ------------------------------------------------------------ meaning

  /** The filters the builders produce, as a syntax tree. */
  datatype Filter =
    | FAnd(subs: seq<Filter>)
    | FOr(subs: seq<Filter>)
    | FNot(sub: Filter)
    | FEq(attr: string, val: string)
    | FPresent(attr: string)
    | FPrefix(attr: string, initial: string)

  /** The string representation of section 3 of RFC 4515. */
  function Render(f: Filter): (r: string)
    ensures |r| >= 3 && r[0] == '('
  {
    match f
    case FAnd(subs) => "(&" + RenderAll(subs) + ")"
    case FOr(subs) => "(|" + RenderAll(subs) + ")"
    case FNot(sub) => "(!" + Render(sub) + ")"
    case FEq(attr, val) => "(" + attr + "=" + Escape(val) + ")"
    case FPresent(attr) => "(" + attr + "=*)"
    case FPrefix(attr, initial) => "(" + attr + "=" + Escape(initial) + "*)"
  }

  function RenderAll(fs: seq<Filter>): (r: string)
    ensures |fs| == 0 <==> r == ""
  {
    if |fs| == 0 then "" else Render(fs[0]) + RenderAll(fs[1..])
  }

  function RenderEach(fs: seq<Filter>): (r: seq<string>)
    ensures |r| == |fs| && forall i :: 0 <= i < |fs| ==> r[i] == Render(fs[i])
  {
    if |fs| == 0 then [] else [Render(fs[0])] + RenderEach(fs[1..])
  }

  /** Rendering a list of filters is concatenating their renderings. */
  lemma {:induction false} RenderAllConcat(fs: seq<Filter>)
    ensures RenderAll(fs) == Concat(RenderEach(fs))
  {
    if |fs| > 0 {
      RenderAllConcat(fs[1..]);
      assert RenderEach(fs)[1..] == RenderEach(fs[1..]);
    }
  }

  /** Whether entry `e` satisfies filter `f` (equality on exact values). */
  predicate Matches(f: Filter, e: Entry)
  {
    match f
    case FAnd(subs) => forall g :: g in subs ==> Matches(g, e)
    case FOr(subs) => exists g :: g in subs && Matches(g, e)
    case FNot(sub) => !Matches(sub, e)
    case FEq(attr, val) => attr in e && val in e[attr]
    case FPresent(attr) => attr in e && |e[attr]| > 0
    case FPrefix(attr, initial) => attr in e && exists v :: v in e[attr] && initial <= v
  }

  /** Only the empty conjunction renders as `(&)`, only the empty disjunction as `(|)`. */
  lemma RenderEmptyConnectives(f: Filter)
    ensures Render(f) == AndEmpty <==> f == FAnd([])
    ensures Render(f) == OrEmpty <==> f == FOr([])
  {
    var r := Render(f);
    match f
    case FAnd(subs) =>
      assert r[1] == '&';
      if subs != [] { assert |r| > 3; }
    case FOr(subs) =>
      assert r[1] == '|';
      if subs != [] { assert |r| > 3; }
    case FNot(sub) =>
      assert |r| > 3;
    case FEq(attr, val) =>
      assert |r| > 3 || r[1] == '=';
    case FPresent(attr) =>
      assert |r| > 3;
    case FPrefix(attr, initial) =>
      assert |r| > 3;
  }

  /** `and` on syntax trees, mirroring the string simplification. */
  function AndF(fs: seq<Filter>): Filter
  {
    var l := WithoutF(fs, FAnd([]));
    if |l| == 1 then l[0] else if FOr([]) in l then FOr([]) else FAnd(l)
  }

  /** `or` on syntax trees, mirroring the string simplification. */
  function OrF(fs: seq<Filter>): Filter
  {
    var l := WithoutF(fs, FOr([]));
    if |l| == 1 then l[0] else if FAnd([]) in l then FAnd([]) else FOr(l)
  }

  function WithoutF(l: seq<Filter>, x: Filter): (r: seq<Filter>)
    ensures forall y :: y in r <==> y in l && y != x
  {
    if |l| == 0 then []
    else if l[0] == x then WithoutF(l[1..], x)
    else assert l == [l[0]] + l[1..]; [l[0]] + WithoutF(l[1..], x)
  }

  /** Dropping an empty connective from a list of trees drops its rendering from the rendered list. */
  lemma {:induction false} RenderWithout(fs: seq<Filter>, x: Filter)
    requires x == FAnd([]) || x == FOr([])
    ensures RenderEach(WithoutF(fs, x)) == Without(RenderEach(fs), Render(x))
    ensures RenderAll(WithoutF(fs, x)) == Concat(Without(RenderEach(fs), Render(x)))
  {
    RenderEachWithout(fs, x);
    RenderAllConcat(WithoutF(fs, x));
  }

  lemma {:induction false} RenderEachWithout(fs: seq<Filter>, x: Filter)
    requires x == FAnd([]) || x == FOr([])
    ensures RenderEach(WithoutF(fs, x)) == Without(RenderEach(fs), Render(x))
  {
    if |fs| > 0 {
      var rs := RenderEach(fs);
      assert rs[0] == Render(fs[0]) && rs[1..] == RenderEach(fs[1..]);
      RenderEachWithout(fs[1..], x);
      if fs[0] != x {
        RenderEmptyConnectives(fs[0]);
        assert WithoutF(fs, x) == [fs[0]] + WithoutF(fs[1..], x);
        assert RenderEach(WithoutF(fs, x))[1..] == RenderEach(WithoutF(fs[1..], x));
      }
    }
  }

  /** An empty connective is among the trees exactly when its rendering is among their renderings. */
  lemma {:induction false} EmptyConnectivesIn(l: seq<Filter>)
    ensures FAnd([]) in l <==> AndEmpty in RenderEach(l)
    ensures FOr([]) in l <==> OrEmpty in RenderEach(l)
  {
    if |l| > 0 {
      EmptyConnectivesIn(l[1..]);
      RenderEmptyConnectives(l[0]);
      assert l == [l[0]] + l[1..];
      assert RenderEach(l) == [Render(l[0])] + RenderEach(l[1..]);
    }
  }

  /** The string `and` renders the tree `and`: the simplification is the same. */
  lemma AndRendersAndF(fs: seq<Filter>)
    ensures Render(AndF(fs)) == And(RenderEach(fs))
  {
    RenderEmptyConnectives(FAnd([]));
    RenderWithout(fs, FAnd([]));
    EmptyConnectivesIn(WithoutF(fs, FAnd([])));
  }

  /** The string `or` renders the tree `or`. */
  lemma OrRendersOrF(fs: seq<Filter>)
    ensures Render(OrF(fs)) == Or(RenderEach(fs))
  {
    RenderEmptyConnectives(FOr([]));
    RenderWithout(fs, FOr([]));
    EmptyConnectivesIn(WithoutF(fs, FOr([])));
  }

  /** The simplified conjunction holds exactly when every operand holds. */
  lemma AndFMeaning(fs: seq<Filter>, e: Entry)
    ensures Matches(AndF(fs), e) <==> forall f :: f in fs ==> Matches(f, e)
  {
    var l := WithoutF(fs, FAnd([]));
    assert forall f :: f in fs ==> f in l || f == FAnd([]);
    if FOr([]) in l && |l| != 1 {
      assert FOr([]) in fs && !Matches(FOr([]), e);
    }
  }

  /** The simplified disjunction holds exactly when some operand holds. */
  lemma OrFMeaning(fs: seq<Filter>, e: Entry)
    ensures Matches(OrF(fs), e) <==> exists f :: f in fs && Matches(f, e)
  {
    var l := WithoutF(fs, FOr([]));
    assert forall f :: f in fs ==> f in l || f == FOr([]);
    if FAnd([]) in l && |l| != 1 {
      assert FAnd([]) in fs && Matches(FAnd([]), e);
    }
  }

  /** `sgroup_children` as a tree. */
  function SgroupChildrenF(id: string): Filter
  {
    if id == "" then FPresent("cn") else FAnd([FPrefix("cn", id), FNot(FEq("cn", id))])
  }

  lemma ChildrenFilterShape(esc: string)
    ensures "(&" + (("(cn=" + esc + "*)") + ("(!(cn=" + esc + "))")) + ")" == "(&(cn=" + esc + "*)(!(cn=" + esc + ")))"
  {
  }

  /** `sgroup_children` is the rendering of its tree. */
  lemma SgroupChildrenRenders(id: string)
    ensures Render(SgroupChildrenF(id)) == SgroupChildren(id)
  {
    if id != "" {
      var p := FPrefix("cn", id);
      var n := FNot(FEq("cn", id));
      var esc := Escape(id);
      assert RenderAll([n]) == Render(n);
      assert RenderAll([p, n]) == Render(p) + Render(n);
      assert Render(p) == "(cn=" + esc + "*)";
      assert Render(n) == "(!(cn=" + esc + "))";
      calc {
        Render(SgroupChildrenF(id));
        "(&" + (("(cn=" + esc + "*)") + ("(!(cn=" + esc + "))")) + ")";
        { ChildrenFilterShape(esc); }
        "(&(cn=" + esc + "*)(!(cn=" + esc + ")))";
      }
    }
  }

  /**
   * `sgroup_children` selects the entries with a `cn` starting with `id` and
   * none equal to it (any `cn` for the root `""`).
   */
  lemma SgroupChildrenMeaning(id: string, e: Entry)
    ensures Matches(SgroupChildrenF(id), e) <==>
              "cn" in e && (exists v :: v in e["cn"] && id <= v) && (id != "" ==> id !in e["cn"])
  {
    if id != "" {
      var p := FPrefix("cn", id);
      var n := FNot(FEq("cn", id));
      assert SgroupChildrenF(id) == FAnd([p, n]);
      assert Matches(FAnd([p, n]), e) <==> Matches(p, e) && Matches(n, e) by {
        assert forall g :: g in [p, n] <==> g == p || g == n;
      }
      assert Matches(p, e) <==> "cn" in e && exists v :: v in e["cn"] && id <= v;
      assert Matches(n, e) <==> !("cn" in e && id in e["cn"]);
    } else {
      if "cn" in e && |e["cn"]| > 0 {
        assert e["cn"][0] in e["cn"] && "" <= e["cn"][0];
      }
    }
  }

  /** `sgroup_self_and_children` selects the entries with a `cn` starting with `id`. */
  lemma SgroupSelfAndChildrenMeaning(id: string, e: Entry)
    ensures Render(FPrefix("cn", id)) == SgroupSelfAndChildren(id)
    ensures Matches(FPrefix("cn", id), e) <==> "cn" in e && exists v :: v in e["cn"] && id <= v
  {
  }
}
