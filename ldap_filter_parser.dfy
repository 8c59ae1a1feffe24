// The filter editor's parser and pretty-printers (ui/src/ldap_filter_parser.ts).
// It reads the `(attr=value)`, `(&...)`, `(|...)` and `(!...)` forms of
// section 3 of RFC 4515, without escapes, and tolerates what a user is still
// typing: a missing `)` marks the node `unclosed` instead of failing, and the
// text after the first complete filter is handed back as `unparsed`. The
// white space between sub-filters is kept so that the text can be printed
// back as written, compacted, indented or coloured.
module LdapFilterParser {
  import opened Wrappers
  import opened JsString

  /**
   * `ast`: a composite (`&`, `|` or `!`) over its sub-filters, or an
   * `attr=value` item. The empty string stands for absent spaces.
   */
  datatype Ast =
    | Composite(op: char, before_sub_spaces: string, sub_filters: seq<Ast>, post_spaces: string, unclosed: bool)
    | Item(attr: string, value: string, post_spaces: string, unclosed: bool)

  /** The characters `skip_spaces` skips. */
  predicate IsSpace(c: char)
  {
    c == ' ' || c == '\n' || c == '\t'
  }

  predicate IsOp(c: char)
  {
    c == '|' || c == '&' || c == '!'
  }

  predicate AllSpaces(t: string)
  {
    forall i :: 0 <= i < |t| ==> IsSpace(t[i])
  }

  /** Text `[^=()]*` accepts: an attribute. */
  predicate ValidAttr(t: string)
  {
    forall i :: 0 <= i < |t| ==> t[i] != '=' && t[i] != '(' && t[i] != ')'
  }

  /** Text `[^()]*` accepts: a value. */
  predicate ValidValue(t: string)
  {
    forall i :: 0 <= i < |t| ==> t[i] != '(' && t[i] != ')'
  }

  // ------------------------------------------------------------ scanning

  /** Where the run of spaces starting at `o` ends. */
  function SpacesEnd(s: string, o: nat): (e: nat)
    requires o <= |s|
    ensures o <= e <= |s| && AllSpaces(s[o..e])
    ensures e == |s| || !IsSpace(s[e])
    decreases |s| - o
  {
    if o < |s| && IsSpace(s[o]) then
      var e := SpacesEnd(s, o + 1);
      assert forall i :: 0 < i < e - o ==> s[o..e][i] == s[o + 1..e][i - 1];
      e
    else o
  }

  /** Spaces are skipped up to the first other character, whatever follows it. */
  lemma {:induction false} SpacesEndOf(s: string, o: nat, e: nat)
    requires o <= e <= |s| && (forall i :: o <= i < e ==> IsSpace(s[i])) && (e == |s| || !IsSpace(s[e]))
    ensures SpacesEnd(s, o) == e
    decreases e - o
  {
    if o < e {
      SpacesEndOf(s, o + 1, e);
    }
  }

  /** `skip_spaces`: the spaces from `o` and the offset after them. */
  method SkipSpaces(s: string, o: nat) returns (spaces: string, e: nat)
    requires o <= |s|
    ensures e == SpacesEnd(s, o) && spaces == s[o..e]
  {
    e := o;
    while e < |s| && IsSpace(s[e])
      invariant o <= e <= |s|
      invariant SpacesEnd(s, e) == SpacesEnd(s, o)
    {
      e := e + 1;
    }
    spaces := s[o..e];
  }

  /** How far a run of characters other than `=`, `(`, `)` (or, without `=`, of `(`, `)`) reaches from `o`. */
  function RunEnd(s: string, o: nat, stop_at_eq: bool): (e: nat)
    requires o <= |s|
    ensures o <= e <= |s|
    ensures stop_at_eq ==> ValidAttr(s[o..e])
    ensures ValidValue(s[o..e])
    ensures e == |s| || s[e] == '(' || s[e] == ')' || (stop_at_eq && s[e] == '=')
    decreases |s| - o
  {
    if o < |s| && s[o] != '(' && s[o] != ')' && !(stop_at_eq && s[o] == '=') then
      var e := RunEnd(s, o + 1, stop_at_eq);
      assert forall i :: 0 < i < e - o ==> s[o..e][i] == s[o + 1..e][i - 1];
      e
    else o
  }

  lemma {:induction false} RunEndOf(s: string, o: nat, stop_at_eq: bool, e: nat)
    requires o <= e <= |s|
    requires stop_at_eq ==> ValidAttr(s[o..e])
    requires ValidValue(s[o..e])
    requires e == |s| || s[e] == '(' || s[e] == ')' || (stop_at_eq && s[e] == '=')
    ensures RunEnd(s, o, stop_at_eq) == e
    decreases e - o
  {
    if o < e {
      assert s[o..e][0] == s[o];
      assert s[o + 1..e] == s[o..e][1..];
      RunEndOf(s, o + 1, stop_at_eq, e);
    }
  }

  /** `/^([^=()]*)=([^()]*)/` at `o`: the attribute, the value and the offset after them. */
  function MatchItem(s: string, o: nat): (r: Option<(string, string, nat)>)
    requires o <= |s|
    ensures r.Some? ==> o < r.value.2 <= |s| && s[o..r.value.2] == r.value.0 + "=" + r.value.1
    ensures r.Some? ==> ValidAttr(r.value.0) && ValidValue(r.value.1)
    ensures r.Some? ==> r.value.2 == |s| || s[r.value.2] == '(' || s[r.value.2] == ')'
  {
    var a := RunEnd(s, o, true);
    if a < |s| && s[a] == '=' then
      var e := RunEnd(s, a + 1, false);
      assert s[o..e] == s[o..a] + "=" + s[a + 1..e];
      Some((s[o..a], s[a + 1..e], e))
    else None
  }

  // ------------------------------------------------------------- parsing

  /**
   * `rec(offset)`: the filter starting at `o` and the offset after it; none
   * when `o` holds no `(`, or when an item does not start with `attr=`.
   */
  function RecF(s: string, o: nat): (r: Option<(Ast, nat)>)
    requires o <= |s|
    ensures r.Some? ==> o < r.value.1 <= |s|
    decreases |s| - o, 0
  {
    if o == |s| || s[o] != '(' then None
    else if o + 1 < |s| && IsOp(s[o + 1]) then
      var b := SpacesEnd(s, o + 2);
      Some(LoopF(s, s[o + 1], s[o + 2..b], [], b))
    else
      match MatchItem(s, o + 1)
      case None => None
      case Some((attr, value, e)) =>
        if e < |s| && s[e] == ')' then Some((Item(attr, value, "", false), e + 1))
        else Some((Item(attr, value, "", true), e))
  }

  /**
   * The `while` loop of a composite: sub-filters are read from `o`, each
   * followed by its spaces, until none starts there or one is unclosed.
   */
  function LoopF(s: string, op: char, before: string, subs: seq<Ast>, o: nat): (r: (Ast, nat))
    requires o <= |s|
    ensures o <= r.1 <= |s|
    decreases |s| - o, 1
  {
    match RecF(s, o)
    case None =>
      if o < |s| && s[o] == ')' then (Composite(op, before, subs, "", false), o + 1)
      else (Composite(op, before, subs, "", true), o)
    case Some((sub, e)) =>
      var e' := SpacesEnd(s, e);
      var sub' := sub.(post_spaces := s[e..e']);
      if sub.unclosed then (Composite(op, before, subs + [sub'], "", true), e')
      else LoopF(s, op, before, subs + [sub'], e')
  }

  /** `rec(offset)`, reading the sub-filters of a composite in a loop. */
  method Rec(s: string, offset: nat) returns (r: Option<(Ast, nat)>)
    requires offset <= |s|
    ensures r == RecF(s, offset)
    decreases |s| - offset
  {
    if offset == |s| || s[offset] != '(' {
      return None;
    }
    var o := offset + 1;
    if o < |s| && IsOp(s[o]) {
      var op := s[o];
      var subs: seq<Ast> := [];
      var before;
      before, o := SkipSpaces(s, o + 1);
      while true
        invariant offset + 2 <= o <= |s|
        invariant RecF(s, offset) == Some(LoopF(s, op, before, subs, o))
        decreases |s| - o
      {
        var sub := Rec(s, o);
        if sub.None? {
          break;
        }
        var post, e := SkipSpaces(s, sub.value.1);
        var ast := sub.value.0.(post_spaces := post);
        subs := subs + [ast];
        if ast.unclosed {
          return Some((Composite(op, before, subs, "", true), e));
        }
        o := e;
      }
      if o < |s| && s[o] == ')' {
        return Some((Composite(op, before, subs, "", false), o + 1));
      }
      return Some((Composite(op, before, subs, "", true), o));
    }
    var m := MatchItem(s, o);
    if m.None? {
      return None;
    }
    var (attr, value, e) := m.value;
    if e < |s| && s[e] == ')' {
      return Some((Item(attr, value, "", false), e + 1));
    }
    return Some((Item(attr, value, "", true), e));
  }

  /** The result of `parse`: the filter read, if any, and the text after it. */
  datatype Parsed = Parsed(ast: Option<Ast>, unparsed: string)

  function ParseF(s: string): Parsed
  {
    match RecF(s, 0)
    case None => Parsed(None, s)
    case Some((a, e)) => Parsed(Some(a), s[e..])
  }

  /** `parse` */
  method Parse(s: string) returns (r: Parsed)
    ensures r == ParseF(s)
  {
    var res := Rec(s, 0);
    if res.None? {
      return Parsed(None, s);
    }
    return Parsed(Some(res.value.0), s[res.value.1..]);
  }

  // ------------------------------------------------------------ format_filter

  /** `spaces_option` */
  datatype SpacesOption = KeepSpaces | Indent(indent: string) | RemoveSpaces

  /** The closing parenthesis and, when spaces are kept, the spaces after it. */
  function Close(a: Ast, spaces: SpacesOption): string
  {
    if a.unclosed then "" else ")" + (if spaces.KeepSpaces? then a.post_spaces else "")
  }

  /**
   * `rec` of `format_filter`: the lines of one filter. With `indent`, a
   * composite whose sub-filters take more than one line, or one line of more
   * than 60 characters, is opened, indented and closed on lines of its own.
   */
  function FormatLines(a: Ast, spaces: SpacesOption): (r: seq<string>)
    ensures |r| >= 1 && |r[0]| > 0 && r[0][0] == '('
    ensures !spaces.Indent? ==> |r| == 1
    decreases a
  {
    match a
    case Item(attr, value, _, _) => ["(" + attr + "=" + value + Close(a, spaces)]
    case Composite(op, before, subs, _, _) =>
      var lines := SubLines(subs, spaces);
      if spaces.Indent? && (|lines| > 1 || (|lines| == 1 && |lines[0]| > 60)) then
        ["(" + [op]] + Indented(lines, spaces.indent) + [Close(a, spaces)]
      else
        ["(" + [op] + (if spaces.KeepSpaces? then before else "") + Concat(lines) + Close(a, spaces)]
  }

  /** `sub_filters.flatMap(rec)` */
  function SubLines(subs: seq<Ast>, spaces: SpacesOption): (r: seq<string>)
    ensures !spaces.Indent? ==> |r| == |subs|
    decreases subs
  {
    if |subs| == 0 then [] else FormatLines(subs[0], spaces) + SubLines(subs[1..], spaces)
  }

  /** `lines.map(line => indent + line)` */
  function Indented(lines: seq<string>, indent: string): (r: seq<string>)
    ensures |r| == |lines|
  {
    if |lines| == 0 then [] else [indent + lines[0]] + Indented(lines[1..], indent)
  }

  /** `format_filter` */
  function FormatFilter(a: Ast, spaces: SpacesOption): string
  {
    Join(FormatLines(a, spaces), "\n")
  }

  /** The one line of a filter printed without indentation. */
  function Line(a: Ast, spaces: SpacesOption): string
    requires !spaces.Indent?
  {
    FormatLines(a, spaces)[0]
  }

  lemma {:induction false} SubLinesAppend(subs: seq<Ast>, x: Ast, spaces: SpacesOption)
    ensures SubLines(subs + [x], spaces) == SubLines(subs, spaces) + FormatLines(x, spaces)
  {
    if |subs| > 0 {
      assert (subs + [x])[1..] == subs[1..] + [x];
      SubLinesAppend(subs[1..], x, spaces);
    } else {
      assert [x][1..] == [];
    }
  }

  lemma {:induction false} ConcatAppend(a: seq<string>, b: seq<string>)
    ensures Concat(a + b) == Concat(a) + Concat(b)
  {
    if |a| > 0 {
      assert (a + b)[1..] == a[1..] + b;
      ConcatAppend(a[1..], b);
    } else {
      assert a + b == b;
    }
  }

  // ------------------------------------------------------------- parse then print

  /** Setting the spaces after a closed filter appends them to its line. */
  lemma WithPostSpaces(a: Ast, p: string)
    requires a.post_spaces == ""
    ensures Line(a.(post_spaces := p), KeepSpaces) == Line(a, KeepSpaces) + (if a.unclosed then "" else p)
  {
  }

  /** No spaces anywhere: the spaces `parse` keeps are all empty. */
  predicate Unspaced(a: Ast)
    decreases a
  {
    a.post_spaces == "" &&
    (a.Composite? ==> a.before_sub_spaces == "" && forall i :: 0 <= i < |a.sub_filters| ==> Unspaced(a.sub_filters[i]))
  }

  predicate NoSpaceFrom(s: string, o: nat)
  {
    forall i :: o <= i < |s| ==> !IsSpace(s[i])
  }

  /**
   * What `rec` reads is printed back verbatim with `keep_spaces`; an
   * unclosed filter stops before a character that is not a space, and from
   * text without spaces it keeps no spaces.
   */
  lemma {:induction false} RecText(s: string, o: nat)
    requires o <= |s| && RecF(s, o).Some?
    ensures var (a, e) := RecF(s, o).value;
            && Line(a, KeepSpaces) == s[o..e] && a.post_spaces == ""
            && (a.unclosed ==> e == |s| || !IsSpace(s[e]))
            && (NoSpaceFrom(s, o) ==> Unspaced(a))
    decreases |s| - o, 0
  {
    if o + 1 < |s| && IsOp(s[o + 1]) {
      var b := SpacesEnd(s, o + 2);
      OpenText(s, o, b);
      if NoSpaceFrom(s, o) {
        SpacesEndOf(s, o + 2, o + 2);
      }
      LoopText(s, o, s[o + 1], s[o + 2..b], [], b);
    } else {
      ItemText(s, o);
    }
  }

  lemma OpenText(s: string, o: nat, b: nat)
    requires o + 2 <= b <= |s| && s[o] == '('
    ensures "(" + [s[o + 1]] + s[o + 2..b] + Concat(SubLines([], KeepSpaces)) == s[o..b]
  {
    assert s[o..b] == [s[o]] + [s[o + 1]] + s[o + 2..b];
    assert Concat(SubLines([], KeepSpaces)) == "";
  }

  lemma ItemText(s: string, o: nat)
    requires o < |s| && s[o] == '(' && !(o + 1 < |s| && IsOp(s[o + 1]))
    requires RecF(s, o).Some?
    ensures var (a, e) := RecF(s, o).value;
            && Line(a, KeepSpaces) == s[o..e] && a.post_spaces == ""
            && (a.unclosed ==> e == |s| || !IsSpace(s[e]))
            && Unspaced(a)
  {
    var (attr, value, e) := MatchItem(s, o + 1).value;
    var closed := e < |s| && s[e] == ')';
    ItemLine(attr, value, !closed);
    var e' := if closed then e + 1 else e;
    ParenText(s, o, e, e', closed);
  }

  lemma ItemLine(attr: string, value: string, unclosed: bool)
    ensures Line(Item(attr, value, "", unclosed), KeepSpaces) == "(" + (attr + "=" + value) + (if unclosed then "" else ")")
  {
    assert ")" + "" == ")";
  }

  /** The text from `(` at `o`, through `e`, and a `)` at `e` when `closed`. */
  lemma ParenText(s: string, o: nat, e: nat, e': nat, closed: bool)
    requires o < e <= |s| && s[o] == '('
    requires e' == (if closed then e + 1 else e) && e' <= |s|
    requires closed ==> s[e] == ')'
    ensures s[o..e'] == "(" + s[o + 1..e] + (if closed then ")" else "")
  {
    SliceJoin(s, o, o + 1, e);
    assert s[o..o + 1] == "(";
    if closed {
      SliceJoin(s, o, e, e + 1);
      assert s[e..e + 1] == ")";
    }
  }

  lemma {:induction false} LoopText(s: string, o0: nat, op: char, before: string, subs: seq<Ast>, o: nat)
    requires o0 < o <= |s|
    requires "(" + [op] + before + Concat(SubLines(subs, KeepSpaces)) == s[o0..o]
    requires o == |s| || !IsSpace(s[o])
    requires NoSpaceFrom(s, o0) ==> before == "" && forall i :: 0 <= i < |subs| ==> Unspaced(subs[i])
    ensures var (a, e) := LoopF(s, op, before, subs, o);
            && Line(a, KeepSpaces) == s[o0..e] && a.post_spaces == ""
            && (a.unclosed ==> e == |s| || !IsSpace(s[e]))
            && (NoSpaceFrom(s, o0) ==> Unspaced(a))
    decreases |s| - o, 1
  {
    match RecF(s, o)
    case None =>
      var closed := o < |s| && s[o] == ')';
      CompositeLine(op, before, subs, !closed);
      if closed {
        SliceJoin(s, o0, o, o + 1);
        assert s[o..o + 1] == ")";
      }
    case Some((sub, e)) =>
      RecText(s, o);
      var e' := SpacesEnd(s, e);
      var sub' := sub.(post_spaces := s[e..e']);
      if sub.unclosed {
        assert e' == e;
      }
      StepText(s, o0, "(" + [op] + before, subs, o, sub, e, e');
      if NoSpaceFrom(s, o0) {
        SpacesEndOf(s, e, e);
        UnspacedAppend(subs, sub');
      }
      if !sub.unclosed {
        LoopText(s, o0, op, before, subs + [sub'], e');
      } else {
        CompositeLine(op, before, subs + [sub'], true);
      }
  }

  lemma UnspacedAppend(subs: seq<Ast>, x: Ast)
    requires Unspaced(x) && forall i :: 0 <= i < |subs| ==> Unspaced(subs[i])
    ensures forall i :: 0 <= i < |subs + [x]| ==> Unspaced((subs + [x])[i])
  {
  }

  lemma CompositeLine(op: char, before: string, subs: seq<Ast>, unclosed: bool)
    ensures Line(Composite(op, before, subs, "", unclosed), KeepSpaces)
            == "(" + [op] + before + Concat(SubLines(subs, KeepSpaces)) + (if unclosed then "" else ")")
  {
    assert ")" + "" == ")";
  }

  /** One more sub-filter read, with the spaces after it: the text read so far grows by both. */
  lemma StepText(s: string, o0: nat, head: string, subs: seq<Ast>, o: nat, sub: Ast, e: nat, e': nat)
    requires o0 <= o <= e <= e' <= |s|
    requires head + Concat(SubLines(subs, KeepSpaces)) == s[o0..o]
    requires Line(sub, KeepSpaces) == s[o..e] && sub.post_spaces == ""
    requires sub.unclosed ==> e' == e
    ensures head + Concat(SubLines(subs + [sub.(post_spaces := s[e..e'])], KeepSpaces)) == s[o0..e']
  {
    var sub' := sub.(post_spaces := s[e..e']);
    WithPostSpaces(sub, s[e..e']);
    SliceJoin(s, o, e, e');
    AppendLine(head, subs, sub');
    SliceJoin(s, o0, o, e');
  }

  lemma SliceJoin(s: string, i: nat, j: nat, k: nat)
    requires i <= j <= k <= |s|
    ensures s[i..j] + s[j..k] == s[i..k]
  {
  }

  lemma AppendLine(head: string, subs: seq<Ast>, x: Ast)
    ensures head + Concat(SubLines(subs + [x], KeepSpaces)) == head + Concat(SubLines(subs, KeepSpaces)) + Line(x, KeepSpaces)
  {
    SubLinesAppend(subs, x, KeepSpaces);
    ConcatAppend(SubLines(subs, KeepSpaces), FormatLines(x, KeepSpaces));
    assert Concat(FormatLines(x, KeepSpaces)) == Line(x, KeepSpaces) by {
      assert FormatLines(x, KeepSpaces)[1..] == [];
    }
  }

  /** `parse` keeps the text it reads, verbatim, and hands back the rest. */
  lemma ParseKeepsText(s: string)
    ensures ParseF(s).ast.None? ==> ParseF(s).unparsed == s
    ensures ParseF(s).ast.Some? ==> FormatFilter(ParseF(s).ast.value, KeepSpaces) + ParseF(s).unparsed == s
    ensures ParseF(s).ast.Some? ==> ParseF(s).ast.value.post_spaces == ""
  {
    if RecF(s, 0).Some? {
      RecText(s, 0);
      var (a, e) := RecF(s, 0).value;
      SliceJoin(s, 0, e, |s|);
      assert s[0..|s|] == s;
      assert FormatLines(a, KeepSpaces)[1..] == [];
    }
  }

  /** Without spaces to keep, `keep_spaces` and `remove_spaces` print the same lines. */
  lemma {:induction false} UnspacedPrintsCompact(a: Ast)
    requires Unspaced(a)
    ensures FormatLines(a, RemoveSpaces) == FormatLines(a, KeepSpaces)
    decreases a, 1
  {
    if a.Composite? {
      UnspacedSubsCompact(a.sub_filters);
    }
  }

  lemma {:induction false} UnspacedSubsCompact(subs: seq<Ast>)
    requires forall i :: 0 <= i < |subs| ==> Unspaced(subs[i])
    ensures SubLines(subs, RemoveSpaces) == SubLines(subs, KeepSpaces)
    decreases subs, 0
  {
    if |subs| > 0 {
      UnspacedPrintsCompact(subs[0]);
      assert forall i :: 0 <= i < |subs[1..]| ==> Unspaced(subs[1..][i]) by {
        assert forall i :: 0 <= i < |subs[1..]| ==> subs[1..][i] == subs[i + 1];
      }
      UnspacedSubsCompact(subs[1..]);
    }
  }

  /**
   * Text without spaces is printed back exactly by `remove_spaces`, unclosed
   * filters included: the printed filter followed by what was not parsed.
   */
  lemma CompactRoundTrip(s: string)
    requires NoSpaceFrom(s, 0) && ParseF(s).ast.Some?
    ensures FormatFilter(ParseF(s).ast.value, RemoveSpaces) + ParseF(s).unparsed == s
  {
    RecText(s, 0);
    ParseKeepsText(s);
    UnspacedPrintsCompact(ParseF(s).ast.value);
  }

  // --------------------------------------------------------- print then parse

  /** The number of nodes: the number of colours `format_filter_html` hands out. */
  function Size(a: Ast): (n: nat)
    ensures n >= 1
    decreases a
  {
    match a
    case Item(_, _, _, _) => 1
    case Composite(_, _, subs, _, _) => 1 + SubsSize(subs)
  }

  function SubsSize(subs: seq<Ast>): nat
    decreases subs
  {
    if |subs| == 0 then 0 else Size(subs[0]) + SubsSize(subs[1..])
  }

  /**
   * A filter as `parse` can produce it, closed: attributes and values in
   * the character ranges of the regular expression, an attribute that does
   * not start like an operator, and only spaces between the sub-filters.
   */
  predicate WellFormed(a: Ast)
    decreases a
  {
    match a
    case Item(attr, value, post, unclosed) =>
      ValidAttr(attr) && (|attr| == 0 || !IsOp(attr[0])) && ValidValue(value) && AllSpaces(post) && !unclosed
    case Composite(op, before, subs, post, unclosed) =>
      IsOp(op) && AllSpaces(before) && AllSpaces(post) && !unclosed &&
      forall i :: 0 <= i < |subs| ==> WellFormed(subs[i])
  }

  /** A well-formed filter printed with `keep_spaces` parses back to itself, whatever follows it. */
  lemma ParseWellFormed(a: Ast, rest: string)
    requires WellFormed(a) && a.post_spaces == ""
    ensures ParseF(FormatFilter(a, KeepSpaces) + rest) == Parsed(Some(a), rest)
  {
    var line := Line(a, KeepSpaces);
    assert FormatLines(a, KeepSpaces)[1..] == [];
    var s := line + rest;
    assert s[0..|line|] == line;
    RecOf(s, 0, a);
  }

  /** `rec` reads a well-formed filter printed at `o`, up to its last `)`. */
  lemma {:induction false} RecOf(s: string, o: nat, a: Ast)
    requires WellFormed(a) && a.post_spaces == ""
    requires o + |Line(a, KeepSpaces)| <= |s| && s[o..o + |Line(a, KeepSpaces)|] == Line(a, KeepSpaces)
    ensures RecF(s, o) == Some((a, o + |Line(a, KeepSpaces)|))
    decreases Size(a), 0
  {
    if a.Item? {
      assert a == Item(a.attr, a.value, "", false);
      ClosedItemLine(a.attr, a.value);
      ItemOf(s, o, a.attr, a.value, o + |Line(a, KeepSpaces)|);
    } else {
      var line := Line(a, KeepSpaces);
      var end := o + |line|;
      CompositeLine(a.op, a.before_sub_spaces, a.sub_filters, false);
      var body := Concat(SubLines(a.sub_filters, KeepSpaces)) + ")";
      var b := o + 2 + |a.before_sub_spaces|;
      OpenOf(s, o, a.op, a.before_sub_spaces, body, end);
      SubsStart(a.sub_filters);
      SpacesEndOf(s, o + 2, b);
      assert s[o + 2..b] == a.before_sub_spaces;
      LoopOf(s, a.op, a.before_sub_spaces, [], a.sub_filters, b, end);
      assert [] + a.sub_filters == a.sub_filters;
      assert a == Composite(a.op, a.before_sub_spaces, a.sub_filters, "", false);
      RecComposite(s, o);
    }
  }

  lemma RecComposite(s: string, o: nat)
    requires o + 1 < |s| && s[o] == '(' && IsOp(s[o + 1])
    ensures var b := SpacesEnd(s, o + 2);
            RecF(s, o) == Some(LoopF(s, s[o + 1], s[o + 2..b], [], b))
  {
  }

  /** The parts of a composite's text: `(`, its operator, its spaces, then the rest. */
  lemma OpenOf(s: string, o: nat, op: char, before: string, body: string, end: nat)
    requires end == o + |"(" + [op] + before + body| && end <= |s|
    requires s[o..end] == "(" + [op] + before + body
    ensures s[o] == '(' && o + 1 < |s| && s[o + 1] == op
    ensures forall i :: o + 2 <= i < o + 2 + |before| ==> s[i] == before[i - o - 2]
    ensures s[o + 2 + |before|..end] == body
  {
    assert forall i :: o <= i < end ==> s[i] == s[o..end][i - o];
  }

  /** The sub-filters' text, closed by `)`, starts with `(` or is that `)`. */
  lemma SubsStart(subs: seq<Ast>)
    ensures var t := Concat(SubLines(subs, KeepSpaces)) + ")";
            |t| > 0 && (t[0] == '(' || (t[0] == ')' && |subs| == 0))
  {
    if |subs| > 0 {
      ConcatAppend(FormatLines(subs[0], KeepSpaces), SubLines(subs[1..], KeepSpaces));
    }
  }

  /** `rec` reads a closed item at `o`, up to its `)`. */
  lemma ItemOf(s: string, o: nat, attr: string, value: string, end: nat)
    requires ValidAttr(attr) && (|attr| == 0 || !IsOp(attr[0])) && ValidValue(value)
    requires o <= end <= |s| && s[o..end] == "(" + attr + "=" + value + ")"
    ensures RecF(s, o) == Some((Item(attr, value, "", false), end))
  {
    var eq := o + 1 + |attr|;
    var e := eq + 1 + |value|;
    ItemSplit(s, o, attr, value, end);
    RunEndOf(s, o + 1, true, eq);
    RunEndOf(s, eq + 1, false, e);
    MatchItemOf(s, o + 1, attr, value, eq, e);
    RecItem(s, o);
  }

  lemma ClosedItemLine(attr: string, value: string)
    ensures Line(Item(attr, value, "", false), KeepSpaces) == "(" + attr + "=" + value + ")"
  {
    assert ")" + "" == ")";
  }

  lemma MatchItemOf(s: string, o: nat, attr: string, value: string, eq: nat, e: nat)
    requires o <= eq < e <= |s| && s[eq] == '='
    requires RunEnd(s, o, true) == eq && RunEnd(s, eq + 1, false) == e
    requires s[o..eq] == attr && s[eq + 1..e] == value
    ensures MatchItem(s, o) == Some((attr, value, e))
  {
  }

  lemma RecItem(s: string, o: nat)
    requires o < |s| && s[o] == '(' && !(o + 1 < |s| && IsOp(s[o + 1]))
    ensures RecF(s, o) == match MatchItem(s, o + 1)
      case None => None
      case Some((attr, value, e)) =>
        if e < |s| && s[e] == ')' then Some((Item(attr, value, "", false), e + 1))
        else Some((Item(attr, value, "", true), e))
  {
  }

  /** The parts of an item's text. */
  lemma ItemSplit(s: string, o: nat, attr: string, value: string, end: nat)
    requires o <= end <= |s| && s[o..end] == "(" + attr + "=" + value + ")"
    requires |attr| == 0 || !IsOp(attr[0])
    ensures var eq := o + 1 + |attr|;
            var e := eq + 1 + |value|;
            && end == e + 1 && s[o] == '(' && !IsOp(s[o + 1])
            && s[o + 1..eq] == attr && s[eq] == '=' && s[eq + 1..e] == value && s[e] == ')'
  {
    var eq := o + 1 + |attr|;
    var e := eq + 1 + |value|;
    CutAt(s, o, end, "(" + attr + "=" + value, ")");
    CutAt(s, o, e, "(" + attr + "=", value);
    CutAt(s, o, eq + 1, "(" + attr, "=");
    CutAt(s, o, eq, "(", attr);
    assert s[o..o + 1][0] == s[o];
    assert s[e..end][0] == s[e];
    assert s[eq..eq + 1][0] == s[eq];
    if |attr| > 0 {
      assert s[o + 1..eq][0] == s[o + 1];
    }
  }

  /** A slice equal to `a + b + c` is cut into `a`, `b` and `c`. */
  lemma CutAt3(s: string, o: nat, end: nat, a: string, b: string, c: string)
    requires o <= end <= |s| && s[o..end] == a + b + c
    ensures o + |a| + |b| <= end
    ensures s[o..o + |a|] == a && s[o + |a|..o + |a| + |b|] == b && s[o + |a| + |b|..end] == c
  {
    CutAt(s, o, end, a + b, c);
    CutAt(s, o, o + |a + b|, a, b);
  }

  /** A slice equal to `a + b` is cut into `a` and `b`. */
  lemma CutAt(s: string, o: nat, end: nat, a: string, b: string)
    requires o <= end <= |s| && s[o..end] == a + b
    ensures o + |a| <= end && s[o..o + |a|] == a && s[o + |a|..end] == b
  {
    assert s[o..o + |a|] == (a + b)[..|a|];
    assert s[o + |a|..end] == (a + b)[|a|..];
  }

  /** The loop reads the remaining sub-filters `todo`, with their spaces, and the closing `)`. */
  lemma {:induction false} LoopOf(s: string, op: char, before: string, done: seq<Ast>, todo: seq<Ast>, o: nat, end: nat)
    requires forall i :: 0 <= i < |todo| ==> WellFormed(todo[i])
    requires o < end <= |s| && s[o..end] == Concat(SubLines(todo, KeepSpaces)) + ")"
    ensures LoopF(s, op, before, done, o) == (Composite(op, before, done + todo, "", false), end)
    decreases SubsSize(todo), 2
  {
    if |todo| == 0 {
      LoopEndOf(s, op, before, done, o, end);
      AppendShift(done, todo);
    } else {
      var e, e' := LoopNextOf(s, op, before, done, todo, o, end);
      LoopStepOf(s, op, before, done, todo[0], o, e, e');
      AppendShift(done, todo);
      LoopOf(s, op, before, done + [todo[0]], todo[1..], e', end);
    }
  }

  /** The loop reads the first of the remaining sub-filters and the spaces after it. */
  lemma {:induction false} LoopNextOf(s: string, op: char, before: string, done: seq<Ast>, todo: seq<Ast>, o: nat, end: nat)
      returns (e: nat, e': nat)
    requires |todo| > 0 && forall i :: 0 <= i < |todo| ==> WellFormed(todo[i])
    requires o < end <= |s| && s[o..end] == Concat(SubLines(todo, KeepSpaces)) + ")"
    ensures e' < end && s[e'..end] == Concat(SubLines(todo[1..], KeepSpaces)) + ")"
    ensures forall i :: 0 <= i < |todo[1..]| ==> WellFormed(todo[1..][i])
    ensures SubsSize(todo[1..]) < SubsSize(todo) && !todo[0].unclosed
    ensures RecF(s, o) == Some((Bare(todo[0]), e))
    ensures SpacesEnd(s, e) == e' && s[e..e'] == todo[0].post_spaces
    decreases SubsSize(todo), 1
  {
    var t := todo[0];
    var t0 := Bare(t);
    WellFormedFirst(todo);
    e := SubText(s, o, end, todo);
    e' := e + |t.post_spaces|;
    RecOf(s, o, t0);
    assert RecF(s, o) == Some((t0, o + |Line(t0, KeepSpaces)|));
    assert e == o + |Line(t0, KeepSpaces)|;
  }

  lemma AppendShift(done: seq<Ast>, todo: seq<Ast>)
    ensures |todo| == 0 ==> done + todo == done
    ensures |todo| > 0 ==> done + todo == (done + [todo[0]]) + todo[1..]
  {
    if |todo| > 0 {
      assert todo == [todo[0]] + todo[1..];
    }
  }

  /** No sub-filter left: the loop stops at the closing `)`. */
  lemma LoopEndOf(s: string, op: char, before: string, done: seq<Ast>, o: nat, end: nat)
    requires o < end <= |s| && s[o..end] == Concat(SubLines([], KeepSpaces)) + ")"
    ensures LoopF(s, op, before, done, o) == (Composite(op, before, done, "", false), end)
  {
    assert s[o] == s[o..end][0];
  }

  /** A filter without the spaces after it, as `rec` returns it. */
  function Bare(a: Ast): (r: Ast)
    ensures r.post_spaces == "" && r.unclosed == a.unclosed
    ensures r.(post_spaces := a.post_spaces) == a
  {
    a.(post_spaces := "")
  }

  lemma WellFormedFirst(todo: seq<Ast>)
    requires |todo| > 0 && forall i :: 0 <= i < |todo| ==> WellFormed(todo[i])
    ensures && WellFormed(todo[0]) && !todo[0].unclosed && WellFormed(Bare(todo[0]))
            && Size(Bare(todo[0])) <= SubsSize(todo) && SubsSize(todo[1..]) < SubsSize(todo)
            && forall i :: 0 <= i < |todo[1..]| ==> WellFormed(todo[1..][i])
  {
    assert WellFormed(todo[0]);
    assert forall i :: 0 <= i < |todo[1..]| ==> todo[1..][i] == todo[i + 1];
  }

  /** A closed sub-filter read at `o`, followed by its spaces: the loop carries on after them. */
  lemma LoopStepOf(s: string, op: char, before: string, done: seq<Ast>, t: Ast, o: nat, e: nat, e': nat)
    requires o <= |s| && !t.unclosed
    requires RecF(s, o) == Some((Bare(t), e))
    requires e' <= |s| && SpacesEnd(s, e) == e' && s[e..e'] == t.post_spaces
    ensures LoopF(s, op, before, done, o) == LoopF(s, op, before, done + [t], e')
  {
  }

  /** The text of the first sub-filter, its spaces, and the text after them. */
  lemma SubText(s: string, o: nat, end: nat, todo: seq<Ast>) returns (e: nat)
    requires |todo| > 0 && WellFormed(todo[0])
    requires o < end <= |s| && s[o..end] == Concat(SubLines(todo, KeepSpaces)) + ")"
    ensures e == o + |Line(Bare(todo[0]), KeepSpaces)| && e + |todo[0].post_spaces| < end
    ensures s[o..e] == Line(Bare(todo[0]), KeepSpaces)
    ensures SpacesEnd(s, e) == e + |todo[0].post_spaces| && s[e..e + |todo[0].post_spaces|] == todo[0].post_spaces
    ensures s[e + |todo[0].post_spaces|..end] == Concat(SubLines(todo[1..], KeepSpaces)) + ")"
  {
    var t := todo[0];
    var line := Line(Bare(t), KeepSpaces);
    var post := t.post_spaces;
    var tail := Concat(SubLines(todo[1..], KeepSpaces)) + ")";
    FirstSubText(todo);
    e := o + |line|;
    var e' := e + |post|;
    CutAt3(s, o, end, line, post, tail);
    SubsAhead(s, e', end, todo[1..]);
    SpacesUpTo(s, e, e', post);
  }

  /** Where the text of sub-filters closed by `)` starts, there is no space. */
  lemma SubsAhead(s: string, o: nat, end: nat, subs: seq<Ast>)
    requires o <= end <= |s| && s[o..end] == Concat(SubLines(subs, KeepSpaces)) + ")"
    ensures o < end && !IsSpace(s[o])
  {
    SubsStart(subs);
    assert s[o] == s[o..end][0];
  }

  lemma SpacesUpTo(s: string, e: nat, e': nat, post: string)
    requires e <= e' < |s| && s[e..e'] == post && AllSpaces(post) && !IsSpace(s[e'])
    ensures SpacesEnd(s, e) == e'
  {
    assert forall i :: e <= i < e' ==> s[i] == s[e..e'][i - e];
    SpacesEndOf(s, e, e');
  }

  lemma FirstSubText(todo: seq<Ast>)
    requires |todo| > 0 && !todo[0].unclosed
    ensures Concat(SubLines(todo, KeepSpaces)) + ")" ==
              Line(Bare(todo[0]), KeepSpaces) + todo[0].post_spaces + (Concat(SubLines(todo[1..], KeepSpaces)) + ")")
  {
    var t := todo[0];
    var t0 := Bare(t);
    var tail := Concat(SubLines(todo[1..], KeepSpaces));
    WithPostSpaces(t0, t.post_spaces);
    ConcatAppend(FormatLines(t, KeepSpaces), SubLines(todo[1..], KeepSpaces));
    assert Concat(FormatLines(t, KeepSpaces)) == Line(t, KeepSpaces) by {
      assert FormatLines(t, KeepSpaces)[1..] == [];
    }
    Assoc3(Line(t0, KeepSpaces), t.post_spaces, tail, ")");
  }

  lemma Assoc3(a: string, b: string, c: string, d: string)
    ensures (a + b) + c + d == a + b + (c + d)
  {
  }

  // ------------------------------------------------------------ what parse builds

  /**
   * The shape of what `rec` returns: the sub-filters of a composite are all
   * closed but maybe the last, and an unclosed last one leaves the composite
   * unclosed too.
   */
  predicate Shaped(a: Ast)
    decreases a
  {
    a.Composite? ==>
      && (forall i :: 0 <= i < |a.sub_filters| ==> Shaped(a.sub_filters[i]))
      && (forall i :: 0 <= i < |a.sub_filters| - 1 ==> !a.sub_filters[i].unclosed)
      && (|a.sub_filters| > 0 && a.sub_filters[|a.sub_filters| - 1].unclosed ==> a.unclosed)
  }

  /** Every filter `rec` reads has that shape, and its spaces are spaces. */
  lemma {:induction false} RecShaped(s: string, o: nat)
    requires o <= |s| && RecF(s, o).Some?
    ensures Shaped(RecF(s, o).value.0)
    decreases |s| - o, 0
  {
    if o + 1 < |s| && IsOp(s[o + 1]) {
      var b := SpacesEnd(s, o + 2);
      RecComposite(s, o);
      LoopShaped(s, s[o + 1], s[o + 2..b], [], b);
    }
  }

  lemma {:induction false} LoopShaped(s: string, op: char, before: string, subs: seq<Ast>, o: nat)
    requires o <= |s|
    requires forall i :: 0 <= i < |subs| ==> Shaped(subs[i]) && !subs[i].unclosed
    ensures Shaped(LoopF(s, op, before, subs, o).0)
    decreases |s| - o, 1
  {
    match RecF(s, o)
    case None =>
    case Some((sub, e)) =>
      RecShaped(s, o);
      var e' := SpacesEnd(s, e);
      var sub' := sub.(post_spaces := s[e..e']);
      assert Shaped(sub') by {
        ShapedPostSpaces(sub, s[e..e']);
      }
      if !sub.unclosed {
        LoopShaped(s, op, before, subs + [sub'], e');
      }
  }

  lemma ShapedPostSpaces(a: Ast, p: string)
    requires Shaped(a)
    ensures Shaped(a.(post_spaces := p))
  {
  }

  /** Text that does not start with `(` is not parsed at all. */
  lemma ParseNotOpen(s: string)
    requires |s| == 0 || s[0] != '('
    ensures ParseF(s) == Parsed(None, s)
  {
  }

  // ------------------------------------------------------------ indentation

  /** A line of `indent` output without the indentation in front of it. */
  function DropIndent(line: string, ind: string): (r: string)
    requires |ind| > 0
    decreases |line|
  {
    if ind <= line then DropIndent(line[|ind|..], ind) else line
  }

  /** `DropIndent` on every line. */
  function Undent(lines: seq<string>, ind: string): (r: seq<string>)
    requires |ind| > 0
    ensures |r| == |lines|
  {
    if |lines| == 0 then [] else [DropIndent(lines[0], ind)] + Undent(lines[1..], ind)
  }

  lemma {:induction false} UndentAppend(a: seq<string>, b: seq<string>, ind: string)
    requires |ind| > 0
    ensures Undent(a + b, ind) == Undent(a, ind) + Undent(b, ind)
  {
    if |a| > 0 {
      assert (a + b)[1..] == a[1..] + b;
      UndentAppend(a[1..], b, ind);
    } else {
      assert a + b == b;
    }
  }

  /** One more level of indentation is dropped like the others. */
  lemma {:induction false} UndentIndented(lines: seq<string>, ind: string)
    requires |ind| > 0
    ensures Undent(Indented(lines, ind), ind) == Undent(lines, ind)
  {
    if |lines| > 0 {
      var l := lines[0];
      assert ind <= ind + l && (ind + l)[|ind|..] == l;
      UndentIndented(lines[1..], ind);
    }
  }

  /** A line that starts with a parenthesis, or is empty, has no indentation to drop. */
  lemma DropNothing(line: string, ind: string)
    requires |ind| > 0 && ind[0] != '(' && ind[0] != ')'
    requires |line| == 0 || line[0] == '(' || line[0] == ')'
    ensures DropIndent(line, ind) == line
  {
    assert |line| == 0 || ind[0] != line[0];
  }

  /**
   * Indentation only adds line breaks and indentation: with them taken out,
   * the lines read as the compact `remove_spaces` text. The indentation must
   * not start with a parenthesis, which could not be told apart from the
   * filter.
   */
  lemma {:induction false} IndentIsLayout(a: Ast, ind: string)
    requires |ind| > 0 && ind[0] != '(' && ind[0] != ')'
    ensures Concat(Undent(FormatLines(a, Indent(ind)), ind)) == Line(a, RemoveSpaces)
    decreases a, 1
  {
    var r := FormatLines(a, Indent(ind));
    match a
    case Item(_, _, _, _) =>
      DropNothing(r[0], ind);
    case Composite(op, before, subs, _, _) =>
      var lines := SubLines(subs, Indent(ind));
      var close := Close(a, Indent(ind));
      assert Close(a, RemoveSpaces) == close;
      IndentSubsAreLayout(subs, ind);
      if |lines| > 1 || (|lines| == 1 && |lines[0]| > 60) {
        assert r == ["(" + [op]] + Indented(lines, ind) + [close];
        UndentAppend(["(" + [op]] + Indented(lines, ind), [close], ind);
        UndentAppend(["(" + [op]], Indented(lines, ind), ind);
        UndentIndented(lines, ind);
        DropNothing("(" + [op], ind);
        DropNothing(close, ind);
        var u := Undent(lines, ind);
        ConcatAppend(["(" + [op]] + u, [close]);
        ConcatAppend(["(" + [op]], u);
        assert Concat(["(" + [op]]) == "(" + [op];
        assert Concat([close]) == close;
        assert Undent(r, ind) == ["(" + [op]] + u + [close];
        assert Line(a, RemoveSpaces) == "(" + [op] + "" + Concat(SubLines(subs, RemoveSpaces)) + close;
      } else {
        assert Undent(lines, ind) == lines by {
          if |lines| == 1 {
            DropNothing(lines[0], ind);
          }
        }
        DropNothing(r[0], ind);
      }
  }

  lemma {:induction false} IndentSubsAreLayout(subs: seq<Ast>, ind: string)
    requires |ind| > 0 && ind[0] != '(' && ind[0] != ')'
    ensures Concat(Undent(SubLines(subs, Indent(ind)), ind)) == Concat(SubLines(subs, RemoveSpaces))
    decreases subs, 0
  {
    if |subs| > 0 {
      IndentIsLayout(subs[0], ind);
      IndentSubsAreLayout(subs[1..], ind);
      UndentAppend(FormatLines(subs[0], Indent(ind)), SubLines(subs[1..], Indent(ind)), ind);
      ConcatAppend(Undent(FormatLines(subs[0], Indent(ind)), ind), Undent(SubLines(subs[1..], Indent(ind)), ind));
      ConcatAppend(FormatLines(subs[0], RemoveSpaces), SubLines(subs[1..], RemoveSpaces));
      assert Concat(FormatLines(subs[0], RemoveSpaces)) == Line(subs[0], RemoveSpaces) by {
        assert FormatLines(subs[0], RemoveSpaces)[1..] == [];
      }
    }
  }

  /**
   * With `indent`, a composite goes over several lines exactly when its
   * sub-filters take more than one line, or one line of more than 60
   * characters; it then opens and closes on lines of their own, the
   * sub-filters' lines indented between them.
   */
  lemma IndentSplits(op: char, before: string, subs: seq<Ast>, post: string, unclosed: bool, ind: string)
    ensures var a := Composite(op, before, subs, post, unclosed);
            var r := FormatLines(a, Indent(ind));
            var lines := SubLines(subs, Indent(ind));
            && (|r| > 1 <==> |lines| > 1 || (|lines| == 1 && |lines[0]| > 60))
            && (|r| > 1 ==> r[0] == "(" + [op] && r[1..|r| - 1] == Indented(lines, ind)
                            && r[|r| - 1] == (if unclosed then "" else ")"))
            && (|r| == 1 ==> r[0] == "(" + [op] + Concat(lines) + (if unclosed then "" else ")"))
  {
    var a := Composite(op, before, subs, post, unclosed);
    var lines := SubLines(subs, Indent(ind));
    if |lines| > 1 || (|lines| == 1 && |lines[0]| > 60) {
      var r := FormatLines(a, Indent(ind));
      assert r == ["(" + [op]] + Indented(lines, ind) + [Close(a, Indent(ind))];
      assert r[1..|r| - 1] == Indented(lines, ind);
    }
  }

  // ------------------------------------------------------------ format_filter_html

  /** The pieces of a Prism token `<span>`. */
  const SpanOpen: string := "<span class=\"token "
  const SpanMiddle: string := "\">"
  const SpanClose: string := "</span>"

  /** The Prism token classes used. */
  const Invalid: string := "invalid"
  const Operator: string := "operator"
  const StringToken: string := "string"
  const Punctuation: string := "punctuation"

  /** `toPrismHtml` */
  function ToPrismHtml(s: string, class_: string): string
  {
    SpanOpen + class_ + SpanMiddle + s + SpanClose
  }

  /** `nb_colors` */
  const NbColors: nat := 6

  /** How the pieces of a filter are marked: with `toPrismHtml`, or not at all. */
  datatype Marks = PrismMarks | NoMarks

  function Mark(marks: Marks, t: string, class_: string): string
  {
    match marks
    case PrismMarks => ToPrismHtml(t, class_)
    case NoMarks => t
  }

  /** The class of the parentheses of the node numbered `n`: six classes, taken in turn. */
  function Colour(n: nat): string
  {
    if n < NbColors then Punctuation + [('0' as int + n) as char] else Colour(n - NbColors)
  }

  /** `'punctuation' + (count % nb_colors)` */
  lemma {:induction false} ColourOf(n: nat)
    ensures Colour(n) == Punctuation + NatToString(n % NbColors)
  {
    if n < NbColors {
      assert NatToString(n) == [('0' as int + n) as char];
    } else {
      ColourOf(n - NbColors);
      ModStep(n);
    }
  }

  lemma ModStep(n: nat)
    requires n >= 6
    ensures (n - 6) % 6 == n % 6
  {
  }

  /**
   * `rec` of `format_filter_html`, for the node numbered `n` in preorder and
   * its marks (`toPrismHtml` in the program): the node's number is
   * the value of `count` when `rec` reaches it.
   */
  function HtmlOf(a: Ast, n: nat, marks: Marks): string
    decreases a, 1
  {
    var open := Mark(marks, "(", if a.unclosed then Invalid else Colour(n));
    var close := if a.unclosed then "" else Mark(marks, ")", Colour(n)) + a.post_spaces;
    match a
    case Item(attr, value, _, _) => open + attr + Mark(marks, "=", Operator) + Mark(marks, value, StringToken) + close
    case Composite(op, before, subs, _, _) => open + Mark(marks, [op], Operator) + before + SubsHtml(subs, |subs|, n + 1, marks) + close
  }

  /**
   * The first `i` sub-filters, numbered from `n` on, each after the nodes of
   * those before it: `sub_filters.map(rec).join('')`, one sub-filter at a time.
   */
  function SubsHtml(subs: seq<Ast>, i: nat, n: nat, marks: Marks): string
    requires i <= |subs|
    decreases subs, 0, i
  {
    if i == 0 then "" else SubsHtml(subs, i - 1, n, marks) + HtmlOf(subs[i - 1], n + SizeUpTo(subs, i - 1), marks)
  }

  lemma SubsHtmlStep(subs: seq<Ast>, i: nat, n: nat, marks: Marks)
    requires i < |subs|
    ensures SubsHtml(subs, i + 1, n, marks) == SubsHtml(subs, i, n, marks) + HtmlOf(subs[i], n + SizeUpTo(subs, i), marks)
    ensures SizeUpTo(subs, i + 1) == SizeUpTo(subs, i) + Size(subs[i])
  {
    var j := i + 1;
    assert j - 1 == i;
    assert SubsHtml(subs, j, n, marks) == SubsHtml(subs, j - 1, n, marks) + HtmlOf(subs[j - 1], n + SizeUpTo(subs, j - 1), marks);
  }

  /** The number of nodes in the first `i` sub-filters. */
  function SizeUpTo(subs: seq<Ast>, i: nat): nat
    requires i <= |subs|
  {
    if i == 0 then 0 else SizeUpTo(subs, i - 1) + Size(subs[i - 1])
  }

  lemma {:induction false} SizeUpToOf(subs: seq<Ast>, i: nat)
    requires i <= |subs|
    ensures SizeUpTo(subs, i) == SubsSize(subs[..i])
  {
    if i > 0 {
      SizeUpToOf(subs, i - 1);
      assert subs[..i] == subs[..i - 1] + [subs[i - 1]];
      SubsSizeAppend(subs[..i - 1], subs[i - 1]);
    } else {
      assert subs[..0] == [];
    }
  }

  lemma SizeUpToAll(subs: seq<Ast>)
    ensures SizeUpTo(subs, |subs|) == SubsSize(subs)
  {
    SizeUpToOf(subs, |subs|);
    assert subs[..|subs|] == subs;
  }

  lemma {:induction false} SubsSizeAppend(subs: seq<Ast>, x: Ast)
    ensures SubsSize(subs + [x]) == SubsSize(subs) + Size(x)
  {
    var t := subs + [x];
    if |subs| > 0 {
      assert t[0] == subs[0] && t[1..] == subs[1..] + [x];
      SubsSizeAppend(subs[1..], x);
    } else {
      assert t[0] == x && t[1..] == [];
    }
  }

  /** The `count` shared by the calls of `rec` in `format_filter_html`. */
  class HtmlFormatter {
    var count: nat

    constructor()
      ensures count == 0
    {
      count := 0;
    }

    /** `rec`: one node and the nodes under it, counted in preorder. */
    method Rec(a: Ast) returns (h: string)
      modifies this
      ensures h == HtmlOf(a, old(count), PrismMarks)
      ensures count == old(count) + Size(a)
      decreases a, 2
    {
      var n := count;
      var open := ToPrismHtml("(", if a.unclosed then Invalid else Colour(count));
      var close := if a.unclosed then "" else ToPrismHtml(")", Colour(count)) + a.post_spaces;
      count := count + 1;
      match a
      case Item(attr, value, _, _) =>
        h := open + attr + ToPrismHtml("=", Operator) + ToPrismHtml(value, StringToken) + close;
      case Composite(op, before, subs, _, _) =>
        var lines := MapRec(subs);
        h := open + ToPrismHtml([op], Operator) + before + lines + close;
    }

    /** `sub_filters.map(sub => rec(sub)).join('')` */
    method MapRec(subs: seq<Ast>) returns (lines: string)
      modifies this
      ensures lines == SubsHtml(subs, |subs|, old(count), PrismMarks)
      ensures count == old(count) + SubsSize(subs)
      decreases subs, 1
    {
      var n := count;
      lines := "";
      var i := 0;
      while i < |subs|
        invariant 0 <= i <= |subs|
        invariant lines == SubsHtml(subs, i, n, PrismMarks)
        invariant count == n + SizeUpTo(subs, i)
      {
        lines := RecNext(subs, i, n, lines);
        i := i + 1;
      }
      SizeUpToAll(subs);
    }

    /** One step of the `map`: the `i`-th sub-filter, numbered after those before it. */
    method RecNext(subs: seq<Ast>, i: nat, ghost n: nat, lines: string) returns (lines': string)
      requires i < |subs| && count == n + SizeUpTo(subs, i)
      requires lines == SubsHtml(subs, i, n, PrismMarks)
      modifies this
      ensures lines' == SubsHtml(subs, i + 1, n, PrismMarks)
      ensures count == n + SizeUpTo(subs, i + 1)
      decreases subs, 0
    {
      var line := Rec(subs[i]);
      lines' := lines + line;
      SubsHtmlStep(subs, i, n, PrismMarks);
    }
  }

  /** `format_filter_html` */
  method FormatFilterHtml(a: Ast) returns (h: string)
    ensures h == HtmlOf(a, 0, PrismMarks)
  {
    var f := new HtmlFormatter();
    h := f.Rec(a);
  }

  /** The nodes of a filter in preorder, the order in which `rec` numbers them. */
  function Preorder(a: Ast): (r: seq<Ast>)
    ensures |r| == Size(a) && r[0] == a
    decreases a, 1
  {
    match a
    case Item(_, _, _, _) => [a]
    case Composite(_, _, subs, _, _) => [a] + SubsPreorder(subs)
  }

  function SubsPreorder(subs: seq<Ast>): (r: seq<Ast>)
    ensures |r| == SubsSize(subs)
    decreases subs, 0
  {
    if |subs| == 0 then [] else Preorder(subs[0]) + SubsPreorder(subs[1..])
  }

  lemma {:induction false} SubsPreorderSplit(subs: seq<Ast>, i: nat)
    requires i <= |subs|
    ensures SubsPreorder(subs) == SubsPreorder(subs[..i]) + SubsPreorder(subs[i..])
  {
    if i > 0 {
      assert subs[..i][1..] == subs[1..][..i - 1];
      assert subs[i..] == subs[1..][i - 1..];
      SubsPreorderSplit(subs[1..], i - 1);
    } else {
      assert subs[..0] == [] && subs[0..] == subs;
    }
  }

  /**
   * In preorder, the `i`-th sub-filter of a composite comes
   * `1 + SizeUpTo(subs, i)` nodes after it: the offset `SubsHtml` numbers it
   * with, so every node is coloured by its preorder number.
   */
  lemma ChildNumber(a: Ast, i: nat)
    requires a.Composite? && i < |a.sub_filters|
    ensures var subs := a.sub_filters;
            var k := 1 + SizeUpTo(subs, i);
            && k < Size(a) && Preorder(a)[k] == subs[i]
  {
    var subs := a.sub_filters;
    SizeUpToOf(subs, i);
    SubsPreorderSplit(subs, i);
    var rest := subs[i..];
    assert rest[0] == subs[i];
    assert SubsPreorder(rest)[0] == subs[i];
  }

  /** Take the marks away and the coloured text is the text as written, spaces kept. */
  lemma {:induction false} HtmlText(a: Ast, n: nat)
    ensures HtmlOf(a, n, NoMarks) == Line(a, KeepSpaces)
    decreases a, 1
  {
    if a.Composite? {
      var subs := a.sub_filters;
      SubsHtmlText(subs, |subs|, n + 1);
      assert subs[..|subs|] == subs;
    }
  }

  lemma {:induction false} SubsHtmlText(subs: seq<Ast>, i: nat, n: nat)
    requires i <= |subs|
    ensures SubsHtml(subs, i, n, NoMarks) == Concat(SubLines(subs[..i], KeepSpaces))
    decreases subs, 0, i
  {
    if i > 0 {
      var last := subs[i - 1];
      assert subs[..i] == subs[..i - 1] + [last];
      HtmlText(last, n + SizeUpTo(subs, i - 1));
      SubsHtmlText(subs, i - 1, n);
      SubLinesAppend(subs[..i - 1], last, KeepSpaces);
      ConcatAppend(SubLines(subs[..i - 1], KeepSpaces), FormatLines(last, KeepSpaces));
      assert Concat(FormatLines(last, KeepSpaces)) == Line(last, KeepSpaces) by {
        assert FormatLines(last, KeepSpaces)[1..] == [];
      }
    } else {
      assert subs[..0] == [];
    }
  }

  // ------------------------------------------------------------ entry points

  /**
   * `indent`: the filter read, indented by two spaces, then what was not
   * read; without the line breaks and indentation the filter reads as its
   * compact form.
   */
  method IndentFilter(filter: string) returns (r: string)
    ensures ParseF(filter).ast.None? ==> r == filter
    ensures ParseF(filter).ast.Some? ==>
      var a := ParseF(filter).ast.value;
      && r == Join(FormatLines(a, Indent("  ")), "\n") + ParseF(filter).unparsed
      && Concat(Undent(FormatLines(a, Indent("  ")), "  ")) == FormatFilter(a, RemoveSpaces)
  {
    var p := Parse(filter);
    ParseKeepsText(filter);
    if p.ast.Some? {
      IndentIsLayout(p.ast.value, "  ");
      assert FormatLines(p.ast.value, RemoveSpaces)[1..] == [];
      r := FormatFilter(p.ast.value, Indent("  ")) + p.unparsed;
    } else {
      r := "" + p.unparsed;
    }
  }

  /**
   * `to_html`: the filter read, coloured, then what was not read, marked
   * invalid; text that is not a filter is marked invalid as a whole.
   */
  method ToHtml(filter: string) returns (r: string)
    ensures ParseF(filter).ast.None? ==> r == (if filter == "" then "" else ToPrismHtml(filter, Invalid))
    ensures ParseF(filter).ast.Some? ==>
      var rest := ParseF(filter).unparsed;
      r == HtmlOf(ParseF(filter).ast.value, 0, PrismMarks) + (if rest == "" then "" else ToPrismHtml(rest, Invalid))
  {
    var p := Parse(filter);
    ParseKeepsText(filter);
    var html := "";
    if p.ast.Some? {
      html := FormatFilterHtml(p.ast.value);
    }
    r := html + (if p.unparsed != "" then ToPrismHtml(p.unparsed, Invalid) else "");
  }
}
