// The JavaScript string built-ins the server relies on (`indexOf`,
// `lastIndexOf`, `endsWith`, `split`, `replace`, `trimStart`, ...), stated
// over `seq<char>`.
module JsString {
  import opened Wrappers

  predicate EndsWith(s: string, suffix: string)
  {
    |suffix| <= |s| && s[|s| - |suffix|..] == suffix
  }

  /** `pat` occurs in `s` at index `i`. */
  predicate OccursAt(s: string, pat: string, i: nat)
  {
    i + |pat| <= |s| && s[i..i + |pat|] == pat
  }

  /** `s.indexOf(pat, from)`, with `None` for -1. */
  function IndexFrom(s: string, pat: string, from: nat): (r: Option<nat>)
    decreases |s| + 1 - from
    ensures r.Some? ==> from <= r.value && OccursAt(s, pat, r.value)
    ensures r.Some? ==> forall j: nat :: from <= j < r.value ==> !OccursAt(s, pat, j)
    ensures r.None? ==> forall j: nat :: from <= j ==> !OccursAt(s, pat, j)
  {
    if from + |pat| > |s| then None
    else if OccursAt(s, pat, from) then Some(from)
    else IndexFrom(s, pat, from + 1)
  }

  /** `s.indexOf(pat)`: the first occurrence. */
  function IndexOf(s: string, pat: string): (r: Option<nat>)
    ensures r.Some? ==> OccursAt(s, pat, r.value)
    ensures r.Some? ==> forall j: nat :: j < r.value ==> !OccursAt(s, pat, j)
    ensures r.None? <==> forall j: nat :: !OccursAt(s, pat, j)
  {
    IndexFrom(s, pat, 0)
  }

  /** `s.lastIndexOf(pat)` searching downwards from index `k`. */
  function LastIndexFrom(s: string, pat: string, k: nat): (r: Option<nat>)
    ensures r.Some? ==> r.value <= k && OccursAt(s, pat, r.value)
    ensures r.Some? ==> forall j: nat :: r.value < j <= k ==> !OccursAt(s, pat, j)
    ensures r.None? ==> forall j: nat :: j <= k ==> !OccursAt(s, pat, j)
  {
    if OccursAt(s, pat, k) then Some(k)
    else if k == 0 then None
    else LastIndexFrom(s, pat, k - 1)
  }

  /** `s.lastIndexOf(pat)`: the last occurrence. */
  function LastIndexOf(s: string, pat: string): (r: Option<nat>)
    ensures r.Some? ==> OccursAt(s, pat, r.value)
    ensures r.Some? ==> forall j: nat :: r.value < j ==> !OccursAt(s, pat, j)
    ensures r.None? <==> forall j: nat :: !OccursAt(s, pat, j)
  {
    LastIndexFrom(s, pat, |s|)
  }

  predicate Contains(s: string, pat: string)
  {
    IndexOf(s, pat).Some?
  }

  /** A one-character pattern occurs exactly where that character is. */
  lemma OccursAtChar(s: string, c: char, j: nat)
    ensures OccursAt(s, [c], j) <==> j < |s| && s[j] == c
  {
    if j < |s| && s[j] == c {
      assert s[j..j + 1] == [c];
    }
  }

  /** A one-character pattern is contained exactly when the character is. */
  lemma ContainsChar(s: string, c: char)
    ensures Contains(s, [c]) <==> c in s
  {
    if c in s {
      var j :| 0 <= j < |s| && s[j] == c;
      OccursAtChar(s, c, j);
    }
    if Contains(s, [c]) {
      var j := IndexOf(s, [c]).value;
      OccursAtChar(s, c, j);
    }
  }

  /** Where `s` is made of `a`, the character `c` and `b`, with no `c` in `a`, the first `c` is at `|a|`. */
  lemma IndexOfFirstChar(a: string, c: char, b: string)
    requires c !in a
    ensures IndexOf(a + [c] + b, [c]) == Some(|a|)
  {
    var s := a + [c] + b;
    OccursAtChar(s, c, |a|);
    assert forall j :: 0 <= j < |a| ==> s[j] == a[j] && s[j] != c;
    var i := IndexOf(s, [c]).value;
    OccursAtChar(s, c, i);
  }

  /** Leading white space is skipped; a string starting with another character is kept. */
  lemma TrimStartCases(w: char, s: string)
    ensures IsWhitespace(w) ==> TrimStart([w] + s) == TrimStart(s)
    ensures (|s| == 0 || !IsWhitespace(s[0])) ==> TrimStart(s) == s
  {
    assert ([w] + s)[1..] == s;
  }

  /** Trailing white space is skipped; a string ending with another character is kept. */
  lemma TrimEndCases(s: string, w: char)
    ensures IsWhitespace(w) ==> TrimEnd(s + [w]) == TrimEnd(s)
    ensures (|s| == 0 || !IsWhitespace(s[|s| - 1])) ==> TrimEnd(s) == s
  {
    assert (s + [w])[..|s|] == s;
  }

  /** `s.replace(pat, rep)` with a string pattern: the first occurrence only. */
  function ReplaceFirst(s: string, pat: string, rep: string): string
  {
    match IndexOf(s, pat)
    case None => s
    case Some(i) => s[..i] + rep + s[i + |pat|..]
  }

  /**
   * The text a replacement string stands for at one match, as section
   * 22.1.3.19.1 of ECMA-262 (GetSubstitution) reads it for a pattern without
   * capture groups: `$$` is `$`, `$&` the match, `` $` `` the text before it,
   * `$'` the text after it; any other `$` is itself.
   */
  function Substitution(rep: string, matched: string, before: string, after: string): (r: string)
    ensures '$' !in rep ==> r == rep
  {
    if |rep| == 0 then ""
    else if rep[0] == '$' && |rep| >= 2 && rep[1] == '$' then "$" + Substitution(rep[2..], matched, before, after)
    else if rep[0] == '$' && |rep| >= 2 && rep[1] == '&' then matched + Substitution(rep[2..], matched, before, after)
    else if rep[0] == '$' && |rep| >= 2 && rep[1] == '`' then before + Substitution(rep[2..], matched, before, after)
    else if rep[0] == '$' && |rep| >= 2 && rep[1] == '\'' then after + Substitution(rep[2..], matched, before, after)
    else
      assert '$' !in rep ==> '$' !in rep[1..] by {
        assert forall c :: c in rep[1..] ==> c in rep;
      }
      [rep[0]] + Substitution(rep[1..], matched, before, after)
  }

  /** `s.replace(/pat/g, rep)` from index `from` on: each match is replaced by its `Substitution`. */
  function ReplaceAllFrom(s: string, pat: string, rep: string, from: nat): string
    requires pat != "" && from <= |s|
    decreases |s| - from
  {
    match IndexFrom(s, pat, from)
    case None => s[from..]
    case Some(i) => s[from..i] + Substitution(rep, pat, s[..i], s[i + |pat|..]) + ReplaceAllFrom(s, pat, rep, i + |pat|)
  }

  /** `s.replace(/pat/g, rep)` for a pattern without special characters: every occurrence, left to right, not overlapping. */
  function ReplaceAll(s: string, pat: string, rep: string): string
    requires pat != ""
  {
    ReplaceAllFrom(s, pat, rep, 0)
  }

  /** `s.split(sep)` with a string separator; the empty separator splits into characters. */
  function Split(s: string, sep: string): (r: seq<string>)
    decreases |s|
    ensures sep != "" ==> |r| > 0
  {
    if sep == "" then seq(|s|, i requires 0 <= i < |s| => [s[i]])
    else
      match IndexOf(s, sep)
      case None => [s]
      case Some(i) => [s[..i]] + Split(s[i + |sep|..], sep)
  }

  /** `parts.join(sep)` */
  function Join(parts: seq<string>, sep: string): string
  {
    if |parts| == 0 then ""
    else if |parts| == 1 then parts[0]
    else parts[0] + sep + Join(parts[1..], sep)
  }

  /** `parts.join('')` */
  function Concat(parts: seq<string>): string
  {
    if |parts| == 0 then "" else parts[0] + Concat(parts[1..])
  }

  /** The characters JavaScript's `trim*` and `\s` treat as white space. */
  predicate IsWhitespace(c: char)
  {
    c == ' ' || c == '\t' || c == '\n' || c == '\r' || c == '\U{000B}' || c == '\U{000C}'
    || c == '\U{00A0}' || c == '\U{1680}' || ('\U{2000}' <= c <= '\U{200A}')
    || c == '\U{2028}' || c == '\U{2029}' || c == '\U{202F}' || c == '\U{205F}'
    || c == '\U{3000}' || c == '\U{FEFF}'
  }

  function TrimStart(s: string): (r: string)
    ensures |r| <= |s| && r == s[|s| - |r|..]
    ensures |r| > 0 ==> !IsWhitespace(r[0])
  {
    if |s| > 0 && IsWhitespace(s[0]) then TrimStart(s[1..]) else s
  }

  function TrimEnd(s: string): (r: string)
    ensures |r| <= |s| && r == s[..|r|]
    ensures |r| > 0 ==> !IsWhitespace(r[|r| - 1])
  {
    if |s| > 0 && IsWhitespace(s[|s| - 1]) then TrimEnd(s[..|s| - 1]) else s
  }

  /** `\d` */
  predicate IsDigit(c: char)
  {
    '0' <= c <= '9'
  }

  /** `\w`: ASCII letters, digits and `_`. */
  predicate IsWordChar(c: char)
  {
    ('a' <= c <= 'z') || ('A' <= c <= 'Z') || IsDigit(c) || c == '_'
  }

  predicate AllDigits(s: string)
  {
    forall i :: 0 <= i < |s| ==> IsDigit(s[i])
  }

  /** The value of a decimal digit string, as `parseInt` or `BigInt` read it. */
  function DigitsValue(s: string): nat
    requires AllDigits(s)
  {
    if |s| == 0 then 0 else DigitsValue(s[..|s| - 1]) * 10 + (s[|s| - 1] as int - '0' as int)
  }

  /** The decimal text of `n`, without leading zeros. */
  function NatToString(n: nat): (r: string)
    ensures |r| > 0 && AllDigits(r)
  {
    var d := [('0' as int + n % 10) as char];
    if n < 10 then d else NatToString(n / 10) + d
  }

  // ------------------------------------------------------- JSON.stringify

  predicate IsLowerHexDigit(c: char)
  {
    IsDigit(c) || 'a' <= c <= 'f'
  }

  /** The lower-case hexadecimal digit of `n`. */
  function HexDigit(n: nat): (r: char)
    requires n < 16
    ensures IsLowerHexDigit(r)
  {
    if n < 10 then ('0' as int + n) as char else ('a' as int + n - 10) as char
  }


  function HexValue(c: char): (r: nat)
    requires IsLowerHexDigit(c)
    ensures r < 16 && HexDigit(r) == c
    ensures forall n: nat :: n < 16 && HexDigit(n) == c ==> n == r
  {
    if IsDigit(c) then c as int - '0' as int else c as int - 'a' as int + 10
  }

  /** A character `JSON.stringify` writes as it is inside a string. */
  predicate JsonPlain(c: char)
  {
    c != '"' && c != '\\' && c as int >= 0x20
  }

  /** The letter of the two-character JSON escape of `c`, if it has one. */
  function ShortEscape(c: char): (r: Option<char>)
    ensures r.Some? ==> !JsonPlain(c)
  {
    if c == '"' then Some('"')
    else if c == '\\' then Some('\\')
    else if c == '\U{8}' then Some('b')
    else if c == '\t' then Some('t')
    else if c == '\n' then Some('n')
    else if c == '\U{c}' then Some('f')
    else if c == '\r' then Some('r')
    else None
  }

  /**
   * One character as `JSON.stringify` writes it inside a string
   * (QuoteJSONString of ECMA-262): the two-character escapes, then
   * `\u00xx` for the other control characters.
   */
  function JsonEscapeChar(c: char): (r: string)
    ensures JsonPlain(c) ==> r == [c]
    ensures !JsonPlain(c) ==> |r| >= 2 && r[0] == '\\'
  {
    if ShortEscape(c).Some? then ['\\', ShortEscape(c).value]
    else if c as int < 0x20 then ['\\', 'u', '0', '0', HexDigit(c as int / 16), HexDigit(c as int % 16)]
    else [c]
  }

  /** The body of a JSON string: each character escaped in turn. */
  function JsonEscape(s: string): string
  {
    if |s| == 0 then "" else JsonEscapeChar(s[0]) + JsonEscape(s[1..])
  }

  /** No control character is left in the escaped text. */
  lemma {:induction false} JsonEscapeNoControl(s: string)
    ensures forall i :: 0 <= i < |JsonEscape(s)| ==> JsonEscape(s)[i] as int >= 0x20
  {
    if |s| > 0 {
      JsonEscapeNoControl(s[1..]);
      var head, rest := JsonEscapeChar(s[0]), JsonEscape(s[1..]);
      assert forall i :: 0 <= i < |head| ==> head[i] as int >= 0x20;
      assert forall i :: |head| <= i < |head + rest| ==> (head + rest)[i] == rest[i - |head|];
    }
  }

  /** Text without `"`, `\` or control characters is written as it is. */
  lemma {:induction false} JsonEscapePlain(s: string)
    requires forall i :: 0 <= i < |s| ==> JsonPlain(s[i])
    ensures JsonEscape(s) == s
  {
    if |s| > 0 {
      JsonEscapePlain(s[1..]);
      assert [s[0]] + s[1..] == s;
    }
  }

  /** Escaping a string that starts with `c`. */
  lemma JsonEscapeCons(c: char, s: string)
    ensures JsonEscape([c] + s) == JsonEscapeChar(c) + JsonEscape(s)
  {
    assert ([c] + s)[0] == c && ([c] + s)[1..] == s;
  }

  /** Escaping works character by character, so it distributes over concatenation. */
  lemma {:induction false} JsonEscapeAppend(a: string, b: string)
    ensures JsonEscape(a + b) == JsonEscape(a) + JsonEscape(b)
  {
    if |a| == 0 {
      assert a + b == b;
    } else {
      var c, rest := a[0], a[1..];
      assert a == [c] + rest && a + b == [c] + (rest + b);
      var x, y, z := JsonEscapeChar(c), JsonEscape(rest), JsonEscape(b);
      calc {
        JsonEscape(a + b);
        { JsonEscapeCons(c, rest + b); }
        x + JsonEscape(rest + b);
        { JsonEscapeAppend(rest, b); }
        x + (y + z);
        (x + y) + z;
        { JsonEscapeCons(c, rest); }
        JsonEscape(a) + z;
      }
    }
  }

  /** `JSON.stringify` of a string. */
  function JsonQuote(s: string): string
  {
    "\"" + JsonEscape(s) + "\""
  }

  /** The character a two-character JSON escape stands for. */
  function ShortUnescape(c: char): Option<char>
  {
    if c == '"' then Some('"')
    else if c == '\\' then Some('\\')
    else if c == 'b' then Some('\U{8}')
    else if c == 't' then Some('\t')
    else if c == 'n' then Some('\n')
    else if c == 'f' then Some('\U{c}')
    else if c == 'r' then Some('\r')
    else None
  }

  /** Reading back the body of a JSON string made of the escapes `JsonEscape` writes. */
  function JsonUnescape(t: string): Option<string>
    decreases |t|
  {
    if |t| == 0 then Some("")
    else if t[0] != '\\' then
      match JsonUnescape(t[1..])
      case None => None
      case Some(rest) => Some([t[0]] + rest)
    else if |t| >= 2 && ShortUnescape(t[1]).Some? then
      match JsonUnescape(t[2..])
      case None => None
      case Some(rest) => Some([ShortUnescape(t[1]).value] + rest)
    else if |t| >= 6 && t[1] == 'u' && t[2] == '0' && t[3] == '0' && IsLowerHexDigit(t[4]) && IsLowerHexDigit(t[5]) then
      match JsonUnescape(t[6..])
      case None => None
      case Some(rest) => Some([(HexValue(t[4]) * 16 + HexValue(t[5])) as char] + rest)
    else None
  }

  /** A two-character escape reads back as its character. */
  lemma ShortEscapeRoundTrip(c: char)
    requires ShortEscape(c).Some?
    ensures ShortUnescape(ShortEscape(c).value) == Some(c)
  {
  }

  /** Reading back one escaped character. */
  lemma JsonUnescapeChar(c: char, rest: string)
    ensures JsonUnescape(JsonEscapeChar(c) + rest) ==
              if JsonUnescape(rest).Some? then Some([c] + JsonUnescape(rest).value) else None
  {
    var t := JsonEscapeChar(c) + rest;
    if ShortEscape(c).Some? {
      ShortEscapeRoundTrip(c);
      assert t[1] == ShortEscape(c).value && t[2..] == rest;
    } else if c as int < 0x20 {
      JsonUnescapeHex(c, rest);
    } else {
      assert t[1..] == rest;
    }
  }

  /** Reading back a `\u00xx` escape. */
  lemma JsonUnescapeHex(c: char, rest: string)
    requires ShortEscape(c).None? && c as int < 0x20
    ensures JsonUnescape(JsonEscapeChar(c) + rest) ==
              if JsonUnescape(rest).Some? then Some([c] + JsonUnescape(rest).value) else None
  {
    var hi, lo := c as int / 16, c as int % 16;
    var t := ['\\', 'u', '0', '0', HexDigit(hi), HexDigit(lo)] + rest;
    assert JsonEscapeChar(c) + rest == t;
    assert t[0] == '\\' && t[1] == 'u' && ShortUnescape('u').None?;
    assert t[2] == '0' && t[3] == '0' && t[4] == HexDigit(hi) && t[5] == HexDigit(lo);
    assert t[6..] == rest;
    assert HexValue(t[4]) * 16 + HexValue(t[5]) == c as int;
  }

  /** Reading back `JsonEscape(s)` gives `s`. */
  lemma {:induction false} JsonEscapeRoundTrip(s: string)
    ensures JsonUnescape(JsonEscape(s)) == Some(s)
  {
    if |s| > 0 {
      JsonEscapeRoundTrip(s[1..]);
      JsonUnescapeChar(s[0], JsonEscape(s[1..]));
      assert JsonEscape(s) == JsonEscapeChar(s[0]) + JsonEscape(s[1..]);
      assert [s[0]] + s[1..] == s;
    }
  }
}
