// The stem hierarchy over ids (server/stem_helpers.ts). Ids are strings in
// which the configured separator delimits levels; a stem's id ends with the
// separator and the root has the configured root id.
module StemHelpers {
  import opened Wrappers
  import opened JsString
  import opened Helpers

  /** `rbefore`: `s` up to and including the last occurrence of `end`. */
  function Rbefore(s: string, end: string): (r: Option<string>)
    ensures r.None? <==> forall j: nat :: !OccursAt(s, end, j)
    ensures r.Some? ==> r.value <= s && EndsWith(r.value, end)
    ensures r.Some? ==> forall j: nat :: j + |end| > |r.value| ==> !OccursAt(s, end, j)
  {
    match LastIndexOf(s, end)
    case None => None
    case Some(i) =>
      assert s[..i + |end|][i..] == s[i..i + |end|];
      Some(s[..i + |end|])
  }

  /** `parent_stem`: the stem directly above `id`, none for the root. */
  function ParentStem(id: string, sep: string, root: string): (r: Option<string>)
    ensures r.None? <==> id == root
    ensures r.Some? && r.value != root ==> r.value <= id && EndsWith(r.value, sep)
    ensures sep != "" && r.Some? && r.value != root ==> |r.value| < |id|
    ensures r.Some? && r.value != root ==> forall j: nat :: j + |sep| > |r.value| ==> !OccursAt(MayStripSuffix(id, sep), sep, j)
    ensures id != root && (forall j: nat :: !OccursAt(MayStripSuffix(id, sep), sep, j)) ==> r == Some(root)
  {
    if id == root then None
    else
      var id' := MayStripSuffix(id, sep);
      assert id' <= id;
      match Rbefore(id', sep)
      case Some(p) =>
        assert sep != "" ==> |p| < |id| by {
          if sep != "" {
            if EndsWith(id, sep) {
              assert |id'| == |id| - |sep|;
            } else {
              assert id' == id;
              assert p != id;
            }
          }
        }
        Some(p)
      case None => Some(root)
  }

  /** What `parent_stems` collects: the ancestors of `id`, nearest first. */
  function ParentStemsSpec(id: string, sep: string, root: string): seq<string>
    requires sep != ""
    decreases if id == root then 0 else 1, |id|
  {
    match ParentStem(id, sep, root)
    case None => []
    case Some(p) => [p] + ParentStemsSpec(p, sep, root)
  }

  /** `parent_stems` */
  method ParentStems(id: string, sep: string, root: string) returns (stems: seq<string>)
    requires sep != ""
    ensures stems == ParentStemsSpec(id, sep, root)
  {
    stems := [];
    var cur := id;
    while true
      invariant ParentStemsSpec(id, sep, root) == stems + ParentStemsSpec(cur, sep, root)
      decreases if cur == root then 0 else 1, |cur|
    {
      var parent := ParentStem(cur, sep, root);
      if parent.None? {
        break;
      }
      cur := parent.value;
      stems := stems + [cur];
    }
  }

  /** The root has no ancestors; every other id has the root as its farthest ancestor. */
  lemma {:induction false} ParentStemsEndAtRoot(id: string, sep: string, root: string)
    requires sep != ""
    ensures id == root <==> ParentStemsSpec(id, sep, root) == []
    ensures id != root ==> ParentStemsSpec(id, sep, root)[|ParentStemsSpec(id, sep, root)| - 1] == root
    decreases if id == root then 0 else 1, |id|
  {
    if id != root {
      var p := ParentStem(id, sep, root).value;
      ParentStemsEndAtRoot(p, sep, root);
    }
  }

  /** Ancestors are the root or strict prefixes ending in the separator, so never `id` itself. */
  lemma {:induction false} ParentStemsAreProperAncestors(id: string, sep: string, root: string)
    requires sep != ""
    ensures forall s :: s in ParentStemsSpec(id, sep, root) ==>
              s == root || (s <= id && |s| < |id| && EndsWith(s, sep))
    ensures id != root ==> id !in ParentStemsSpec(id, sep, root)
    decreases if id == root then 0 else 1, |id|
  {
    if id != root {
      var p := ParentStem(id, sep, root).value;
      ParentStemsAreProperAncestors(p, sep, root);
      forall s | s in ParentStemsSpec(p, sep, root) && s != root ensures s <= id && |s| < |id| {
        assert p != root;
      }
    }
  }

  /** A segment of an id: non-empty, only word characters or `-`. */
  predicate ValidSegment(one: string)
  {
    one != "" && forall i :: 0 <= i < |one| ==> IsWordChar(one[i]) || one[i] == '-'
  }

  /** The ids `validate_sgroup_id` accepts. */
  predicate ValidSgroupId(id: string, sep: string, root: string)
  {
    id == root || forall one :: one in Split(MayStripSuffix(id, sep), sep) ==> ValidSegment(one)
  }

  /** `validate_sgroup_id` */
  method ValidateSgroupId(id: string, sep: string, root: string) returns (r: Outcome)
    ensures r.Pass? <==> ValidSgroupId(id, sep, root)
    ensures r.Fail? ==> r.msg == "invalid sgroup id"
  {
    if id != root {
      var segments := Split(MayStripSuffix(id, sep), sep);
      var i := 0;
      while i < |segments|
        invariant 0 <= i <= |segments|
        invariant forall k :: 0 <= k < i ==> ValidSegment(segments[k])
      {
        var one := segments[i];
        if one == "" || exists c :: c in one && !(IsWordChar(c) || c == '-') {
          assert !ValidSegment(one) by {
            if one != "" {
              var c :| c in one && !(IsWordChar(c) || c == '-');
              var k :| 0 <= k < |one| && one[k] == c;
            }
          }
          assert one in Split(MayStripSuffix(id, sep), sep);
          return Fail("invalid sgroup id");
        }
        i := i + 1;
      }
    }
    return Pass;
  }

  /** `is_stem`: the root or an id ending in `.`, whatever the configured separator. */
  function IsStem(id: string, root: string): (r: bool)
    ensures r <==> id == root || EndsWith(id, ".")
  {
    id == root || EndsWith(id, ".")
  }

  /** With `:` as separator, `a:` is the parent stem of `a:b` yet not a stem for `is_stem`. */
  lemma IsStemHardcodesDot()
    ensures ParentStem("a:b", ":", "") == Some("a:")
    ensures !IsStem("a:", "")
  {
    var id := "a:b";
    assert id[1..2] == ":" && id[2..3] == "b";
    assert OccursAt(id, ":", 1) && !OccursAt(id, ":", 2) && !OccursAt(id, ":", 3);
    assert !EndsWith(id, ":");
    assert LastIndexOf(id, ":") == Some(1);
    assert id[..2] == "a:";
  }

  /** `is_grandchild`: `gchild` lies under `parent`, at least two levels down. */
  function IsGrandchild(parent: string, gchild: string, sep: string): (r: bool)
    ensures r <==> parent <= gchild && Contains(MayStripSuffix(gchild[|parent|..], sep), sep)
  {
    match StripPrefix(gchild, parent)
    case Some(sub) => Contains(MayStripSuffix(sub, sep), sep)
    case None => false
  }

  /** A direct child (a segment, optionally followed by the separator) is never a grandchild. */
  lemma DirectChildIsNotGrandchild(parent: string, one: string, sep: string)
    requires sep != "" && !Contains(one, sep)
    ensures !IsGrandchild(parent, parent + one, sep)
    ensures !IsGrandchild(parent, parent + one + sep, sep)
  {
    assert (parent + one)[|parent|..] == one;
    assert (parent + one + sep)[|parent|..] == one + sep;
    if EndsWith(one, sep) {
      assert OccursAt(one, sep, |one| - |sep|);
    }
    assert EndsWith(one + sep, sep) by {
      assert (one + sep)[|one + sep| - |sep|..] == sep;
    }
    assert MayStripSuffix(one + sep, sep) == one;
  }

  /** Two levels below the parent is a grandchild. */
  lemma TwoLevelsDownIsGrandchild(parent: string, one: string, two: string, sep: string)
    requires two != "" && !EndsWith(one + sep + two, sep)
    ensures IsGrandchild(parent, parent + one + sep + two, sep)
  {
    var rest := one + sep + two;
    assert (parent + one + sep + two)[|parent|..] == rest;
    assert rest[|one|..|one| + |sep|] == sep;
    assert OccursAt(rest, sep, |one|);
  }
}
