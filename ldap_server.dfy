// The directory server the code talks to through ldapjs-promise: an
// in-memory directory whose add, delete and modify operations follow
// sections 4.6-4.8 of RFC 4511 (values compared as exact strings).
module LdapServer {
  import opened Wrappers
  import opened MyTypes

  /** The directory: every entry by DN, in creation order. */
  type Store = MyMap<Dn, Entry>

  datatype Operation = OpAdd | OpDelete | OpReplace

  /** `ldapjs.Change`: one operation on one attribute. */
  datatype Change = Change(operation: Operation, attr: string, values: seq<string>)

  predicate NoDuplicates(vs: seq<string>)
  {
    forall i, j :: 0 <= i < j < |vs| ==> vs[i] != vs[j]
  }

  /** The values of `vs` not listed in `removed`, in order. */
  function RemoveValues(vs: seq<string>, removed: seq<string>): (r: seq<string>)
    ensures forall v :: v in r <==> v in vs && v !in removed
    ensures |r| <= |vs|
  {
    if |vs| == 0 then []
    else if vs[0] in removed then RemoveValues(vs[1..], removed)
    else assert vs == [vs[0]] + vs[1..]; [vs[0]] + RemoveValues(vs[1..], removed)
  }

  /** The values of attribute `attr` (none when absent). */
  function Values(e: Entry, attr: string): seq<string>
  {
    if attr in e then e[attr] else []
  }

  /** An entry with `attr` set to `vs`, or without `attr` when `vs` is empty. */
  function WithValues(e: Entry, attr: string, vs: seq<string>): (r: Entry)
    ensures Values(r, attr) == vs
    ensures forall a :: a != attr ==> (a in r <==> a in e) && (a in e ==> r[a] == e[a])
  {
    if |vs| == 0 then e - {attr} else e[attr := vs]
  }

  /** One modification of section 4.6 of RFC 4511. */
  function ApplyChange(e: Entry, c: Change): (r: Result<Entry>)
    ensures r.Ok? ==> forall a :: a != c.attr ==> (a in r.value <==> a in e) && (a in e ==> r.value[a] == e[a])
    ensures c.operation == OpAdd ==>
              (r.Ok? <==> |c.values| > 0 && NoDuplicates(c.values) && forall v :: v in c.values ==> v !in Values(e, c.attr))
    ensures c.operation == OpAdd && r.Ok? ==> Values(r.value, c.attr) == Values(e, c.attr) + c.values
    ensures c.operation == OpDelete ==>
              (r.Ok? <==> if |c.values| == 0 then c.attr in e else forall v :: v in c.values ==> v in Values(e, c.attr))
    ensures c.operation == OpDelete && r.Ok? ==>
              Values(r.value, c.attr) == if |c.values| == 0 then [] else RemoveValues(Values(e, c.attr), c.values)
    ensures c.operation == OpReplace ==> r == Ok(WithValues(e, c.attr, c.values))
  {
    var current := Values(e, c.attr);
    match c.operation
    case OpAdd =>
      if |c.values| == 0 then Err("protocolError")
      else if !NoDuplicates(c.values) || exists v :: v in c.values && v in current then Err("attributeOrValueExists")
      else Ok(WithValues(e, c.attr, current + c.values))
    case OpDelete =>
      if |c.values| == 0 then
        if c.attr in e then Ok(e - {c.attr}) else Err("noSuchAttribute")
      else if exists v :: v in c.values && v !in current then Err("noSuchAttribute")
      else Ok(WithValues(e, c.attr, RemoveValues(current, c.values)))
    case OpReplace =>
      Ok(WithValues(e, c.attr, c.values))
  }

  /** The changes of one modify request, in order; the first failure fails them all. */
  function ApplyChanges(e: Entry, cs: seq<Change>): (r: Result<Entry>)
    decreases |cs|
    ensures r.Ok? ==> forall a :: (forall i :: 0 <= i < |cs| ==> cs[i].attr != a) ==>
              (a in r.value <==> a in e) && (a in e ==> r.value[a] == e[a])
  {
    if |cs| == 0 then Ok(e)
    else
      var e1 :- ApplyChange(e, cs[0]);
      ApplyChanges(e1, cs[1..])
  }

  /** Adding then deleting fresh values gives the attribute back. */
  lemma AddThenDelete(e: Entry, attr: string, vs: seq<string>)
    requires |vs| > 0 && NoDuplicates(vs) && forall v :: v in vs ==> v !in Values(e, attr)
    ensures ApplyChange(e, Change(OpAdd, attr, vs)).Ok?
    ensures ApplyChange(ApplyChange(e, Change(OpAdd, attr, vs)).value, Change(OpDelete, attr, vs)).Ok?
    ensures Values(ApplyChange(ApplyChange(e, Change(OpAdd, attr, vs)).value, Change(OpDelete, attr, vs)).value, attr) == Values(e, attr)
  {
    var e1 := ApplyChange(e, Change(OpAdd, attr, vs)).value;
    RemoveAppended(Values(e, attr), vs);
  }

  lemma {:induction false} RemoveAppended(vs: seq<string>, added: seq<string>)
    requires forall v :: v in added ==> v !in vs
    ensures RemoveValues(vs + added, added) == vs
  {
    if |vs| == 0 {
      assert vs + added == added;
      RemoveCovered(added, added);
    } else {
      assert (vs + added)[1..] == vs[1..] + added;
      RemoveAppended(vs[1..], added);
    }
  }

  lemma {:induction false} RemoveCovered(vs: seq<string>, removed: seq<string>)
    requires forall v :: v in vs ==> v in removed
    ensures RemoveValues(vs, removed) == []
  {
    if |vs| > 0 {
      assert vs[0] in vs;
      RemoveCovered(vs[1..], removed);
    }
  }

  /** The directory server: entries that `add`, `del` and `modify` change in place. */
  class Directory {
    var entries: Store

    ghost predicate Valid()
      reads this
    {
      UniqueKeys(entries)
    }

    constructor (initial: Store)
      requires UniqueKeys(initial)
      ensures Valid() && entries == initial
    {
      entries := initial;
    }

    /** `ldapP.add`: a new entry, refused when the DN is taken. */
    method Add(dn: Dn, e: Entry) returns (r: Outcome)
      requires Valid()
      modifies this
      ensures Valid()
      ensures Get(old(entries), dn).Some? ==> r == Fail("entryAlreadyExists") && entries == old(entries)
      ensures Get(old(entries), dn).None? ==> r == Pass && entries == old(entries) + [(dn, e)]
    {
      if Get(entries, dn).Some? {
        r := Fail("entryAlreadyExists");
      } else {
        PutAbsentAppends(entries, dn, e);
        entries := Put(entries, dn, e);
        r := Pass;
      }
    }

    /** `ldapP.del`: removes an entry, refused when there is none. */
    method Delete(dn: Dn) returns (r: Outcome)
      requires Valid()
      modifies this
      ensures Valid()
      ensures Get(old(entries), dn).None? ==> r == Fail("noSuchObject") && entries == old(entries)
      ensures Get(old(entries), dn).Some? ==> r == Pass && entries == Remove(old(entries), dn)
    {
      if Get(entries, dn).None? {
        r := Fail("noSuchObject");
      } else {
        entries := Remove(entries, dn);
        r := Pass;
      }
    }

    /** `ldapP.modify`: all the changes or none of them. */
    method Modify(dn: Dn, cs: seq<Change>) returns (r: Outcome)
      requires Valid()
      modifies this
      ensures Valid()
      ensures Get(old(entries), dn).None? ==> r == Fail("noSuchObject") && entries == old(entries)
      ensures Get(old(entries), dn).Some? && ApplyChanges(Get(old(entries), dn).value, cs).Err? ==>
                r == Fail(ApplyChanges(Get(old(entries), dn).value, cs).msg) && entries == old(entries)
      ensures Get(old(entries), dn).Some? && ApplyChanges(Get(old(entries), dn).value, cs).Ok? ==>
                r == Pass && entries == Put(old(entries), dn, ApplyChanges(Get(old(entries), dn).value, cs).value)
    {
      var current := Get(entries, dn);
      if current.None? {
        r := Fail("noSuchObject");
      } else {
        var updated := ApplyChanges(current.value, cs);
        if updated.Err? {
          r := Fail(updated.msg);
        } else {
          entries := Put(entries, dn, updated.value);
          r := Pass;
        }
      }
    }
  }
}
