/** The metadata of one mailbox, as metadata.json keeps it: a dictionary from file names to entries, in order of
    insertion. */
module Mailbox {

  datatype Entry = Entry(name: string, uid: string, size: nat, deleted: bool)

  type Meta = seq<Entry>

  /** A line of a listing: what list_messages returns for a visible message. */
  datatype Item = Item(name: string, size: nat, uid: string)

  predicate Has(m: Meta, name: string) {
    exists i :: 0 <= i < |m| && m[i].name == name
  }

  /** A dictionary has each key once. */
  ghost predicate Distinct(m: Meta) {
    forall i, j :: 0 <= i < j < |m| ==> m[i].name != m[j].name
  }

  /** metadata["messages"][e.name] = e: an existing key keeps its place, a new one goes last. */
  function Put(m: Meta, e: Entry): Meta {
    if m == [] then [e]
    else if m[0].name == e.name then [e] + m[1..]
    else [m[0]] + Put(m[1..], e)
  }

  /** metadata["messages"][name]["deleted"] = True, for a name that is there; otherwise nothing. */
  function MarkDeleted(m: Meta, name: string): Meta {
    seq(|m|, i requires 0 <= i < |m| => if m[i].name == name then m[i].(deleted := true) else m[i])
  }

  function ItemOf(e: Entry): Item {
    Item(e.name, e.size, e.uid)
  }

  /** The visible messages, in order. */
  function Listing(m: Meta): seq<Item> {
    if m == [] then []
    else (if m[0].deleted then [] else [ItemOf(m[0])]) + Listing(m[1..])
  }

  lemma {:induction false} PutFresh(m: Meta, e: Entry)
    requires !Has(m, e.name)
    ensures Put(m, e) == m + [e]
  {
    if m != [] {
      assert m[0].name != e.name;
      assert forall i :: 0 <= i < |m[1..]| ==> m[1..][i] == m[i + 1];
      PutFresh(m[1..], e);
    }
  }

  /** An existing key keeps its place and gets the new entry. */
  lemma {:induction false} PutExisting(m: Meta, e: Entry, i: nat)
    requires Distinct(m) && i < |m| && m[i].name == e.name
    ensures Put(m, e) == m[i := e]
  {
    if i > 0 {
      assert m[0].name != e.name;
      assert forall j :: 0 <= j < |m[1..]| ==> m[1..][j] == m[j + 1];
      PutExisting(m[1..], e, i - 1);
      assert m == [m[0]] + m[1..];
    }
  }

  /** A listing shows name, size and UID of each entry that is not deleted; those of longer metadata follow by
      ListingConcat. */
  lemma ListingOne(e: Entry)
    ensures Listing([e]) == if e.deleted then [] else [Item(e.name, e.size, e.uid)]
  {
    assert [e][1..] == [];
  }

  lemma {:induction false} ListingConcat(m: Meta, n: Meta)
    ensures Listing(m + n) == Listing(m) + Listing(n)
  {
    if m == [] {
      assert m + n == n;
    } else {
      assert (m + n)[1..] == m[1..] + n;
      ListingConcat(m[1..], n);
    }
  }

  lemma {:induction false} ListingNames(m: Meta, item: Item)
    requires item in Listing(m)
    ensures exists e :: e in m && !e.deleted && ItemOf(e) == item
  {
    if item in Listing(m[1..]) {
      ListingNames(m[1..], item);
      var e :| e in m[1..] && !e.deleted && ItemOf(e) == item;
      assert e in m;
    } else {
      assert m[0] in m && ItemOf(m[0]) == item;
    }
  }

  /** A listing names each file once. */
  lemma {:induction false} ListingDistinct(m: Meta)
    requires Distinct(m)
    ensures forall i, j :: 0 <= i < j < |Listing(m)| ==> Listing(m)[i].name != Listing(m)[j].name
  {
    if m != [] {
      assert Distinct(m[1..]) by {
        assert forall i :: 0 <= i < |m[1..]| ==> m[1..][i] == m[i + 1];
      }
      ListingDistinct(m[1..]);
      if !m[0].deleted {
        var rest := Listing(m[1..]);
        forall j | 0 <= j < |rest| ensures rest[j].name != m[0].name {
          ListingNames(m[1..], rest[j]);
          var e :| e in m[1..] && ItemOf(e) == rest[j];
          var k :| 0 <= k < |m[1..]| && m[1..][k] == e;
          assert m[k + 1] == e;
        }
        assert Listing(m) == [ItemOf(m[0])] + rest;
      }
    }
  }

  /** The items of a listing whose file is not among names. */
  function Without(items: seq<Item>, names: set<string>): seq<Item> {
    if items == [] then []
    else (if items[0].name in names then [] else [items[0]]) + Without(items[1..], names)
  }

  lemma {:induction false} WithoutConcat(a: seq<Item>, b: seq<Item>, names: set<string>)
    ensures Without(a + b, names) == Without(a, names) + Without(b, names)
  {
    if a == [] {
      assert a + b == b;
    } else {
      assert (a + b)[1..] == a[1..] + b;
      WithoutConcat(a[1..], b, names);
    }
  }

  lemma {:induction false} WithoutTwice(items: seq<Item>, a: set<string>, b: set<string>)
    ensures Without(Without(items, a), b) == Without(items, a + b)
  {
    if items != [] {
      WithoutTwice(items[1..], a, b);
      if items[0].name !in a {
        assert ([items[0]] + Without(items[1..], a))[1..] == Without(items[1..], a);
      } else {
        assert [] + Without(items[1..], a) == Without(items[1..], a);
      }
    }
  }

  lemma {:induction false} WithoutNone(items: seq<Item>, names: set<string>)
    requires forall i :: 0 <= i < |items| ==> items[i].name !in names
    ensures Without(items, names) == items
  {
    if items != [] {
      assert forall i :: 0 <= i < |items[1..]| ==> items[1..][i] == items[i + 1];
      WithoutNone(items[1..], names);
    }
  }

  lemma {:induction false} ListingMarked(m: Meta, name: string)
    ensures Listing(MarkDeleted(m, name)) == Without(Listing(m), {name})
  {
    if m != [] {
      assert MarkDeleted(m, name)[1..] == MarkDeleted(m[1..], name);
      ListingMarked(m[1..], name);
      WithoutConcat(if m[0].deleted then [] else [ItemOf(m[0])], Listing(m[1..]), {name});
    }
  }

  lemma PutDistinct(m: Meta, e: Entry)
    requires Distinct(m) && !Has(m, e.name)
    ensures Distinct(Put(m, e))
  {
    PutFresh(m, e);
  }

  lemma MarkDistinct(m: Meta, name: string)
    requires Distinct(m)
    ensures Distinct(MarkDeleted(m, name))
  {
  }

  /** m' has every entry of m in its place, with nothing changed but deleted flags, and those only set. */
  ghost predicate Extends(m: Meta, m': Meta) {
    && |m| <= |m'|
    && forall i :: 0 <= i < |m| ==> m'[i] == m[i] || m'[i] == m[i].(deleted := true)
  }
}
