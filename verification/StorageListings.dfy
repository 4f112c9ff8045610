/** What listings and deletions return, from the operations before them alone. */
module StorageListings {
  import opened Mailbox
  import opened StorageRuns

  predicate DeletedIn(ops: seq<Op>, name: string) {
    exists k :: 0 <= k < |ops| && ops[k].Delete? && ops[k].name == name
  }

  /** The messages saved and not deleted after that, in the order in which they were saved. */
  function Visible(ops: seq<Op>): seq<Item> {
    if ops == [] then []
    else
      (match ops[0]
       case Save(e) => if e.deleted || DeletedIn(ops[1..], e.name) then [] else [Item(e.name, e.size, e.uid)]
       case _ => [])
      + Visible(ops[1..])
  }

  predicate SavedIn(ops: seq<Op>, name: string) {
    exists k :: 0 <= k < |ops| && ops[k].Save? && ops[k].e.name == name
  }

  lemma DeletedSnoc(ops: seq<Op>, op: Op, name: string)
    ensures DeletedIn(ops + [op], name) <==> DeletedIn(ops, name) || op == Op.Delete(name)
  {
    assert (ops + [op])[|ops|] == op && forall k :: 0 <= k < |ops| ==> (ops + [op])[k] == ops[k];
  }

  lemma SavedSnoc(ops: seq<Op>, op: Op, name: string)
    ensures SavedIn(ops + [op], name) <==> SavedIn(ops, name) || (op.Save? && op.e.name == name)
  {
    assert (ops + [op])[|ops|] == op && forall k :: 0 <= k < |ops| ==> (ops + [op])[k] == ops[k];
  }

  /** One operation more: a save adds its message at the end, and a delete takes out what has that name. */
  function Then(items: seq<Item>, op: Op): seq<Item> {
    match op
    case Save(e) => items + if e.deleted then [] else [Item(e.name, e.size, e.uid)]
    case Delete(name) => Without(items, {name})
    case List => items
  }

  lemma {:induction false} VisibleSnoc(ops: seq<Op>, op: Op)
    ensures Visible(ops + [op]) == Then(Visible(ops), op)
    decreases |ops|
  {
    hide DeletedIn;
    if ops == [] {
      assert ops + [op] == [op] && [op][1..] == [];
      NothingDeleted(op);
    } else {
      assert (ops + [op])[1..] == ops[1..] + [op];
      VisibleSnoc(ops[1..], op);
      if ops[0].Save? {
        DeletedSnoc(ops[1..], op, ops[0].e.name);
      }
      if op.Delete? {
        var head := if ops[0].Save? && !ops[0].e.deleted && !DeletedIn(ops[1..], ops[0].e.name)
                    then [Item(ops[0].e.name, ops[0].e.size, ops[0].e.uid)] else [];
        assert Visible(ops) == head + Visible(ops[1..]);
        WithoutConcat(head, Visible(ops[1..]), {op.name});
        assert head != [] ==> head[1..] == [];
      }
    }
  }

  lemma NothingDeleted(op: Op)
    ensures op.Save? ==> !DeletedIn([], op.e.name)
  {
  }

  /** What the metadata list after some operations is what these say. */
  lemma {:induction false} ListingIsVisible(ops: seq<Op>)
    requires FreshNames(ops)
    ensures Listing(ApplyAll(ops)) == Visible(ops)
    ensures forall name :: Has(ApplyAll(ops), name) <==> SavedIn(ops, name)
    decreases |ops|
  {
    if ops != [] {
      var before, op := ops[..|ops| - 1], ops[|ops| - 1];
      assert before + [op] == ops;
      FreshBefore(before, op);
      ListingIsVisible(before);
      OneMoreOp(before, op);
      VisibleSnoc(before, op);
      hide Visible, Listing, SavedIn, Has, ApplyAll;
      forall name ensures Has(ApplyAll(ops), name) <==> SavedIn(ops, name) {
        SavedSnoc(before, op, name);
      }
    }
  }

  lemma FreshBefore(before: seq<Op>, op: Op)
    requires FreshNames(before + [op])
    ensures FreshNames(before)
  {
    assert forall i :: 0 <= i < |before| ==> (before + [op])[i] == before[i];
  }

  lemma OneMoreOp(before: seq<Op>, op: Op)
    requires FreshNames(before + [op])
    ensures var m, m' := ApplyAll(before), ApplyAll(before + [op]);
            && Listing(m') == Then(Listing(m), op)
            && forall name :: Has(m', name) <==> Has(m, name) || (op.Save? && op.e.name == name)
  {
    assert (before + [op])[..|before|] == before;
    var m := ApplyAll(before);
    match op
    case Save(e) =>
      SavedNameIsNew(before, op);
      PutFresh(m, e);
      ListingConcat(m, [e]);
      ListingOne(e);
      HasSnoc(m, e);
    case Delete(name) =>
      ListingMarked(m, name);
      HasMarked(m, name);
    case List =>
  }

  lemma HasSnoc(m: Meta, e: Entry)
    ensures forall name :: Has(m + [e], name) <==> Has(m, name) || e.name == name
  {
    forall name ensures Has(m + [e], name) <==> Has(m, name) || e.name == name {
      assert (m + [e])[|m|] == e && forall i :: 0 <= i < |m| ==> (m + [e])[i] == m[i];
    }
  }

  lemma HasMarked(m: Meta, marked: string)
    ensures forall name :: Has(MarkDeleted(m, marked), name) <==> Has(m, name)
  {
    assert forall i :: 0 <= i < |m| ==> MarkDeleted(m, marked)[i].name == m[i].name;
  }

  /** A listing that has returned shows, in the order in which they were saved, exactly the messages whose save took the
      lock before it and for which no delete did so in between; and a delete finds its message if and only if the
      message had been saved. */
  lemma ResultsFromTheLog(s: Store, u: string, i: nat)
    requires Reachable(s) && FreshNames(s.Log(u)) && i < |s.Results(u)|
    ensures i < |s.Log(u)|
    ensures s.Log(u)[i].List? ==> s.Results(u)[i] == Listed(Visible(s.Log(u)[..i]))
    ensures s.Log(u)[i].Delete? ==> s.Results(u)[i] == Result.Deleted(SavedIn(s.Log(u)[..i], s.Log(u)[i].name))
    ensures s.Log(u)[i].Save? ==> s.Results(u)[i] == Saved
  {
    Linearizable(s, u);
    hide Reachable, Visible, SavedIn, ApplyAll;
    var ops := s.Log(u)[..i];
    assert FreshNames(ops);
    ListingIsVisible(ops);
  }
}
