/** One POP3 session from its beginning past the end of its QUIT, while mail for its mailbox is stored in between.
    Messages are numbered by their place in a listing made anew for every command, yet the numbers hold. */
module Pop3Runs {
  import opened Wrappers
  import opened Text
  import opened Mailbox
  import opened Pop3Session

  /** While Closing, QUIT works through the marked numbers, highest first, by the listing it made at its start; late
      is the mail stored since then. */
  datatype Mode =
    | Open
    | Closing(listing: seq<Item>, pending: seq<int>, late: seq<Item>)
    | Closed(listing: seq<Item>, late: seq<Item>)

  /** base is the listing when the session began, and arrived the mail stored since. */
  datatype Run = Run(meta: Meta, session: Session, mode: Mode, base: seq<Item>, arrived: seq<Item>)

  datatype Step = Deliver(e: Entry) | Do(c: Command) | Quit(order: seq<int>) | DeleteNext | Finish

  /** sorted(marked, reverse=True). */
  ghost predicate Descending(order: seq<int>, marked: set<int>) {
    && (forall i, j :: 0 <= i < j < |order| ==> order[i] > order[j])
    && (forall n :: n in order <==> n in marked)
  }

  /** The assumption on the other parties: stored mail has a fresh name, and nobody else deletes. */
  ghost predicate Enabled(r: Run, t: Step) {
    match t
    case Deliver(e) => !Has(r.meta, e.name) && !e.deleted
    case Do(_) => r.mode.Open?
    case Quit(order) => r.mode.Open? && Descending(order, r.session.marked)
    case DeleteNext => r.mode.Closing? && r.mode.pending != []
    case Finish => r.mode.Closing? && r.mode.pending == []
  }

  /** The file a number stands for in a listing; out of range the program would raise IndexError. */
  function NameOf(listing: seq<Item>, n: int): Option<string> {
    if 1 <= n <= |listing| then Some(listing[n - 1].name) else None
  }

  function Next(r: Run, users: Users, t: Step): Run {
    match t
    case Deliver(e) =>
      r.(meta := Put(r.meta, e), arrived := r.arrived + [ItemOf(e)],
         mode := match r.mode
                 case Open => Open
                 case Closing(l, p, late) => Closing(l, p, late + [ItemOf(e)])
                 case Closed(l, late) => Closed(l, late + [ItemOf(e)]))
    case Do(c) => r.(session := After(r.session, users, Listing(r.meta), c))
    case Quit(order) => r.(mode := Closing(Listing(r.meta), order, []))
    case DeleteNext =>
      if r.mode.Closing? && r.mode.pending != [] then
        match NameOf(r.mode.listing, r.mode.pending[0])
        case Some(name) => r.(meta := MarkDeleted(r.meta, name), mode := r.mode.(pending := r.mode.pending[1..]))
        case None => r.(mode := r.mode.(pending := r.mode.pending[1..]))
      else r
    case Finish => if r.mode.Closing? then r.(mode := Closed(r.mode.listing, r.mode.late)) else r
  }

  ghost predicate Runs(r: Run, users: Users, steps: seq<Step>, r': Run)
    decreases |steps|
  {
    if steps == [] then r == r'
    else Enabled(r, steps[0]) && Runs(Next(r, users, steps[0]), users, steps[1..], r')
  }

  /** A new session, on any mailbox. */
  ghost predicate Opened(r: Run) {
    && Distinct(r.meta) && r.session == NEW_SESSION && r.mode.Open? && r.base == Listing(r.meta) && r.arrived == []
  }

  // ---------------------------------------------------------------- the invariant

  ghost predicate InRange(marked: set<int>, count: nat) {
    forall n :: n in marked ==> 1 <= n <= count
  }

  function Names(listing: seq<Item>, numbers: seq<int>): set<string> {
    set n | n in numbers && 1 <= n <= |listing| :: listing[n - 1].name
  }

  /** Listing by listing: while the session is open, the listing is the first one followed by what arrived; while it
      closes, the listing of QUIT without the messages deleted so far, followed by what came late. */
  ghost predicate Inv(r: Run) {
    && Distinct(r.meta)
    && match r.mode
       case Open => Listing(r.meta) == r.base + r.arrived && InRange(r.session.marked, |Listing(r.meta)|)
       case Closing(listing, pending, late) =>
         && listing + late == r.base + r.arrived && InRange(r.session.marked, |listing|) && NoTwins(listing)
         && exists done :: Deleting(r, listing, done, pending, late)
       case Closed(listing, late) =>
         && listing + late == r.base + r.arrived && InRange(r.session.marked, |listing|) && NoTwins(listing)
         && Settled(r, listing, late)
  }

  ghost predicate Settled(r: Run, listing: seq<Item>, late: seq<Item>) {
    && Listing(r.meta) == Kept(listing, r.session.marked, 1) + late
    && (forall i :: 0 <= i < |listing| ==> Has(r.meta, listing[i].name))
    && Apart(listing, late)
  }

  ghost predicate Deleting(r: Run, listing: seq<Item>, done: seq<int>, pending: seq<int>, late: seq<Item>) {
    && Descending(done + pending, r.session.marked)
    && Listing(r.meta) == Without(listing, Names(listing, done)) + late
    && (forall i :: 0 <= i < |listing| ==> Has(r.meta, listing[i].name))
    && Apart(listing, late)
  }

  ghost predicate Apart(listing: seq<Item>, late: seq<Item>) {
    forall i, k :: 0 <= i < |listing| && 0 <= k < |late| ==> late[k].name != listing[i].name
  }

  ghost predicate NoTwins(listing: seq<Item>) {
    forall i, j :: 0 <= i < j < |listing| ==> listing[i].name != listing[j].name
  }

  lemma OpenedInv(r: Run)
    requires Opened(r)
    ensures Inv(r)
  {
    assert r.base + [] == r.base;
  }

  lemma DeliveredListing(m: Meta, e: Entry)
    requires Distinct(m) && !Has(m, e.name) && !e.deleted
    ensures Distinct(Put(m, e)) && Listing(Put(m, e)) == Listing(m) + [ItemOf(e)]
    ensures forall name :: Has(m, name) ==> Has(Put(m, e), name)
  {
    PutFresh(m, e);
    PutDistinct(m, e);
    ListingConcat(m, [e]);
    forall name | Has(m, name) ensures Has(m + [e], name) {
      var i :| 0 <= i < |m| && m[i].name == name;
      assert (m + [e])[i].name == name;
    }
  }

  lemma DeliverInv(r: Run, users: Users, e: Entry)
    requires Inv(r) && Enabled(r, Deliver(e))
    ensures Inv(Next(r, users, Deliver(e)))
  {
    hide Distinct, Listing, Kept, Has, NoTwins, Put, Deleting, Settled;
    var r' := Next(r, users, Deliver(e));
    DeliveredListing(r.meta, e);
    var x := ItemOf(e);
    assert r.base + (r.arrived + [x]) == (r.base + r.arrived) + [x];
    match r.mode
    case Open =>
    case Closing(listing, pending, late) =>
      var done :| Deleting(r, listing, done, pending, late);
      assert listing + (late + [x]) == (listing + late) + [x];
      LateWhileClosing(r, r', e, listing, done, pending, late);
    case Closed(listing, late) =>
      assert listing + (late + [x]) == (listing + late) + [x];
      LateWhenClosed(r, r', e, listing, late);
  }

  lemma LateWhileClosing(r: Run, r': Run, e: Entry, listing: seq<Item>, done: seq<int>, pending: seq<int>,
                         late: seq<Item>)
    requires Deleting(r, listing, done, pending, late) && !Has(r.meta, e.name) && r'.session == r.session
    requires Listing(r'.meta) == Listing(r.meta) + [ItemOf(e)]
             && forall name :: Has(r.meta, name) ==> Has(r'.meta, name)
    ensures Deleting(r', listing, done, pending, late + [ItemOf(e)])
  {
    hide Listing, Without, Names, Descending, Has;
    var kept := Without(listing, Names(listing, done));
    assert (kept + late) + [ItemOf(e)] == kept + (late + [ItemOf(e)]);
  }

  lemma LateWhenClosed(r: Run, r': Run, e: Entry, listing: seq<Item>, late: seq<Item>)
    requires Settled(r, listing, late) && !Has(r.meta, e.name) && r'.session == r.session
    requires Listing(r'.meta) == Listing(r.meta) + [ItemOf(e)]
             && forall name :: Has(r.meta, name) ==> Has(r'.meta, name)
    ensures Settled(r', listing, late + [ItemOf(e)])
  {
    hide Listing, Kept, Has;
    var kept := Kept(listing, r.session.marked, 1);
    assert (kept + late) + [ItemOf(e)] == kept + (late + [ItemOf(e)]);
  }

  lemma DoInv(r: Run, users: Users, c: Command)
    requires Inv(r) && Enabled(r, Do(c))
    ensures Inv(Next(r, users, Do(c)))
  {
  }

  lemma ListedAreThere(m: Meta, i: nat)
    requires i < |Listing(m)|
    ensures Has(m, Listing(m)[i].name)
  {
    var item := Listing(m)[i];
    ListingNames(m, item);
    var e :| e in m && !e.deleted && ItemOf(e) == item;
    var k :| 0 <= k < |m| && m[k] == e;
    assert m[k].name == item.name;
  }

  lemma QuitInv(r: Run, users: Users, order: seq<int>)
    requires Inv(r) && Enabled(r, Quit(order))
    ensures Inv(Next(r, users, Quit(order)))
  {
    var r', listing := Next(r, users, Quit(order)), Listing(r.meta);
    ListingDistinct(r.meta);
    assert Names(listing, []) == {};
    WithoutNone(listing, {});
    assert [] + order == order && listing + [] == listing;
    forall i | 0 <= i < |listing| ensures Has(r.meta, listing[i].name) {
      ListedAreThere(r.meta, i);
    }
    assert Deleting(r', listing, [], order, []);
  }

  lemma NamesNext(listing: seq<Item>, done: seq<int>, n: int)
    requires 1 <= n <= |listing|
    ensures Names(listing, done + [n]) == Names(listing, done) + {listing[n - 1].name}
  {
    assert forall k :: k in done + [n] <==> k in done || k == n;
    var names := Names(listing, done);
    assert n in done + [n];
    forall name ensures name in Names(listing, done + [n]) <==> name in names + {listing[n - 1].name} {
      if name in names {
        var k :| k in done && 1 <= k <= |listing| && listing[k - 1].name == name;
        assert k in done + [n];
      }
    }
  }

  lemma MarkedKeeps(m: Meta, name: string)
    ensures forall other :: Has(m, other) ==> Has(MarkDeleted(m, name), other)
  {
    forall other | Has(m, other) ensures Has(MarkDeleted(m, name), other) {
      var i :| 0 <= i < |m| && m[i].name == other;
      assert MarkDeleted(m, name)[i].name == other;
    }
  }

  /** The listing after one more deletion. */
  lemma DeletedListing(m: Meta, listing: seq<Item>, done: seq<int>, n: int, late: seq<Item>)
    requires 1 <= n <= |listing| && Listing(m) == Without(listing, Names(listing, done)) + late && Apart(listing, late)
    ensures Listing(MarkDeleted(m, listing[n - 1].name)) == Without(listing, Names(listing, done + [n])) + late
  {
    var name := listing[n - 1].name;
    ListingMarked(m, name);
    WithoutConcat(Without(listing, Names(listing, done)), late, {name});
    WithoutTwice(listing, Names(listing, done), {name});
    WithoutNone(late, {name});
    NamesNext(listing, done, n);
  }

  lemma DeleteInv(r: Run, users: Users)
    requires Inv(r) && Enabled(r, DeleteNext)
    ensures Inv(Next(r, users, DeleteNext))
    ensures 1 <= r.mode.pending[0] <= |r.mode.listing|
  {
    hide Distinct, Listing, Without, Names, Descending, Has, MarkDeleted, Apart, NoTwins, Deleting;
    var listing, pending, late := r.mode.listing, r.mode.pending, r.mode.late;
    var done :| Deleting(r, listing, done, pending, late);
    NextMarked(r, listing, done, pending, late);
    var n := pending[0];
    var r' := Next(r, users, DeleteNext);
    MarkDistinct(r.meta, listing[n - 1].name);
    OneMoreDeleted(r, r', listing, done, pending, late);
  }

  lemma NextMarked(r: Run, listing: seq<Item>, done: seq<int>, pending: seq<int>, late: seq<Item>)
    requires Deleting(r, listing, done, pending, late) && pending != []
    ensures pending[0] in r.session.marked
  {
    assert (done + pending)[|done|] == pending[0];
  }

  lemma OneMoreDeleted(r: Run, r': Run, listing: seq<Item>, done: seq<int>, pending: seq<int>, late: seq<Item>)
    requires Deleting(r, listing, done, pending, late) && pending != [] && 1 <= pending[0] <= |listing|
    requires r'.session == r.session && r'.meta == MarkDeleted(r.meta, listing[pending[0] - 1].name)
    ensures Deleting(r', listing, done + [pending[0]], pending[1..], late)
  {
    hide Listing, Without, Names, Has, MarkDeleted, Descending, Apart;
    var n := pending[0];
    DeletedListing(r.meta, listing, done, n, late);
    MarkedKeeps(r.meta, listing[n - 1].name);
    assert (done + [n]) + pending[1..] == done + pending;
  }

  lemma {:induction false} KeptIsWithout(listing: seq<Item>, marked: set<int>, first: int, names: set<string>)
    requires forall i :: 0 <= i < |listing| ==> (listing[i].name in names <==> first + i in marked)
    ensures Kept(listing, marked, first) == Without(listing, names)
    decreases |listing|
  {
    if listing != [] {
      assert forall i :: 0 <= i < |listing[1..]| ==> listing[1..][i] == listing[i + 1];
      KeptIsWithout(listing[1..], marked, first + 1, names);
      assert listing[0].name in names <==> first + 0 in marked;
    }
  }

  /** Deleting by name, in whatever order, what the marked numbers stand for deletes exactly the marked messages. */
  lemma MarkedByName(listing: seq<Item>, done: seq<int>, marked: set<int>)
    requires NoTwins(listing) && InRange(marked, |listing|) && forall n :: n in done <==> n in marked
    ensures Without(listing, Names(listing, done)) == Kept(listing, marked, 1)
  {
    hide Names, Without, Kept, NoTwins, InRange;
    forall i | 0 <= i < |listing| ensures listing[i].name in Names(listing, done) <==> 1 + i in marked {
      NamedIff(listing, done, i);
    }
    KeptIsWithout(listing, marked, 1, Names(listing, done));
  }

  lemma NamedIff(listing: seq<Item>, done: seq<int>, i: nat)
    requires NoTwins(listing) && i < |listing|
    ensures listing[i].name in Names(listing, done) <==> 1 + i in done
  {
    if listing[i].name in Names(listing, done) {
      var n :| n in done && 1 <= n <= |listing| && listing[n - 1].name == listing[i].name;
      assert n - 1 == i;
    }
    if 1 + i in done {
      assert listing[(1 + i) - 1].name in Names(listing, done);
    }
  }

  lemma FinishInv(r: Run, users: Users)
    requires Inv(r) && Enabled(r, Finish)
    ensures Inv(Next(r, users, Finish))
  {
    var done :| Deleting(r, r.mode.listing, done, [], r.mode.late);
    assert done + [] == done;
    MarkedByName(r.mode.listing, done, r.session.marked);
  }

  lemma StepInv(r: Run, users: Users, t: Step)
    requires Inv(r) && Enabled(r, t)
    ensures Inv(Next(r, users, t))
  {
    hide Inv, Next;
    match t
    case Deliver(e) => DeliverInv(r, users, e);
    case Do(c) => DoInv(r, users, c);
    case Quit(order) => QuitInv(r, users, order);
    case DeleteNext => DeleteInv(r, users);
    case Finish => FinishInv(r, users);
  }

  /** How much of what had arrived the listing of QUIT covers. */
  function Covered(r: Run): nat {
    match r.mode
    case Open => |r.base| + |r.arrived|
    case Closing(listing, _, _) => |listing|
    case Closed(listing, _) => |listing|
  }

  lemma StepKeeps(r: Run, users: Users, t: Step)
    requires Inv(r) && Enabled(r, t)
    ensures var r' := Next(r, users, t); r'.base == r.base && r.arrived <= r'.arrived && Covered(r) <= Covered(r')
  {
    hide Deleting, Settled;
  }

  lemma {:induction false} RunInv(r: Run, users: Users, steps: seq<Step>, r': Run)
    requires Inv(r) && Runs(r, users, steps, r')
    ensures Inv(r') && r'.base == r.base && r.arrived <= r'.arrived && Covered(r) <= Covered(r')
    decreases |steps|
  {
    if steps != [] {
      StepInv(r, users, steps[0]);
      StepKeeps(r, users, steps[0]);
      hide Inv, Next, Enabled, Covered;
      RunInv(Next(r, users, steps[0]), users, steps[1..], r');
    }
  }

  lemma {:induction false} KeptHas(listing: seq<Item>, marked: set<int>, first: int, i: nat)
    requires NoTwins(listing) && i < |listing|
    ensures listing[i] in Kept(listing, marked, first) <==> first + i !in marked
    decreases |listing|
  {
    forall j, k | 0 <= j < k < |listing[1..]| ensures listing[1..][j].name != listing[1..][k].name {
      assert listing[1..][j] == listing[j + 1] && listing[1..][k] == listing[k + 1];
    }
    if i > 0 {
      KeptHas(listing[1..], marked, first + 1, i - 1);
    } else {
      KeptSubset(listing[1..], marked, first + 1);
      assert forall k :: 0 <= k < |listing[1..]| ==> listing[1..][k] == listing[k + 1];
    }
  }

  lemma {:induction false} KeptSubset(listing: seq<Item>, marked: set<int>, first: int)
    ensures forall x :: x in Kept(listing, marked, first) ==> x in listing
    decreases |listing|
  {
    if listing != [] {
      KeptSubset(listing[1..], marked, first + 1);
    }
  }

  // ---------------------------------------------------------------- what holds over every session

  /** From beginning to QUIT a number names the same message: later listings only grow at the end, whatever is stored
      and whatever commands are given in between, and every marked number stays in range. */
  lemma NumbersHold(start: Run, users: Users, steps: seq<Step>, r: Run, more: seq<Step>, r': Run)
    requires Opened(start) && Runs(start, users, steps, r) && Runs(r, users, more, r')
    requires r.mode.Open? && r'.mode.Open?
    ensures start.base <= Listing(r.meta) <= Listing(r'.meta)
    ensures forall n :: n in r'.session.marked ==> 1 <= n <= |Listing(r'.meta)|
  {
    OpenedInv(start);
    RunInv(start, users, steps, r);
    RunInv(r, users, more, r');
    assert r'.arrived[..|r.arrived|] == r.arrived;
  }

  /** After QUIT the mailbox lists what it listed before without exactly the marked messages, followed by the mail that
      came late, including between two deletions of QUIT itself. */
  lemma ExactDeletion(start: Run, users: Users, steps: seq<Step>, r: Run)
    requires Opened(start) && Runs(start, users, steps, r) && r.mode.Closed?
    ensures var listing, late := r.mode.listing, r.mode.late;
            && listing + late == start.base + r.arrived
            && (forall n :: n in r.session.marked ==> 1 <= n <= |listing|)
            && Listing(r.meta) == Kept(listing, r.session.marked, 1) + late
  {
    OpenedInv(start);
    RunInv(start, users, steps, r);
  }

  /** The message a number stood for at any moment of the session is gone after QUIT exactly when that number was
      marked, then or later. */
  lemma GoneIffMarked(start: Run, users: Users, steps: seq<Step>, r: Run, n: int, more: seq<Step>, r': Run)
    requires Opened(start) && Runs(start, users, steps, r) && Runs(r, users, more, r')
    requires r.mode.Open? && r'.mode.Closed? && 1 <= n <= |Listing(r.meta)|
    ensures Listing(r.meta)[n - 1] !in Listing(r'.meta) <==> n in r'.session.marked
  {
    OpenedInv(start);
    hide Opened, Next, Enabled, Listing, Kept, Has, Distinct, InRange, NoTwins, Apart;
    RunInv(start, users, steps, r);
    RunInv(r, users, more, r');
    hide Runs;
    var listing, late := r'.mode.listing, r'.mode.late;
    assert (r.base + r.arrived)[n - 1] == (r'.base + r'.arrived)[n - 1];
    GoneIff(listing, late, r'.session.marked, n - 1);
  }

  lemma GoneIff(listing: seq<Item>, late: seq<Item>, marked: set<int>, i: nat)
    requires NoTwins(listing) && Apart(listing, late) && i < |listing|
    ensures (listing + late)[i] == listing[i]
    ensures listing[i] !in Kept(listing, marked, 1) + late <==> 1 + i in marked
  {
    KeptHas(listing, marked, 1, i);
    assert listing[i] !in late;
  }

  /** No deletion of QUIT looks outside its listing. */
  lemma QuitStaysInRange(start: Run, users: Users, steps: seq<Step>, r: Run)
    requires Opened(start) && Runs(start, users, steps, r) && r.mode.Closing? && r.mode.pending != []
    ensures 1 <= r.mode.pending[0] <= |r.mode.listing|
  {
    OpenedInv(start);
    RunInv(start, users, steps, r);
    DeleteInv(r, users);
  }

  // ---------------------------------------------------------------- who may open a mailbox

  /** The state after some steps. */
  function Reached(r: Run, users: Users, steps: seq<Step>): Run
    decreases |steps|
  {
    if steps == [] then r else Reached(Next(r, users, steps[0]), users, steps[1..])
  }

  /** Step i is PASS with the password of this user, whom the session names at that moment. */
  ghost predicate ProvedAt(r: Run, users: Users, steps: seq<Step>, i: nat, user: Option<string>) {
    && i < |steps| && user.Some? && Lower(user.value) in users
    && steps[i] == Do(Pass(Some(users[Lower(user.value)])))
    && Reached(r, users, steps[..i]).session.user == user && Reached(r, users, steps[..i]).session.state.Authorization?
  }

  lemma StepOpens(r: Run, users: Users, t: Step)
    requires Next(r, users, t).session.state.Transaction?
    ensures Next(r, users, t).session.user == r.session.user
    ensures r.session.state.Transaction? || ProvedAt(r, users, [t], 0, r.session.user)
  {
    hide Listing, Put, MarkDeleted, Lower;
  }

  lemma ProvedLater(r: Run, users: Users, steps: seq<Step>, i: nat, user: Option<string>)
    requires steps != [] && ProvedAt(Next(r, users, steps[0]), users, steps[1..], i, user)
    ensures ProvedAt(r, users, steps, i + 1, user)
  {
    hide Next, Lower;
    assert steps[..i + 1][1..] == steps[1..][..i];
  }

  lemma {:induction false} RunOpens(r: Run, users: Users, steps: seq<Step>)
    requires Reached(r, users, steps).session.state.Transaction?
    ensures var user := Reached(r, users, steps).session.user;
            || (r.session.state.Transaction? && user == r.session.user)
            || exists i: nat :: ProvedAt(r, users, steps, i, user)
    decreases |steps|
  {
    hide Next, Lower;
    if steps != [] {
      var next, user := Next(r, users, steps[0]), Reached(r, users, steps).session.user;
      RunOpens(next, users, steps[1..]);
      if exists i: nat :: ProvedAt(next, users, steps[1..], i, user) {
        var i: nat :| ProvedAt(next, users, steps[1..], i, user);
        ProvedLater(r, users, steps, i, user);
      } else {
        StepOpens(r, users, steps[0]);
        if !r.session.state.Transaction? {
          assert steps[..0] == [steps[0]][..0];
          assert ProvedAt(r, users, steps, 0, user);
        }
      }
    }
  }

  lemma {:induction false} RunReaches(r: Run, users: Users, steps: seq<Step>, r': Run)
    requires Runs(r, users, steps, r')
    ensures Reached(r, users, steps) == r'
    decreases |steps|
  {
    hide Next, Enabled;
    if steps != [] {
      RunReaches(Next(r, users, steps[0]), users, steps[1..], r');
    }
  }

  /** Commands act on a mailbox only after its owner's password was given in this very session, while it named him. */
  lemma OnlyThePasswordOpens(start: Run, users: Users, steps: seq<Step>, r: Run)
    requires Opened(start) && Runs(start, users, steps, r) && r.session.state.Transaction?
    ensures exists i: nat :: ProvedAt(start, users, steps, i, r.session.user)
  {
    RunReaches(start, users, steps, r);
    RunOpens(start, users, steps);
  }
}
