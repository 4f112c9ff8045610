/** Threads saving, deleting and listing in any users' mailboxes at the same time, one lock per user.  Each user's
    metadata is what the operations give one after another, in the order in which they took that user's lock. */
module StorageRuns {
  import opened Mailbox

  datatype Op = Save(e: Entry) | Delete(name: string) | List

  datatype Result = Saved | Deleted(found: bool) | Listed(items: seq<Item>)

  /** What an operation makes of the metadata when it runs alone, and what it returns. */
  function ApplyOp(m: Meta, op: Op): Meta {
    match op
    case Save(e) => Put(m, e)
    case Delete(name) => MarkDeleted(m, name)
    case List => m
  }

  function Answer(m: Meta, op: Op): Result {
    match op
    case Save(_) => Saved
    case Delete(name) => Deleted(Has(m, name))
    case List => Listed(Listing(m))
  }

  function ApplyAll(ops: seq<Op>): Meta {
    if ops == [] then [] else ApplyOp(ApplyAll(ops[..|ops| - 1]), ops[|ops| - 1])
  }

  // ---------------------------------------------------------------- the threads

  /** Where a thread stands: it has called an operation, holds the lock, has loaded the metadata, or has stored the
      new metadata and is about to release the lock. */
  datatype Thread =
    | Idle
    | Called(user: string, op: Op)
    | Holding(user: string, op: Op)
    | Loaded(user: string, op: Op, meta: Meta)
    | Answered(user: string, op: Op, result: Result)
  {
    predicate Inside(u: string) {
      !Idle? && !Called? && user == u
    }
  }

  /** log[u] lists the operations that have taken u's lock, in that order, and results[u] what they have returned. */
  datatype Store = Store(
    metas: map<string, Meta>, holders: map<string, nat>, threads: map<nat, Thread>,
    log: map<string, seq<Op>>, results: map<string, seq<Result>>)
  {
    function Metadata(u: string): Meta {
      if u in metas then metas[u] else []
    }

    function At(t: nat): Thread {
      if t in threads then threads[t] else Idle
    }

    function Log(u: string): seq<Op> {
      if u in log then log[u] else []
    }

    function Results(u: string): seq<Result> {
      if u in results then results[u] else []
    }
  }

  const INIT := Store(map[], map[], map[], map[], map[])

  datatype Step = Call(t: nat, user: string, op: Op) | Acquire(t: nat) | Load(t: nat) | Commit(t: nat) | Release(t: nat)

  predicate Enabled(s: Store, step: Step) {
    match step
    case Call(t, _, _) => s.At(t).Idle?
    case Acquire(t) => s.At(t).Called? && s.At(t).user !in s.holders
    case Load(t) => s.At(t).Holding?
    case Commit(t) => s.At(t).Loaded?
    case Release(t) => s.At(t).Answered?
  }

  /** The metadata an operation stores, from what it has loaded: a delete of an unknown name stores nothing. */
  function Stored(current: Meta, loaded: Meta, op: Op): Meta {
    match op
    case Save(e) => Put(loaded, e)
    case Delete(name) => if Has(loaded, name) then MarkDeleted(loaded, name) else current
    case List => current
  }

  function Next(s: Store, step: Step): Store
    requires Enabled(s, step)
  {
    var th := s.At(step.t);
    match step
    case Call(t, user, op) => s.(threads := s.threads[t := Called(user, op)])
    case Acquire(t) =>
      s.(threads := s.threads[t := Holding(th.user, th.op)], holders := s.holders[th.user := t],
         log := s.log[th.user := s.Log(th.user) + [th.op]])
    case Load(t) => s.(threads := s.threads[t := Loaded(th.user, th.op, s.Metadata(th.user))])
    case Commit(t) =>
      s.(threads := s.threads[t := Answered(th.user, th.op, Answer(th.meta, th.op))],
         metas := s.metas[th.user := Stored(s.Metadata(th.user), th.meta, th.op)],
         results := s.results[th.user := s.Results(th.user) + [Answer(th.meta, th.op)]])
    case Release(t) => s.(threads := s.threads[t := Idle], holders := s.holders - {th.user})
  }

  predicate Runs(s: Store, steps: seq<Step>, s': Store)
    decreases |steps|
  {
    if steps == [] then s == s'
    else Enabled(s, steps[0]) && Runs(Next(s, steps[0]), steps[1..], s')
  }

  ghost predicate Reachable(s: Store) {
    exists steps :: Runs(INIT, steps, s)
  }

  // ---------------------------------------------------------------- the invariant

  function But(ops: seq<Op>): seq<Op> {
    if ops == [] then [] else ops[..|ops| - 1]
  }

  ghost predicate ResultsOk(ops: seq<Op>, results: seq<Result>) {
    |results| <= |ops| && forall i :: 0 <= i < |results| ==> results[i] == Answer(ApplyAll(ops[..i]), ops[i])
  }

  /** One user: with the lock free, the metadata and the results are those of the logged operations in order; while
      the lock is held, the last logged operation is the holder's, done or still to be done. */
  ghost predicate UserOk(s: Store, u: string) {
    && ResultsOk(s.Log(u), s.Results(u))
    && (u !in s.holders ==> s.Metadata(u) == ApplyAll(s.Log(u)) && |s.Results(u)| == |s.Log(u)|)
    && (u in s.holders ==>
          var th := s.At(s.holders[u]);
          && th.Inside(u) && s.Log(u) != [] && s.Log(u)[|s.Log(u)| - 1] == th.op
          && (if th.Answered? then
                && s.Metadata(u) == ApplyAll(s.Log(u)) && |s.Results(u)| == |s.Log(u)|
                && th.result == s.Results(u)[|s.Log(u)| - 1]
              else s.Metadata(u) == ApplyAll(But(s.Log(u))) && |s.Results(u)| == |s.Log(u)| - 1)
          && (th.Loaded? ==> th.meta == s.Metadata(u)))
  }

  ghost predicate Exclusive(s: Store) {
    forall t, u :: s.At(t).Inside(u) ==> u in s.holders && s.holders[u] == t
  }

  ghost predicate Inv(s: Store) {
    (forall u :: UserOk(s, u)) && Exclusive(s)
  }

  lemma MarkAbsent(m: Meta, name: string)
    requires !Has(m, name)
    ensures MarkDeleted(m, name) == m
  {
  }

  lemma StoredIsApplied(m: Meta, op: Op)
    ensures Stored(m, m, op) == ApplyOp(m, op)
  {
    if op.Delete? && !Has(m, op.name) {
      MarkAbsent(m, op.name);
    }
  }

  lemma ResultsGrow(ops: seq<Op>, op: Op, results: seq<Result>)
    requires ResultsOk(ops, results)
    ensures ResultsOk(ops + [op], results)
    ensures |results| == |ops| ==> ResultsOk(ops + [op], results + [Answer(ApplyAll(ops), op)])
    ensures ApplyAll(ops + [op]) == ApplyOp(ApplyAll(ops), op) && But(ops + [op]) == ops
  {
    hide ApplyOp, Answer;
    assert (ops + [op])[..|ops|] == ops;
    forall i | 0 <= i < |results| ensures (ops + [op])[..i] == ops[..i] && (ops + [op])[i] == ops[i] {
    }
  }

  lemma OthersOk(s: Store, s': Store, u: string)
    requires UserOk(s, u) && s'.Log(u) == s.Log(u) && s'.Results(u) == s.Results(u) && s'.Metadata(u) == s.Metadata(u)
    requires u in s'.holders <==> u in s.holders
    requires u in s.holders ==> s'.holders[u] == s.holders[u] && s'.At(s.holders[u]) == s.At(s.holders[u])
    ensures UserOk(s', u)
  {
  }

  /** Only the stepping thread moves. */
  lemma OneMoves(s: Store, step: Step)
    requires Enabled(s, step)
    ensures forall t :: t != step.t ==> Next(s, step).At(t) == s.At(t)
  {
  }

  lemma MoverInside(s: Store, step: Step, u: string)
    requires Exclusive(s) && Enabled(s, step) && Next(s, step).At(step.t).Inside(u)
    ensures u in Next(s, step).holders && Next(s, step).holders[u] == step.t
  {
    match step
    case Call(_, _, _) =>
    case Acquire(_) =>
    case Load(_) => assert s.At(step.t).Inside(u);
    case Commit(_) => assert s.At(step.t).Inside(u);
    case Release(_) =>
  }

  lemma OtherInside(s: Store, step: Step, t: nat, u: string)
    requires Exclusive(s) && Enabled(s, step) && s.At(t).Inside(u) && t != step.t
    ensures u in Next(s, step).holders && Next(s, step).holders[u] == t
  {
    assert u in s.holders && s.holders[u] == t;
    if step.Release? {
      assert s.At(step.t).Inside(s.At(step.t).user);
      assert s.At(step.t).user != u;
    }
  }

  lemma ExclusiveStep(s: Store, step: Step)
    requires Exclusive(s) && Enabled(s, step)
    ensures Exclusive(Next(s, step))
  {
    OneMoves(s, step);
    hide Next, Enabled;
    forall t, u | Next(s, step).At(t).Inside(u) ensures u in Next(s, step).holders && Next(s, step).holders[u] == t {
      if t == step.t {
        MoverInside(s, step, u);
      } else {
        OtherInside(s, step, t, u);
      }
    }
  }

  lemma CallOk(s: Store, step: Step, u: string)
    requires Inv(s) && Enabled(s, step) && step.Call?
    ensures UserOk(Next(s, step), u)
  {
    assert UserOk(s, u);
    OthersOk(s, Next(s, step), u);
  }

  lemma AcquireDelta(s: Store, step: Step)
    requires Enabled(s, step) && step.Acquire?
    ensures var s', th := Next(s, step), s.At(step.t);
            var u := th.user;
            && u in s'.holders && s'.holders[u] == step.t && s'.At(step.t) == Holding(u, th.op)
            && s'.Log(u) == s.Log(u) + [th.op] && s'.Results(u) == s.Results(u) && s'.Metadata(u) == s.Metadata(u)
  {
  }

  lemma AcquireOwn(s: Store, step: Step)
    requires Enabled(s, step) && step.Acquire? && UserOk(s, s.At(step.t).user)
    ensures UserOk(Next(s, step), s.At(step.t).user)
  {
    var th := s.At(step.t);
    ResultsGrow(s.Log(th.user), th.op, s.Results(th.user));
    AcquireDelta(s, step);
    hide ResultsOk, ApplyAll, But, Next, Store.Log, Store.Results, Store.Metadata, Store.At;
  }

  lemma AcquireOk(s: Store, step: Step, u: string)
    requires Inv(s) && Enabled(s, step) && step.Acquire?
    ensures UserOk(Next(s, step), u)
  {
    assert UserOk(s, u);
    if u == s.At(step.t).user {
      hide UserOk;
      AcquireOwn(s, step);
    } else {
      OthersOk(s, Next(s, step), u);
    }
  }

  lemma InsideOk(s: Store, step: Step, u: string)
    requires Inv(s) && Enabled(s, step) && (step.Load? || step.Release?)
    ensures UserOk(Next(s, step), u)
  {
    var th := s.At(step.t);
    assert UserOk(s, u);
    assert th.Inside(th.user);
    if u == th.user {
      hide ResultsOk, ApplyAll, But;
    } else {
      OneMoves(s, step);
      assert u in s.holders ==> s.holders[u] != step.t;
      OthersOk(s, Next(s, step), u);
    }
  }

  lemma CommitDelta(s: Store, step: Step)
    requires Enabled(s, step) && step.Commit?
    ensures var s', th := Next(s, step), s.At(step.t);
            var u, r := th.user, Answer(th.meta, th.op);
            && s'.holders == s.holders && s'.At(step.t) == Answered(u, th.op, r)
            && s'.Log(u) == s.Log(u) && s'.Results(u) == s.Results(u) + [r]
            && s'.Metadata(u) == Stored(s.Metadata(u), th.meta, th.op)
  {
    hide Answer, Stored;
  }

  lemma CommitOwn(s: Store, step: Step)
    requires Enabled(s, step) && step.Commit?
    requires var u := s.At(step.t).user; UserOk(s, u) && u in s.holders && s.holders[u] == step.t
    ensures UserOk(Next(s, step), s.At(step.t).user)
  {
    hide ResultsOk, ApplyAll, Answer, Stored, ApplyOp, Next, Store.Log, Store.Results, Store.Metadata, Store.At;
    var th := s.At(step.t);
    var ops := s.Log(th.user);
    assert ops == But(ops) + [th.op];
    hide But;
    ButResults(ops, s.Results(th.user));
    ResultsGrow(But(ops), th.op, s.Results(th.user));
    StoredIsApplied(th.meta, th.op);
    CommitDelta(s, step);
  }

  lemma CommitOk(s: Store, step: Step, u: string)
    requires Inv(s) && Enabled(s, step) && step.Commit?
    ensures UserOk(Next(s, step), u)
  {
    var th := s.At(step.t);
    assert UserOk(s, u);
    assert th.Inside(th.user);
    if u == th.user {
      hide UserOk;
      CommitOwn(s, step);
    } else {
      OneMoves(s, step);
      assert u in s.holders ==> s.holders[u] != step.t;
      OthersOk(s, Next(s, step), u);
    }
  }

  lemma ButResults(ops: seq<Op>, results: seq<Result>)
    requires ResultsOk(ops, results) && |results| == |ops| - 1
    ensures ResultsOk(But(ops), results)
  {
    assert forall i :: 0 <= i < |results| ==> ops[..i] == But(ops)[..i];
  }

  lemma StepInv(s: Store, step: Step)
    requires Inv(s) && Enabled(s, step)
    ensures Inv(Next(s, step))
  {
    ExclusiveStep(s, step);
    hide UserOk, Enabled, Next;
    forall u ensures UserOk(Next(s, step), u) {
      match step
      case Call(_, _, _) => CallOk(s, step, u);
      case Acquire(_) => AcquireOk(s, step, u);
      case Load(_) => InsideOk(s, step, u);
      case Commit(_) => CommitOk(s, step, u);
      case Release(_) => InsideOk(s, step, u);
    }
  }

  lemma {:induction false} RunInv(s: Store, steps: seq<Step>, s': Store)
    requires Inv(s) && Runs(s, steps, s')
    ensures Inv(s')
    decreases |steps|
  {
    hide Inv;
    if steps != [] {
      StepInv(s, steps[0]);
      RunInv(Next(s, steps[0]), steps[1..], s');
    }
  }

  lemma ReachableInv(s: Store)
    requires Reachable(s)
    ensures Inv(s)
  {
    var steps :| Runs(INIT, steps, s);
    RunInv(INIT, steps, s);
  }

  // ---------------------------------------------------------------- what holds over every run

  /** For every interleaving of operations on any users: each operation that has returned a result returned what it
      returns after all operations logged before it, run one at a time; and while no operation is inside, the metadata
      is what all logged operations leave.  A thread about to return does so with the answer to its own operation in
      that order.  An operation enters the log between its call and its return. */
  lemma Linearizable(s: Store, u: string)
    requires Reachable(s)
    ensures |s.Log(u)| - 1 <= |s.Results(u)| <= |s.Log(u)|
    ensures forall i :: 0 <= i < |s.Results(u)| ==>
              s.Results(u)[i] == Answer(ApplyAll(s.Log(u)[..i]), s.Log(u)[i])
    ensures u !in s.holders ==> s.Metadata(u) == ApplyAll(s.Log(u)) && |s.Results(u)| == |s.Log(u)|
    ensures s.Metadata(u) == ApplyAll(s.Log(u)[..|s.Results(u)|])
    ensures forall t :: s.At(t).Answered? && s.At(t).user == u ==>
              var i := |s.Log(u)| - 1;
              i >= 0 && s.Log(u)[i] == s.At(t).op && s.At(t).result == Answer(ApplyAll(s.Log(u)[..i]), s.At(t).op)
  {
    ReachableInv(s);
    assert UserOk(s, u);
    assert s.Log(u)[..|s.Log(u)|] == s.Log(u);
    forall t | s.At(t).Answered? && s.At(t).user == u
      ensures |s.Log(u)| > 0 && s.Log(u)[|s.Log(u)| - 1] == s.At(t).op
           && s.At(t).result == Answer(ApplyAll(s.Log(u)[..|s.Log(u)| - 1]), s.At(t).op)
    {
      assert s.At(t).Inside(u);
    }
  }

  /** No two threads are ever inside the same user's operations. */
  lemma OneInside(s: Store, t: nat, t': nat, u: string)
    requires Reachable(s) && s.At(t).Inside(u) && s.At(t').Inside(u)
    ensures t == t'
  {
    ReachableInv(s);
    hide Reachable;
    assert u in s.holders && s.holders[u] == t by {
      assert s.At(t).Inside(u);
    }
    assert s.holders[u] == t' by {
      assert s.At(t').Inside(u);
    }
  }

  /** Generated file names are fresh: no two saves use the same one. */
  ghost predicate FreshNames(ops: seq<Op>) {
    forall i, j :: 0 <= i < j < |ops| && ops[i].Save? && ops[j].Save? ==> ops[i].e.name != ops[j].e.name
  }

  lemma {:induction false} NamesComeFromSaves(ops: seq<Op>, name: string)
    requires Has(ApplyAll(ops), name)
    ensures exists i :: 0 <= i < |ops| && ops[i].Save? && ops[i].e.name == name
    decreases |ops|
  {
    var before, op := ops[..|ops| - 1], ops[|ops| - 1];
    if Has(ApplyAll(before), name) {
      NamesComeFromSaves(before, name);
      var i :| 0 <= i < |before| && before[i].Save? && before[i].e.name == name;
      assert ops[i] == before[i];
    } else if op.Save? {
      PutNames(ApplyAll(before), op.e, name);
    }
  }

  lemma {:induction false} PutNames(m: Meta, e: Entry, name: string)
    requires Has(Put(m, e), name) && !Has(m, name)
    ensures e.name == name
  {
    assert forall i :: 0 <= i < |m| ==> m[i].name != name;
    if m != [] && m[0].name != e.name {
      var i :| 0 <= i < |Put(m, e)| && Put(m, e)[i].name == name;
      assert Put(m[1..], e)[i - 1].name == name;
      assert forall j :: 0 <= j < |m[1..]| ==> m[1..][j] == m[j + 1];
      PutNames(m[1..], e, name);
    }
  }

  lemma SavedNameIsNew(ops: seq<Op>, op: Op)
    requires FreshNames(ops + [op]) && op.Save?
    ensures !Has(ApplyAll(ops), op.e.name)
  {
    var all := ops + [op];
    assert all[|ops|] == op && forall i :: 0 <= i < |ops| ==> all[i] == ops[i];
    if Has(ApplyAll(ops), op.e.name) {
      NamesComeFromSaves(ops, op.e.name);
    }
  }

  /** Later operations keep every entry in its place, and never clear a deleted flag. */
  lemma {:induction false} LogExtends(ops: seq<Op>, n: nat)
    requires n <= |ops| && FreshNames(ops)
    ensures Extends(ApplyAll(ops[..n]), ApplyAll(ops)) && Distinct(ApplyAll(ops))
    decreases |ops|
  {
    if ops != [] {
      var before, op := ops[..|ops| - 1], ops[|ops| - 1];
      LogExtends(before, if n < |ops| then n else |ops| - 1);
      if n < |ops| {
        assert before[..n] == ops[..n];
      } else {
        assert ops[..n] == ops;
      }
      if op.Save? {
        assert before + [op] == ops;
        SavedNameIsNew(before, op);
        PutFresh(ApplyAll(before), op.e);
        PutDistinct(ApplyAll(before), op.e);
      } else if op.Delete? {
        MarkDistinct(ApplyAll(before), op.name);
      }
    } else {
      assert ops[..n] == ops;
    }
  }

  /** The metadata extends what the first n returned operations had left. */
  lemma Onwards(s: Store, u: string, n: nat)
    requires Reachable(s) && FreshNames(s.Log(u)) && n <= |s.Results(u)|
    ensures n <= |s.Log(u)| && Extends(ApplyAll(s.Log(u)[..n]), s.Metadata(u))
  {
    Linearizable(s, u);
    hide Reachable;
    var ops := s.Log(u)[..|s.Results(u)|];
    assert FreshNames(ops);
    assert ops[..n] == s.Log(u)[..n];
    LogExtends(ops, n);
  }

  lemma ApplyNext(ops: seq<Op>, i: nat)
    requires i < |ops|
    ensures ApplyAll(ops[..i + 1]) == ApplyOp(ApplyAll(ops[..i]), ops[i])
  {
    assert ops[..i + 1][..i] == ops[..i];
  }

  /** The entry of a save that has returned is in the metadata ever after, where it was put. */
  lemma NoSaveIsLost(s: Store, u: string, i: nat)
    requires Reachable(s) && FreshNames(s.Log(u)) && i < |s.Results(u)|
    requires i < |s.Log(u)| && s.Log(u)[i].Save?
    ensures var place := |ApplyAll(s.Log(u)[..i])|;
            place < |s.Metadata(u)|
            && (s.Metadata(u)[place] == s.Log(u)[i].e || s.Metadata(u)[place] == s.Log(u)[i].e.(deleted := true))
  {
    var upto, op := s.Log(u)[..i], s.Log(u)[i];
    Onwards(s, u, i + 1);
    ApplyNext(s.Log(u), i);
    assert FreshNames(upto + [op]) by {
      assert s.Log(u)[..i + 1] == upto + [op];
    }
    SavedNameIsNew(upto, op);
    hide ApplyAll, Reachable;
    PutFresh(ApplyAll(upto), op.e);
  }

  /** A message deleted by an operation that has returned stays deleted. */
  lemma NoDeleteReverts(s: Store, u: string, i: nat, k: nat)
    requires Reachable(s) && FreshNames(s.Log(u)) && i < |s.Results(u)|
    requires i < |s.Log(u)| && s.Log(u)[i].Delete?
    requires k < |ApplyAll(s.Log(u)[..i])| && ApplyAll(s.Log(u)[..i])[k].name == s.Log(u)[i].name
    ensures k < |s.Metadata(u)| && s.Metadata(u)[k].name == s.Log(u)[i].name && s.Metadata(u)[k].deleted
  {
    Onwards(s, u, i + 1);
    ApplyNext(s.Log(u), i);
    hide ApplyAll, Reachable;
  }
}
