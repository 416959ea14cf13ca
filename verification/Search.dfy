/** The batched full-text index: a writer queue in front of the committed
    documents, and a counter that decides when to commit. */
module Search {

  /** An indexed record; `body` stands for all of its text. */
  datatype Doc = Doc(id: string, body: string)

  datatype WriterOp = Add(doc: Doc) | Delete(id: string)

  /** Drops every document with this id. */
  function Without(docs: seq<Doc>, id: string): (r: seq<Doc>)
    ensures forall d :: d in r <==> d in docs && d.id != id
  {
    if docs == [] then [] else
    (if docs[0].id == id then [] else [docs[0]]) + Without(docs[1..], id)
  }

  /** Commits apply the queued operations in the order in which they were queued. */
  function Apply(docs: seq<Doc>, ops: seq<WriterOp>): seq<Doc>
    decreases |ops|
  {
    if ops == [] then docs else
    Apply(match ops[0] case Add(d) => docs + [d] case Delete(id) => Without(docs, id), ops[1..])
  }

  datatype Engine = Engine(committed: seq<Doc>, queue: seq<WriterOp>, pending: nat, threshold: nat) {

    /** Between operations only additions are queued, no more of them than the
        counter says, and the counter is below the threshold. */
    predicate Inv() {
      && (forall i | 0 <= i < |queue| :: queue[i].Add?)
      && |queue| <= pending < threshold
    }

    /** Everything that has been written, committed or not. */
    function Contents(): seq<Doc> { Apply(committed, queue) }

    function Commit(): Engine { this.(committed := Apply(committed, queue), queue := []) }

    /** The optional arguments say whether the writer's calls succeed. */
    function IndexRecord(d: Doc, addOk: bool := true, commitOk: bool := true): Engine {
      if !addOk then this else
      var e := this.(queue := queue + [Add(d)], pending := pending + 1);
      if e.pending >= threshold && commitOk then e.Commit().(pending := 0) else e
    }

    function Flush(commitOk: bool := true): Engine {
      if pending > 0 && commitOk then Commit().(pending := 0) else this
    }

    /** The additions succeed up to the document at `added`, if there is one. */
    function IndexBulk(ds: seq<Doc>, added: nat := |ds|, commitOk: bool := true): Engine
      requires added <= |ds|
    {
      var e := this.(queue := queue + Adds(ds[..added]));
      if added == |ds| && commitOk then e.Commit() else e
    }

    /** Queueing a deletion cannot fail. */
    function Remove(id: string, commitOk: bool := true): Engine {
      var e := this.(queue := queue + [Delete(id)]);
      if commitOk then e.Commit() else e
    }
  }

  function Adds(ds: seq<Doc>): seq<WriterOp> {
    seq(|ds|, i requires 0 <= i < |ds| => Add(ds[i]))
  }

  /** The engine, updated in place. */
  class SearchEngine {
    var committed: seq<Doc>
    var queue: seq<WriterOp>
    var pendingCount: nat
    const commitThreshold: nat

    ghost function View(): Engine
      reads this
    {
      Engine(committed, queue, pendingCount, commitThreshold)
    }

    /** A threshold of zero is raised to one. */
    constructor (docs: seq<Doc>, threshold: nat)
      ensures View() == Engine(docs, [], 0, if threshold == 0 then 1 else threshold)
      ensures View().Inv()
    {
      committed, queue, pendingCount := docs, [], 0;
      commitThreshold := if threshold < 1 then 1 else threshold;
    }

    method Commit()
      modifies this
      ensures View() == old(View()).Commit()
    {
      committed, queue := Apply(committed, queue), [];
    }

    method IndexRecord(d: Doc, addOk: bool := true, commitOk: bool := true) returns (ok: bool)
      modifies this
      ensures View() == old(View()).IndexRecord(d, addOk, commitOk)
      ensures ok <==> addOk && (old(pendingCount) + 1 >= commitThreshold ==> commitOk)
    {
      if !addOk {
        return false;
      }
      queue := queue + [Add(d)];
      pendingCount := pendingCount + 1;
      if pendingCount >= commitThreshold {
        if !commitOk {
          return false;
        }
        Commit();
        pendingCount := 0;
      }
      ok := true;
    }

    method Flush(commitOk: bool := true) returns (ok: bool)
      modifies this
      ensures View() == old(View()).Flush(commitOk)
      ensures ok <==> (old(pendingCount) > 0 ==> commitOk)
    {
      if pendingCount > 0 {
        if !commitOk {
          return false;
        }
        Commit();
        pendingCount := 0;
      }
      ok := true;
    }

    method IndexRecordsBulk(ds: seq<Doc>, added: nat := |ds|, commitOk: bool := true) returns (ok: bool, count: nat)
      requires added <= |ds|
      modifies this
      ensures View() == old(View()).IndexBulk(ds, added, commitOk) && count == added
      ensures ok <==> added == |ds| && commitOk
    {
      ghost var before := View();
      count := 0;
      while count < added
        invariant 0 <= count <= added
        invariant View() == before.(queue := before.queue + Adds(ds[..count]))
      {
        queue := queue + [Add(ds[count])];
        assert Adds(ds[..count + 1]) == Adds(ds[..count]) + [Add(ds[count])];
        count := count + 1;
      }
      ok := added == |ds| && commitOk;
      if ok {
        Commit();
      }
    }

    method Remove(id: string, commitOk: bool := true) returns (ok: bool)
      modifies this
      ensures View() == old(View()).Remove(id, commitOk) && ok == commitOk
    {
      queue := queue + [Delete(id)];
      ok := commitOk;
      if ok {
        Commit();
      }
    }
  }

  // ------------------------------------------- every mix of operations, replayed

  datatype Op = Index(doc: Doc) | Bulk(docs: seq<Doc>) | Drop(id: string) | FlushNow

  function Step(e: Engine, op: Op): Engine {
    match op
    case Index(d) => e.IndexRecord(d)
    case Bulk(ds) => e.IndexBulk(ds)
    case Drop(id) => e.Remove(id)
    case FlushNow => e.Flush()
  }

  function Run(e: Engine, ops: seq<Op>): Engine {
    if ops == [] then e else Step(Run(e, ops[..|ops| - 1]), ops[|ops| - 1])
  }

  /** The unbatched meaning of an operation on the documents. */
  function Direct(docs: seq<Doc>, op: Op): seq<Doc> {
    match op
    case Index(d) => docs + [d]
    case Bulk(ds) => docs + ds
    case Drop(id) => Without(docs, id)
    case FlushNow => docs
  }

  function Replay(docs: seq<Doc>, ops: seq<Op>): seq<Doc> {
    if ops == [] then docs else Direct(Replay(docs, ops[..|ops| - 1]), ops[|ops| - 1])
  }

  lemma {:induction false} ApplyConcat(docs: seq<Doc>, a: seq<WriterOp>, b: seq<WriterOp>)
    ensures Apply(docs, a + b) == Apply(Apply(docs, a), b)
    decreases |a|
  {
    if a == [] {
      assert a + b == b;
    } else {
      assert (a + b)[1..] == a[1..] + b;
      ApplyConcat(match a[0] case Add(d) => docs + [d] case Delete(id) => Without(docs, id), a[1..], b);
    }
  }

  lemma {:induction false} ApplyAdds(docs: seq<Doc>, ds: seq<Doc>)
    ensures Apply(docs, Adds(ds)) == docs + ds
    decreases |ds|
  {
    if ds == [] {
      assert docs + ds == docs;
    } else {
      assert Adds(ds)[1..] == Adds(ds[1..]);
      ApplyAdds(docs + [ds[0]], ds[1..]);
      assert docs + [ds[0]] + ds[1..] == docs + ds;
    }
  }

  /** The documents of a queue of additions. */
  function Queued(q: seq<WriterOp>): seq<Doc>
    requires forall i | 0 <= i < |q| :: q[i].Add?
  {
    seq(|q|, i requires 0 <= i < |q| => q[i].doc)
  }

  /** One operation keeps the invariant and has its direct effect on the contents. */
  lemma {:induction false} StepIsDirect(e: Engine, op: Op)
    requires e.Inv()
    ensures Step(e, op).Inv() && Step(e, op).threshold == e.threshold
    ensures Step(e, op).Contents() == Direct(e.Contents(), op)
  {
    match op
    case Index(d) => ApplyConcat(e.committed, e.queue, [Add(d)]);
    case Bulk(ds) =>
      assert ds[..|ds|] == ds;
      ApplyConcat(e.committed, e.queue, Adds(ds));
      ApplyAdds(e.Contents(), ds);
    case Drop(id) => ApplyConcat(e.committed, e.queue, [Delete(id)]);
    case FlushNow =>
  }

  /** Under any mix of operations: queued documents never outnumber the counter,
      which stays below the threshold, and the contents are the direct replay. */
  lemma {:induction false} RunIsReplay(e: Engine, ops: seq<Op>)
    requires e.Inv()
    ensures Run(e, ops).Inv() && Run(e, ops).threshold == e.threshold
    ensures Run(e, ops).Contents() == Replay(e.Contents(), ops)
  {
    if ops != [] {
      RunIsReplay(e, ops[..|ops| - 1]);
      StepIsDirect(Run(e, ops[..|ops| - 1]), ops[|ops| - 1]);
    }
  }

  /** A flush after any run makes exactly the replayed documents visible, also
      when the counter is zero and the commit is skipped; before it, the visible
      documents are a prefix that lags by fewer than `threshold` documents. */
  lemma {:induction false} FlushShowsReplay(e: Engine, ops: seq<Op>)
    requires e.Inv()
    ensures Run(e, ops).Flush().committed == Replay(e.Contents(), ops)
    ensures Run(e, ops).committed <= Replay(e.Contents(), ops)
    ensures |Replay(e.Contents(), ops)| - |Run(e, ops).committed| < e.threshold
  {
    RunIsReplay(e, ops);
    var r := Run(e, ops);
    assert Adds(Queued(r.queue)) == r.queue;
    ApplyAdds(r.committed, Queued(r.queue));
  }

  /** The records indexed one by one since the last flush. */
  function SinceFlush(ops: seq<Op>): nat {
    if ops == [] || ops[|ops| - 1].FlushNow? then 0
    else SinceFlush(ops[..|ops| - 1]) + if ops[|ops| - 1].Index? then 1 else 0
  }

  /** `n` is some number of full batches of `size`, and `rest` more. */
  predicate Batches(n: nat, rest: nat, size: nat)
    requires size > 0
  {
    n == rest || (n >= size && Batches(n - size, rest, size))
  }

  lemma {:induction false} OneMoreCounted(n: nat, rest: nat, size: nat)
    requires rest < size && Batches(n, rest, size)
    ensures if rest + 1 >= size then Batches(n + 1, 0, size) else Batches(n + 1, rest + 1, size)
  {
    if n == rest {
      assert rest + 1 == size ==> Batches(0, 0, size);
    } else {
      OneMoreCounted(n - size, rest, size);
    }
  }

  lemma {:induction false} OneRest(n: nat, rest: nat, other: nat, size: nat)
    requires rest < size && other < size && Batches(n, rest, size) && Batches(n, other, size)
    ensures rest == other
  {
    if n >= size {
      OneRest(n - size, rest, other, size);
    }
  }

  lemma {:induction false} CounterStep(e: Engine, op: Op, n: nat)
    requires e.Inv() && Batches(n, e.pending, e.threshold)
    ensures Batches(if op.FlushNow? then 0 else if op.Index? then n + 1 else n, Step(e, op).pending, e.threshold)
  {
    if op.Index? {
      OneMoreCounted(n, e.pending, e.threshold);
    }
  }

  /** Of a fresh engine, under any mix of operations, the counter says how many records
      have been indexed one by one since the last flush, over and above full batches of
      `threshold`: bulk additions and removals commit, but leave it alone. */
  lemma {:induction false} CounterCycles(e: Engine, ops: seq<Op>)
    requires e.Inv() && e.pending == 0
    ensures Run(e, ops).pending < e.threshold && Batches(SinceFlush(ops), Run(e, ops).pending, e.threshold)
  {
    RunIsReplay(e, ops);
    if ops != [] {
      var n := |ops| - 1;
      CounterCycles(e, ops[..n]);
      RunIsReplay(e, ops[..n]);
      CounterStep(Run(e, ops[..n]), ops[n], SinceFlush(ops[..n]));
    }
  }

  lemma {:induction false} VisibleIffUnqueued(e: Engine)
    requires e.Inv()
    ensures e.committed == e.Contents() <==> e.queue == []
  {
    assert Adds(Queued(e.queue)) == e.queue;
    ApplyAdds(e.committed, Queued(e.queue));
  }

  /** After an operation, all contents are visible unless it indexed a record that does
      not fill the batch. */
  lemma {:induction false} VisibleIff(e: Engine, ops: seq<Op>, op: Op)
    requires e.Inv() && e.pending == 0
    ensures Run(e, ops + [op]).committed == Replay(e.Contents(), ops + [op])
       <==> (op.Index? ==> Batches(SinceFlush(ops) + 1, 0, e.threshold))
  {
    var before := Run(e, ops);
    assert (ops + [op])[..|ops|] == ops;
    CounterCycles(e, ops);
    RunIsReplay(e, ops);
    RunIsReplay(e, ops + [op]);
    VisibleIffUnqueued(Run(e, ops + [op]));
    OneMoreCounted(SinceFlush(ops), before.pending, e.threshold);
    if before.pending + 1 < e.threshold && Batches(SinceFlush(ops) + 1, 0, e.threshold) {
      OneRest(SinceFlush(ops) + 1, before.pending + 1, 0, e.threshold);
      assert false;
    }
  }

  // ------------------------------------------------- writer calls that fail

  /** An operation with the outcomes of its writer calls. */
  datatype Attempt =
    | TryIndex(doc: Doc, addOk: bool, commitOk: bool)
    | TryBulk(docs: seq<Doc>, added: nat, commitOk: bool)
    | TryDrop(id: string, commitOk: bool)
    | TryFlush(commitOk: bool)

  predicate Possible(a: Attempt) { a.TryBulk? ==> a.added <= |a.docs| }

  function Tried(e: Engine, a: Attempt): Engine
    requires Possible(a)
  {
    match a
    case TryIndex(d, addOk, commitOk) => e.IndexRecord(d, addOk, commitOk)
    case TryBulk(ds, added, commitOk) => e.IndexBulk(ds, added, commitOk)
    case TryDrop(id, commitOk) => e.Remove(id, commitOk)
    case TryFlush(commitOk) => e.Flush(commitOk)
  }

  /** What the attempt got as far as queueing. */
  function Queues(a: Attempt): Op
    requires Possible(a)
  {
    match a
    case TryIndex(d, addOk, _) => if addOk then Index(d) else FlushNow
    case TryBulk(ds, added, _) => Bulk(ds[..added])
    case TryDrop(id, _) => Drop(id)
    case TryFlush(_) => FlushNow
  }

  predicate AllPossible(attempts: seq<Attempt>) {
    forall i | 0 <= i < |attempts| :: Possible(attempts[i])
  }

  function TriedAll(e: Engine, attempts: seq<Attempt>): Engine
    requires AllPossible(attempts)
  {
    if attempts == [] then e else Tried(TriedAll(e, attempts[..|attempts| - 1]), attempts[|attempts| - 1])
  }

  function QueuesAll(attempts: seq<Attempt>): seq<Op>
    requires AllPossible(attempts)
  {
    seq(|attempts|, i requires 0 <= i < |attempts| => Queues(attempts[i]))
  }

  lemma {:induction false} TriedIsDirect(e: Engine, a: Attempt)
    requires Possible(a)
    ensures Tried(e, a).Contents() == Direct(e.Contents(), Queues(a))
  {
    match a
    case TryIndex(d, _, _) => ApplyConcat(e.committed, e.queue, [Add(d)]);
    case TryBulk(ds, added, _) =>
      ApplyConcat(e.committed, e.queue, Adds(ds[..added]));
      ApplyAdds(e.Contents(), ds[..added]);
    case TryDrop(id, _) => ApplyConcat(e.committed, e.queue, [Delete(id)]);
    case TryFlush(_) =>
  }

  /** Whichever writer calls fail, the contents, shown or not, are the replay of
      what was queued: a failing commit loses nothing. */
  lemma {:induction false} AttemptsReplay(e: Engine, attempts: seq<Attempt>)
    requires AllPossible(attempts)
    ensures TriedAll(e, attempts).Contents() == Replay(e.Contents(), QueuesAll(attempts))
  {
    if attempts != [] {
      var before, a := attempts[..|attempts| - 1], attempts[|attempts| - 1];
      AttemptsReplay(e, before);
      TriedIsDirect(TriedAll(e, before), a);
      assert QueuesAll(attempts)[..|before|] == QueuesAll(before);
    }
  }

  /** After any attempts, a flush whose commit succeeds leaves nothing queued, and
      so shows the whole replay, exactly when the counter is not zero or nothing
      was queued: it trusts the counter, which bulk indexing and removal skip. */
  lemma {:induction false} FlushEmptiesIff(e: Engine, attempts: seq<Attempt>)
    requires AllPossible(attempts)
    ensures
      var r := TriedAll(e, attempts);
      && (r.Flush().queue == [] <==> r.pending > 0 || r.queue == [])
      && (r.Flush().queue == [] ==> r.Flush().committed == Replay(e.Contents(), QueuesAll(attempts)))
      && (r.Flush().queue != [] ==> r.Flush() == r)
  {
    AttemptsReplay(e, attempts);
  }

  /** A bulk or a removal that got something queued but not committed. */
  predicate Strands(a: Attempt) {
    (a.TryDrop? && !a.commitOk) || (a.TryBulk? && a.added > 0 && !(a.added == |a.docs| && a.commitOk))
  }

  /** From an engine with nothing queued: as long as no bulk or removal fails half
      way, a flush shows everything, whichever other calls fail. The next attempt,
      right after a flush, stays unseen by another flush exactly when it does. */
  lemma {:induction false} StrandedIff(e: Engine, attempts: seq<Attempt>, a: Attempt)
    requires AllPossible(attempts) && Possible(a) && e.queue == [] && e.pending == 0 && e.threshold > 0
    requires forall i | 0 <= i < |attempts| :: !Strands(attempts[i])
    ensures var r := TriedAll(e, attempts); r.queue != [] ==> r.pending > 0
    ensures
      var r := Tried(TriedAll(e, attempts).Flush(), a);
      r.Flush().queue != [] <==> Strands(a)
  {
    if attempts != [] {
      var n := |attempts| - 1;
      StrandedIff(e, attempts[..n], TryFlush(true));
    }
    TriedThreshold(e, attempts);
  }

  lemma {:induction false} TriedThreshold(e: Engine, attempts: seq<Attempt>)
    requires AllPossible(attempts)
    ensures TriedAll(e, attempts).threshold == e.threshold
  {
    if attempts != [] {
      TriedThreshold(e, attempts[..|attempts| - 1]);
    }
  }

  // ----------------------------------- flushes interleaved with other operations

  /** A flush takes two steps, the counter being read before the writer lock is
      taken. `log` is the sequence of operations performed so far and `shown` how
      many of them the visible documents reflect; `flushing` maps each flush in
      progress to the length of the log at its start and whether it saw work. */
  datatype Shared = Shared(
    engine: Engine, log: seq<Op>, shown: nat,
    flushing: map<nat, (nat, bool)>, done: map<nat, nat>)

  datatype Action = Perform(op: Op) | FlushReads(t: nat) | FlushCommits(t: nat)

  predicate Enabled(s: Shared, a: Action) {
    match a
    case Perform(op) => !op.FlushNow?
    case FlushReads(t) => t !in s.flushing && t !in s.done
    case FlushCommits(t) => t in s.flushing
  }

  function Act(s: Shared, a: Action): Shared
    requires Enabled(s, a)
  {
    match a
    case Perform(op) =>
      var e := Step(s.engine, op);
      var log := s.log + [op];
      s.(engine := e, log := log, shown := if e.queue == [] then |log| else s.shown)
    case FlushReads(t) =>
      s.(flushing := s.flushing[t := (|s.log|, s.engine.pending > 0)])
    case FlushCommits(t) =>
      var s' := s.(flushing := s.flushing - {t}, done := s.done[t := s.flushing[t].0]);
      if s.flushing[t].1
      then s'.(engine := s.engine.Commit().(pending := 0), shown := |s.log|)
      else s'
  }

  /** The visible documents are the replay of the first `shown` operations; a
      flush that saw no work had nothing left to show when it started. */
  ghost predicate SharedInv(s: Shared, docs: seq<Doc>) {
    && s.engine.Inv()
    && s.shown <= |s.log|
    && s.engine.Contents() == Replay(docs, s.log)
    && s.engine.committed == Replay(docs, s.log[..s.shown])
    && (s.engine.queue == [] ==> s.shown == |s.log|)
    && (forall t | t in s.flushing :: s.flushing[t].0 <= |s.log|)
    && (forall t | t in s.flushing && !s.flushing[t].1 :: s.flushing[t].0 <= s.shown)
    && (forall t | t in s.done :: s.done[t] <= s.shown)
  }

  /** Not needing a commit, the operation leaves the visible documents alone. */
  lemma {:induction false} PerformKeeps(s: Shared, op: Op, docs: seq<Doc>)
    requires SharedInv(s, docs) && !op.FlushNow?
    ensures SharedInv(Act(s, Perform(op)), docs)
  {
    var s' := Act(s, Perform(op));
    StepIsDirect(s.engine, op);
    assert s'.log[..|s.log|] == s.log;
    if s'.engine.queue == [] {
      assert s'.log[..s'.shown] == s'.log;
    } else {
      assert s'.log[..s.shown] == s.log[..s.shown];
    }
  }

  lemma {:induction false} ActKeepsInv(s: Shared, a: Action, docs: seq<Doc>)
    requires SharedInv(s, docs) && Enabled(s, a)
    ensures SharedInv(Act(s, a), docs)
  {
    assert s.log[..|s.log|] == s.log;
    match a
    case Perform(op) => PerformKeeps(s, op, docs);
    case FlushReads(t) =>
    case FlushCommits(t) =>
  }

  ghost predicate IsRun(states: seq<Shared>, actions: seq<Action>) {
    |states| == |actions| + 1 &&
    forall i | 0 <= i < |actions| :: Enabled(states[i], actions[i]) && states[i + 1] == Act(states[i], actions[i])
  }

  /** In every interleaving, a flush that has returned shows at least everything
      that had been performed when it was called. */
  lemma {:induction false} FlushedIsVisible(states: seq<Shared>, actions: seq<Action>, e: Engine, docs: seq<Doc>)
    requires IsRun(states, actions)
    requires e.Inv() && e.queue == [] && docs == e.committed
    requires states[0] == Shared(e, [], 0, map[], map[])
    ensures
      var last := states[|actions|];
      && SharedInv(last, docs)
      && forall t | t in last.done ::
           exists n | last.done[t] <= n <= |last.log| :: last.engine.committed == Replay(docs, last.log[..n])
    decreases |actions|
  {
    if |actions| > 0 {
      var n := |actions| - 1;
      FlushedIsVisible(states[..n + 1], actions[..n], e, docs);
      ActKeepsInv(states[n], actions[n], docs);
    }
    var last := states[|actions|];
    forall t | t in last.done
      ensures exists n | last.done[t] <= n <= |last.log| :: last.engine.committed == Replay(docs, last.log[..n])
    {
      assert last.done[t] <= last.shown;
    }
  }
}
