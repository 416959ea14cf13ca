/** The task that follows the message bus and keeps the search index in step:
    a live loop, a drain loop, and a final flush. */
module SearchProcessor {
  import opened Search

  datatype Event = RecordChanged(doc: Doc) | RecordDeleted(id: string) | OtherEvent

  /** Whether the writer's calls for an event succeed: the commit of the removal, the
      addition, and the commit that the addition may call for. */
  datatype WriterCalls = WriterCalls(dropOk: bool, addOk: bool, commitOk: bool)

  const FINE := WriterCalls(true, true, true)

  /** An event and what becomes of it; failures are logged and passed over. */
  datatype Delivery = Delivery(event: Event, calls: WriterCalls)

  /** What a receive call on the bus returns; the drain loop's non-blocking call
      returns `Stopped` for an empty or closed bus. */
  datatype Receipt = Got(delivery: Delivery) | Lagged(skipped: nat) | Stopped

  function Handle(e: Engine, ev: Event): Engine {
    match ev
    case RecordChanged(d) => e.Remove(d.id).IndexRecord(d)
    case RecordDeleted(id) => e.Remove(id)
    case OtherEvent => e
  }

  function HandleAll(e: Engine, evs: seq<Event>): Engine {
    if evs == [] then e else Handle(HandleAll(e, evs[..|evs| - 1]), evs[|evs| - 1])
  }

  function Deliver(e: Engine, x: Delivery): Engine {
    match x.event
    case RecordChanged(d) => e.Remove(d.id, x.calls.dropOk).IndexRecord(d, x.calls.addOk, x.calls.commitOk)
    case RecordDeleted(id) => e.Remove(id, x.calls.dropOk)
    case OtherEvent => e
  }

  function DeliverAll(e: Engine, xs: seq<Delivery>): Engine {
    if xs == [] then e else Deliver(DeliverAll(e, xs[..|xs| - 1]), xs[|xs| - 1])
  }

  /** Events that the live loop handles: it outlives lag and ends when the bus closes. */
  function LiveEvents(rs: seq<Receipt>): seq<Delivery> {
    if rs == [] || rs[0].Stopped? then []
    else (if rs[0].Got? then [rs[0].delivery] else []) + LiveEvents(rs[1..])
  }

  /** Events that the drain loop handles: it ends at the first error, lag included. */
  function DrainedEvents(rs: seq<Receipt>): seq<Delivery> {
    if rs == [] || !rs[0].Got? then [] else [rs[0].delivery] + DrainedEvents(rs[1..])
  }

  method HandleEvent(engine: SearchEngine, x: Delivery)
    modifies engine
    ensures engine.View() == Deliver(old(engine.View()), x)
  {
    match x.event {
      case RecordChanged(d) =>
        var _ := engine.Remove(d.id, x.calls.dropOk);
        var _ := engine.IndexRecord(d, x.calls.addOk, x.calls.commitOk);
      case RecordDeleted(id) =>
        var _ := engine.Remove(id, x.calls.dropOk);
      case OtherEvent =>
    }
  }

  lemma {:induction false} DeliverAllConcat(e: Engine, a: seq<Delivery>, b: seq<Delivery>)
    ensures DeliverAll(DeliverAll(e, a), b) == DeliverAll(e, a + b)
  {
    if b == [] {
      assert a + b == a;
    } else {
      assert (a + b)[..|a + b| - 1] == a + b[..|b| - 1];
      DeliverAllConcat(e, a, b[..|b| - 1]);
    }
  }

  lemma {:induction false} DeliverAllCons(e: Engine, x: Delivery, rest: seq<Delivery>)
    ensures DeliverAll(e, [x] + rest) == DeliverAll(Deliver(e, x), rest)
  {
    DeliverAllConcat(e, [x], rest);
    assert [x][..0] == [];
  }

  lemma {:induction false} LiveStep(live: seq<Receipt>, i: nat)
    requires i < |live|
    ensures live[i].Got? ==> LiveEvents(live[i..]) == [live[i].delivery] + LiveEvents(live[i + 1..])
    ensures live[i].Lagged? ==> LiveEvents(live[i..]) == LiveEvents(live[i + 1..])
    ensures live[i].Stopped? ==> LiveEvents(live[i..]) == []
  {
    assert live[i..][1..] == live[i + 1..];
  }

  method LiveLoop(engine: SearchEngine, live: seq<Receipt>)
    modifies engine
    ensures engine.View() == DeliverAll(old(engine.View()), LiveEvents(live))
  {
    ghost var rest := LiveEvents(live);
    ghost var goal := DeliverAll(engine.View(), rest);
    var i := 0;
    assert live[0..] == live;
    while i < |live|
      invariant 0 <= i <= |live|
      invariant rest == LiveEvents(live[i..])
      invariant DeliverAll(engine.View(), rest) == goal
    {
      LiveStep(live, i);
      if live[i].Stopped? {
        break;
      }
      ghost var after := LiveEvents(live[i + 1..]);
      if live[i].Got? {
        DeliverAllCons(engine.View(), live[i].delivery, after);
        HandleEvent(engine, live[i].delivery);
      }
      rest := after;
      i := i + 1;
    }
    assert rest == [];
  }

  lemma {:induction false} DrainStep(drained: seq<Receipt>, i: nat)
    requires i < |drained|
    ensures drained[i].Got? ==> DrainedEvents(drained[i..]) == [drained[i].delivery] + DrainedEvents(drained[i + 1..])
    ensures !drained[i].Got? ==> DrainedEvents(drained[i..]) == []
  {
    assert drained[i..][1..] == drained[i + 1..];
  }

  method DrainLoop(engine: SearchEngine, drained: seq<Receipt>)
    modifies engine
    ensures engine.View() == DeliverAll(old(engine.View()), DrainedEvents(drained))
  {
    ghost var rest := DrainedEvents(drained);
    ghost var goal := DeliverAll(engine.View(), rest);
    var i := 0;
    assert drained[0..] == drained;
    while i < |drained|
      invariant 0 <= i <= |drained|
      invariant rest == DrainedEvents(drained[i..])
      invariant DeliverAll(engine.View(), rest) == goal
    {
      DrainStep(drained, i);
      if !drained[i].Got? {
        break;
      }
      ghost var after := DrainedEvents(drained[i + 1..]);
      DeliverAllCons(engine.View(), drained[i].delivery, after);
      HandleEvent(engine, drained[i].delivery);
      rest := after;
      i := i + 1;
    }
    assert rest == [];
  }

  /** The task body: `live` is what the blocking receives return until shutdown
      is signalled or the bus closes, `rest` what the drain finds. Whatever fails on
      the way, a last flush that commits shows, for every id, what its last event
      asked for and the writer took, exactly when no removal is left stranded. */
  method RunProcessor(engine: SearchEngine, live: seq<Receipt>, rest: seq<Receipt>, flushOk: bool)
    modifies engine
    ensures engine.View() == DeliverAll(old(engine.View()), LiveEvents(live) + DrainedEvents(rest)).Flush(flushOk)
    ensures flushOk && Counted(old(engine.View())) ==>
      var xs := LiveEvents(live) + DrainedEvents(rest);
      && (engine.queue == [] <==> !Stranded(old(engine.View()), xs))
      && (!Stranded(old(engine.View()), xs) ==> forall id :: DocsOf(engine.committed, id) == Taken(old(engine.View()).Contents(), xs, id))
  {
    ghost var e0, xs := engine.View(), LiveEvents(live) + DrainedEvents(rest);
    DeliverAllConcat(engine.View(), LiveEvents(live), DrainedEvents(rest));
    LiveLoop(engine, live);
    DrainLoop(engine, rest);
    var _ := engine.Flush(flushOk);
    if flushOk && Counted(e0) {
      StrandedIffQueued(e0, xs);
      forall id | !Stranded(e0, xs) ensures DocsOf(engine.committed, id) == Taken(e0.Contents(), xs, id) {
        FlushedIsTaken(e0, xs, id);
      }
    }
  }

  // ---------------------------------------------------- the id-to-record map

  function DocsOf(docs: seq<Doc>, id: string): seq<Doc> {
    if docs == [] then [] else (if docs[0].id == id then [docs[0]] else []) + DocsOf(docs[1..], id)
  }

  /** What the last event about an id says of it. */
  datatype Latest = Untouched | Gone | Current(doc: Doc)

  function LatestOf(evs: seq<Event>, id: string): Latest {
    if evs == [] then Untouched else
    var last := evs[|evs| - 1];
    if last.RecordChanged? && last.doc.id == id then Current(last.doc)
    else if last.RecordDeleted? && last.id == id then Gone
    else LatestOf(evs[..|evs| - 1], id)
  }

  /** The documents that the index should hold for an id: at most one for an id
      that an event was about, what was there before for every other. */
  function Expected(before: seq<Doc>, evs: seq<Event>, id: string): seq<Doc> {
    match LatestOf(evs, id)
    case Untouched => DocsOf(before, id)
    case Gone => []
    case Current(d) => [d]
  }

  function Changes(evs: seq<Event>): nat {
    if evs == [] then 0
    else Changes(evs[..|evs| - 1]) + if evs[|evs| - 1].RecordChanged? then 1 else 0
  }

  /** The last event about any record, if there is one. */
  function LastRecordEvent(evs: seq<Event>): Event {
    if evs == [] then OtherEvent
    else if evs[|evs| - 1].OtherEvent? then LastRecordEvent(evs[..|evs| - 1])
    else evs[|evs| - 1]
  }

  lemma {:induction false} DocsOfConcat(a: seq<Doc>, b: seq<Doc>, id: string)
    ensures DocsOf(a + b, id) == DocsOf(a, id) + DocsOf(b, id)
  {
    if a == [] {
      assert a + b == b;
    } else {
      assert (a + b)[1..] == a[1..] + b;
      DocsOfConcat(a[1..], b, id);
      var head := if a[0].id == id then [a[0]] else [];
      assert DocsOf(a + b, id) == head + (DocsOf(a[1..], id) + DocsOf(b, id));
      assert DocsOf(a, id) == head + DocsOf(a[1..], id);
    }
  }

  lemma {:induction false} DocsOfWithout(docs: seq<Doc>, gone: string, id: string)
    ensures DocsOf(Without(docs, gone), id) == if gone == id then [] else DocsOf(docs, id)
  {
    if docs != [] {
      DocsOfWithout(docs[1..], gone, id);
      DocsOfConcat(if docs[0].id == gone then [] else [docs[0]], Without(docs[1..], gone), id);
    }
  }

  /** The counter after `n` more changes: it runs from zero to below the threshold. */
  function Cycle(start: nat, n: nat, threshold: nat): nat {
    if n == 0 then start else
    var before := Cycle(start, n - 1, threshold);
    if before + 1 >= threshold then 0 else before + 1
  }

  lemma {:induction false} RemoveShape(e: Engine, id: string)
    ensures e.Remove(id) == Engine(Without(e.Contents(), id), [], e.pending, e.threshold)
  {
    ApplyConcat(e.committed, e.queue, [Delete(id)]);
    ApplyOne(e.Contents(), Delete(id));
  }

  lemma {:induction false} ApplyOne(docs: seq<Doc>, op: WriterOp)
    ensures Apply(docs, [op]) == match op case Add(d) => docs + [d] case Delete(id) => Without(docs, id)
  {
    assert [op][1..] == [];
  }

  /** The engine after an event: all earlier writes are committed, and a change is
      queued alone unless it fills the batch. */
  lemma {:induction false} HandleShape(e: Engine, ev: Event)
    requires !ev.OtherEvent?
    ensures ev.RecordDeleted? ==> Handle(e, ev) == Engine(Without(e.Contents(), ev.id), [], e.pending, e.threshold)
    ensures ev.RecordChanged? && e.pending + 1 >= e.threshold ==>
              Handle(e, ev) == Engine(Without(e.Contents(), ev.doc.id) + [ev.doc], [], 0, e.threshold)
    ensures ev.RecordChanged? && e.pending + 1 < e.threshold ==>
              Handle(e, ev) == Engine(Without(e.Contents(), ev.doc.id), [Add(ev.doc)], e.pending + 1, e.threshold)
  {
    RemoveShape(e, if ev.RecordChanged? then ev.doc.id else ev.id);
    if ev.RecordChanged? {
      var kept := Without(e.Contents(), ev.doc.id);
      ApplyOne(kept, Add(ev.doc));
      assert [] + [Add(ev.doc)] == [Add(ev.doc)];
    }
  }

  /** The queue holds at most the changed document, and the counter counts changes. */
  lemma {:induction false} HandleCounts(e: Engine, ev: Event)
    requires e.Inv() && !ev.OtherEvent?
    ensures
      var e' := Handle(e, ev);
      && e'.Inv() && e'.threshold == e.threshold
      && e'.pending == (if ev.RecordDeleted? then e.pending else if e.pending + 1 >= e.threshold then 0 else e.pending + 1)
      && e'.queue == (if ev.RecordChanged? && e'.pending != 0 then [Add(ev.doc)] else [])
  {
    HandleShape(e, ev);
  }

  /** The contents per id change as the event says. */
  lemma {:induction false} HandleDocs(e: Engine, ev: Event, id: string)
    requires !ev.OtherEvent?
    ensures DocsOf(Handle(e, ev).Contents(), id) == DocsOfAfter(e.Contents(), ev, id)
  {
    HandleShape(e, ev);
    var gone := if ev.RecordChanged? then ev.doc.id else ev.id;
    DocsOfWithout(e.Contents(), gone, id);
    if ev.RecordChanged? {
      var kept := Without(e.Contents(), gone);
      ApplyOne(kept, Add(ev.doc));
      DocsOfConcat(kept, [ev.doc], id);
      assert [ev.doc][1..] == [];
    }
  }

  function DocsOfAfter(docs: seq<Doc>, ev: Event, id: string): seq<Doc> {
    if ev.RecordChanged? && ev.doc.id == id then [ev.doc]
    else if ev.RecordDeleted? && ev.id == id then []
    else DocsOf(docs, id)
  }

  /** In every run, for every id: all that has been written is the id-to-latest-
      record map, with no stale and no duplicate document for a touched id. */
  lemma {:induction false} ContentsAreLatest(e: Engine, evs: seq<Event>, id: string)
    requires e.Inv()
    ensures HandleAll(e, evs).Inv() && HandleAll(e, evs).threshold == e.threshold
    ensures DocsOf(HandleAll(e, evs).Contents(), id) == Expected(e.Contents(), evs, id)
  {
    if evs != [] {
      var n := |evs| - 1;
      ContentsAreLatest(e, evs[..n], id);
      if !evs[n].OtherEvent? {
        HandleCounts(HandleAll(e, evs[..n]), evs[n]);
        HandleDocs(HandleAll(e, evs[..n]), evs[n], id);
      }
    }
  }

  /** The exact lag: once a record event has been handled, at most the document
      of the last change is uncommitted, and it is so exactly when that event was
      a change and the changes so far have not filled a batch. */
  lemma {:induction false} QueueIsLastChange(e: Engine, evs: seq<Event>)
    requires e.Inv()
    ensures HandleAll(e, evs).Inv() && HandleAll(e, evs).threshold == e.threshold
    ensures HandleAll(e, evs).pending == Cycle(e.pending, Changes(evs), e.threshold)
    ensures
      var last := LastRecordEvent(evs);
      HandleAll(e, evs).queue ==
        if last.OtherEvent? then e.queue
        else if last.RecordChanged? && Cycle(e.pending, Changes(evs), e.threshold) != 0 then [Add(last.doc)]
        else []
  {
    if evs != [] {
      var n := |evs| - 1;
      QueueIsLastChange(e, evs[..n]);
      var mid := HandleAll(e, evs[..n]);
      assert HandleAll(e, evs) == Handle(mid, evs[n]);
      if !evs[n].OtherEvent? {
        assert LastRecordEvent(evs) == evs[n];
        HandleCounts(mid, evs[n]);
        if evs[n].RecordChanged? {
          assert Changes(evs) == Changes(evs[..n]) + 1;
        }
      }
    }
  }

  /** In every run that has handled a record event, the visible index is the id-
      to-latest-record map, save that the last changed id may be missing: it is
      missing exactly while its change waits in an unfilled batch. */
  lemma {:induction false} VisibleIsLatest(e: Engine, evs: seq<Event>, id: string)
    requires e.Inv() && !LastRecordEvent(evs).OtherEvent?
    ensures
      var last := LastRecordEvent(evs);
      var hidden := last.RecordChanged? && last.doc.id == id && Cycle(e.pending, Changes(evs), e.threshold) != 0;
      DocsOf(HandleAll(e, evs).committed, id) == if hidden then [] else Expected(e.Contents(), evs, id)
  {
    var e' := HandleAll(e, evs);
    QueueIsLastChange(e, evs);
    ContentsAreLatest(e, evs, id);
    if e'.queue != [] {
      var d := LastRecordEvent(evs).doc;
      assert e'.queue == [Add(d)] && e'.queue[1..] == [];
      assert e'.Contents() == Apply(e'.committed + [d], []) == e'.committed + [d];
      DocsOfConcat(e'.committed, [d], id);
      assert [d][1..] == [];
      if d.id == id {
        LastChangeIsCurrent(evs);
      }
    }
  }

  lemma {:induction false} LastChangeIsCurrent(evs: seq<Event>)
    requires LastRecordEvent(evs).RecordChanged?
    ensures LatestOf(evs, LastRecordEvent(evs).doc.id) == Current(LastRecordEvent(evs).doc)
  {
    if evs[|evs| - 1].OtherEvent? {
      LastChangeIsCurrent(evs[..|evs| - 1]);
    }
  }

  /** After drain and flush the visible index is exactly the map. */
  lemma {:induction false} ShutdownShowsAll(e: Engine, evs: seq<Event>, id: string)
    requires e.Inv()
    ensures DocsOf(HandleAll(e, evs).Flush().committed, id) == Expected(e.Contents(), evs, id)
  {
    ContentsAreLatest(e, evs, id);
    FlushShowsReplay(HandleAll(e, evs), []);
  }

  // ------------------------------------------------- writer calls that fail

  predicate AllFine(xs: seq<Delivery>) {
    forall i | 0 <= i < |xs| :: xs[i].calls == FINE
  }

  function EventsOf(xs: seq<Delivery>): seq<Event> {
    seq(|xs|, i requires 0 <= i < |xs| => xs[i].event)
  }

  /** Without failures, delivering is handling. */
  lemma {:induction false} FineIsHandled(e: Engine, xs: seq<Delivery>)
    requires AllFine(xs)
    ensures DeliverAll(e, xs) == HandleAll(e, EventsOf(xs))
  {
    if xs != [] {
      var n := |xs| - 1;
      FineIsHandled(e, xs[..n]);
      assert EventsOf(xs)[..n] == EventsOf(xs[..n]);
    }
  }

  /** What the contents hold for an id: nothing once it is removed or its addition
      fails, its last document if that was added, else what was there. */
  function Taken(before: seq<Doc>, xs: seq<Delivery>, id: string): seq<Doc> {
    if xs == [] then DocsOf(before, id) else
    var last := xs[|xs| - 1];
    if last.event.RecordChanged? && last.event.doc.id == id then if last.calls.addOk then [last.event.doc] else []
    else if last.event.RecordDeleted? && last.event.id == id then []
    else Taken(before, xs[..|xs| - 1], id)
  }

  lemma {:induction false} RemoveContents(e: Engine, id: string, commitOk: bool)
    ensures e.Remove(id, commitOk).Contents() == Without(e.Contents(), id)
  {
    TriedIsDirect(e, TryDrop(id, commitOk));
  }

  lemma {:induction false} IndexContents(e: Engine, d: Doc, addOk: bool, commitOk: bool)
    ensures e.IndexRecord(d, addOk, commitOk).Contents() == if addOk then e.Contents() + [d] else e.Contents()
  {
    TriedIsDirect(e, TryIndex(d, addOk, commitOk));
  }

  lemma {:induction false} DeliverDocs(e: Engine, x: Delivery, id: string)
    ensures DocsOf(Deliver(e, x).Contents(), id) ==
      if x.event.RecordChanged? && x.event.doc.id == id then if x.calls.addOk then [x.event.doc] else []
      else if x.event.RecordDeleted? && x.event.id == id then []
      else DocsOf(e.Contents(), id)
  {
    if x.event.RecordChanged? {
      var d := x.event.doc;
      RemoveContents(e, d.id, x.calls.dropOk);
      IndexContents(e.Remove(d.id, x.calls.dropOk), d, x.calls.addOk, x.calls.commitOk);
      DocsOfWithout(e.Contents(), d.id, id);
      DocsOfConcat(Without(e.Contents(), d.id), [d], id);
      assert [d][1..] == [];
    } else if x.event.RecordDeleted? {
      RemoveContents(e, x.event.id, x.calls.dropOk);
      DocsOfWithout(e.Contents(), x.event.id, id);
    }
  }

  /** In every run and for every id, whichever writer calls fail: all that has been
      written, committed or not, is the map to the latest record taken. */
  lemma {:induction false} ContentsAreTaken(e: Engine, xs: seq<Delivery>, id: string)
    ensures DocsOf(DeliverAll(e, xs).Contents(), id) == Taken(e.Contents(), xs, id)
  {
    if xs != [] {
      ContentsAreTaken(e, xs[..|xs| - 1], id);
      DeliverDocs(DeliverAll(e, xs[..|xs| - 1]), xs[|xs| - 1], id);
    }
  }

  /** The last delivery about any record queued a removal that did not commit, and no
      addition after it. */
  predicate EndsUncommitted(xs: seq<Delivery>) {
    xs != [] &&
    var last := xs[|xs| - 1];
    if last.event.OtherEvent? then EndsUncommitted(xs[..|xs| - 1])
    else !last.calls.dropOk && (last.event.RecordChanged? ==> !last.calls.addOk)
  }

  /** … while the counter, which the flush goes by, is at zero. */
  predicate Stranded(e: Engine, xs: seq<Delivery>) {
    EndsUncommitted(xs) && DeliverAll(e, xs).pending == 0
  }

  /** What is queued is counted, as in a new engine and between operations that do not
      fail. */
  predicate Counted(e: Engine) { (e.queue != [] ==> e.pending > 0) && e.threshold > 0 }

  /** With the counter at zero something is queued exactly when the last delivery left
      it so. */
  lemma {:induction false} StrandedIffQueued(e: Engine, xs: seq<Delivery>)
    requires Counted(e)
    ensures DeliverAll(e, xs).threshold == e.threshold
    ensures DeliverAll(e, xs).queue != [] && DeliverAll(e, xs).pending == 0 <==> Stranded(e, xs)
  {
    if xs != [] {
      StrandedIffQueued(e, xs[..|xs| - 1]);
    }
  }

  /** After a run with any failures, a flush that commits shows the map to the latest
      record taken exactly when no removal is stranded; where one is, the flush does
      nothing. */
  lemma {:induction false} FlushedIsTaken(e: Engine, xs: seq<Delivery>, id: string)
    requires Counted(e)
    ensures Stranded(e, xs) ==> DeliverAll(e, xs).Flush() == DeliverAll(e, xs) && DeliverAll(e, xs).queue != []
    ensures !Stranded(e, xs) ==> DocsOf(DeliverAll(e, xs).Flush().committed, id) == Taken(e.Contents(), xs, id)
  {
    StrandedIffQueued(e, xs);
    ContentsAreTaken(e, xs, id);
  }

  /** Without failures what is taken is what the events ask for, and nothing is
      stranded. */
  lemma {:induction false} FineIsExpected(e: Engine, xs: seq<Delivery>, id: string)
    requires AllFine(xs)
    ensures Taken(e.Contents(), xs, id) == Expected(e.Contents(), EventsOf(xs), id) && !Stranded(e, xs)
  {
    if xs != [] {
      var n := |xs| - 1;
      FineIsExpected(e, xs[..n], id);
      FineEnds(xs);
      assert EventsOf(xs)[..n] == EventsOf(xs[..n]);
    }
  }

  lemma {:induction false} FineEnds(xs: seq<Delivery>)
    requires AllFine(xs)
    ensures !EndsUncommitted(xs)
  {
    if xs != [] {
      FineEnds(xs[..|xs| - 1]);
    }
  }

  /** A deletion whose commit fails as the last event after a flush: the document is
      still found after shutdown. */
  lemma {:induction false} DeletionIsStranded(d: Doc, threshold: nat)
    requires threshold > 0
    ensures
      var e := Engine([d], [], 0, threshold);
      var xs := [Delivery(RecordDeleted(d.id), WriterCalls(false, true, true))];
      DeliverAll(e, xs).Flush().committed == [d] && Taken(e.Contents(), xs, d.id) == []
  {
    assert [Delivery(RecordDeleted(d.id), WriterCalls(false, true, true))][..0] == [];
  }

  // ------------------------------------------------------ lag during the drain

  /** An event can still be received after a lag notice, before the bus stops. */
  predicate EventAfterLag(rs: seq<Receipt>) {
    exists i, j | 0 <= i < j < |rs| ::
      rs[i].Lagged? && rs[j].Got? && forall k | 0 <= k < j :: !rs[k].Stopped?
  }

  lemma {:induction false} LiveEventsEmptyIff(rs: seq<Receipt>)
    ensures LiveEvents(rs) != [] <==> exists j | 0 <= j < |rs| :: rs[j].Got? && forall k | 0 <= k < j :: !rs[k].Stopped?
  {
    if rs != [] && !rs[0].Stopped? && !rs[0].Got? {
      LiveEventsEmptyIff(rs[1..]);
      if LiveEvents(rs[1..]) != [] {
        var j :| 0 <= j < |rs[1..]| && rs[1..][j].Got? && forall k | 0 <= k < j :: !rs[1..][k].Stopped?;
        assert rs[j + 1].Got?;
        forall k | 0 <= k < j + 1 ensures !rs[k].Stopped? {
          if k > 0 {
            assert rs[k] == rs[1..][k - 1];
          }
        }
      }
      if j :| 0 <= j < |rs| && rs[j].Got? && forall k | 0 <= k < j :: !rs[k].Stopped? {
        assert j > 0 && rs[1..][j - 1].Got?;
        assert forall k | 0 <= k < j - 1 :: rs[1..][k] == rs[k + 1];
      }
    }
  }

  /** One more receipt for the live loop: it handles an event until the bus closes … */
  lemma {:induction false} LiveAppended(rs: seq<Receipt>, r: Receipt)
    ensures LiveEvents(rs + [r]) == LiveEvents(rs) + if r.Got? && (forall k | 0 <= k < |rs| :: !rs[k].Stopped?) then [r.delivery] else []
  {
    if rs == [] {
      assert [] + [r] == [r] && [r][1..] == [];
    } else {
      LiveAppended(rs[1..], r);
      assert (rs + [r])[1..] == rs[1..] + [r];
      assert forall k | 0 < k < |rs| :: rs[k] == rs[1..][k - 1];
    }
  }

  /** … and for the drain: until the first receipt that is not an event. */
  lemma {:induction false} DrainAppended(rs: seq<Receipt>, r: Receipt)
    ensures DrainedEvents(rs + [r]) == DrainedEvents(rs) + if r.Got? && (forall k | 0 <= k < |rs| :: rs[k].Got?) then [r.delivery] else []
  {
    if rs == [] {
      assert [] + [r] == [r] && [r][1..] == [];
    } else {
      DrainAppended(rs[1..], r);
      assert (rs + [r])[1..] == rs[1..] + [r];
      assert forall k | 0 < k < |rs| :: rs[k] == rs[1..][k - 1];
    }
  }

  /** The drain handles every event still to be received exactly when none of
      them comes after a lag notice: unlike the live loop, it ends there. */
  lemma {:induction false} DrainIsCompleteIff(rs: seq<Receipt>)
    ensures DrainedEvents(rs) == LiveEvents(rs) <==> !EventAfterLag(rs)
  {
    if rs == [] || rs[0].Stopped? {
    } else if rs[0].Lagged? {
      LiveEventsEmptyIff(rs);
      if EventAfterLag(rs) {
        var i, j :| 0 <= i < j < |rs| && rs[i].Lagged? && rs[j].Got? && forall k | 0 <= k < j :: !rs[k].Stopped?;
        assert LiveEvents(rs) != [];
      }
    } else {
      DrainIsCompleteIff(rs[1..]);
      if EventAfterLag(rs[1..]) {
        var i, j :| 0 <= i < j < |rs[1..]| && rs[1..][i].Lagged? && rs[1..][j].Got? && forall k | 0 <= k < j :: !rs[1..][k].Stopped?;
        assert rs[i + 1].Lagged? && rs[j + 1].Got?;
        assert forall k | 0 < k < j + 1 :: rs[k] == rs[1..][k - 1];
      }
      if EventAfterLag(rs) {
        var i, j :| 0 <= i < j < |rs| && rs[i].Lagged? && rs[j].Got? && forall k | 0 <= k < j :: !rs[k].Stopped?;
        assert rs[1..][i - 1].Lagged? && rs[1..][j - 1].Got?;
        assert forall k | 0 <= k < j - 1 :: rs[1..][k] == rs[k + 1];
      }
      var d, l := DrainedEvents(rs[1..]), LiveEvents(rs[1..]);
      assert DrainedEvents(rs)[1..] == d && LiveEvents(rs)[1..] == l;
    }
  }

  /** An event behind a lag notice is lost to the drain and its record stays out
      of the index, although the bus still holds it. */
  lemma DrainLosesEvent(d: Doc)
    ensures DrainedEvents([Lagged(1), Got(Delivery(RecordChanged(d), FINE))]) == []
    ensures LiveEvents([Lagged(1), Got(Delivery(RecordChanged(d), FINE))]) == [Delivery(RecordChanged(d), FINE)]
  {
    var x := Delivery(RecordChanged(d), FINE);
    assert [Lagged(1), Got(x)][1..] == [Got(x)];
    assert LiveEvents([Got(x)]) == [x];
  }
}
