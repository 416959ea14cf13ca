/** Which pulls copy a record, which writes get lost, and for how long. */
module FederationLosses {
  import opened Text
  import opened Storage
  import opened Sync
  import opened Federation
  import opened FederationRuns

  // --------------------------------------------------------- when a pull copies

  predicate During(e: Event) { e.Ticks? || e.Lands? || e.Erases? || e.Answers? }

  lemma {:induction false} OfferWaits(w: World, s: Story, mid: seq<Event>, id: string)
    requires !w.pulling.Idle? && Runs(w, mid) && forall i | 0 <= i < |mid| :: During(mid[i])
    ensures
      var w', s' := Run(w, mid), Told(s, w, mid, id);
      && Offer(w', id) == Offer(w, id) && w'.table == w.table && w'.peerId == w.peerId && w'.collection == w.collection
      && s'.seen == s.seen && s'.offered == s.offered
    decreases |mid|
  {
    if mid != [] {
      OfferWaits(Step(w, mid[0]), Tell(s, w, mid[0], id), mid[1..], id);
    }
  }

  /** A pull with this page, in this state, gets the record across. */
  ghost predicate Carries(w: World, page: seq<string>, unwritten: set<string>, id: string)
    requires Enabled(w, Lists(page))
  {
    id in page && Fresh(w.rows[id], w.since) && id !in unwritten && Takes(w, id, w.rows[id].version)
  }

  /** Whatever lands or is erased meanwhile, a pull leaves the copy at least as new
      as the row was when listed exactly when it was so already, or the row was in
      the page, stamped after the cursor, of a version that the table takes, and
      storage got to write it. */
  lemma {:induction false} PullCopiesIff(w: World, s: Story, page: seq<string>, mid: seq<Event>, unwritten: set<string>, id: string)
    requires Ok(w, s, id) && Enabled(w, Lists(page))
    requires Runs(Step(w, Lists(page)), mid) && forall i | 0 <= i < |mid| :: During(mid[i])
    requires Run(Step(w, Lists(page)), mid).pulling.Answered?
    ensures
      var w1, s1 := Step(w, Lists(page)), Tell(s, w, Lists(page), id);
      Tell(Told(s1, w1, mid, id), Run(w1, mid), Applies(unwritten), id).seen >= |s.writes| <==> UpToDate(s) || Carries(w, page, unwritten, id)
  {
    ServedIff(w.rows, w.collection, page, w.since, id);
    OfferWaits(Step(w, Lists(page)), Tell(s, w, Lists(page), id), mid, id);
  }

  ghost function Pulled(w: World, page: seq<string>, unwritten: set<string>): World
    requires Enabled(w, Lists(page))
  {
    Step(Step(Step(w, Lists(page)), Answers), Applies(unwritten))
  }

  ghost function PulledStory(w: World, s: Story, page: seq<string>, unwritten: set<string>, id: string): Story
    requires Enabled(w, Lists(page))
  {
    Tell(Tell(s, w, Lists(page), id), Step(Step(w, Lists(page)), Answers), Applies(unwritten), id)
  }

  lemma {:induction false} PullKeeps(w: World, s: Story, page: seq<string>, unwritten: set<string>, id: string)
    requires Ok(w, s, id) && Enabled(w, Lists(page))
    ensures Ok(Pulled(w, page, unwritten), PulledStory(w, s, page, unwritten, id), id)
  {
    StepKeeps(w, s, Lists(page), id);
    StepKeeps(Step(w, Lists(page)), Tell(s, w, Lists(page), id), Answers, id);
    StepKeeps(Step(Step(w, Lists(page)), Answers), Tell(s, w, Lists(page), id), Applies(unwritten), id);
  }

  /** In any state, whatever the record went through: a pull changes its local row
      exactly when it carries the record, and then to the row listed. */
  lemma {:induction false} PullReplacesIff(w: World, page: seq<string>, unwritten: set<string>, id: string)
    requires Enabled(w, Lists(page))
    ensures
      var t, t' := w.table, Pulled(w, page, unwritten).table;
      && (!SameAt(t, t', id) <==> Carries(w, page, unwritten, id))
      && (Carries(w, page, unwritten, id) ==> Owned(t', Namespace(w.peerId), w.collection, id) && t'[id].data == w.rows[id].data)
  {
    ServedCollection(w.rows, w.collection, page, w.since);
    ServedIff(w.rows, w.collection, page, w.since, id);
    AppliedAt(Step(Step(w, Lists(page)), Answers), unwritten, id);
  }

  /** The row is not copied, and its stamp is not after the cursor. */
  predicate Hidden(w: World, s: Story, id: string) {
    !UpToDate(s) && id in w.rows && !Fresh(w.rows[id], w.since)
  }

  /** After a pull that nothing interrupts, a live record is up to date or hidden,
      and it is hidden exactly when it was not up to date and the pull did not
      carry it. */
  lemma {:induction false} PullHidesIff(w: World, s: Story, page: seq<string>, unwritten: set<string>, id: string)
    requires Ok(w, s, id) && Enabled(w, Lists(page)) && id in w.rows
    ensures
      var w', s' := Pulled(w, page, unwritten), PulledStory(w, s, page, unwritten, id);
      && (Hidden(w', s', id) <==> !UpToDate(s) && !Carries(w, page, unwritten, id))
      && (Hidden(w', s', id) <==> !UpToDate(s'))
  {
    ServedIff(w.rows, w.collection, page, w.since, id);
  }

  // -------------------------------------------------- hidden is hidden for good

  predicate Touches(e: Event, id: string) { (e.Lands? || e.Erases?) && e.id == id }

  lemma {:induction false} HiddenStep(w: World, s: Story, e: Event, id: string)
    requires Ok(w, s, id) && Hidden(w, s, id) && Offer(w, id) == [] && Enabled(w, e)
    requires !Touches(e, id) && !e.Restarts?
    ensures Tell(s, w, e, id) == s && Hidden(Step(w, e), s, id) && Offer(Step(w, e), id) == []
    ensures SameAt(w.table, Step(w, e).table, id)
  {
    if e.Lists? {
      ServedIff(w.rows, w.collection, e.page, w.since, id);
    } else if e.Applies? {
      AppliedAt(w, e.unwritten, id);
    }
  }

  /** No number of pulls brings a hidden record: its copy stays as it is until the
      record is written again, erased, or the cursors are forgotten. */
  lemma {:induction false} HiddenStays(w: World, s: Story, events: seq<Event>, id: string)
    requires Ok(w, s, id) && Hidden(w, s, id) && Offer(w, id) == [] && Runs(w, events)
    requires forall i | 0 <= i < |events| :: !Touches(events[i], id) && !events[i].Restarts?
    ensures SameAt(w.table, Run(w, events).table, id)
    ensures Told(s, w, events, id) == s && Hidden(Run(w, events), s, id)
    decreases |events|
  {
    if events != [] {
      HiddenStep(w, s, events[0], id);
      StepKeeps(w, s, events[0], id);
      var w' := Step(w, events[0]);
      HiddenStays(w', s, events[1..], id);
      SameAtTransitive(w.table, w'.table, Run(w, events).table, id);
    }
  }

  // ------------------------------------------------------ which writes get lost

  /** The write lands outside the window between a listing and its cursor, with a
      stamp after every cursor given out. */
  predicate InTime(w: World, stamp: int) {
    match w.pulling
    case Idle => w.since.None? || stamp > w.since.value
    case Listed(_) => false
    case Answered(_, cursor) => stamp > cursor
  }

  /** The rest of a pull: neither a new one, nor another event for the record. */
  predicate Settling(e: Event, id: string) {
    !Touches(e, id) && !e.Lists? && !e.Fails? && !e.Restarts?
  }

  lemma {:induction false} SettleStep(w: World, e: Event, id: string)
    requires Enabled(w, e) && Settling(e, id) && id in w.rows && w.rows[id].updatedAt <= w.clock
    ensures
      var w' := Step(w, e);
      && id in w'.rows && w'.rows[id] == w.rows[id] && w.rows[id].updatedAt <= w'.clock
      && (InTime(w', w.rows[id].updatedAt) <==> InTime(w, w.rows[id].updatedAt))
  {
  }

  /** Whether the last write is in time does not change until the pull is over. */
  lemma {:induction false} Settle(w: World, s: Story, mid: seq<Event>, id: string)
    requires id in w.rows && w.rows[id].updatedAt <= w.clock
    requires Runs(w, mid) && forall i | 0 <= i < |mid| :: Settling(mid[i], id)
    ensures
      var w' := Run(w, mid);
      && id in w'.rows && w'.rows[id] == w.rows[id] && Told(s, w, mid, id).writes == s.writes
      && (InTime(w', w.rows[id].updatedAt) <==> InTime(w, w.rows[id].updatedAt))
    decreases |mid|
  {
    if mid != [] {
      SettleStep(w, mid[0], id);
      Settle(Step(w, mid[0]), Tell(s, w, mid[0], id), mid[1..], id);
    }
  }

  /** The pull under way, if any, does not bring the last write. */
  predicate Behind(w: World, s: Story, id: string) {
    s.seen < |s.writes| && (Offer(w, id) != [] ==> s.offered < |s.writes|)
  }

  lemma {:induction false} StaysBehind(w: World, s: Story, mid: seq<Event>, id: string)
    requires Behind(w, s, id) && Runs(w, mid) && forall i | 0 <= i < |mid| :: Settling(mid[i], id)
    ensures Behind(Run(w, mid), Told(s, w, mid, id), id)
    decreases |mid|
  {
    if mid != [] {
      StaysBehind(Step(w, mid[0]), Tell(s, w, mid[0], id), mid[1..], id);
    }
  }

  /** A write is hidden already when the pull under way is over exactly when it
      landed between the listing and its cursor or with a stamp at or before a
      cursor given out. */
  lemma {:induction false} LandsHiddenIff(w: World, s: Story, e: Event, mid: seq<Event>)
    requires e.Lands? && Ok(w, s, e.id) && Enabled(w, e) && Runs(Step(w, e), mid)
    requires (forall i | 0 <= i < |mid| :: Settling(mid[i], e.id)) && Run(Step(w, e), mid).pulling.Idle?
    ensures
      var w2, s2 := Run(Step(w, e), mid), Told(Tell(s, w, e, e.id), Step(w, e), mid, e.id);
      && Ok(w2, s2, e.id) && !UpToDate(s2) && e.id in w2.rows
      && (Hidden(w2, s2, e.id) <==> !InTime(w, e.stamp))
  {
    StepKeeps(w, s, e, e.id);
    RunKeeps(Step(w, e), Tell(s, w, e, e.id), mid, e.id);
    Settle(Step(w, e), Tell(s, w, e, e.id), mid, e.id);
    StaysBehind(Step(w, e), Tell(s, w, e, e.id), mid, e.id);
  }

  /** A write, the pull under way, and the next pull: the write is copied or lost,
      and it is lost exactly when it was not in time, the page left it out, the
      table does not take its version, or storage did not get to write it. */
  lemma {:induction false} WriteIsLostIff(w: World, s: Story, e: Event, mid: seq<Event>, page: seq<string>, during: seq<Event>, unwritten: set<string>)
    requires e.Lands? && Ok(w, s, e.id) && Enabled(w, e) && Runs(Step(w, e), mid)
    requires (forall i | 0 <= i < |mid| :: Settling(mid[i], e.id)) && Enabled(Run(Step(w, e), mid), Lists(page))
    requires Runs(Step(Run(Step(w, e), mid), Lists(page)), during) && Run(Step(Run(Step(w, e), mid), Lists(page)), during).pulling.Answered?
    requires forall i | 0 <= i < |during| :: During(during[i]) && !Touches(during[i], e.id)
    ensures
      var w2, s2 := Run(Step(w, e), mid), Told(Tell(s, w, e, e.id), Step(w, e), mid, e.id);
      var w3, s3 := Step(w2, Lists(page)), Tell(s2, w2, Lists(page), e.id);
      var w4, s4 := Run(w3, during), Told(s3, w3, during, e.id);
      var w5, s5 := Step(w4, Applies(unwritten)), Tell(s4, w4, Applies(unwritten), e.id);
      && (Hidden(w5, s5, e.id) <==> !UpToDate(s5))
      && e.id in w2.rows
      && (Hidden(w5, s5, e.id) <==> !InTime(w, e.stamp) || e.id !in page || !Takes(w2, e.id, w2.rows[e.id].version) || e.id in unwritten)
  {
    LandsHiddenIff(w, s, e, mid);
    var w2, s2 := Run(Step(w, e), mid), Told(Tell(s, w, e, e.id), Step(w, e), mid, e.id);
    NextPullDecides(w2, s2, page, during, unwritten, e.id);
  }

  lemma {:induction false} NextPullDecides(w: World, s: Story, page: seq<string>, during: seq<Event>, unwritten: set<string>, id: string)
    requires Ok(w, s, id) && !UpToDate(s) && id in w.rows && Enabled(w, Lists(page))
    requires Runs(Step(w, Lists(page)), during) && Run(Step(w, Lists(page)), during).pulling.Answered?
    requires forall i | 0 <= i < |during| :: During(during[i]) && !Touches(during[i], id)
    ensures
      var w3, s3 := Step(w, Lists(page)), Tell(s, w, Lists(page), id);
      var w4, s4 := Run(w3, during), Told(s3, w3, during, id);
      var w5, s5 := Step(w4, Applies(unwritten)), Tell(s4, w4, Applies(unwritten), id);
      (Hidden(w5, s5, id) <==> !UpToDate(s5)) && (Hidden(w5, s5, id) <==> !Carries(w, page, unwritten, id))
  {
    var w3, s3 := Step(w, Lists(page)), Tell(s, w, Lists(page), id);
    var w4, s4 := Run(w3, during), Told(s3, w3, during, id);
    PullCopiesIff(w, s, page, during, unwritten, id);
    StepKeeps(w, s, Lists(page), id);
    RunKeeps(w3, s3, during, id);
    Settle(w3, s3, during, id);
    SettleStep(w4, Applies(unwritten), id);
    StepKeeps(w4, s4, Applies(unwritten), id);
  }
}
