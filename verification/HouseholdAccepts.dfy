/** When an accept succeeds, told from the actions of the run alone: the invitation
    that was checked and inserted, the accepts before, and the time. */
module HouseholdAccepts {
  import opened Text
  import opened Household
  import opened HouseholdRuns

  /** The invite was inserted at `k`, before `n`, for an invitation to an existing
      household that the same operation checked at `j`. */
  ghost predicate Placed(states: seq<System>, actions: seq<Action>, j: nat, k: nat, n: nat, id: string) {
    && j < k < n <= |actions| < |states|
    && actions[j].InviteChecks? && actions[j].hid in states[j].store.households
    && actions[k] == InviteInserts(actions[j].t, id)
    && forall m | j < m < k :: !(actions[m].InviteInserts? && actions[m].t == actions[j].t)
  }

  /** The accept at `i` goes on to push a member: an operation is under way after it. */
  ghost predicate Starts(states: seq<System>, actions: seq<Action>, i: nat, id: string) {
    && i < |actions| && i + 1 < |states|
    && actions[i].AcceptMarks? && actions[i].inviteId == id && actions[i].t in states[i + 1].threads
  }

  // --------------------------------------------------- from check to insertion

  /** A checked invitation waits, as it is, for its insertion. */
  lemma {:induction false} InvitationWaits(states: seq<System>, actions: seq<Action>, j: nat, k: nat)
    requires IsRun(states, actions) && j < k <= |actions|
    requires actions[j].InviteChecks? && actions[j].hid in states[j].store.households
    requires forall m | j < m < k :: !(actions[m].InviteInserts? && actions[m].t == actions[j].t)
    ensures
      var a := actions[j];
      a.t in states[k].threads && states[k].threads[a.t] == ToInvite(Invite(a.hid, a.role, a.now + 604_800, false))
    decreases k - j
  {
    if k > j + 1 {
      InvitationWaits(states, actions, j, k - 1);
    }
    assert states[k] == Next(states[k - 1], actions[k - 1]);
  }

  /** An invitation that waits was checked, and not inserted since. */
  ghost predicate CheckedAt(states: seq<System>, actions: seq<Action>, j: nat, n: nat, t: nat, i: Invite) {
    && j < n <= |actions| < |states|
    && actions[j].InviteChecks? && actions[j].t == t && actions[j].hid in states[j].store.households
    && i == Invite(actions[j].hid, actions[j].role, actions[j].now + 604_800, false)
    && forall m | j < m < n :: !(actions[m].InviteInserts? && actions[m].t == t)
  }

  lemma {:induction false} WaitingWasChecked(states: seq<System>, actions: seq<Action>, n: nat, t: nat) returns (j: nat)
    requires IsRun(states, actions) && n <= |actions| && t in states[n].threads && states[n].threads[t].ToInvite?
    ensures CheckedAt(states, actions, j, n, t, states[n].threads[t].invite)
    decreases n
  {
    assert states[n] == Next(states[n - 1], actions[n - 1]);
    if t in states[n - 1].threads && states[n - 1].threads[t] == states[n].threads[t] {
      j := WaitingWasChecked(states, actions, n - 1, t);
    } else {
      j := n - 1;
    }
  }

  // ------------------------------------------------------- what invites keep

  /** An invite stays, with its household, role and expiry. */
  lemma {:induction false} InviteStays(states: seq<System>, actions: seq<Action>, k: nat, n: nat, id: string)
    requires IsRun(states, actions) && k <= n <= |actions| && id in states[k].store.invites
    ensures id in states[n].store.invites
    ensures states[n].store.invites[id] == states[k].store.invites[id].(accepted := states[n].store.invites[id].accepted)
    decreases n - k
  {
    if k < n {
      InviteStays(states, actions, k, n - 1, id);
      assert states[n] == Next(states[n - 1], actions[n - 1]);
    }
  }

  /** A placed invite is there, and expires seven days after the check. */
  lemma {:induction false} PlacedIsThere(states: seq<System>, actions: seq<Action>, j: nat, k: nat, n: nat, id: string)
    requires IsRun(states, actions) && Placed(states, actions, j, k, n, id)
    ensures id in states[n].store.invites && states[n].store.invites[id].expiresAt == actions[j].now + 604_800
  {
    InvitationWaits(states, actions, j, k);
    assert states[k + 1] == Next(states[k], actions[k]);
    InviteStays(states, actions, k + 1, n, id);
  }

  /** An invite that is there was placed. */
  lemma {:induction false} ThereWasPlaced(states: seq<System>, actions: seq<Action>, n: nat, id: string) returns (j: nat, k: nat)
    requires IsRun(states, actions) && n <= |actions| && id in states[n].store.invites
    ensures Placed(states, actions, j, k, n, id)
    decreases n
  {
    assert states[n] == Next(states[n - 1], actions[n - 1]);
    if id in states[n - 1].store.invites {
      j, k := ThereWasPlaced(states, actions, n - 1, id);
    } else {
      k := n - 1;
      j := WaitingWasChecked(states, actions, k, actions[k].t);
    }
  }

  /** An accept starts a push exactly when the invite is there, not accepted, and not
      past its expiry; it is accepted from then on. */
  lemma {:induction false} StartsIff(states: seq<System>, actions: seq<Action>, i: nat, id: string)
    requires IsRun(states, actions) && i < |actions| && actions[i].AcceptMarks? && actions[i].inviteId == id
    ensures Starts(states, actions, i, id) <==>
      var invites := states[i].store.invites;
      id in invites && !invites[id].accepted && actions[i].now <= invites[id].expiresAt
    ensures Starts(states, actions, i, id) ==> id in states[i + 1].store.invites && states[i + 1].store.invites[id].accepted
  {
    assert states[i + 1] == Next(states[i], actions[i]);
  }

  /** An invite is accepted exactly when an earlier accept of it started a push. */
  lemma {:induction false} AcceptedIff(states: seq<System>, actions: seq<Action>, n: nat, id: string)
    requires IsRun(states, actions) && n <= |actions| && id in states[n].store.invites
    ensures states[n].store.invites[id].accepted <==> exists i | 0 <= i < n :: Starts(states, actions, i, id)
    decreases n
  {
    if i :| 0 <= i < n && Starts(states, actions, i, id) {
      StartsIff(states, actions, i, id);
      StaysAccepted(states, actions, i + 1, n, id);
    }
    if states[n].store.invites[id].accepted {
      var i := AcceptedWasStarted(states, actions, n, id);
    }
  }

  lemma {:induction false} AcceptedWasStarted(states: seq<System>, actions: seq<Action>, n: nat, id: string) returns (i: nat)
    requires IsRun(states, actions) && n <= |actions| && id in states[n].store.invites && states[n].store.invites[id].accepted
    ensures i < n && Starts(states, actions, i, id)
    decreases n
  {
    assert states[n] == Next(states[n - 1], actions[n - 1]);
    if id in states[n - 1].store.invites && states[n - 1].store.invites[id].accepted {
      i := AcceptedWasStarted(states, actions, n - 1, id);
    } else {
      i := n - 1;
      InsertedIsOpen(states, actions, i, id);
    }
  }

  /** What turns an invite into an accepted one is an accept of it. */
  lemma {:induction false} InsertedIsOpen(states: seq<System>, actions: seq<Action>, i: nat, id: string)
    requires IsRun(states, actions) && i < |actions|
    requires id in states[i + 1].store.invites && states[i + 1].store.invites[id].accepted
    requires !(id in states[i].store.invites && states[i].store.invites[id].accepted)
    ensures Starts(states, actions, i, id)
  {
    assert states[i + 1] == Next(states[i], actions[i]);
    if actions[i].InviteInserts? {
      var j := WaitingWasChecked(states, actions, i, actions[i].t);
      assert false;
    }
  }

  // ------------------------------------------------------------- when one succeeds

  /** In every run: an accept starts a push exactly when the id was inserted for an
      invitation checked at some time, no earlier accept of it started one, and the
      accept comes at most 604 800 seconds after that time. */
  lemma {:induction false} AcceptStartsIff(states: seq<System>, actions: seq<Action>, n: nat)
    requires IsRun(states, actions) && n < |actions| && actions[n].AcceptMarks?
    ensures
      var id := actions[n].inviteId;
      actions[n].t in states[n + 1].threads <==>
        && (forall i | 0 <= i < n :: !Starts(states, actions, i, id))
        && exists j: nat, k: nat :: Placed(states, actions, j, k, n, id) && actions[n].now <= actions[j].now + 604_800
  {
    var id := actions[n].inviteId;
    StartsIff(states, actions, n, id);
    if id in states[n].store.invites {
      AcceptedIff(states, actions, n, id);
      var j, k := ThereWasPlaced(states, actions, n, id);
      PlacedIsThere(states, actions, j, k, n, id);
    }
    if j: nat, k: nat :| Placed(states, actions, j, k, n, id) && actions[n].now <= actions[j].now + 604_800 {
      PlacedIsThere(states, actions, j, k, n, id);
    }
  }

  /** Such a run: a household, an invitation, and its accept a minute later. */
  lemma {:induction false} InviteeJoins(hid: string, admin: string, id: string, user: string, role: Role)
    ensures
      var s1 := Next(INITIAL, CreateInserts(0, hid, admin));
      var s2 := Next(s1, InviteChecks(1, hid, role, 0));
      var s3 := Next(s2, InviteInserts(1, id));
      var s4 := Next(s3, AcceptMarks(1, id, user, 60));
      1 in s4.threads && s4.threads[1] == ToPush(hid, HouseholdMember(user, role))
  {
  }
}
