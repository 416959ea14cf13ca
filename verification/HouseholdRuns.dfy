/** Concurrent use of the household store: operations interleave between any two
    of their locked sections. */
module HouseholdRuns {
  import opened Text
  import opened Household

  /** What an operation still has to do after its last locked section. */
  datatype Todo =
    | ToPush(hid: string, member: HouseholdMember)
    | ToMap(user: string, hid: string)
    | ToInvite(invite: Invite)
    | ToSetRole(hid: string, user: string, role: Role)

  datatype System = System(store: Store, threads: map<nat, Todo>)

  /** A locked section of some operation; `t` names the operation in progress. */
  datatype Action =
    | CreateInserts(t: nat, hid: string, admin: string)
    | InviteChecks(t: nat, hid: string, role: Role, now: int)
    | InviteInserts(t: nat, inviteId: string)
    | AcceptMarks(t: nat, inviteId: string, user: string, now: int)
    | AcceptPushes(t: nat)
    | MapsUser(t: nat)
    | RoleReads(t: nat, user: string, role: Role)
    | RoleWrites(t: nat)
    | Shares(hid: string, collection: string)

  const INITIAL := System(Store(map[], map[], map[]), map[])

  /** Operations in progress have distinct names and identifiers are never reused. */
  predicate Enabled(s: System, a: Action) {
    match a
    case CreateInserts(t, hid, _) => t !in s.threads && hid !in s.store.households
    case InviteChecks(t, _, _, _) => t !in s.threads
    case InviteInserts(t, inviteId) => t in s.threads && s.threads[t].ToInvite? && inviteId !in s.store.invites
    case AcceptMarks(t, _, _, _) => t !in s.threads
    case AcceptPushes(t) => t in s.threads && s.threads[t].ToPush?
    case MapsUser(t) => t in s.threads && s.threads[t].ToMap?
    case RoleReads(t, _, _) => t !in s.threads
    case RoleWrites(t) => t in s.threads && s.threads[t].ToSetRole?
    case Shares(_, _) => true
  }

  function Next(s: System, a: Action): System
    requires Enabled(s, a)
  {
    match a
    case CreateInserts(t, hid, admin) =>
      System(InsertHousehold(s.store, hid, admin), s.threads[t := ToMap(admin, hid)])
    case InviteChecks(t, hid, role, now) =>
      if hid in s.store.households
      then s.(threads := s.threads[t := ToInvite(Invite(hid, role, now + INVITE_DAYS * DAY, false))])
      else s
    case InviteInserts(t, inviteId) =>
      System(PutInvite(s.store, inviteId, s.threads[t].invite), s.threads - {t})
    case AcceptMarks(t, inviteId, user, now) =>
      if AcceptCheck(s.store, inviteId, now).Some? then s else
      var i := s.store.invites[inviteId];
      System(MarkAccepted(s.store, inviteId), s.threads[t := ToPush(i.household, HouseholdMember(user, i.role))])
    case AcceptPushes(t) =>
      var todo := s.threads[t];
      System(PushMember(s.store, todo.hid, todo.member), s.threads[t := ToMap(todo.member.userId, todo.hid)])
    case MapsUser(t) =>
      System(PutUser(s.store, s.threads[t].user, s.threads[t].hid), s.threads - {t})
    case RoleReads(t, user, role) =>
      if user in s.store.userMap
      then s.(threads := s.threads[t := ToSetRole(s.store.userMap[user], user, role)])
      else s
    case RoleWrites(t) =>
      System(WriteRole(s.store, s.threads[t].hid, s.threads[t].user, s.threads[t].role), s.threads - {t})
    case Shares(hid, collection) =>
      if hid in s.store.households then s.(store := Share(s.store, hid, collection)) else s
  }

  ghost predicate IsRun(states: seq<System>, actions: seq<Action>) {
    && |states| == |actions| + 1
    && states[0] == INITIAL
    && forall i | 0 <= i < |actions| :: Enabled(states[i], actions[i]) && states[i + 1] == Next(states[i], actions[i])
  }

  // ----------------------------------------------------------------- invariant

  predicate Distinct(s: seq<string>) {
    forall i, j | 0 <= i < j < |s| :: s[i] != s[j]
  }

  /** The household exists and lists the user. */
  predicate Resolves(st: Store, user: string, hid: string) {
    hid in st.households && Lists(st.households[hid], user)
  }

  predicate TodoOk(st: Store, todo: Todo) {
    match todo
    case ToPush(hid, _) => hid in st.households
    case ToMap(user, hid) => Resolves(st, user, hid)
    case ToInvite(i) => i.household in st.households && !i.accepted
    case ToSetRole(hid, user, _) => user in st.userMap && Resolves(st, user, hid)
  }

  ghost predicate Consistent(s: System) {
    && (forall h | h in s.store.households :: s.store.households[h].id == h && Distinct(s.store.households[h].sharedCollections))
    && (forall i | i in s.store.invites :: s.store.invites[i].household in s.store.households)
    && (forall u | u in s.store.userMap :: Resolves(s.store, u, s.store.userMap[u]))
    && (forall t | t in s.threads :: TodoOk(s.store, s.threads[t]))
  }

  /** Accepts between marking the invite and pushing the member. */
  function Pushing(threads: map<nat, Todo>, hid: string): set<nat> {
    set t | t in threads && threads[t].ToPush? && threads[t].hid == hid
  }

  function Accepted(invites: map<string, Invite>, hid: string): set<string> {
    set i | i in invites && invites[i].accepted && invites[i].household == hid
  }

  /** Every member is the creator or one accepted invite, and every accepted
      invite is a member or about to become one. */
  ghost predicate Balanced(s: System, hid: string) {
    hid in s.store.households &&
    |s.store.households[hid].members| + |Pushing(s.threads, hid)| == 1 + |Accepted(s.store.invites, hid)|
  }

  ghost predicate AllBalanced(s: System) {
    forall h | h in s.store.households :: Balanced(s, h)
  }

  // ------------------------------------------------------ households only grow

  /** No household disappears, no member is delisted and no user is unmapped. */
  ghost predicate Grows(st: Store, st': Store) {
    && (forall h | h in st.households ::
          h in st'.households && forall u | Lists(st.households[h], u) :: Lists(st'.households[h], u))
    && (forall u | u in st.userMap :: u in st'.userMap)
  }

  lemma {:induction false} ListsIff(h: Household, user: string)
    ensures Lists(h, user) <==> exists i | 0 <= i < |h.members| :: h.members[i].userId == user
  {
  }

  lemma {:induction false} PushGrows(st: Store, hid: string, m: HouseholdMember)
    ensures Grows(st, PushMember(st, hid, m))
    ensures hid in st.households ==> Resolves(PushMember(st, hid, m), m.userId, hid)
  {
    if hid in st.households {
      var h, h' := st.households[hid], PushMember(st, hid, m).households[hid];
      forall u | Lists(h, u) ensures Lists(h', u) {
        ListsIff(h, u);
        var i :| 0 <= i < |h.members| && h.members[i].userId == u;
        assert h'.members[i].userId == u;
        ListsIff(h', u);
      }
      assert h'.members[|h.members|].userId == m.userId;
      ListsIff(h', m.userId);
    }
  }

  lemma {:induction false} RoleGrows(st: Store, hid: string, user: string, role: Role)
    ensures Grows(st, WriteRole(st, hid, user, role))
  {
    if hid in st.households {
      var h, h' := st.households[hid], WriteRole(st, hid, user, role).households[hid];
      forall u | Lists(h, u) ensures Lists(h', u) {
        ListsIff(h, u);
        var i :| 0 <= i < |h.members| && h.members[i].userId == u;
        assert h'.members[i].userId == u;
        ListsIff(h', u);
      }
    }
  }

  lemma {:induction false} NextGrows(s: System, a: Action)
    requires Enabled(s, a)
    ensures Grows(s.store, Next(s, a).store)
  {
    match a
    case AcceptPushes(t) => PushGrows(s.store, s.threads[t].hid, s.threads[t].member);
    case RoleWrites(t) => RoleGrows(s.store, s.threads[t].hid, s.threads[t].user, s.threads[t].role);
    case _ =>
  }

  lemma {:induction false} GrowsKeepsTodo(st: Store, st': Store, todo: Todo)
    requires Grows(st, st') && TodoOk(st, todo)
    ensures TodoOk(st', todo)
  {
  }

  lemma {:induction false} ShareKeepsDistinct(shared: seq<string>, collection: string)
    requires Distinct(shared) && collection !in shared
    ensures Distinct(shared + [collection])
  {
  }

  lemma {:induction false} NewTodoOk(s: System, a: Action)
    requires Enabled(s, a) && Consistent(s)
    ensures var s' := Next(s, a); forall t | t in s'.threads && (t !in s.threads || s'.threads[t] != s.threads[t]) :: TodoOk(s'.store, s'.threads[t])
  {
    match a
    case CreateInserts(t, hid, admin) =>
      var h := Next(s, a).store.households[hid];
      assert h.members[0].userId == admin;
      ListsIff(h, admin);
    case AcceptPushes(t) => PushGrows(s.store, s.threads[t].hid, s.threads[t].member);
    case _ =>
  }

  lemma {:induction false} HouseholdsStayTidy(s: System, a: Action)
    requires Enabled(s, a) && Consistent(s)
    ensures var st := Next(s, a).store;
      forall h | h in st.households :: st.households[h].id == h && Distinct(st.households[h].sharedCollections)
  {
    if a.Shares? && a.hid in s.store.households && a.collection !in s.store.households[a.hid].sharedCollections {
      ShareKeepsDistinct(s.store.households[a.hid].sharedCollections, a.collection);
    }
  }

  lemma {:induction false} InvitesStayTidy(s: System, a: Action)
    requires Enabled(s, a) && Consistent(s)
    ensures var st := Next(s, a).store; forall i | i in st.invites :: st.invites[i].household in st.households
  {
    NextGrows(s, a);
  }

  lemma {:induction false} UsersStayTidy(s: System, a: Action)
    requires Enabled(s, a) && Consistent(s)
    ensures var st := Next(s, a).store; forall u | u in st.userMap :: Resolves(st, u, st.userMap[u])
  {
    NextGrows(s, a);
    var st := Next(s, a).store;
    forall u | u in st.userMap ensures Resolves(st, u, st.userMap[u]) {
      if a.MapsUser? && u == s.threads[a.t].user {
        assert TodoOk(s.store, s.threads[a.t]);
      } else {
        assert Resolves(s.store, u, s.store.userMap[u]);
      }
    }
  }

  lemma {:induction false} NextConsistent(s: System, a: Action)
    requires Enabled(s, a) && Consistent(s)
    ensures Consistent(Next(s, a))
  {
    HouseholdsStayTidy(s, a);
    InvitesStayTidy(s, a);
    UsersStayTidy(s, a);
    NewTodoOk(s, a);
    NextGrows(s, a);
    var s' := Next(s, a);
    forall t | t in s'.threads ensures TodoOk(s'.store, s'.threads[t]) {
      if t in s.threads && s'.threads[t] == s.threads[t] {
        GrowsKeepsTodo(s.store, s'.store, s.threads[t]);
      }
    }
  }

  // ------------------------------------------------------------- conservation

  lemma {:induction false} CreateBalanced(s: System, a: Action, hid: string)
    requires a.CreateInserts? && Enabled(s, a) && Consistent(s) && AllBalanced(s)
    requires hid in Next(s, a).store.households
    ensures Balanced(Next(s, a), hid)
  {
    assert Pushing(Next(s, a).threads, hid) == Pushing(s.threads, hid);
    if hid == a.hid {
      NothingPending(s, hid);
    } else {
      assert Balanced(s, hid);
    }
  }

  lemma {:induction false} NothingPending(s: System, hid: string)
    requires Consistent(s) && hid !in s.store.households
    ensures Pushing(s.threads, hid) == {} && Accepted(s.store.invites, hid) == {}
  {
    forall t | t in s.threads ensures t !in Pushing(s.threads, hid) {
      assert TodoOk(s.store, s.threads[t]);
    }
  }

  lemma {:induction false} MarkBalanced(s: System, a: Action, hid: string)
    requires a.AcceptMarks? && Enabled(s, a) && Balanced(s, hid)
    ensures Balanced(Next(s, a), hid)
  {
    var s' := Next(s, a);
    if AcceptCheck(s.store, a.inviteId, a.now).None? {
      var i := s.store.invites[a.inviteId];
      StartPushing(s.threads, a.t, ToPush(i.household, HouseholdMember(a.user, i.role)), hid);
      OneMoreAccepted(s.store.invites, a.inviteId, hid);
    }
  }

  lemma {:induction false} StartPushing(threads: map<nat, Todo>, t: nat, todo: Todo, hid: string)
    requires t !in threads && todo.ToPush?
    ensures |Pushing(threads[t := todo], hid)| == |Pushing(threads, hid)| + if todo.hid == hid then 1 else 0
  {
    assert Pushing(threads[t := todo], hid) == Pushing(threads, hid) + if todo.hid == hid then {t} else {};
  }

  lemma {:induction false} OneMoreAccepted(invites: map<string, Invite>, i: string, hid: string)
    requires i in invites && !invites[i].accepted
    ensures |Accepted(invites[i := invites[i].(accepted := true)], hid)|
         == |Accepted(invites, hid)| + if invites[i].household == hid then 1 else 0
  {
    assert Accepted(invites[i := invites[i].(accepted := true)], hid)
        == Accepted(invites, hid) + if invites[i].household == hid then {i} else {};
  }

  lemma {:induction false} PushBalanced(s: System, a: Action, hid: string)
    requires a.AcceptPushes? && Enabled(s, a) && Balanced(s, hid) && Consistent(s)
    ensures Balanced(Next(s, a), hid)
  {
    var s' := Next(s, a);
    assert TodoOk(s.store, s.threads[a.t]);
    if s.threads[a.t].hid == hid {
      assert Pushing(s'.threads, hid) == Pushing(s.threads, hid) - {a.t};
      assert a.t in Pushing(s.threads, hid);
    } else {
      assert Pushing(s'.threads, hid) == Pushing(s.threads, hid);
    }
  }

  lemma {:induction false} OthersBalanced(s: System, a: Action, hid: string)
    requires !a.CreateInserts? && !a.AcceptMarks? && !a.AcceptPushes?
    requires Enabled(s, a) && Balanced(s, hid) && Consistent(s)
    ensures Balanced(Next(s, a), hid)
  {
    var s' := Next(s, a);
    assert Pushing(s'.threads, hid) == Pushing(s.threads, hid);
    assert Accepted(s'.store.invites, hid) == Accepted(s.store.invites, hid) by {
      if a.InviteInserts? {
        assert TodoOk(s.store, s.threads[a.t]);
      }
    }
  }

  lemma {:induction false} NextBalanced(s: System, a: Action)
    requires Enabled(s, a) && Consistent(s) && AllBalanced(s)
    ensures AllBalanced(Next(s, a))
  {
    var s' := Next(s, a);
    forall h | h in s'.store.households ensures Balanced(s', h) {
      if a.CreateInserts? {
        CreateBalanced(s, a, h);
      } else {
        assert Balanced(s, h);
        if a.AcceptMarks? {
          MarkBalanced(s, a, h);
        } else if a.AcceptPushes? {
          PushBalanced(s, a, h);
        } else {
          OthersBalanced(s, a, h);
        }
      }
    }
  }

  /** In every interleaving: each user maps to an existing household that lists
      them, shared lists have no duplicates, and the members of each household
      plus its accepts in flight are its creator plus its accepted invites. */
  lemma {:induction false} EveryRunIsConsistent(states: seq<System>, actions: seq<Action>)
    requires IsRun(states, actions)
    ensures Consistent(states[|actions|]) && AllBalanced(states[|actions|])
    decreases |actions|
  {
    if actions != [] {
      var n := |actions| - 1;
      EveryRunIsConsistent(states[..n + 1], actions[..n]);
      NextConsistent(states[n], actions[n]);
      NextBalanced(states[n], actions[n]);
    }
  }

  /** When no accept is in flight, a household has exactly one member for each
      accepted invite besides its creator: no invite yields two members. */
  lemma {:induction false} OneMemberPerInvite(states: seq<System>, actions: seq<Action>, hid: string)
    requires IsRun(states, actions)
    requires hid in states[|actions|].store.households && Pushing(states[|actions|].threads, hid) == {}
    ensures |states[|actions|].store.households[hid].members| == 1 + |Accepted(states[|actions|].store.invites, hid)|
  {
    EveryRunIsConsistent(states, actions);
    assert Balanced(states[|actions|], hid);
  }

  // ------------------------------------------------------------------- access

  /** In every reachable state, another user's record is accessible exactly when
      it belongs to the requester's current household, its collection is shared
      or the requester is an Admin, and a write is not by a Guest. */
  lemma {:induction false} AccessExactly(states: seq<System>, actions: seq<Action>, user: string, owner: string,
                                         recordHousehold: Option<string>, collection: string, write: bool)
    requires IsRun(states, actions) && owner != user
    ensures
      var st := states[|actions|].store;
      CanAccess(st, user, Some(owner), recordHousehold, collection, write) <==>
        && user in st.userMap && recordHousehold == Some(st.userMap[user])
        && st.userMap[user] in st.households
        && var h := st.households[st.userMap[user]];
           var role := RoleIn(h, user);
           && role.Some? && (collection in h.sharedCollections || role == Some(Admin)) && !(write && role == Some(Guest))
  {
    EveryRunIsConsistent(states, actions);
    var st := states[|actions|].store;
    if user in st.userMap {
      assert Resolves(st, user, st.userMap[user]);
    }
  }

  /** One's own records and records without an owner are accessible in every state, to
      read and to write, whatever the household, role and collection. */
  lemma {:induction false} OwnAndOwnerless(st: Store, user: string, recordHousehold: Option<string>, collection: string, write: bool)
    ensures CanAccess(st, user, Some(user), recordHousehold, collection, write)
    ensures CanAccess(st, user, None, recordHousehold, collection, write)
  {
  }

  /** Sharing a collection revokes nothing and grants exactly that collection's
      records in that household to its current members, writes not to Guests. */
  lemma {:induction false} SharingGrantsExactly(s: System, hid: string, shared: string, user: string, owner: Option<string>,
                                                recordHousehold: Option<string>, collection: string, write: bool)
    requires Consistent(s) && hid in s.store.households
    ensures
      var before := CanAccess(s.store, user, owner, recordHousehold, collection, write);
      var after := CanAccess(Share(s.store, hid, shared), user, owner, recordHousehold, collection, write);
      var granted := collection == shared && recordHousehold == Some(hid)
                     && user in s.store.userMap && s.store.userMap[user] == hid
                     && !(write && RoleIn(s.store.households[hid], user) == Some(Guest));
      after <==> before || granted
  {
    if user in s.store.userMap {
      assert Resolves(s.store, user, s.store.userMap[user]);
    }
  }

  /** The household's shared collections, none before it exists. */
  function SharedBy(st: Store, hid: string): seq<string> {
    if hid in st.households then st.households[hid].sharedCollections else []
  }

  lemma {:induction false} NextShares(s: System, a: Action, hid: string, collection: string)
    requires Enabled(s, a)
    ensures collection in SharedBy(Next(s, a).store, hid)
       <==> collection in SharedBy(s.store, hid) || (a == Shares(hid, collection) && hid in s.store.households)
  {
  }

  /** A collection is shared in a household exactly when, at some time since it was
      founded, it has been shared there. */
  lemma {:induction false} SharedIff(states: seq<System>, actions: seq<Action>, hid: string, collection: string)
    requires IsRun(states, actions)
    ensures collection in SharedBy(states[|actions|].store, hid)
       <==> exists i | 0 <= i < |actions| :: actions[i] == Shares(hid, collection) && hid in states[i].store.households
    decreases |actions|
  {
    if actions != [] {
      var n := |actions| - 1;
      var before := actions[..n];
      assert forall i | 0 <= i < n :: before[i] == actions[i] && states[..n + 1][i] == states[i];
      SharedIff(states[..n + 1], before, hid, collection);
      NextShares(states[n], actions[n], hid, collection);
    }
  }

  // ----------------------------------------------- where a member comes from

  /** Some earlier invitation, to a household that existed, set this one's
      household, role and expiry. */
  ghost predicate Invited(states: seq<System>, actions: seq<Action>, i: Invite) {
    exists j :: 0 <= j < |actions| && j < |states| && actions[j].InviteChecks? && actions[j].hid in states[j].store.households
             && i.household == actions[j].hid && i.role == actions[j].role && i.expiresAt == actions[j].now + INVITE_DAYS * DAY
  }

  ghost predicate Traced(states: seq<System>, actions: seq<Action>, s: System) {
    && (forall i | i in s.store.invites :: Invited(states, actions, s.store.invites[i]))
    && (forall t | t in s.threads && s.threads[t].ToInvite? :: Invited(states, actions, s.threads[t].invite))
  }

  lemma {:induction false} InvitedLater(states: seq<System>, actions: seq<Action>, n: nat, i: Invite)
    requires n + 1 == |actions| && |states| == n + 2 && Invited(states[..n + 1], actions[..n], i)
    ensures Invited(states, actions, i)
  {
    var j :| 0 <= j < n && actions[..n][j].InviteChecks? && actions[..n][j].hid in states[..n + 1][j].store.households
          && i.household == actions[..n][j].hid && i.role == actions[..n][j].role
          && i.expiresAt == actions[..n][j].now + INVITE_DAYS * DAY;
    assert actions[j] == actions[..n][j] && states[j] == states[..n + 1][j];
  }

  lemma {:induction false} InvitesAreTraced(states: seq<System>, actions: seq<Action>)
    requires IsRun(states, actions)
    ensures Traced(states, actions, states[|actions|])
    decreases |actions|
  {
    if actions != [] {
      var n := |actions| - 1;
      var s, a, s' := states[n], actions[n], states[n + 1];
      InvitesAreTraced(states[..n + 1], actions[..n]);
      forall t | t in s'.threads && s'.threads[t].ToInvite? ensures Invited(states, actions, s'.threads[t].invite) {
        if t in s.threads && s'.threads[t] == s.threads[t] {
          InvitedLater(states, actions, n, s.threads[t].invite);
        } else {
          assert actions[n].InviteChecks?;
        }
      }
      forall i | i in s'.store.invites ensures Invited(states, actions, s'.store.invites[i]) {
        if a.InviteInserts? && i == a.inviteId {
          InvitedLater(states, actions, n, s.threads[a.t].invite);
        } else {
          InvitedLater(states, actions, n, s.store.invites[i]);
        }
      }
    }
  }

  ghost predicate Accepts(states: seq<System>, actions: seq<Action>, i: nat, inviteId: string)
    requires i < |actions| && i < |states|
  {
    actions[i].AcceptMarks? && actions[i].inviteId == inviteId && AcceptCheck(states[i].store, inviteId, actions[i].now).None?
  }

  /** Every accept that succeeds goes back to an invitation made at most seven days
      before, to a household that existed then, and pushes the accepting user with
      the household and role of that invitation. */
  lemma {:induction false} AcceptGoesBackToInvite(states: seq<System>, actions: seq<Action>, inviteId: string)
    requires IsRun(states, actions) && |actions| > 0
    requires Accepts(states, actions, |actions| - 1, inviteId)
    ensures
      var n := |actions| - 1;
      exists j :: 0 <= j < n && actions[j].InviteChecks? && actions[j].hid in states[j].store.households
        && actions[n].now <= actions[j].now + INVITE_DAYS * DAY
        && states[n + 1].threads[actions[n].t] == ToPush(actions[j].hid, HouseholdMember(actions[n].user, actions[j].role))
  {
    var n := |actions| - 1;
    InvitesAreTraced(states[..n + 1], actions[..n]);
    var i := states[n].store.invites[inviteId];
    assert Invited(states[..n + 1], actions[..n], i);
    var j :| 0 <= j < n && actions[..n][j].InviteChecks? && actions[..n][j].hid in states[..n + 1][j].store.households
          && i.household == actions[..n][j].hid && i.role == actions[..n][j].role
          && i.expiresAt == actions[..n][j].now + INVITE_DAYS * DAY;
    assert actions[j] == actions[..n][j] && states[j] == states[..n + 1][j];
  }

  lemma {:induction false} StaysAccepted(states: seq<System>, actions: seq<Action>, i: nat, j: nat, inviteId: string)
    requires IsRun(states, actions) && i <= j <= |actions|
    requires inviteId in states[i].store.invites && states[i].store.invites[inviteId].accepted
    ensures inviteId in states[j].store.invites && states[j].store.invites[inviteId].accepted
    decreases j - i
  {
    if i < j {
      assert states[i + 1] == Next(states[i], actions[i]);
      StaysAccepted(states, actions, i + 1, j, inviteId);
    }
  }

  /** Of all the concurrent accepts of an invite, at most one ever succeeds. */
  lemma {:induction false} AcceptedAtMostOnce(states: seq<System>, actions: seq<Action>, i: nat, j: nat, inviteId: string)
    requires IsRun(states, actions) && i < j < |actions|
    requires Accepts(states, actions, i, inviteId)
    ensures !Accepts(states, actions, j, inviteId)
  {
    assert states[i + 1] == Next(states[i], actions[i]);
    StaysAccepted(states, actions, i + 1, j, inviteId);
  }

  // ------------------------------------------------- the role after acceptance

  lemma {:induction false} FirstListingOfPush(members: seq<HouseholdMember>, m: HouseholdMember, user: string)
    ensures FirstListing(members + [m], user) ==
      if FirstListing(members, user) < |members| then FirstListing(members, user)
      else if m.userId == user then |members| else |members| + 1
  {
    if members == [] {
      assert members + [m] == [m] && [m][1..] == [];
    } else {
      assert (members + [m])[1..] == members[1..] + [m];
      FirstListingOfPush(members[1..], m, user);
    }
  }

  /** Some earlier accept by this user, of an invite to this household with this
      role, succeeded. */
  ghost predicate CameFromAccept(states: seq<System>, actions: seq<Action>, hid: string, m: HouseholdMember) {
    exists j :: 0 <= j < |actions| && j < |states| && actions[j].AcceptMarks? && Accepts(states, actions, j, actions[j].inviteId)
      && actions[j].user == m.userId && states[j].store.invites[actions[j].inviteId].household == hid
      && states[j].store.invites[actions[j].inviteId].role == m.role
  }

  lemma {:induction false} CameFromAcceptLater(states: seq<System>, actions: seq<Action>, n: nat, hid: string, m: HouseholdMember)
    requires n + 1 == |actions| && |states| == n + 2 && CameFromAccept(states[..n + 1], actions[..n], hid, m)
    ensures CameFromAccept(states, actions, hid, m)
  {
    var before, done := states[..n + 1], actions[..n];
    var j :| 0 <= j < n && done[j].AcceptMarks? && Accepts(before, done, j, done[j].inviteId)
      && done[j].user == m.userId && before[j].store.invites[done[j].inviteId].household == hid
      && before[j].store.invites[done[j].inviteId].role == m.role;
    assert actions[j] == done[j] && states[j] == before[j];
    assert Accepts(states, actions, j, actions[j].inviteId);
  }

  lemma {:induction false} PushesAreTraced(states: seq<System>, actions: seq<Action>)
    requires IsRun(states, actions)
    ensures var threads := states[|actions|].threads;
      forall t | t in threads && threads[t].ToPush? :: CameFromAccept(states, actions, threads[t].hid, threads[t].member)
    decreases |actions|
  {
    if actions != [] {
      var n := |actions| - 1;
      var s, a, s' := states[n], actions[n], states[n + 1];
      PushesAreTraced(states[..n + 1], actions[..n]);
      forall t | t in s'.threads && s'.threads[t].ToPush? ensures CameFromAccept(states, actions, s'.threads[t].hid, s'.threads[t].member) {
        if t in s.threads && s'.threads[t] == s.threads[t] {
          CameFromAcceptLater(states, actions, n, s.threads[t].hid, s.threads[t].member);
        } else {
          assert Accepts(states, actions, n, actions[n].inviteId);
        }
      }
    }
  }

  lemma {:induction false} RoleAfterPush(st: Store, hid: string, m: HouseholdMember)
    requires hid in st.households
    ensures
      var h, h' := st.households[hid], PushMember(st, hid, m).households[hid];
      RoleIn(h', m.userId) == Some(m.role) <==> !Lists(h, m.userId) || RoleIn(h, m.userId) == Some(m.role)
  {
    FirstListingOfPush(st.households[hid].members, m, m.userId);
  }

  /** In every interleaving: a member is pushed for an accept that succeeded, with
      the role of its invite, and has that role in the household exactly when the
      household, at the push, did not list the user or listed them first with that
      role. A second listing is appended, and the first one decides. */
  lemma {:induction false} AcceptGivesRoleIff(states: seq<System>, actions: seq<Action>, t: nat)
    requires IsRun(states, actions) && |actions| > 0 && actions[|actions| - 1] == AcceptPushes(t)
    ensures
      var n := |actions| - 1;
      && t in states[n].threads && states[n].threads[t].ToPush?
      && var hid, m := states[n].threads[t].hid, states[n].threads[t].member;
         && CameFromAccept(states[..n + 1], actions[..n], hid, m)
         && hid in states[n].store.households && hid in states[n + 1].store.households
         && var h := states[n].store.households[hid];
            RoleIn(states[n + 1].store.households[hid], m.userId) == Some(m.role) <==> !Lists(h, m.userId) || RoleIn(h, m.userId) == Some(m.role)
  {
    var n := |actions| - 1;
    EveryRunIsConsistent(states[..n + 1], actions[..n]);
    PushesAreTraced(states[..n + 1], actions[..n]);
    var todo := states[n].threads[t];
    assert TodoOk(states[n].store, todo);
    RoleAfterPush(states[n].store, todo.hid, todo.member);
  }

  // ------------------------------------------------------------- role updates

  function RoleOf(st: Store, user: string): Option<Role> {
    var h := HouseholdOf(st, user);
    if h.Some? then RoleIn(h.value, user) else None
  }

  lemma {:induction false} RewrittenListing(members: seq<HouseholdMember>, user: string, role: Role, other: string)
    requires FirstListing(members, user) < |members|
    ensures
      var i := FirstListing(members, user);
      FirstListing(members[i := members[i].(role := role)], other) == FirstListing(members, other)
  {
    var i := FirstListing(members, user);
    var members' := members[i := members[i].(role := role)];
    assert forall k | 0 <= k < |members| :: members'[k].userId == members[k].userId;
  }

  /** Writing a role changes that user's role in that household and no other. */
  lemma {:induction false} RoleAfterWrite(st: Store, hid: string, user: string, role: Role, k: string, u: string)
    requires Resolves(st, user, hid) && k in st.households
    ensures RoleIn(WriteRole(st, hid, user, role).households[k], u) ==
            if k == hid && u == user then Some(role) else RoleIn(st.households[k], u)
  {
    RewrittenListing(st.households[hid].members, user, role, u);
  }

  lemma {:induction false} RoleWriteEffect(st: Store, hid: string, user: string, role: Role, other: string)
    requires Resolves(st, user, hid) && user in st.userMap && st.userMap[user] in st.households
    ensures
      var st' := WriteRole(st, hid, user, role);
      && (RoleOf(st', user) == Some(role) <==> st.userMap[user] == hid || RoleOf(st, user) == Some(role))
      && (other != user ==> RoleOf(st', other) == RoleOf(st, other))
  {
    RoleAfterWrite(st, hid, user, role, st.userMap[user], user);
    if other in st.userMap && st.userMap[other] in st.households {
      RoleAfterWrite(st, hid, user, role, st.userMap[other], other);
    }
  }

  /** A role update reads the user's household under one lock and writes the role
      under another. It gives the user that role exactly when the user is still in
      the household that was read, or has the role anyway, although it reports
      success in every case; nobody else's role changes. */
  lemma {:induction false} UpdateTakesEffectIff(states: seq<System>, actions: seq<Action>, t: nat, other: string)
    requires IsRun(states, actions) && |actions| > 0 && actions[|actions| - 1] == RoleWrites(t)
    ensures
      var st, st' := states[|actions| - 1].store, states[|actions|].store;
      && t in states[|actions| - 1].threads && states[|actions| - 1].threads[t].ToSetRole?
      && var todo := states[|actions| - 1].threads[t];
         && Resolves(st, todo.user, todo.hid) && todo.user in st.userMap
         && (RoleOf(st', todo.user) == Some(todo.role) <==> st.userMap[todo.user] == todo.hid || RoleOf(st, todo.user) == Some(todo.role))
         && (other != todo.user ==> RoleOf(st', other) == RoleOf(st, other))
  {
    var n := |actions| - 1;
    EveryRunIsConsistent(states[..n + 1], actions[..n]);
    var todo := states[n].threads[t];
    assert TodoOk(states[n].store, todo);
    assert Resolves(states[n].store, todo.user, states[n].store.userMap[todo.user]);
    RoleWriteEffect(states[n].store, todo.hid, todo.user, todo.role, other);
  }

  /** In any state: a user who founds a household while an update of their role is
      between its two locks is Admin there afterwards, whatever the update asked. */
  lemma {:induction false} UpdateIsLost(s: System, t: nat, founding: nat, hid: string)
    requires Consistent(s) && t in s.threads && s.threads[t].ToSetRole? && founding !in s.threads && hid !in s.store.households
    ensures
      var s1 := Next(s, CreateInserts(founding, hid, s.threads[t].user));
      var s2 := Next(s1, MapsUser(founding));
      RoleOf(Next(s2, RoleWrites(t)).store, s.threads[t].user) == Some(Admin)
  {
    var todo := s.threads[t];
    assert TodoOk(s.store, todo);
    var s2 := Next(Next(s, CreateInserts(founding, hid, todo.user)), MapsUser(founding));
    RoleAfterWrite(s2.store, todo.hid, todo.user, todo.role, hid, todo.user);
  }

  ghost predicate Reachable(s: System) {
    exists states: seq<System>, actions: seq<Action> :: IsRun(states, actions) && states[|actions|] == s
  }

  lemma {:induction false} ReachableNext(s: System, a: Action)
    requires Reachable(s) && Enabled(s, a)
    ensures Reachable(Next(s, a))
  {
    var states: seq<System>, actions: seq<Action> :| IsRun(states, actions) && states[|actions|] == s;
    assert IsRun(states + [Next(s, a)], actions + [a]);
    assert (states + [Next(s, a)])[|actions + [a]|] == Next(s, a);
  }

  /** An update of a user's role between its two locks is reached from the start. */
  lemma {:induction false} UpdateIsReached(hid: string, user: string, role: Role)
    ensures exists s: System :: Reachable(s) && Consistent(s) && s.threads == map[1 := ToSetRole(hid, user, role)]
  {
    var s1 := Next(INITIAL, CreateInserts(0, hid, user));
    var s2 := Next(s1, MapsUser(0));
    var s3 := Next(s2, RoleReads(1, user, role));
    assert IsRun([INITIAL], []);
    ReachableNext(INITIAL, CreateInserts(0, hid, user));
    ReachableNext(s1, MapsUser(0));
    ReachableNext(s2, RoleReads(1, user, role));
    ReachableIsConsistent(s3);
    assert s2.threads == map[];
  }

  lemma {:induction false} ReachableIsConsistent(s: System)
    requires Reachable(s)
    ensures Consistent(s)
  {
    var states: seq<System>, actions: seq<Action> :| IsRun(states, actions) && states[|actions|] == s;
    EveryRunIsConsistent(states, actions);
  }

  // ------------------------------------------- the role once an accept is done

  /** The action writes a role for the user in the household. */
  predicate WritesRoleOf(s: System, a: Action, hid: string, user: string) {
    a.RoleWrites? && a.t in s.threads && s.threads[a.t].ToSetRole? && s.threads[a.t].hid == hid && s.threads[a.t].user == user
  }

  /** One step changes a listed user's role in a household only by writing it. */
  lemma {:induction false} NextRole(s: System, a: Action, hid: string, user: string)
    requires Enabled(s, a) && Resolves(s.store, user, hid)
    ensures
      var s' := Next(s, a);
      && Resolves(s'.store, user, hid)
      && RoleIn(s'.store.households[hid], user)
         == if WritesRoleOf(s, a, hid, user) then Some(s.threads[a.t].role) else RoleIn(s.store.households[hid], user)
  {
    NextGrows(s, a);
    if a.AcceptPushes? && s.threads[a.t].hid == hid {
      FirstListingOfPush(s.store.households[hid].members, s.threads[a.t].member, user);
    } else if a.RoleWrites? && s.threads[a.t].hid == hid && Lists(s.store.households[hid], s.threads[a.t].user) {
      RoleAfterWrite(s.store, hid, s.threads[a.t].user, s.threads[a.t].role, hid, user);
    }
  }

  /** The role after the actions from `i` to `n`: the last one written, or the first. */
  ghost function Decided(states: seq<System>, actions: seq<Action>, i: nat, n: nat, hid: string, user: string, role: Option<Role>): Option<Role>
    requires i <= n <= |actions| < |states|
    decreases n - i
  {
    if n == i then role
    else if WritesRoleOf(states[n - 1], actions[n - 1], hid, user) then Some(states[n - 1].threads[actions[n - 1].t].role)
    else Decided(states, actions, i, n - 1, hid, user, role)
  }

  lemma {:induction false} RoleIsDecided(states: seq<System>, actions: seq<Action>, i: nat, n: nat, hid: string, user: string)
    requires IsRun(states, actions) && i <= n <= |actions| && Resolves(states[i].store, user, hid)
    ensures Resolves(states[n].store, user, hid)
    ensures RoleIn(states[n].store.households[hid], user)
         == Decided(states, actions, i, n, hid, user, RoleIn(states[i].store.households[hid], user))
    decreases n - i
  {
    if i < n {
      RoleIsDecided(states, actions, i, n - 1, hid, user);
      NextRole(states[n - 1], actions[n - 1], hid, user);
    }
  }

  lemma {:induction false} StillToMap(states: seq<System>, actions: seq<Action>, i: nat, n: nat, t: nat)
    requires IsRun(states, actions) && i <= n <= |actions| && t in states[i].threads && states[i].threads[t].ToMap?
    requires forall j | i <= j < n :: actions[j] != MapsUser(t)
    ensures t in states[n].threads && states[n].threads[t] == states[i].threads[t]
    decreases n - i
  {
    if i < n {
      StillToMap(states, actions, i, n - 1, t);
      assert states[n] == Next(states[n - 1], actions[n - 1]);
    }
  }

  /** What a push leaves: the user listed, the map entry still to be made. */
  lemma {:induction false} AfterPush(states: seq<System>, actions: seq<Action>, i: nat, t: nat)
    requires IsRun(states, actions) && i < |actions| && actions[i] == AcceptPushes(t)
    ensures t in states[i].threads && states[i].threads[t].ToPush? && states[i].threads[t].hid in states[i].store.households
    ensures
      var hid, m := states[i].threads[t].hid, states[i].threads[t].member;
      && Resolves(states[i + 1].store, m.userId, hid)
      && t in states[i + 1].threads && states[i + 1].threads[t] == ToMap(m.userId, hid)
      && (RoleIn(states[i + 1].store.households[hid], m.userId) == Some(m.role)
          <==> !Lists(states[i].store.households[hid], m.userId) || RoleIn(states[i].store.households[hid], m.userId) == Some(m.role))
  {
    EveryRunIsConsistent(states[..i + 1], actions[..i]);
    assert states[i + 1] == Next(states[i], actions[i]);
    var todo := states[i].threads[t];
    assert TodoOk(states[i].store, todo);
    PushGrows(states[i].store, todo.hid, todo.member);
    RoleAfterPush(states[i].store, todo.hid, todo.member);
  }

  lemma {:induction false} RoleAfterMap(s: System, t: nat)
    requires t in s.threads && s.threads[t].ToMap? && Resolves(s.store, s.threads[t].user, s.threads[t].hid)
    ensures RoleOf(Next(s, MapsUser(t)).store, s.threads[t].user) == RoleIn(s.store.households[s.threads[t].hid], s.threads[t].user)
  {
  }

  /** The run is that of an accept, from its push at `i` to its last section. */
  ghost predicate Accepting(states: seq<System>, actions: seq<Action>, i: nat, t: nat) {
    && IsRun(states, actions) && i + 1 < |actions| && actions[i] == AcceptPushes(t) && actions[|actions| - 1] == MapsUser(t)
    && forall j | i < j < |actions| - 1 :: actions[j] != MapsUser(t)
  }

  /** When an accept is done, the user's role is the last one written for them in that
      household since the push, or else the one that the push left. */
  lemma {:induction false} RoleAfterAccept(states: seq<System>, actions: seq<Action>, i: nat, t: nat)
    requires Accepting(states, actions, i, t)
    ensures t in states[i].threads && states[i].threads[t].ToPush?
    ensures
      var n, hid, user := |actions| - 1, states[i].threads[t].hid, states[i].threads[t].member.userId;
      && hid in states[i + 1].store.households
      && RoleOf(states[n + 1].store, user) == Decided(states, actions, i + 1, n, hid, user, RoleIn(states[i + 1].store.households[hid], user))
  {
    var n := |actions| - 1;
    AfterPush(states, actions, i, t);
    var hid, user := states[i].threads[t].hid, states[i].threads[t].member.userId;
    RoleIsDecided(states, actions, i + 1, n, hid, user);
    StillToMap(states, actions, i + 1, n, t);
    RoleAfterMap(states[n], t);
    assert states[n + 1] == Next(states[n], actions[n]);
  }

  /** If no role was written for them there since the push, the user ends with the
      invite's role exactly when the household did not list them at the push, or
      listed them first with that role. */
  lemma {:induction false} RoleAfterAcceptIff(states: seq<System>, actions: seq<Action>, i: nat, t: nat, hid: string, m: HouseholdMember)
    requires Accepting(states, actions, i, t) && t in states[i].threads && states[i].threads[t] == ToPush(hid, m)
    requires forall j | i < j < |actions| - 1 :: !WritesRoleOf(states[j], actions[j], hid, m.userId)
    ensures hid in states[i].store.households
    ensures RoleOf(states[|actions|].store, m.userId) == Some(m.role)
       <==> !Lists(states[i].store.households[hid], m.userId) || RoleIn(states[i].store.households[hid], m.userId) == Some(m.role)
  {
    AfterPush(states, actions, i, t);
    RoleAfterAccept(states, actions, i, t);
    NothingDecided(states, actions, i + 1, |actions| - 1, hid, m.userId, RoleIn(states[i + 1].store.households[hid], m.userId));
  }

  lemma {:induction false} NothingDecided(states: seq<System>, actions: seq<Action>, i: nat, n: nat, hid: string, user: string, role: Option<Role>)
    requires i <= n <= |actions| < |states| && forall j | i <= j < n :: !WritesRoleOf(states[j], actions[j], hid, user)
    ensures Decided(states, actions, i, n, hid, user, role) == role
    decreases n - i
  {
    if i < n {
      NothingDecided(states, actions, i, n - 1, hid, user, role);
    }
  }
}
