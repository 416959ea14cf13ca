/** The household store: three maps, each behind its own lock, and operations
    that take the locks one after another. */
module Household {
  import opened Text

  datatype Role = Admin | Member | Guest

  datatype HouseholdMember = HouseholdMember(userId: string, role: Role)

  datatype Household = Household(id: string, members: seq<HouseholdMember>, sharedCollections: seq<string>)

  datatype Invite = Invite(household: string, role: Role, expiresAt: int, accepted: bool)

  /** What the three locks protect. */
  datatype Store = Store(households: map<string, Household>, invites: map<string, Invite>, userMap: map<string, string>)

  const INVITE_DAYS := 7
  const DAY := 86_400

  // ------------------------------------------------- one locked section at a time

  /** The position of the first listing of the user, or the length of the list. */
  function FirstListing(members: seq<HouseholdMember>, user: string): (i: nat)
    ensures i <= |members|
    ensures i < |members| ==> members[i].userId == user
    ensures forall k | 0 <= k < i :: members[k].userId != user
  {
    if members == [] || members[0].userId == user then 0 else 1 + FirstListing(members[1..], user)
  }

  predicate Lists(h: Household, user: string) {
    FirstListing(h.members, user) < |h.members|
  }

  /** The role of the user's first listing. */
  function RoleIn(h: Household, user: string): Option<Role> {
    var i := FirstListing(h.members, user);
    if i < |h.members| then Some(h.members[i].role) else None
  }

  function InsertHousehold(s: Store, hid: string, admin: string): Store {
    s.(households := s.households[hid := Household(hid, [HouseholdMember(admin, Admin)], [])])
  }

  function PutUser(s: Store, user: string, hid: string): Store {
    s.(userMap := s.userMap[user := hid])
  }

  function PutInvite(s: Store, inviteId: string, invite: Invite): Store {
    s.(invites := s.invites[inviteId := invite])
  }

  datatype AcceptError = InviteNotFound | AlreadyAccepted | Expired

  function AcceptCheck(s: Store, inviteId: string, now: int): Option<AcceptError> {
    if inviteId !in s.invites then Some(InviteNotFound)
    else if s.invites[inviteId].accepted then Some(AlreadyAccepted)
    else if s.invites[inviteId].expiresAt < now then Some(Expired)
    else None
  }

  function MarkAccepted(s: Store, inviteId: string): Store
    requires inviteId in s.invites
  {
    s.(invites := s.invites[inviteId := s.invites[inviteId].(accepted := true)])
  }

  /** A household that is gone is skipped. */
  function PushMember(s: Store, hid: string, m: HouseholdMember): Store {
    if hid !in s.households then s
    else s.(households := s.households[hid := s.households[hid].(members := s.households[hid].members + [m])])
  }

  function WriteRole(s: Store, hid: string, user: string, role: Role): Store {
    if hid in s.households && Lists(s.households[hid], user) then
      var h := s.households[hid];
      var i := FirstListing(h.members, user);
      s.(households := s.households[hid := h.(members := h.members[i := h.members[i].(role := role)])])
    else s
  }

  function Share(s: Store, hid: string, collection: string): Store
    requires hid in s.households
  {
    var h := s.households[hid];
    if collection in h.sharedCollections then s
    else s.(households := s.households[hid := h.(sharedCollections := h.sharedCollections + [collection])])
  }

  /** The store updated in place; each method body between two lock releases is
      one of the sections above. Fresh identifiers and the time are arguments. */
  class HouseholdStore {
    var households: map<string, Household>
    var invites: map<string, Invite>
    var userHouseholdMap: map<string, string>

    ghost function View(): Store
      reads this
    {
      Store(households, invites, userHouseholdMap)
    }

    constructor ()
      ensures View() == Store(map[], map[], map[])
    {
      households, invites, userHouseholdMap := map[], map[], map[];
    }

    method CreateHousehold(hid: string, admin: string)
      modifies this
      ensures View() == PutUser(InsertHousehold(old(View()), hid, admin), admin, hid)
    {
      households := households[hid := Household(hid, [HouseholdMember(admin, Admin)], [])];
      userHouseholdMap := userHouseholdMap[admin := hid];
    }

    method CreateInvite(hid: string, inviteId: string, role: Role, now: int) returns (created: bool)
      modifies this
      ensures created <==> hid in old(households)
      ensures View() == if created then PutInvite(old(View()), inviteId, Invite(hid, role, now + 604_800, false)) else old(View())
    {
      created := hid in households;
      if created {
        invites := invites[inviteId := Invite(hid, role, now + INVITE_DAYS * DAY, false)];
      }
    }

    method AcceptInvite(inviteId: string, user: string, now: int) returns (error: Option<AcceptError>)
      modifies this
      ensures error == Some(InviteNotFound) <==> inviteId !in old(invites)
      ensures error == Some(AlreadyAccepted) <==> inviteId in old(invites) && old(invites)[inviteId].accepted
      ensures error == Some(Expired) <==> inviteId in old(invites) && !old(invites)[inviteId].accepted && old(invites)[inviteId].expiresAt < now
      ensures error == AcceptCheck(old(View()), inviteId, now)
      ensures error.Some? ==> View() == old(View())
      ensures error.None? ==>
        var i := old(invites)[inviteId];
        View() == PutUser(PushMember(MarkAccepted(old(View()), inviteId), i.household, HouseholdMember(user, i.role)), user, i.household)
    {
      if inviteId !in invites {
        return Some(InviteNotFound);
      }
      var invite := invites[inviteId];
      if invite.accepted {
        return Some(AlreadyAccepted);
      }
      if invite.expiresAt < now {
        return Some(Expired);
      }
      invites := invites[inviteId := invite.(accepted := true)];
      if invite.household in households {
        var h := households[invite.household];
        households := households[invite.household := h.(members := h.members + [HouseholdMember(user, invite.role)])];
      }
      userHouseholdMap := userHouseholdMap[user := invite.household];
      error := None;
    }

    method UpdateMemberRole(user: string, role: Role) returns (updated: bool)
      modifies this
      ensures updated <==> user in old(userHouseholdMap) && old(userHouseholdMap)[user] in old(households)
                           && Lists(old(households)[old(userHouseholdMap)[user]], user)
      ensures View() == if updated then WriteRole(old(View()), old(userHouseholdMap)[user], user, role) else old(View())
    {
      if user !in userHouseholdMap {
        return false;
      }
      var hid := userHouseholdMap[user];
      if hid in households {
        var h := households[hid];
        var i := 0;
        while i < |h.members| && h.members[i].userId != user
          invariant 0 <= i <= |h.members|
          invariant forall k | 0 <= k < i :: h.members[k].userId != user
        {
          i := i + 1;
        }
        if i < |h.members| {
          assert i == FirstListing(h.members, user);
          households := households[hid := h.(members := h.members[i := h.members[i].(role := role)])];
          return true;
        }
      }
      updated := false;
    }

    method AddSharedCollection(hid: string, collection: string) returns (found: bool)
      modifies this
      ensures found <==> hid in old(households)
      ensures View() == if found then Share(old(View()), hid, collection) else old(View())
    {
      found := hid in households;
      if found {
        var h := households[hid];
        if collection !in h.sharedCollections {
          households := households[hid := h.(sharedCollections := h.sharedCollections + [collection])];
        }
      }
    }

    method CanAccessRecord(user: string, recordUser: Option<string>, recordHousehold: Option<string>, collection: string, write: bool)
      returns (allowed: bool)
      ensures allowed == CanAccess(View(), user, recordUser, recordHousehold, collection, write)
    {
      if user in userHouseholdMap && userHouseholdMap[user] in households {
        var h := households[userHouseholdMap[user]];
        allowed := CheckRecordAccess(user, RoleIn(h, user), Some(h.id), recordUser, recordHousehold, collection, h.sharedCollections, write);
      } else {
        allowed := CheckRecordAccess(user, None, None, recordUser, recordHousehold, collection, [], write);
      }
    }
  }

  // ------------------------------------------------------------ access decisions

  /** `check_record_access`, branch by branch. */
  predicate CheckRecordAccess(user: string, role: Option<Role>, userHousehold: Option<string>, recordUser: Option<string>,
                              recordHousehold: Option<string>, collection: string, shared: seq<string>, write: bool)
  {
    if recordUser.None? then true
    else if recordUser.value == user then true
    else if recordHousehold.None? then false
    else if userHousehold != recordHousehold then false
    else if write && role == Some(Guest) then false
    else if collection in shared then true
    else role == Some(Admin)
  }

  /** The user's current household, as `get_user_household` finds it. */
  function HouseholdOf(s: Store, user: string): Option<Household> {
    if user in s.userMap && s.userMap[user] in s.households then Some(s.households[s.userMap[user]]) else None
  }

  predicate CanAccess(s: Store, user: string, recordUser: Option<string>, recordHousehold: Option<string>, collection: string, write: bool) {
    var h := HouseholdOf(s, user);
    if h.Some?
    then CheckRecordAccess(user, RoleIn(h.value, user), Some(h.value.id), recordUser, recordHousehold, collection, h.value.sharedCollections, write)
    else CheckRecordAccess(user, None, None, recordUser, recordHousehold, collection, [], write)
  }
}
