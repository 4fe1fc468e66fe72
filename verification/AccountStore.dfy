/** The registration service and the expiry script as they change the account tables in place. A refused request raises
    before its commit, so it leaves every table as it was. */
module AccountStore {
  import opened Common
  import opened Slugs
  import opened Registration

  class AccountTables {
    var users: map<Id, User>
    var temples: map<Id, Temple>
    var invites: map<string, Invite>
    var mappings: map<(Id, Id), Role>
    var audits: seq<TempleAudit>

    ghost function View(): State
      reads this
    {
      State(users, temples, invites, mappings, audits)
    }

    constructor ()
      ensures View() == EMPTY
    {
      users, temples, invites, mappings, audits := map[], map[], map[], map[], [];
    }

    /** Every other account, every temple and every other invite stays; an invite is used up exactly by invited
        staff. */
    method RegisterUser(r: Request) returns (outcome: Outcome)
      modifies this
      ensures outcome == RegisterCheck(old(View()), r)
      ensures View() == Register(old(View()), r)
      ensures outcome.Refused? ==> View() == old(View())
      ensures outcome == Accepted ==>
        && r.id !in old(users) && users == old(users)[r.id := users[r.id]]
        && users[r.id].contact == r.contact && users[r.id].role == r.role && users[r.id].isActive
        && temples == old(temples) && audits == old(audits)
        && (invites != old(invites) <==> r.role == STAFF && ByInvite(r))
        && (forall k :: k in old(invites) && k != r.token ==> k in invites && invites[k] == old(invites)[k])
        && (forall p :: p in mappings && p !in old(mappings) ==> users[r.id].temple == Some(p.1) && p.0 == r.id)
    {
      if !r.passwordsMatch {
        return Refused(400);
      }
      var loginId := LoginId(r.contact);
      if exists u :: u in users && LoginId(users[u].contact) == loginId && users[u].isActive {
        return Refused(400);
      }
      if r.contact != Phone("") && exists u :: u in users && users[u].contact == r.contact {
        return Refused(400);
      }
      var temple: Option<Id> := None;
      var status := ACTIVE;
      var onboarding := if r.role == DEVOTEE then InviteToken else r.onboarding;
      var invitesAfter := invites;
      if r.role == STAFF {
        var staff;
        staff, temple, status := CheckStaff(r);
        if staff.Refused? {
          return staff;
        }
        onboarding := DomainApproval;
        if ByInvite(r) {
          onboarding := InviteToken;
          invitesAfter := invites[r.token := invites[r.token].(used := true)];
        }
      }
      if r.id in users || exists u :: u in users && LoginId(users[u].contact) == loginId {
        return Refused(500);
      }
      var approval := if status == ACTIVE then Approved else AwaitingApproval;
      users := users[r.id := User(r.contact, r.role, status, approval, true,
                                  temple, onboarding, r.now)];
      if r.role == STAFF && temple.Some? {
        mappings := mappings[(r.id, temple.value) := STAFF];
      }
      invites := invitesAfter;
      return Accepted;
    }

    /** The role-specific block for staff: the invite flow or the domain flow. */
    method CheckStaff(r: Request) returns (outcome: Outcome, temple: Option<Id>, status: UserStatus)
      requires r.role == STAFF
      ensures outcome == StaffCheck(View(), r)
      ensures outcome == Accepted ==> temple == Some(StaffTemple(View(), r))
      ensures outcome == Accepted ==> status == if ByInvite(r) then ACTIVE else PENDING_APPROVAL
    {
      temple, status := None, ACTIVE;
      if ByInvite(r) {
        if r.token == "" {
          return Refused(403), None, ACTIVE;
        }
        if !(r.token in invites && r.contact == Email(invites[r.token].email) && invites[r.token].expiresAt > r.now
             && !invites[r.token].used) {
          return Refused(403), None, ACTIVE;
        }
        var t := invites[r.token].temple;
        if t !in temples || !temples[t].isActive {
          return Refused(404), None, ACTIVE;
        }
        return Accepted, Some(t), ACTIVE;
      } else if r.onboarding == DomainApproval {
        if r.domain == "" {
          return Refused(403), None, ACTIVE;
        }
        var matches := set t | t in temples && temples[t].domain == r.domain && temples[t].status == APPROVED
                                 && temples[t].isActive;
        assert matches == ApprovedWithDomain(View(), r.domain);
        if matches == {} {
          return Refused(404), None, ACTIVE;
        }
        if |matches| > 1 {
          return Refused(500), None, ACTIVE;
        }
        var t :| t in matches;
        OneOf(matches, t);
        if !temples[t].operational {
          return Refused(403), None, ACTIVE;
        }
        return Accepted, Some(t), PENDING_APPROVAL;
      } else {
        return Refused(403), None, ACTIVE;
      }
    }

    lemma OneOf(ids: set<Id>, t: Id)
      requires t in ids && |ids| == 1
      ensures ids == {t} && TheOne(ids) == t
    {
      var rest := ids - {t};
      assert |rest| == 0;
      assert ids == {t};
    }

    /** One account, one pending temple under an unused domain, and their mapping appear; nothing else changes. */
    method RegisterManager(r: TempleRequest) returns (outcome: Outcome)
      modifies this
      ensures outcome == TempleRequestCheck(old(View()), r)
      ensures View() == RegisterTempleManager(old(View()), r)
      ensures outcome.Refused? ==> View() == old(View())
      ensures outcome == Accepted ==>
        && r.user !in old(users) && users == old(users)[r.user := users[r.user]]
        && r.temple !in old(temples) && temples == old(temples)[r.temple := temples[r.temple]]
        && mappings == old(mappings)[(r.user, r.temple) := TEMPLE_MANAGER]
        && users[r.user].temple == Some(r.temple) && temples[r.temple].status == PENDING
        && (forall t :: t in old(temples) ==> old(temples)[t].domain != temples[r.temple].domain)
        && invites == old(invites) && audits == old(audits)
    {
      var loginId := LoginId(r.contact);
      if exists u :: u in users && LoginId(users[u].contact) == loginId && users[u].isActive {
        return Refused(400);
      }
      if r.nameTaken {
        return Refused(400);
      }
      if r.user in users || exists u :: u in users && LoginId(users[u].contact) == loginId {
        return Refused(500);
      }
      var domainSlug := Slugify(r.name);
      if exists t :: t in temples && temples[t].domain == domainSlug {
        domainSlug := domainSlug + "-" + r.suffix;
      }
      if r.temple in temples || exists t :: t in temples && temples[t].domain == domainSlug {
        return Refused(500);
      }
      users := users[r.user := User(r.contact, TEMPLE_MANAGER, ACTIVE, AwaitingApproval, true, None, InviteToken,
                                    r.now)];
      temples := temples[r.temple := Temple(domainSlug, PENDING, true, true, 1)];
      users := users[r.user := users[r.user].(temple := Some(r.temple))];
      mappings := mappings[(r.user, r.temple) := TEMPLE_MANAGER];
      return Accepted;
    }

    method ApproveStaffMember(staff: Id, approver: Id, temple: Id) returns (outcome: Outcome)
      modifies this
      ensures outcome == ApproveStaffCheck(old(View()), staff, approver, temple)
      ensures View() == ApproveStaff(old(View()), staff, approver, temple)
      ensures outcome == Accepted <==> PendingStaff(old(View()), staff, temple) && staff != approver
      ensures outcome == Accepted ==>
        && users == old(users)[staff := users[staff]]
        && users[staff].status == ACTIVE && users[staff].approval == Approved && (staff, temple) in mappings
        && (forall p :: p != (staff, temple) ==> (p in mappings <==> p in old(mappings)))
      ensures outcome.Refused? ==> users == old(users) && mappings == old(mappings)
      ensures temples == old(temples) && invites == old(invites) && audits == old(audits)
    {
      if !(staff in users && users[staff].role == STAFF && users[staff].status == PENDING_APPROVAL
           && users[staff].temple == Some(temple)) {
        return Refused(404);
      }
      if staff == approver {
        return Refused(400);
      }
      users := users[staff := users[staff].(status := ACTIVE)];
      users := users[staff := users[staff].(approval := Approved)];
      if (staff, temple) !in mappings {
        mappings := mappings[(staff, temple) := STAFF];
      }
      return Accepted;
    }

    method RejectStaffMember(staff: Id, temple: Id) returns (outcome: Outcome)
      modifies this
      ensures outcome == if PendingStaff(old(View()), staff, temple) then Accepted else Refused(404)
      ensures View() == RejectStaff(old(View()), staff, temple)
      ensures outcome == Accepted ==>
        && users == old(users)[staff := users[staff]]
        && users[staff].status == REJECTED && users[staff].approval == Rejected
      ensures outcome.Refused? ==> users == old(users)
      ensures mappings == old(mappings) && temples == old(temples) && invites == old(invites) && audits == old(audits)
    {
      if !(staff in users && users[staff].role == STAFF && users[staff].status == PENDING_APPROVAL
           && users[staff].temple == Some(temple)) {
        return Refused(404);
      }
      users := users[staff := users[staff].(status := REJECTED)];
      users := users[staff := users[staff].(approval := Rejected)];
      return Accepted;
    }

    method ApproveTemple(temple: Id) returns (outcome: Outcome)
      modifies this
      ensures outcome == DecideCheck(old(View()), temple)
      ensures View() == Decide(old(View()), temple, APPROVED)
      ensures outcome == Accepted <==> temple in old(temples) && old(temples)[temple].status == PENDING
      ensures outcome == Accepted ==>
        && temples == old(temples)[temple := temples[temple]]
        && temples[temple].status == APPROVED && temples[temple].version == old(temples)[temple].version + 1
        && audits == old(audits) + [TempleAudit(temple, PENDING, APPROVED)]
      ensures outcome.Refused? ==> temples == old(temples) && audits == old(audits)
      ensures users == old(users) && invites == old(invites) && mappings == old(mappings)
    {
      if temple !in temples {
        return Refused(404);
      }
      var currentStatus := temples[temple].status;
      if currentStatus != PENDING {
        return Refused(500);
      }
      temples := temples[temple := temples[temple].(status := APPROVED)];
      temples := temples[temple := temples[temple].(version := temples[temple].version + 1)];
      audits := audits + [TempleAudit(temple, currentStatus, APPROVED)];
      return Accepted;
    }

    method RejectTemple(temple: Id) returns (outcome: Outcome)
      modifies this
      ensures outcome == DecideCheck(old(View()), temple)
      ensures View() == Decide(old(View()), temple, DECLINED)
      ensures outcome == Accepted <==> temple in old(temples) && old(temples)[temple].status == PENDING
      ensures outcome == Accepted ==>
        && temples == old(temples)[temple := temples[temple]]
        && temples[temple].status == DECLINED && temples[temple].version == old(temples)[temple].version + 1
        && audits == old(audits) + [TempleAudit(temple, PENDING, DECLINED)]
      ensures outcome.Refused? ==> temples == old(temples) && audits == old(audits)
      ensures users == old(users) && invites == old(invites) && mappings == old(mappings)
    {
      if temple !in temples {
        return Refused(404);
      }
      var currentStatus := temples[temple].status;
      if currentStatus != PENDING {
        return Refused(500);
      }
      temples := temples[temple := temples[temple].(status := DECLINED)];
      temples := temples[temple := temples[temple].(version := temples[temple].version + 1)];
      audits := audits + [TempleAudit(temple, currentStatus, DECLINED)];
      return Accepted;
    }

    /** `expired` is the answer to the opening query, in any order. The loop's first round ends in the call of an audit
        function that does not exist; the error leaves the transaction block, which restores every row. */
    method CleanupPendingAccounts(now: int, expired: seq<Id>) returns (raised: bool)
      requires forall u :: u in expired <==> u in users && Expires(users[u], now)
      modifies this
      ensures raised <==> ExpiryRaises(old(View()), now)
      ensures View() == old(View()) == Step(old(View()), DoExpire(now))
    {
      if expired == [] {
        return false;
      }
      assert expired[0] in expired;
      var begun := users;
      users := users[expired[0] := users[expired[0]].(status := DISABLED)];
      users := users[expired[0] := users[expired[0]].(isActive := false)];
      users := begun;
      return true;
    }
  }
}
