/** Accounts and temples: registration, staff approval, temple approval, expiry of pending accounts, and login.

    Every operation is a guard (`...Check`, the HTTP outcome) and an effect; a refused operation rolls back. `Step`
    applies one operation, `Run` any sequence of them. */
module Registration {
  import opened Common
  import opened Slugs

  datatype Role = DEVOTEE | STAFF | TEMPLE_MANAGER

  datatype UserStatus = ACTIVE | PENDING_APPROVAL | REJECTED | DISABLED

  datatype Approval = AwaitingApproval | Approved | Rejected

  /** `onboarding_method`, which a request may also leave out. */
  datatype Method = InviteToken | DomainApproval | OtherMethod | NoMethod

  datatype Contact = Email(address: string) | Phone(number: string)

  datatype User = User(
    contact: Contact, role: Role, status: UserStatus, approval: Approval, isActive: bool, temple: Option<Id>,
    onboarding: Method, createdAt: int)

  datatype TempleStatus = PENDING | APPROVED | DECLINED

  datatype Temple = Temple(domain: string, status: TempleStatus, isActive: bool, operational: bool, version: int)

  datatype Invite = Invite(temple: Id, email: string, expiresAt: int, used: bool)

  datatype TempleAudit = TempleAudit(temple: Id, before: TempleStatus, after: TempleStatus)

  /** The tables. `mappings` is keyed by (user, temple), as its unique constraint demands. */
  datatype State = State(
    users: map<Id, User>, temples: map<Id, Temple>, invites: map<string, Invite>, mappings: map<(Id, Id), Role>,
    audits: seq<TempleAudit>)

  const EMPTY: State := State(map[], map[], map[], map[], [])

  datatype Outcome = Accepted | Refused(code: int)

  const EXPIRY: int := 14 * 24 * 3600

  // ----- lookups -----

  function LoginId(c: Contact): string {
    match c
    case Email(a) => a
    case Phone(n) => n
  }

  predicate ActiveLogin(s: State, login: string) {
    exists u :: u in s.users && LoginId(s.users[u].contact) == login && s.users[u].isActive
  }

  /** The duplicate checks on email and phone; an empty phone number is not checked. */
  predicate ContactTaken(s: State, c: Contact) {
    c != Phone("") && exists u :: u in s.users && s.users[u].contact == c
  }

  /** The unique constraints on the user table. */
  predicate CanInsert(s: State, id: Id, c: Contact) {
    id !in s.users && forall u :: u in s.users ==> LoginId(s.users[u].contact) != LoginId(c)
  }

  // ----- unified registration -----

  datatype Request = Request(
    id: Id, contact: Contact, role: Role, onboarding: Method, domain: string, token: string, passwordsMatch: bool,
    now: int)

  predicate ByInvite(r: Request) {
    r.onboarding == InviteToken || (r.token != "" && r.onboarding == NoMethod)
  }

  predicate InviteOpen(s: State, r: Request) {
    && r.token in s.invites
    && r.contact == Email(s.invites[r.token].email)
    && s.invites[r.token].expiresAt > r.now
    && !s.invites[r.token].used
  }

  function ApprovedWithDomain(s: State, domain: string): set<Id> {
    set t | t in s.temples && s.temples[t].domain == domain && s.temples[t].status == APPROVED && s.temples[t].isActive
  }

  ghost function TheOne(ids: set<Id>): Id {
    if ids == {} then 0 else var t :| t in ids; t
  }

  function StaffCheck(s: State, r: Request): Outcome {
    if ByInvite(r) then
      if r.token == "" || !InviteOpen(s, r) then Refused(403)
      else if s.invites[r.token].temple !in s.temples then Refused(404)
      else if !s.temples[s.invites[r.token].temple].isActive then Refused(404)
      else Accepted
    else if r.onboarding == DomainApproval then
      if r.domain == "" then Refused(403)
      else if ApprovedWithDomain(s, r.domain) == {} then Refused(404)
      else if |ApprovedWithDomain(s, r.domain)| > 1 then Refused(500)
      else if exists t :: t in ApprovedWithDomain(s, r.domain) && !s.temples[t].operational then Refused(403)
      else Accepted
    else Refused(403)
  }

  function RegisterCheck(s: State, r: Request): Outcome {
    if !r.passwordsMatch then Refused(400)
    else if ActiveLogin(s, LoginId(r.contact)) then Refused(400)
    else if ContactTaken(s, r.contact) then Refused(400)
    else if r.role == STAFF && StaffCheck(s, r) != Accepted then StaffCheck(s, r)
    else if !CanInsert(s, r.id, r.contact) then Refused(500)
    else Accepted
  }

  ghost function StaffTemple(s: State, r: Request): Id
    requires StaffCheck(s, r) == Accepted
  {
    if ByInvite(r) then s.invites[r.token].temple else TheOne(ApprovedWithDomain(s, r.domain))
  }

  /** The tables after an accepted request. */
  ghost function Registered(s: State, r: Request): State
    requires r.role == STAFF ==> StaffCheck(s, r) == Accepted
  {
    if r.role != STAFF then
      var onboarding := if r.role == DEVOTEE then InviteToken else r.onboarding;
      s.(users := s.users[r.id := User(r.contact, r.role, ACTIVE, Approved, true, None, onboarding, r.now)])
    else
      var t := StaffTemple(s, r);
      var invited := ByInvite(r);
      s.(users := s.users[r.id := User(r.contact, STAFF, if invited then ACTIVE else PENDING_APPROVAL,
                                       if invited then Approved else AwaitingApproval, true, Some(t),
                                       if invited then InviteToken else DomainApproval, r.now)],
         invites := if invited then s.invites[r.token := s.invites[r.token].(used := true)] else s.invites,
         mappings := s.mappings[(r.id, t) := STAFF])
  }

  ghost function Register(s: State, r: Request): State {
    if RegisterCheck(s, r) == Accepted then Registered(s, r) else s
  }

  // ----- temple managers -----

  /** `nameTaken` is the answer to the case-insensitive name query; `suffix` the random disambiguator. */
  datatype TempleRequest = TempleRequest(
    user: Id, temple: Id, contact: Contact, name: string, nameTaken: bool, suffix: string, now: int)

  predicate DomainUsed(s: State, domain: string) {
    exists t :: t in s.temples && s.temples[t].domain == domain
  }

  function TempleDomain(s: State, r: TempleRequest): string {
    var slug := Slugify(r.name);
    if DomainUsed(s, slug) then slug + "-" + r.suffix else slug
  }

  function TempleRequestCheck(s: State, r: TempleRequest): Outcome {
    if ActiveLogin(s, LoginId(r.contact)) then Refused(400)
    else if r.nameTaken then Refused(400)
    else if !CanInsert(s, r.user, r.contact) then Refused(500)
    else if r.temple in s.temples || DomainUsed(s, TempleDomain(s, r)) then Refused(500)
    else Accepted
  }

  function RegisterTempleManager(s: State, r: TempleRequest): State {
    if TempleRequestCheck(s, r) == Accepted then
      s.(users := s.users[r.user := User(r.contact, TEMPLE_MANAGER, ACTIVE, AwaitingApproval, true, Some(r.temple),
                                         InviteToken, r.now)],
         temples := s.temples[r.temple := Temple(TempleDomain(s, r), PENDING, true, true, 1)],
         mappings := s.mappings[(r.user, r.temple) := TEMPLE_MANAGER])
    else s
  }

  // ----- staff approval -----

  predicate PendingStaff(s: State, staff: Id, temple: Id) {
    && staff in s.users && s.users[staff].role == STAFF && s.users[staff].status == PENDING_APPROVAL
    && s.users[staff].temple == Some(temple)
  }

  function ApproveStaffCheck(s: State, staff: Id, approver: Id, temple: Id): Outcome {
    if !PendingStaff(s, staff, temple) then Refused(404)
    else if staff == approver then Refused(400)
    else Accepted
  }

  function ApproveStaff(s: State, staff: Id, approver: Id, temple: Id): State {
    if ApproveStaffCheck(s, staff, approver, temple) == Accepted then
      s.(users := s.users[staff := s.users[staff].(status := ACTIVE, approval := Approved)],
         mappings := if (staff, temple) in s.mappings then s.mappings else s.mappings[(staff, temple) := STAFF])
    else s
  }

  function RejectStaff(s: State, staff: Id, temple: Id): State {
    if PendingStaff(s, staff, temple) then
      s.(users := s.users[staff := s.users[staff].(status := REJECTED, approval := Rejected)])
    else s
  }

  // ----- temple approval -----

  function DecideCheck(s: State, temple: Id): Outcome {
    if temple !in s.temples then Refused(404)
    else if s.temples[temple].status != PENDING then Refused(500)
    else Accepted
  }

  /** approve_temple and reject_temple differ only in the status they set. */
  function Decide(s: State, temple: Id, decision: TempleStatus): State {
    if DecideCheck(s, temple) == Accepted then
      var t := s.temples[temple];
      s.(temples := s.temples[temple := t.(status := decision, version := t.version + 1)],
         audits := s.audits + [TempleAudit(temple, t.status, decision)])
    else s
  }

  // ----- expiry, invites, login -----

  /** The opening query of the expiry script. */
  predicate Expires(u: User, now: int) {
    u.status == PENDING_APPROVAL && u.createdAt < now - EXPIRY && u.isActive
  }

  /** The expiry script disables the first matching account and then calls `AuditService.log_event`, which the audit
      service does not define; the error leaves the transaction and rolls the account back. */
  predicate ExpiryRaises(s: State, now: int) {
    exists u :: u in s.users && Expires(s.users[u], now)
  }

  /** An invite row appears; tokens are unique. */
  function AddInvite(s: State, token: string, invite: Invite): State {
    if token in s.invites then s else s.(invites := s.invites[token := invite.(used := false)])
  }

  datatype Login = Granted(pendingShell: bool) | Denied(code: int)

  /** The login guards for the user row the lookup returned. */
  function LoginAs(s: State, u: Id, passwordOk: bool): Login {
    if u !in s.users || !passwordOk then Denied(400)
    else
      var user := s.users[u];
      if !user.isActive then Denied(403)
      else if user.status == REJECTED || user.status == DISABLED then Denied(403)
      else if user.temple.Some? && user.temple.value in s.temples && s.temples[user.temple.value].status != APPROVED
      then Denied(403)
      else Granted(user.status == PENDING_APPROVAL)
  }

  // ----- runs -----

  datatype Action =
    | DoRegister(request: Request)
    | DoRegisterTemple(templeRequest: TempleRequest)
    | DoApproveStaff(staff: Id, approver: Id, at: Id)
    | DoRejectStaff(staff: Id, at: Id)
    | DoApproveTemple(temple: Id)
    | DoRejectTemple(temple: Id)
    | DoExpire(now: int)
    | DoInvite(token: string, invite: Invite)

  ghost function Step(s: State, a: Action): State {
    match a
    case DoRegister(r) => Register(s, r)
    case DoRegisterTemple(r) => RegisterTempleManager(s, r)
    case DoApproveStaff(staff, approver, at) => ApproveStaff(s, staff, approver, at)
    case DoRejectStaff(staff, at) => RejectStaff(s, staff, at)
    case DoApproveTemple(t) => Decide(s, t, APPROVED)
    case DoRejectTemple(t) => Decide(s, t, DECLINED)
    case DoExpire(now) => s
    case DoInvite(token, invite) => AddInvite(s, token, invite)
  }

  ghost function Run(s: State, actions: seq<Action>): State {
    if actions == [] then s
    else Step(Run(s, actions[..|actions| - 1]), actions[|actions| - 1])
  }

  // ----- the invariant -----

  /** The three combinations a staff account can be in. */
  predicate LegalStaff(u: User) {
    || (u.status == ACTIVE && u.approval == Approved && u.isActive)
    || (u.status == PENDING_APPROVAL && u.approval == AwaitingApproval && u.isActive)
    || (u.status == REJECTED && u.approval == Rejected && u.isActive)
  }

  /** The user who used an invite. */
  predicate Redeems(s: State, token: string, u: Id) {
    && token in s.invites && s.invites[token].used && u in s.users
    && s.users[u].role == STAFF && s.users[u].onboarding == InviteToken
    && s.users[u].contact == Email(s.invites[token].email) && s.users[u].temple == Some(s.invites[token].temple)
  }

  ghost predicate StaffOk(s: State, u: Id)
    requires u in s.users
  {
    var x := s.users[u];
    && LegalStaff(x)
    && (x.onboarding == InviteToken || x.onboarding == DomainApproval)
    && (x.onboarding == InviteToken ==> x.status == ACTIVE && exists k :: Redeems(s, k, u))
    && x.temple.Some? && x.temple.value in s.temples
    && (u, x.temple.value) in s.mappings && s.mappings[(u, x.temple.value)] == STAFF
    && forall p :: p in s.mappings && p.0 == u ==> p.1 == x.temple.value
  }

  predicate ManagerOk(s: State, u: Id, t: Id)
    requires u in s.users
  {
    s.users[u].role == TEMPLE_MANAGER && t in s.temples && (u, t) in s.mappings && s.mappings[(u, t)] == TEMPLE_MANAGER
  }

  ghost predicate UserOk(s: State, u: Id)
    requires u in s.users
  {
    if s.users[u].role == STAFF then StaffOk(s, u)
    else s.users[u].status == ACTIVE && s.users[u].isActive
         && (s.users[u].temple.Some? ==> ManagerOk(s, u, s.users[u].temple.value))
  }

  function AuditsOf(audits: seq<TempleAudit>, t: Id): seq<TempleAudit> {
    if audits == [] then []
    else
      var x := audits[|audits| - 1];
      AuditsOf(audits[..|audits| - 1], t) + if x.temple == t then [x] else []
  }

  /** A temple's audit rows and version tell whether it was decided, and how. */
  predicate TempleOk(t: Id, x: Temple, audits: seq<TempleAudit>) {
    if x.status == PENDING then x.version == 1 && AuditsOf(audits, t) == []
    else x.version == 2 && AuditsOf(audits, t) == [TempleAudit(t, PENDING, x.status)]
  }

  ghost predicate UsersOk(s: State) {
    forall u :: u in s.users ==> UserOk(s, u)
  }

  ghost predicate LoginsDistinct(users: map<Id, User>) {
    forall u, v :: u in users && v in users && u != v ==> LoginId(users[u].contact) != LoginId(users[v].contact)
  }

  ghost predicate TemplesOk(temples: map<Id, Temple>, audits: seq<TempleAudit>) {
    && (forall t :: t in temples ==> TempleOk(t, temples[t], audits))
    && (forall t :: t !in temples ==> AuditsOf(audits, t) == [])
  }

  ghost predicate DomainsDistinct(temples: map<Id, Temple>) {
    forall t, v :: t in temples && v in temples && t != v ==> temples[t].domain != temples[v].domain
  }

  ghost predicate MappingsOk(users: set<Id>, temples: set<Id>, mappings: map<(Id, Id), Role>) {
    forall p :: p in mappings ==> p.0 in users && p.1 in temples
  }

  ghost predicate InvitesRedeemed(s: State) {
    forall k :: k in s.invites && s.invites[k].used ==> exists u :: Redeems(s, k, u)
  }

  /** No two used invites name the same address. */
  ghost predicate InvitesDistinct(invites: map<string, Invite>) {
    forall k, m :: k in invites && m in invites && k != m && invites[k].used && invites[m].used
      ==> invites[k].email != invites[m].email
  }

  ghost predicate Invariant(s: State) {
    && UsersOk(s) && LoginsDistinct(s.users)
    && TemplesOk(s.temples, s.audits) && DomainsDistinct(s.temples)
    && MappingsOk(s.users.Keys, s.temples.Keys, s.mappings)
    && InvitesRedeemed(s) && InvitesDistinct(s.invites)
  }

  // ----- every step keeps the invariant -----

  lemma EmptyInvariant()
    ensures Invariant(EMPTY)
  {
  }

  lemma AuditsAppend(audits: seq<TempleAudit>, x: TempleAudit, t: Id)
    ensures AuditsOf(audits + [x], t) == if x.temple == t then AuditsOf(audits, t) + [x] else AuditsOf(audits, t)
  {
    assert (audits + [x])[..|audits|] == audits;
    assert AuditsOf(audits, t) + [] == AuditsOf(audits, t);
  }

  /** A staff account stays in order while its own row, its temple, its mapping and its invite stay. */
  lemma StaffStays(s: State, w: State, u: Id)
    requires u in s.users && u in w.users && StaffOk(s, u) && w.users[u] == s.users[u]
    requires s.temples.Keys <= w.temples.Keys
    requires forall p :: p in s.mappings && p.0 == u ==> p in w.mappings && w.mappings[p] == s.mappings[p]
    requires forall p :: p in w.mappings && p.0 == u ==> p in s.mappings
    requires UsedStay(s.invites, w.invites)
    ensures StaffOk(w, u)
  {
    if s.users[u].onboarding == InviteToken {
      var k :| Redeems(s, k, u);
      assert Redeems(w, k, u);
    }
  }

  ghost predicate UsedStay(before: map<string, Invite>, after: map<string, Invite>) {
    forall k :: k in before && before[k].used ==> k in after && after[k] == before[k]
  }

  /** All old users stay in order if their rows stay and only rows of new users join the mappings. */
  lemma UsersStay(s: State, w: State, added: set<Id>)
    requires UsersOk(s) && added !! s.users.Keys
    requires w.users.Keys == s.users.Keys + added && forall u :: u in s.users ==> w.users[u] == s.users[u]
    requires s.temples.Keys <= w.temples.Keys && UsedStay(s.invites, w.invites)
    requires forall p :: p in s.mappings ==> p in w.mappings && w.mappings[p] == s.mappings[p]
    requires forall p :: p in w.mappings ==> p in s.mappings || p.0 in added
    requires forall u :: u in added ==> UserOk(w, u)
    ensures UsersOk(w)
  {
    hide StaffOk, Redeems, UsedStay;
    forall u | u in w.users ensures UserOk(w, u) {
      if u in s.users {
        assert UserOk(s, u);
        if s.users[u].role == STAFF {
          StaffStays(s, w, u);
        }
      }
    }
  }

  /** Used invites stay redeemed if the invited users' rows stay. */
  lemma RedeemersStay(s: State, w: State, except: set<string>)
    requires InvitesRedeemed(s) && UsedStay(s.invites, w.invites)
    requires forall u :: u in s.users && s.users[u].onboarding == InviteToken ==>
               u in w.users && w.users[u] == s.users[u]
    requires forall k :: k in w.invites && w.invites[k].used ==> k in except || (k in s.invites && s.invites[k].used)
    requires forall k :: k in except ==> exists u :: Redeems(w, k, u)
    ensures InvitesRedeemed(w)
  {
    forall k | k in w.invites && w.invites[k].used ensures exists u :: Redeems(w, k, u) {
      if k !in except {
        var u :| Redeems(s, k, u);
        assert Redeems(w, k, u);
      }
    }
  }

  lemma LoginsExtend(users: map<Id, User>, id: Id, x: User)
    requires LoginsDistinct(users) && id !in users
    requires forall u :: u in users ==> LoginId(users[u].contact) != LoginId(x.contact)
    ensures LoginsDistinct(users[id := x])
  {
  }

  lemma InsertedPlainUser(s: State, id: Id, x: User)
    requires Invariant(s) && CanInsert(s, id, x.contact)
    requires x.role != STAFF && x.status == ACTIVE && x.isActive && x.temple == None
    ensures Invariant(s.(users := s.users[id := x]))
  {
    hide LegalStaff, LoginId, StaffOk, Redeems, UsersOk, LoginsDistinct, TemplesOk, DomainsDistinct, InvitesRedeemed,
      InvitesDistinct;
    var w := s.(users := s.users[id := x]);
    LoginsExtend(s.users, id, x);
    UsersStay(s, w, {id});
    RedeemersStay(s, w, {});
  }

  lemma TheOneIsIn(ids: set<Id>)
    requires ids != {}
    ensures TheOne(ids) in ids
  {
  }

  lemma StaffTempleExists(s: State, r: Request)
    requires StaffCheck(s, r) == Accepted
    ensures StaffTemple(s, r) in s.temples && s.temples[StaffTemple(s, r)].isActive
    ensures !ByInvite(r) ==> s.temples[StaffTemple(s, r)].status == APPROVED
    ensures !ByInvite(r) ==> s.temples[StaffTemple(s, r)].domain == r.domain
  {
    if !ByInvite(r) {
      TheOneIsIn(ApprovedWithDomain(s, r.domain));
    }
  }

  lemma NewStaffRedeems(s: State, r: Request)
    requires r.role == STAFF && RegisterCheck(s, r) == Accepted && ByInvite(r)
    ensures Redeems(Registered(s, r), r.token, r.id)
  {
  }

  lemma NewStaffOk(s: State, r: Request)
    requires MappingsOk(s.users.Keys, s.temples.Keys, s.mappings)
    requires r.role == STAFF && RegisterCheck(s, r) == Accepted
    ensures StaffOk(Registered(s, r), r.id)
  {
    hide ActiveLogin, ApprovedWithDomain, StaffTemple;
    StaffTempleExists(s, r);
    assert forall p :: p in s.mappings ==> p.0 != r.id;
    if ByInvite(r) {
      NewStaffRedeems(s, r);
    }
  }

  lemma RegisteredStaffKeeps(s: State, r: Request)
    requires Invariant(s) && r.role == STAFF && RegisterCheck(s, r) == Accepted
    ensures Invariant(Registered(s, r))
  {
    hide StaffTemple, LegalStaff, ActiveLogin, ApprovedWithDomain, StaffOk, Redeems, UsersOk, LoginsDistinct, TemplesOk,
      DomainsDistinct, InvitesRedeemed, InvitesDistinct, LoginId, StaffCheck;
    var w := Registered(s, r);
    StaffTempleExists(s, r);
    NewStaffOk(s, r);
    LoginsExtend(s.users, r.id, w.users[r.id]);
    UseInvite(s, r);
    UsersStay(s, w, {r.id});
  }

  /** The invite that lets a request through was unused, and its address is new among the used ones. */
  lemma UseInvite(s: State, r: Request)
    requires InvitesRedeemed(s) && InvitesDistinct(s.invites) && r.role == STAFF && RegisterCheck(s, r) == Accepted
    ensures var w := Registered(s, r);
      UsedStay(s.invites, w.invites) && InvitesDistinct(w.invites) && InvitesRedeemed(w)
  {
    hide StaffTemple, ApprovedWithDomain, ActiveLogin;
    var w := Registered(s, r);
    if ByInvite(r) {
      NewStaffRedeems(s, r);
      RedeemersStay(s, w, {r.token});
      forall m | m in s.invites && s.invites[m].used ensures s.invites[m].email != s.invites[r.token].email {
        var u :| Redeems(s, m, u);
      }
    } else {
      RedeemersStay(s, w, {});
    }
  }

  lemma RegisterKeeps(s: State, r: Request)
    requires Invariant(s)
    ensures Invariant(Register(s, r))
  {
    hide Invariant;
    if RegisterCheck(s, r) == Accepted {
      if r.role == STAFF {
        RegisteredStaffKeeps(s, r);
      } else {
        var onboarding := if r.role == DEVOTEE then InviteToken else r.onboarding;
        InsertedPlainUser(s, r.id, User(r.contact, r.role, ACTIVE, Approved, true, None, onboarding, r.now));
      }
    }
  }

  lemma TempleExtends(temples: map<Id, Temple>, audits: seq<TempleAudit>, t: Id, x: Temple)
    requires TemplesOk(temples, audits) && DomainsDistinct(temples) && t !in temples
    requires x.status == PENDING && x.version == 1 && forall v :: v in temples ==> temples[v].domain != x.domain
    ensures TemplesOk(temples[t := x], audits) && DomainsDistinct(temples[t := x])
  {
  }

  lemma RegisterTempleManagerKeeps(s: State, r: TempleRequest)
    requires Invariant(s)
    ensures Invariant(RegisterTempleManager(s, r))
  {
    hide LegalStaff, LoginId, TempleDomain, ActiveLogin, StaffOk, Redeems, UsersOk, LoginsDistinct, TemplesOk,
      DomainsDistinct, InvitesRedeemed, InvitesDistinct;
    if TempleRequestCheck(s, r) == Accepted {
      var w := RegisterTempleManager(s, r);
      LoginsExtend(s.users, r.user, w.users[r.user]);
      TempleExtends(s.temples, s.audits, r.temple, w.temples[r.temple]);
      assert forall p :: p in s.mappings ==> p.0 != r.user;
      UsersStay(s, w, {r.user});
      RedeemersStay(s, w, {});
    }
  }

  /** Changing only statuses of pending staff, into legal combinations. */
  ghost predicate Settles(before: map<Id, User>, after: map<Id, User>) {
    && after.Keys == before.Keys
    && forall u :: u in before ==>
         after[u] == before[u]
         || (before[u].role == STAFF && before[u].status == PENDING_APPROVAL && LegalStaff(after[u])
             && after[u] == before[u].(status := after[u].status, approval := after[u].approval))
  }

  lemma SettlingKeepsLogins(before: map<Id, User>, after: map<Id, User>)
    requires LoginsDistinct(before) && Settles(before, after)
    ensures LoginsDistinct(after)
  {
    hide LoginId, LegalStaff;
    assert forall u :: u in before ==> after[u].contact == before[u].contact;
  }

  lemma SettlingKeeps(s: State, users: map<Id, User>)
    requires Invariant(s) && Settles(s.users, users)
    ensures Invariant(s.(users := users))
  {
    hide TemplesOk, DomainsDistinct, InvitesDistinct, Redeems, InvitesRedeemed, LoginsDistinct;
    var w := s.(users := users);
    SettlingKeepsLogins(s.users, users);
    forall u | u in w.users ensures UserOk(w, u) {
      assert UserOk(s, u);
      if users[u] == s.users[u] && s.users[u].role == STAFF {
        StaffStays(s, w, u);
      }
    }
    forall u | u in s.users && s.users[u].onboarding == InviteToken ensures users[u] == s.users[u] {
      assert UserOk(s, u);
    }
    RedeemersStay(s, w, {});
  }

  lemma ApproveStaffKeeps(s: State, staff: Id, approver: Id, temple: Id)
    requires Invariant(s)
    ensures Invariant(ApproveStaff(s, staff, approver, temple))
  {
    if ApproveStaffCheck(s, staff, approver, temple) == Accepted {
      PendingStaffIsMapped(s, staff, temple);
      var users := s.users[staff := s.users[staff].(status := ACTIVE, approval := Approved)];
      assert Settles(s.users, users) by { assert UserOk(s, staff); }
      SettlingKeeps(s, users);
    }
  }

  /** The mapping that approval would add is always there already. */
  lemma PendingStaffIsMapped(s: State, staff: Id, temple: Id)
    requires Invariant(s) && PendingStaff(s, staff, temple)
    ensures (staff, temple) in s.mappings && s.mappings[(staff, temple)] == STAFF
  {
    assert UserOk(s, staff);
  }

  lemma RejectStaffKeeps(s: State, staff: Id, temple: Id)
    requires Invariant(s)
    ensures Invariant(RejectStaff(s, staff, temple))
  {
    if PendingStaff(s, staff, temple) {
      var users := s.users[staff := s.users[staff].(status := REJECTED, approval := Rejected)];
      assert Settles(s.users, users) by { assert UserOk(s, staff); }
      SettlingKeeps(s, users);
    }
  }

  lemma DecisionKeeps(temples: map<Id, Temple>, audits: seq<TempleAudit>, t: Id, decision: TempleStatus)
    requires TemplesOk(temples, audits) && DomainsDistinct(temples)
    requires t in temples && temples[t].status == PENDING && decision != PENDING
    ensures var w := temples[t := temples[t].(status := decision, version := temples[t].version + 1)];
      TemplesOk(w, audits + [TempleAudit(t, PENDING, decision)]) && DomainsDistinct(w)
  {
    hide AuditsOf;
    forall v {
      AuditsAppend(audits, TempleAudit(t, PENDING, decision), v);
    }
  }

  lemma DecideKeeps(s: State, temple: Id, decision: TempleStatus)
    requires Invariant(s) && decision != PENDING
    ensures Invariant(Decide(s, temple, decision))
  {
    hide TemplesOk, DomainsDistinct, InvitesDistinct, LoginsDistinct, UsersOk, InvitesRedeemed, StaffOk, Redeems;
    if DecideCheck(s, temple) == Accepted {
      var w := Decide(s, temple, decision);
      DecisionKeeps(s.temples, s.audits, temple, decision);
      UsersStay(s, w, {});
      RedeemersStay(s, w, {});
    }
  }

  lemma AddInviteKeeps(s: State, token: string, invite: Invite)
    requires Invariant(s)
    ensures Invariant(AddInvite(s, token, invite))
  {
    hide TemplesOk, DomainsDistinct, LoginsDistinct, UsersOk, InvitesRedeemed, StaffOk, Redeems;
    if token !in s.invites {
      var w := AddInvite(s, token, invite);
      UsersStay(s, w, {});
      RedeemersStay(s, w, {});
    }
  }

  lemma StepKeeps(s: State, a: Action)
    requires Invariant(s)
    ensures Invariant(Step(s, a))
  {
    hide Invariant, Register, RegisterTempleManager, ApproveStaff, RejectStaff, Decide, AddInvite;
    match a
    case DoRegister(r) => RegisterKeeps(s, r);
    case DoRegisterTemple(r) => RegisterTempleManagerKeeps(s, r);
    case DoApproveStaff(staff, approver, at) => ApproveStaffKeeps(s, staff, approver, at);
    case DoRejectStaff(staff, at) => RejectStaffKeeps(s, staff, at);
    case DoApproveTemple(t) => DecideKeeps(s, t, APPROVED);
    case DoRejectTemple(t) => DecideKeeps(s, t, DECLINED);
    case DoExpire(now) =>
    case DoInvite(token, invite) => AddInviteKeeps(s, token, invite);
  }

  /** Theorem: from an empty system the invariant holds after every run. */
  lemma {:induction false} RunKeeps(actions: seq<Action>)
    ensures Invariant(Run(EMPTY, actions))
  {
    hide Invariant, Step;
    if actions == [] {
      EmptyInvariant();
    } else {
      RunKeeps(actions[..|actions| - 1]);
      StepKeeps(Run(EMPTY, actions[..|actions| - 1]), actions[|actions| - 1]);
    }
  }

  // ----- what one step can do -----

  /** Theorem: one step leaves every existing account as it is, except that a pending staff account may be approved by
      someone else at its own temple or rejected there. Expiry changes nothing. */
  lemma HowAccountsChange(s: State, a: Action, u: Id)
    requires u in s.users
    ensures var w := Step(s, a); u in w.users
    ensures var x, y := s.users[u], Step(s, a).users[u];
      x != y ==>
        && x.status == PENDING_APPROVAL
        && (|| (a.DoApproveStaff? && a.staff == u && a.approver != u && x.temple == Some(a.at)
                && y == x.(status := ACTIVE, approval := Approved))
            || (a.DoRejectStaff? && a.staff == u && x.temple == Some(a.at)
                && y == x.(status := REJECTED, approval := Rejected)))
  {
    hide StaffTemple, StaffCheck, TempleDomain, ActiveLogin, ContactTaken;
  }

  /** One step leaves every existing temple as it is, except that a pending one may be decided. */
  lemma HowTemplesChange(s: State, a: Action, t: Id)
    ensures var w := Step(s, a);
      && (t in s.temples ==> t in w.temples)
      && (t in s.temples && s.temples[t] != w.temples[t] ==>
            s.temples[t].status == PENDING
            && w.temples[t].status == (if a.DoApproveTemple? then APPROVED else DECLINED)
            && (a == DoApproveTemple(t) || a == DoRejectTemple(t)))
      && (t in s.temples && s.temples[t].status == PENDING && a == DoApproveTemple(t)
          ==> w.temples[t].status == APPROVED)
      && (t !in s.temples && t in w.temples ==> w.temples[t].status == PENDING)
  {
    hide StaffTemple, StaffCheck, TempleDomain, ActiveLogin, ContactTaken;
  }

  /** Domains are unique, so a domain names at most one approved temple and the 500 for several is never reached. */
  lemma DomainNamesOneTemple(s: State, domain: string, t: Id)
    requires Invariant(s) && t in ApprovedWithDomain(s, domain)
    ensures ApprovedWithDomain(s, domain) == {t}
  {
  }

  /** Theorem: staff accounts only come from a registration under their id: by an invite of their address that was open
      at that moment and is used now, or pending, at the one approved and operational temple of the domain they gave. */
  lemma HowStaffAppear(s: State, a: Action, u: Id)
    requires Invariant(s) && u !in s.users && u in Step(s, a).users && Step(s, a).users[u].role == STAFF
    ensures a.DoRegister? && a.request.id == u
    ensures var r := a.request; var w := Step(s, a); var x := w.users[u];
      && x.contact == r.contact && x.createdAt == r.now && x.temple.Some? && x.temple.value in s.temples
      && var t := s.temples[x.temple.value];
      && t.isActive
      && if x.status == ACTIVE then
           && r.token in s.invites && !s.invites[r.token].used && w.invites[r.token].used
           && r.contact == Email(s.invites[r.token].email) && s.invites[r.token].temple == x.temple.value
           && r.now < s.invites[r.token].expiresAt
         else
           && x.status == PENDING_APPROVAL && x.onboarding == DomainApproval
           && r.domain != "" && ApprovedWithDomain(s, r.domain) == {x.temple.value} && t.operational
           && w.invites == s.invites
  {
    hide UsersOk, TemplesOk, DomainsDistinct, InvitesDistinct, InvitesRedeemed, LoginsDistinct, MappingsOk;
    assert a.DoRegister?;
    var r := a.request;
    if !ByInvite(r) {
      var t := StaffTemple(s, r);
      assert t in ApprovedWithDomain(s, r.domain);
      DomainNamesOneTemple(s, r.domain, t);
    }
  }

  /** For devotees and managers the guards come down to matching passwords and a login that nobody has. */
  lemma OpenRegistrationIff(s: State, r: Request)
    requires r.role != STAFF && r.id !in s.users
    ensures RegisterCheck(s, r) == Accepted
       <==> r.passwordsMatch && forall u :: u in s.users ==> LoginId(s.users[u].contact) != LoginId(r.contact)
  {
  }

  /** The invite that the request redeems: of its address, unexpired, unused, for an active temple. */
  predicate InviteFits(s: State, r: Request) {
    && r.token in s.invites
    && var invite := s.invites[r.token];
    && r.contact == Email(invite.email) && r.now < invite.expiresAt && !invite.used
    && invite.temple in s.temples && s.temples[invite.temple].isActive
  }

  /** An approved, active and operational temple has the domain. */
  predicate DomainFits(s: State, r: Request) {
    exists t :: t in s.temples && Open(s, t, r.domain) && s.temples[t].operational
  }

  /** Theorem: a staff registration under an unused id is accepted exactly if the passwords match, nobody has the
      login, and either an invite was asked for and fits, or approval by domain was asked for and a temple fits. */
  lemma StaffRegistrationIff(s: State, r: Request)
    requires Invariant(s) && r.role == STAFF && r.id !in s.users
    ensures RegisterCheck(s, r) == Accepted
       <==> && r.passwordsMatch && (forall u :: u in s.users ==> LoginId(s.users[u].contact) != LoginId(r.contact))
            && (if r.onboarding == InviteToken || (r.onboarding == NoMethod && r.token != "")
                then r.token != "" && InviteFits(s, r)
                else r.onboarding == DomainApproval && r.domain != "" && DomainFits(s, r))
  {
    hide UsersOk, TemplesOk, DomainsDistinct, InvitesDistinct, InvitesRedeemed, LoginsDistinct, MappingsOk;
    if !ByInvite(r) && r.onboarding == DomainApproval {
      DomainCheckIff(s, r);
    }
  }

  lemma DomainCheckIff(s: State, r: Request)
    requires Invariant(s) && !ByInvite(r) && r.onboarding == DomainApproval
    ensures StaffCheck(s, r) == Accepted <==> r.domain != "" && DomainFits(s, r)
  {
    hide UsersOk, TemplesOk, DomainsDistinct, InvitesDistinct, InvitesRedeemed, LoginsDistinct, MappingsOk;
    hide ApprovedWithDomain;
    DomainAnswers(s, r.domain);
    if DomainFits(s, r) {
      var t :| Open(s, t, r.domain) && s.temples[t].operational;
      FittingTemple(s, r.domain, t);
    } else if ApprovedWithDomain(s, r.domain) != {} {
      var t :| t in ApprovedWithDomain(s, r.domain);
      FittingTemple(s, r.domain, t);
    }
  }

  /** An approved, active temple has the domain. */
  predicate Open(s: State, t: Id, domain: string) {
    t in s.temples && s.temples[t].domain == domain && s.temples[t].status == APPROVED && s.temples[t].isActive
  }

  /** An active account has the login of the contact. */
  predicate LoginIsActive(s: State, c: Contact) {
    exists u :: u in s.users && s.users[u].isActive && LoginId(s.users[u].contact) == LoginId(c)
  }

  lemma FittingTemple(s: State, domain: string, t: Id)
    requires Invariant(s)
    ensures t in ApprovedWithDomain(s, domain) <==> Open(s, t, domain)
    ensures t in ApprovedWithDomain(s, domain) ==> ApprovedWithDomain(s, domain) == {t}
  {
    if t in ApprovedWithDomain(s, domain) {
      DomainNamesOneTemple(s, domain, t);
    }
  }

  /** Theorem: which answer a refused registration gets. 400: the passwords differ, an active account has the login,
      or the contact is known. Otherwise, for staff, 404: the invite fits but for its temple, or the domain has no
      approved, active temple; 403: any other reason of the invite or the domain. 500: the database refuses the row. */
  lemma RefusalCodes(s: State, r: Request)
    requires Invariant(s)
    ensures var outcome := RegisterCheck(s, r);
      var known := r.contact != Phone("") && exists u :: u in s.users && s.users[u].contact == r.contact;
      var bad := !r.passwordsMatch || LoginIsActive(s, r.contact) || known;
      && (outcome == Refused(400) <==> bad)
      && (r.role == STAFF && !bad ==>
            var invited := r.onboarding == InviteToken || (r.onboarding == NoMethod && r.token != "");
            && (outcome == Refused(404) <==>
                  if invited then r.token != "" && InviteOpen(s, r) && !InviteFits(s, r)
                  else r.onboarding == DomainApproval && r.domain != "" && !exists t :: Open(s, t, r.domain))
            && (outcome == Refused(403) <==>
                  if invited then r.token == "" || !InviteOpen(s, r)
                  else || r.onboarding != DomainApproval || r.domain == ""
                       || exists t :: Open(s, t, r.domain) && !s.temples[t].operational))
      && (outcome != Accepted && outcome != Refused(400) && outcome != Refused(403) && outcome != Refused(404) ==>
            outcome == Refused(500) && !CanInsert(s, r.id, r.contact))
  {
    hide UsersOk, TemplesOk, DomainsDistinct, InvitesDistinct, InvitesRedeemed, LoginsDistinct, MappingsOk;
    assert ActiveLogin(s, LoginId(r.contact)) <==> LoginIsActive(s, r.contact);
    if !ByInvite(r) {
      DomainAnswers(s, r.domain);
    }
  }

  lemma DomainAnswers(s: State, domain: string)
    requires Invariant(s)
    ensures |ApprovedWithDomain(s, domain)| <= 1
    ensures ApprovedWithDomain(s, domain) == {} <==> !exists t :: Open(s, t, domain)
    ensures (exists t :: t in ApprovedWithDomain(s, domain) && !s.temples[t].operational)
       <==> exists t :: Open(s, t, domain) && !s.temples[t].operational
  {
    hide UsersOk, TemplesOk, DomainsDistinct, InvitesDistinct, InvitesRedeemed, LoginsDistinct, MappingsOk;
    if ApprovedWithDomain(s, domain) != {} {
      var t :| t in ApprovedWithDomain(s, domain);
      DomainNamesOneTemple(s, domain, t);
    }
    assert forall t :: t in ApprovedWithDomain(s, domain) <==> Open(s, t, domain);
  }

  /** Theorem: which answer a refused temple registration gets. 400: an active account has the login, or the name is
      taken. 500: otherwise, if the account, the temple or its domain cannot be inserted. */
  lemma TempleRefusalCodes(s: State, r: TempleRequest)
    ensures var outcome := TempleRequestCheck(s, r);
      var bad := r.nameTaken || LoginIsActive(s, r.contact);
      && (outcome == Refused(400) <==> bad)
      && (outcome == Accepted <==>
            && !bad && r.user !in s.users && r.temple !in s.temples
            && (forall u :: u in s.users ==> LoginId(s.users[u].contact) != LoginId(r.contact))
            && forall t :: t in s.temples ==> s.temples[t].domain != TempleDomain(s, r))
      && (outcome != Accepted && !bad ==> outcome == Refused(500))
  {
    hide TempleDomain;
  }

  /** Theorem: the answers of a decision. Staff: 404 unless the account is pending staff of that temple, 400 for
      approving oneself. Temples: 404 if unknown, 500 if not pending. */
  lemma DecisionCodes(s: State, staff: Id, approver: Id, temple: Id)
    ensures var pending := && staff in s.users && s.users[staff].role == STAFF
                           && s.users[staff].status == PENDING_APPROVAL && s.users[staff].temple == Some(temple);
      && (ApproveStaffCheck(s, staff, approver, temple) == Refused(404) <==> !pending)
      && (ApproveStaffCheck(s, staff, approver, temple) == Refused(400) <==> pending && staff == approver)
      && (ApproveStaffCheck(s, staff, approver, temple) == Accepted <==> pending && staff != approver)
    ensures DecideCheck(s, temple) == Refused(404) <==> temple !in s.temples
    ensures DecideCheck(s, temple) == Refused(500) <==> temple in s.temples && s.temples[temple].status != PENDING
  {
  }

  /** Theorem: every other account comes from one of two registrations under its id. The unified one makes an
      active, approved account without a temple. The one with a temple makes an active manager awaiting approval,
      and under the manager's temple id a pending, active and operational temple of version 1, whose domain is the
      slug of its name, with the suffix appended if another temple has that slug. */
  lemma HowOthersAppear(s: State, a: Action, u: Id)
    requires u !in s.users && u in Step(s, a).users && Step(s, a).users[u].role != STAFF
    ensures a.DoRegister? || a.DoRegisterTemple?
    ensures a.DoRegister? ==> var r := a.request;
      && r.id == u
      && Step(s, a).users[u] == User(r.contact, r.role, ACTIVE, Approved, true, None,
                                     if r.role == DEVOTEE then InviteToken else r.onboarding, r.now)
    ensures a.DoRegisterTemple? ==> var r := a.templeRequest; var w := Step(s, a);
      && r.user == u && r.temple !in s.temples && r.temple in w.temples
      && w.users[u] == User(r.contact, TEMPLE_MANAGER, ACTIVE, AwaitingApproval, true, Some(r.temple), InviteToken,
          r.now)
      && var t := w.temples[r.temple];
      && t.status == PENDING && t.isActive && t.operational && t.version == 1
      && t.domain == if exists x :: x in s.temples && s.temples[x].domain == Slugify(r.name)
                     then Slugify(r.name) + "-" + r.suffix else Slugify(r.name)
  {
    hide StaffTemple, StaffCheck, ActiveLogin, ContactTaken, Slugify;
  }

  /** A contact of an account is refused as a bad request, but for an empty phone number without an active owner. */
  lemma TakenContactIsRefused(s: State, r: Request, u: Id)
    requires u in s.users && s.users[u].contact == r.contact
    ensures RegisterCheck(s, r) != Accepted
    ensures s.users[u].isActive || r.contact != Phone("") ==> RegisterCheck(s, r) == Refused(400)
  {
    assert ActiveLogin(s, LoginId(r.contact)) || ContactTaken(s, r.contact) || !CanInsert(s, r.id, r.contact);
  }

  // ----- theorems over runs -----

  lemma {:induction false} RunConcat(s: State, first: seq<Action>, second: seq<Action>)
    ensures Run(s, first + second) == Run(Run(s, first), second)
  {
    if second == [] {
      assert first + second == first;
    } else {
      var n := |second| - 1;
      RunConcat(s, first, second[..n]);
      assert (first + second)[..|first + second| - 1] == first + second[..n];
    }
  }

  /** Theorem: an account that is not pending never changes again: staff leave PENDING_APPROVAL at most once, for
      good. */
  lemma {:induction false} SettledForever(s: State, actions: seq<Action>, u: Id)
    requires u in s.users && s.users[u].status != PENDING_APPROVAL
    ensures u in Run(s, actions).users && Run(s, actions).users[u] == s.users[u]
  {
    hide Step;
    if actions != [] {
      var n := |actions| - 1;
      SettledForever(s, actions[..n], u);
      HowAccountsChange(Run(s, actions[..n]), actions[n], u);
    }
  }

  /** Theorem: after every run a staff account is in one of the three legal combinations and has exactly one temple
      mapping, to its own temple. */
  lemma {:induction false} StaffOverRuns(actions: seq<Action>, u: Id)
    requires u in Run(EMPTY, actions).users && Run(EMPTY, actions).users[u].role == STAFF
    ensures var s := Run(EMPTY, actions); var x := s.users[u];
      && LegalStaff(x)
      && x.temple.Some? && x.temple.value in s.temples
      && forall t :: (u, t) in s.mappings <==> x.temple == Some(t)
  {
    RunKeeps(actions);
    var s := Run(EMPTY, actions);
    assert UserOk(s, u);
    forall t ensures (u, t) in s.mappings <==> s.users[u].temple == Some(t) {
      assert (u, t) in s.mappings ==> (u, t).0 == u;
    }
  }

  /** Theorem: after every run a manager's temple exists and is mapped to the manager in that role. */
  lemma {:induction false} ManagersOverRuns(actions: seq<Action>, u: Id)
    requires u in Run(EMPTY, actions).users && Run(EMPTY, actions).users[u].role == TEMPLE_MANAGER
    ensures var s := Run(EMPTY, actions);
      s.users[u].temple.Some? ==> ManagerOk(s, u, s.users[u].temple.value)
  {
    RunKeeps(actions);
    assert UserOk(Run(EMPTY, actions), u);
  }

  // ----- staff histories -----

  /** The step takes a pending staff account to a given final status. */
  predicate Moves(s: State, a: Action, u: Id, status: UserStatus) {
    && u in s.users && s.users[u].role == STAFF && s.users[u].status == PENDING_APPROVAL
    && match status
       case ACTIVE => a.DoApproveStaff? && a.staff == u && a.approver != u && s.users[u].temple == Some(a.at)
       case REJECTED => a.DoRejectStaff? && a.staff == u && s.users[u].temple == Some(a.at)
       case DISABLED => false
       case PENDING_APPROVAL => false
  }

  ghost predicate SettledAt(actions: seq<Action>, u: Id, k: nat, status: UserStatus) {
    k < |actions| && Moves(Run(EMPTY, actions[..k]), actions[k], u, status)
  }

  /** How staff accounts begin. */
  lemma HowStaffStart(s: State, a: Action, u: Id)
    requires Invariant(s)
    ensures var w := Step(s, a);
      u !in s.users && u in w.users && w.users[u].role == STAFF ==>
        w.users[u].status == if w.users[u].onboarding == InviteToken then ACTIVE else PENDING_APPROVAL
  {
    hide StaffTemple, StaffCheck, TempleDomain, ActiveLogin, ContactTaken, UserOk;
  }

  lemma StepSettles(s: State, a: Action, u: Id, status: UserStatus)
    requires Invariant(s) && u in s.users && s.users[u].role == STAFF && s.users[u].status == PENDING_APPROVAL
    ensures u in Step(s, a).users
    ensures status != PENDING_APPROVAL ==> (Step(s, a).users[u].status == status <==> Moves(s, a, u, status))
  {
    hide StaffTemple, StaffCheck, TempleDomain, ActiveLogin, ContactTaken;
    HowAccountsChange(s, a, u);
    assert UserOk(s, u);
  }

  /** Theorem: how every staff account got its status: active exactly by redeeming an invite or by an approval step of
      someone else at its temple, rejected exactly by a rejection step, and never disabled. */
  lemma {:induction false} StaffHistory(actions: seq<Action>, u: Id, status: UserStatus)
    requires u in Run(EMPTY, actions).users && Run(EMPTY, actions).users[u].role == STAFF && status != PENDING_APPROVAL
    ensures Run(EMPTY, actions).users[u].status == status
       <==> (status == ACTIVE && Run(EMPTY, actions).users[u].onboarding == InviteToken)
            || exists k :: SettledAt(actions, u, k, status)
  {
    hide Step, Run, Invariant, SettledAt;
    if actions == [] {
      RunNone();
    } else {
      var n := |actions| - 1;
      var front := actions[..n];
      var s, w := Run(EMPTY, front), Run(EMPTY, actions);
      RunKeeps(front);
      RunLast(actions);
      SettledUpTo(actions, u, status);
      if u !in s.users {
        HowStaffStart(s, actions[n], u);
        NotSettledBefore(front, u, status);
      } else {
        HowAccountsChange(s, actions[n], u);
        StaffHistory(front, u, status);
        if s.users[u].status == PENDING_APPROVAL {
          StepSettles(s, actions[n], u, status);
        }
      }
    }
  }

  /** Theorem: staff are pending exactly from joining by domain until an approval or a rejection step, however long that
      takes. */
  lemma PendingUntilDecided(actions: seq<Action>, u: Id)
    requires u in Run(EMPTY, actions).users && Run(EMPTY, actions).users[u].role == STAFF
    ensures Run(EMPTY, actions).users[u].status == PENDING_APPROVAL
       <==> && Run(EMPTY, actions).users[u].onboarding == DomainApproval
            && !(exists k :: SettledAt(actions, u, k, ACTIVE))
            && !(exists k :: SettledAt(actions, u, k, REJECTED))
  {
    hide Run, SettledAt;
    RunKeeps(actions);
    assert UserOk(Run(EMPTY, actions), u);
    StaffHistory(actions, u, ACTIVE);
    StaffHistory(actions, u, REJECTED);
  }

  // ----- expiry -----

  /** Theorem: no run ever disables an account, whatever expiry steps it has: after every run all accounts are
      active. */
  lemma {:induction false} NeverDisabled(actions: seq<Action>, u: Id)
    requires u in Run(EMPTY, actions).users
    ensures Run(EMPTY, actions).users[u].status != DISABLED && Run(EMPTY, actions).users[u].isActive
  {
    RunKeeps(actions);
    assert UserOk(Run(EMPTY, actions), u);
  }

  /** Theorem: the script promises that every account pending for more than fourteen days is disabled afterwards. It
      keeps the promise exactly if there is none: if nobody has been pending for more than 1,209,600 seconds. */
  lemma {:induction false} ExpiryKeepsPromiseIff(actions: seq<Action>, now: int)
    ensures var s := Run(EMPTY, actions); var w := Run(EMPTY, actions + [DoExpire(now)]);
      (forall u :: u in s.users && Expires(s.users[u], now) ==> w.users[u].status == DISABLED && !w.users[u].isActive)
      <==> forall u :: u in s.users && s.users[u].status == PENDING_APPROVAL ==> now - s.users[u].createdAt <= 1_209_600
  {
    hide Run;
    DueMeans(actions, now);
    RunConcat(EMPTY, actions, [DoExpire(now)]);
    var s, w := Run(EMPTY, actions), Run(EMPTY, actions + [DoExpire(now)]);
    assert w == s by { OneStep(s, DoExpire(now)); }
    if u :| u in s.users && Expires(s.users[u], now) {
      NeverDisabled(actions, u);
    }
  }

  /** Fourteen days are 1,209,600 seconds, and after any run pending accounts are active. */
  lemma DueMeans(actions: seq<Action>, now: int)
    ensures var s := Run(EMPTY, actions);
      ExpiryRaises(s, now) <==>
      exists u :: u in s.users && s.users[u].status == PENDING_APPROVAL && now - s.users[u].createdAt > 1_209_600
  {
    hide Run;
    var s := Run(EMPTY, actions);
    forall u | u in s.users ensures s.users[u].isActive {
      NeverDisabled(actions, u);
    }
  }

  lemma OneStep(s: State, a: Action)
    ensures Run(s, [a]) == Step(s, a)
  {
    assert [a][..0] == [];
  }

  /** A run that shows the promise broken: staff join by domain at time 0, and an expiry step one second after the
      fourteen days leaves them pending. */
  lemma OldAccountStaysPending()
    ensures var domain := Slugify("a");
      var actions := [DoRegisterTemple(TempleRequest(1, 1, Email("m"), "a", false, "", 0)), DoApproveTemple(1),
                      DoRegister(Request(2, Email("s"), STAFF, DomainApproval, domain, "", true, 0)),
                      DoExpire(EXPIRY + 1)];
      var w := Run(EMPTY, actions);
      && 2 in w.users && Expires(w.users[2], EXPIRY + 1)
      && w.users[2].status == PENDING_APPROVAL && w.users[2].isActive
  {
    hide Run, Slugify, Register, RegisterTempleManager, Decide, ApprovedWithDomain;
    var domain := Slugify("a");
    assert domain != "" by {
      SlugAcceptedIff("a");
      assert 'a' in "a" && IsWord('a');
    }
    var m := TempleRequest(1, 1, Email("m"), "a", false, "", 0);
    var r := Request(2, Email("s"), STAFF, DomainApproval, domain, "", true, 0);
    var actions := [DoRegisterTemple(m), DoApproveTemple(1), DoRegister(r), DoExpire(EXPIRY + 1)];
    var s1, s2 := RegisterTempleManager(EMPTY, m), Decide(RegisterTempleManager(EMPTY, m), 1, APPROVED);
    FirstTemple(m);
    JoinsByDomain(s2, r, 1);
    FourSteps(EMPTY, actions);
    assert Step(Step(Step(EMPTY, actions[0]), actions[1]), actions[2]) == Register(s2, r);
  }

  /** A first temple, approved at once. */
  lemma FirstTemple(m: TempleRequest)
    requires !m.nameTaken
    ensures var s := Decide(RegisterTempleManager(EMPTY, m), m.temple, APPROVED);
      && s.users.Keys == {m.user} && s.users[m.user].contact == m.contact
      && ApprovedWithDomain(s, Slugify(m.name)) == {m.temple} && s.temples[m.temple].operational
  {
    hide Slugify;
    assert TempleRequestCheck(EMPTY, m) == Accepted;
  }

  /** Staff of the one approved and operational temple of a domain join it, pending. */
  lemma JoinsByDomain(s: State, r: Request, t: Id)
    requires r.role == STAFF && r.onboarding == DomainApproval && r.domain != "" && r.passwordsMatch
    requires ApprovedWithDomain(s, r.domain) == {t} && s.temples[t].operational
    requires CanInsert(s, r.id, r.contact)
    ensures r.id in Register(s, r).users
    ensures var x := Register(s, r).users[r.id];
      x.role == STAFF && x.status == PENDING_APPROVAL && x.isActive && x.temple == Some(t) && x.createdAt == r.now
  {
    assert StaffTemple(s, r) == t;
  }

  lemma FourSteps(s: State, actions: seq<Action>)
    requires |actions| == 4
    ensures Run(s, actions) == Step(Step(Step(Step(s, actions[0]), actions[1]), actions[2]), actions[3])
  {
    hide Run, Step;
    forall k: nat | k < 4 ensures Run(s, actions[..k + 1]) == Step(Run(s, actions[..k]), actions[k]) {
      assert actions[..k + 1] == actions[..k] + [actions[k]];
      RunConcat(s, actions[..k], [actions[k]]);
      OneStep(Run(s, actions[..k]), actions[k]);
    }
    assert actions[..4] == actions;
    assert Run(s, actions[..0]) == s by { NoStep(s); }
  }

  lemma NoStep(s: State)
    ensures Run(s, []) == s
  {
  }

  /** The last step, or an earlier one. */
  lemma SettledUpTo(actions: seq<Action>, u: Id, status: UserStatus)
    requires actions != []
    ensures var n := |actions| - 1;
      (exists k :: SettledAt(actions, u, k, status))
      <==> (exists k :: SettledAt(actions[..n], u, k, status)) || Moves(Run(EMPTY, actions[..n]), actions[n], u, status)
  {
    hide Run, Moves;
    var n := |actions| - 1;
    var front := actions[..n];
    forall k: nat | k < n ensures SettledAt(front, u, k, status) <==> SettledAt(actions, u, k, status) {
      assert front[..k] == actions[..k];
    }
    if k: nat :| SettledAt(actions, u, k, status) {
      if k < n {
        assert SettledAt(front, u, k, status);
      }
    }
    if k: nat :| SettledAt(front, u, k, status) {
      assert SettledAt(actions, u, k, status);
    }
    assert SettledAt(actions, u, n, status) <==> Moves(Run(EMPTY, front), actions[n], u, status);
  }

  /** Accounts are never deleted, so an account that is new now was not settled before. */
  lemma NotSettledBefore(front: seq<Action>, u: Id, status: UserStatus)
    requires u !in Run(EMPTY, front).users
    ensures !exists k :: SettledAt(front, u, k, status)
  {
    hide Run;
    forall k: nat | k < |front| ensures u !in Run(EMPTY, front[..k]).users {
      assert front == front[..k] + front[k..];
      AccountsStay(Run(EMPTY, front[..k]), front[k..], u);
      RunConcat(EMPTY, front[..k], front[k..]);
    }
  }

  lemma {:induction false} AccountsStay(s: State, actions: seq<Action>, u: Id)
    ensures u in s.users ==> u in Run(s, actions).users
  {
    hide Step;
    if actions != [] && u in s.users {
      var n := |actions| - 1;
      AccountsStay(s, actions[..n], u);
      HowAccountsChange(Run(s, actions[..n]), actions[n], u);
    }
  }

  /** Theorem: an address registered once can never be registered again, neither by the unified registration nor with a
      temple, not even after a rejection. */
  lemma {:induction false} RegisteredOnce(s: State, actions: seq<Action>, u: Id, r: Request, m: TempleRequest)
    requires u in s.users && s.users[u].contact == r.contact == m.contact
    ensures Register(Run(s, actions), r) == Run(s, actions) == RegisterTempleManager(Run(s, actions), m)
    ensures u in Run(s, actions).users && Run(s, actions).users[u].contact == r.contact
  {
    hide Step, RegisterCheck, Registered;
    if actions != [] {
      var n := |actions| - 1;
      RegisteredOnce(s, actions[..n], u, r, m);
      HowAccountsChange(Run(s, actions[..n]), actions[n], u);
    }
    TakenContactIsRefused(Run(s, actions), r, u);
    TakenContactIsRefusedWithTemple(Run(s, actions), m, u);
  }

  lemma TakenContactIsRefusedWithTemple(s: State, m: TempleRequest, u: Id)
    requires u in s.users && s.users[u].contact == m.contact
    ensures TempleRequestCheck(s, m) != Accepted
  {
    hide TempleDomain;
    assert ActiveLogin(s, LoginId(m.contact)) || !CanInsert(s, m.user, m.contact);
  }

  /** Theorem: after every run the temple of staff who joined by domain is approved, so that only rejection can shut
      them out. */
  lemma {:induction false} DomainStaffTempleApproved(actions: seq<Action>, u: Id)
    requires u in Run(EMPTY, actions).users && Run(EMPTY, actions).users[u].role == STAFF
    requires Run(EMPTY, actions).users[u].onboarding == DomainApproval
    ensures var s := Run(EMPTY, actions); var x := s.users[u];
      && x.temple.Some? && x.temple.value in s.temples && s.temples[x.temple.value].status == APPROVED
      && (LoginAs(s, u, true).Denied? <==> x.status == REJECTED)
  {
    hide Step, Run, Invariant;
    RunKeeps(actions);
    StaffLegal(actions, u);
    if actions == [] {
      RunNone();
    } else {
      var n := |actions| - 1;
      var front := actions[..n];
      var s, w := Run(EMPTY, front), Run(EMPTY, actions);
      RunKeeps(front);
      RunLast(actions);
      if u in s.users {
        HowAccountsChange(s, actions[n], u);
        DomainStaffTempleApproved(front, u);
      } else {
        HowStaffStart(s, actions[n], u);
        HowStaffAppear(s, actions[n], u);
      }
      HowTemplesChange(s, actions[n], w.users[u].temple.value);
    }
  }

  lemma StaffLegal(actions: seq<Action>, u: Id)
    requires u in Run(EMPTY, actions).users && Run(EMPTY, actions).users[u].role == STAFF
    ensures LegalStaff(Run(EMPTY, actions).users[u])
  {
    StaffOverRuns(actions, u);
  }

  /** Theorem: used invites and invite-onboarded staff correspond one to one: each used invite was redeemed by
      exactly one account of its address and temple, and each such account redeemed exactly one invite. */
  lemma InvitesMatchStaff(actions: seq<Action>)
    ensures var s := Run(EMPTY, actions);
      && (forall k :: k in s.invites && s.invites[k].used ==> exists u :: Redeems(s, k, u))
      && (forall u :: u in s.users && s.users[u].role == STAFF && s.users[u].onboarding == InviteToken
                      ==> exists k :: Redeems(s, k, u))
      && (forall k, u, v :: Redeems(s, k, u) && Redeems(s, k, v) ==> u == v)
      && (forall k, m, u :: Redeems(s, k, u) && Redeems(s, m, u) ==> k == m)
  {
    hide TemplesOk, DomainsDistinct, AuditsOf, LegalStaff, Run;
    RunKeeps(actions);
    var s := Run(EMPTY, actions);
    forall u | u in s.users && s.users[u].role == STAFF && s.users[u].onboarding == InviteToken
      ensures exists k :: Redeems(s, k, u)
    {
      assert UserOk(s, u);
    }
  }

  /** Theorem: over every run a temple makes at most one status transition; its version increments and its audit
      rows both count it, and the audit row names it. */
  lemma {:induction false} TempleOverRuns(actions: seq<Action>, t: Id)
    requires t in Run(EMPTY, actions).temples
    ensures var s := Run(EMPTY, actions); var x := s.temples[t]; var rows := AuditsOf(s.audits, t);
      && x.version - 1 == |rows| == (if x.status == PENDING then 0 else 1)
      && (x.status != PENDING ==> rows[0] == TempleAudit(t, PENDING, x.status))
  {
    RunKeeps(actions);
  }

  lemma {:induction false} DecidedForever(s: State, actions: seq<Action>, t: Id)
    requires t in s.temples && s.temples[t].status != PENDING
    ensures t in Run(s, actions).temples && Run(s, actions).temples[t] == s.temples[t]
  {
    hide Step;
    if actions != [] {
      var n := |actions| - 1;
      DecidedForever(s, actions[..n], t);
      HowTemplesChange(Run(s, actions[..n]), actions[n], t);
    }
  }

  /** Step k of the run approved a temple that was pending at that moment. */
  ghost predicate ApprovedAt(actions: seq<Action>, t: Id, k: nat) {
    && k < |actions| && actions[k] == DoApproveTemple(t)
    && var s := Run(EMPTY, actions[..k]); t in s.temples && s.temples[t].status == PENDING
  }

  /** Theorem: a temple is approved after a run exactly if some step of the run approved it while it was pending. */
  lemma {:induction false} ApprovedIff(actions: seq<Action>, t: Id)
    ensures var s := Run(EMPTY, actions);
      (t in s.temples && s.temples[t].status == APPROVED) <==> exists k :: ApprovedAt(actions, t, k)
  {
    hide Step, Run;
    if actions == [] {
      RunNone();
    } else {
      var n := |actions| - 1;
      var front := actions[..n];
      ApprovedIff(front, t);
      RunLast(actions);
      HowTemplesChange(Run(EMPTY, front), actions[n], t);
      forall k: nat | k < n ensures ApprovedAt(front, t, k) <==> ApprovedAt(actions, t, k) {
        assert front[..k] == actions[..k];
      }
      assert ApprovedAt(actions, t, n) <==>
        (actions[n] == DoApproveTemple(t) && t in Run(EMPTY, front).temples
         && Run(EMPTY, front).temples[t].status == PENDING);
    }
  }

  lemma RunNone()
    ensures Run(EMPTY, []) == EMPTY
  {
  }

  lemma RunLast(actions: seq<Action>)
    requires actions != []
    ensures Run(EMPTY, actions) == Step(Run(EMPTY, actions[..|actions| - 1]), actions[|actions| - 1])
  {
  }

  /** Theorem: the login verdict on every account after any run: with the right password it gets in exactly if it is
      not rejected and has no temple or one that some step of the run approved, and lands in the pending shell
      exactly while it awaits approval; a wrong password or an unknown account is a bad request. */
  lemma LoginOverRuns(actions: seq<Action>, u: Id, passwordOk: bool)
    ensures var s := Run(EMPTY, actions); var login := LoginAs(s, u, passwordOk);
      if u !in s.users || !passwordOk then login == Denied(400)
      else
        var x := s.users[u];
        && (login.Granted? <==>
              x.status != REJECTED && (x.temple.Some? ==> exists k :: ApprovedAt(actions, x.temple.value, k)))
        && (login.Granted? ==> (login.pendingShell <==> x.role == STAFF && x.approval == AwaitingApproval))
        && (login.Denied? ==> login.code == 403)
  {
    hide Run, ApprovedAt;
    RunKeeps(actions);
    var s := Run(EMPTY, actions);
    if u in s.users {
      assert UserOk(s, u);
      if s.users[u].temple.Some? {
        ApprovedIff(actions, s.users[u].temple.value);
      }
    }
  }

  /** Step k opened a manager account through the unified registration. */
  ghost predicate OpenedAt(actions: seq<Action>, u: Id, k: nat) {
    && k < |actions| && actions[k].DoRegister?
    && actions[k].request.id == u && actions[k].request.role == TEMPLE_MANAGER
    && RegisterCheck(Run(EMPTY, actions[..k]), actions[k].request) == Accepted
  }

  /** Theorem: after any run a manager has no temple exactly if the unified registration opened the account. */
  lemma {:induction false} NoTempleIff(actions: seq<Action>, u: Id)
    requires u in Run(EMPTY, actions).users && Run(EMPTY, actions).users[u].role == TEMPLE_MANAGER
    ensures Run(EMPTY, actions).users[u].temple == None <==> exists k :: OpenedAt(actions, u, k)
  {
    hide Run, Step, Invariant, RegisterCheck;
    if actions == [] {
      RunNone();
    } else {
      var n := |actions| - 1;
      var front := actions[..n];
      var s := Run(EMPTY, front);
      RunLast(actions);
      forall k: nat | k < n ensures OpenedAt(front, u, k) <==> OpenedAt(actions, u, k) {
        assert front[..k] == actions[..k];
      }
      if u in s.users {
        HowAccountsChange(s, actions[n], u);
        NoTempleIff(front, u);
        KnownIdIsRefused(s, actions[n], u);
      } else {
        NotOpenedBefore(front, u);
        HowManagersStart(s, actions[n], u);
        assert OpenedAt(actions, u, n) <==> Step(s, actions[n]).users[u].temple == None;
      }
    }
  }

  lemma KnownIdIsRefused(s: State, a: Action, u: Id)
    requires u in s.users
    ensures a.DoRegister? && a.request.id == u ==> RegisterCheck(s, a.request) != Accepted
  {
  }

  /** How manager accounts begin. */
  lemma HowManagersStart(s: State, a: Action, u: Id)
    requires u !in s.users && u in Step(s, a).users && Step(s, a).users[u].role == TEMPLE_MANAGER
    ensures Step(s, a).users[u].temple == None
       <==> && a.DoRegister? && a.request.id == u && a.request.role == TEMPLE_MANAGER
            && RegisterCheck(s, a.request) == Accepted
  {
    hide StaffTemple, StaffCheck, TempleDomain, ActiveLogin, ContactTaken;
  }

  lemma NotOpenedBefore(front: seq<Action>, u: Id)
    requires u !in Run(EMPTY, front).users
    ensures !exists k :: OpenedAt(front, u, k)
  {
    hide Run, RegisterCheck;
    forall k: nat | k < |front| ensures !OpenedAt(front, u, k) {
      if OpenedAt(front, u, k) {
        var s := Run(EMPTY, front[..k]);
        var a := front[k];
        OneStep(s, a);
        AcceptedIsStored(s, a.request);
        assert front == front[..k] + ([a] + front[k + 1..]);
        RunConcat(EMPTY, front[..k], [a] + front[k + 1..]);
        RunConcat(s, [a], front[k + 1..]);
        AccountsStay(Run(s, [a]), front[k + 1..], u);
      }
    }
  }

  lemma AcceptedIsStored(s: State, r: Request)
    requires RegisterCheck(s, r) == Accepted
    ensures r.id in Step(s, DoRegister(r)).users
  {
  }

  /** Theorem: after any run a temple manager with the right password gets in exactly if some step approved the
      manager's temple, or the unified registration opened the account. The registration route never asks the
      service for the latter, and without it only approval lets a manager in. */
  lemma ManagerLoginIff(actions: seq<Action>, u: Id)
    requires u in Run(EMPTY, actions).users && Run(EMPTY, actions).users[u].role == TEMPLE_MANAGER
    ensures var s := Run(EMPTY, actions); var temple := s.users[u].temple;
      && (LoginAs(s, u, true).Granted? <==>
            || (exists k :: OpenedAt(actions, u, k))
            || (temple.Some? && exists k :: ApprovedAt(actions, temple.value, k)))
      && (RouteGuards(actions) ==>
            (LoginAs(s, u, true).Granted? <==> temple.Some? && exists k :: ApprovedAt(actions, temple.value, k)))
  {
    hide Run, ApprovedAt;
    LoginOverRuns(actions, u, true);
    NoTempleIff(actions, u);
    ManagersAreNotRejected(actions, u);
  }

  /** The registration route answers a temple manager itself and does not call the service. */
  predicate RouteGuards(actions: seq<Action>) {
    forall k :: 0 <= k < |actions| && actions[k].DoRegister? ==> actions[k].request.role != TEMPLE_MANAGER
  }

  lemma ManagersAreNotRejected(actions: seq<Action>, u: Id)
    requires u in Run(EMPTY, actions).users && Run(EMPTY, actions).users[u].role == TEMPLE_MANAGER
    ensures Run(EMPTY, actions).users[u].status == ACTIVE
  {
    RunKeeps(actions);
    assert UserOk(Run(EMPTY, actions), u);
  }

  /** Theorem: after any run a staff member with the right password gets in exactly if not rejected and the temple is
      approved; a pending one only reaches the pending shell. */
  lemma StaffLoginIff(actions: seq<Action>, u: Id)
    requires u in Run(EMPTY, actions).users && Run(EMPTY, actions).users[u].role == STAFF
    ensures var s := Run(EMPTY, actions); var x := s.users[u];
      && x.temple.Some?
      && (LoginAs(s, u, true).Granted?
          <==> x.status != REJECTED && exists k :: ApprovedAt(actions, x.temple.value, k))
      && (LoginAs(s, u, true).Granted? ==> (LoginAs(s, u, true).pendingShell <==> x.approval == AwaitingApproval))
  {
    hide Run, ApprovedAt;
    StaffOverRuns(actions, u);
    LoginOverRuns(actions, u, true);
  }

  /** Theorem: once rejected, a staff member is refused for ever, whatever else happens. */
  lemma RefusedForever(before: seq<Action>, after: seq<Action>, u: Id, passwordOk: bool)
    requires u in Run(EMPTY, before).users
    requires Run(EMPTY, before).users[u].status == REJECTED
    ensures LoginAs(Run(EMPTY, before + after), u, passwordOk).Denied?
  {
    RunConcat(EMPTY, before, after);
    SettledForever(Run(EMPTY, before), after, u);
  }
}
