/** Session authentication against memberships with access versions: one SQL statement is one step, and any number of
  * authentications interleave with membership changes. */
module AccessProtocol {
  import opened Wrappers

  /** Only users with an external subject can be found by a session. */
  datatype UserRow = UserRow(subject: Option<nat>, org: nat, deleted: bool)

  /** Rows are never deleted: revoking keeps the row, and adding again revives it. */
  datatype Membership = Membership(active: bool, version: nat)

  datatype Access = Access(org: nat, version: nat)

  /** A session that is not alive has been revoked, consumed or has expired. */
  datatype Session = Session(subject: nat, access: Option<Access>, alive: bool)

  datatype Identity = Identity(user: nat, access: Access)

  /** Where an authentication stands: before its first read, holding the session it read, about to bind it, about to
    * read it again, about to revoke it, or finished. */
  datatype Phase =
    | Reading
    | Resolving(session: Session)
    | Binding(identity: Identity)
    | Rereading(identity: Identity)
    | Revoking
    | Failed
    | Succeeded(identity: Identity)

  datatype Auth = Auth(session: nat, phase: Phase)

  datatype State = State(
    users: map<nat, UserRow>,
    deletedOrgs: set<nat>,
    members: map<(nat, nat), Membership>,
    sessions: map<nat, Session>,
    auths: seq<Auth>)

  datatype Action =
    | AddUser(user: nat, external: Option<nat>, org: nat)
    | DeleteUser(user: nat)
    | DeleteOrg(org: nat)
    | UpsertMembership(org: nat, user: nat)
    | RevokeMembership(org: nat, user: nat)
    | CreateSession(id: nat, subject: nat, access: Option<Access>)
    | EndSession(id: nat)
    | Begin(id: nat)
    | Advance(auth: nat)
    | ResolverFails(auth: nat)

  /** The users the resolving query finds for a session as it was read. */
  predicate Matches(s: State, session: Session, u: nat)
  {
    u in s.users &&
    var row := s.users[u];
    && row.subject == Some(session.subject) && !row.deleted && row.org !in s.deletedOrgs
    && (row.org, u) in s.members && s.members[(row.org, u)].active
    && (session.access.Some? ==> session.access.value == Access(row.org, s.members[(row.org, u)].version))
  }

  function IdentityOf(s: State, u: nat): Identity
    requires u in s.users && (s.users[u].org, u) in s.members
  {
    Identity(u, Access(s.users[u].org, s.members[(s.users[u].org, u)].version))
  }

  /** `resolveBffIdentity`: the one row found, if there is exactly one. */
  ghost function Resolve(s: State, session: Session): (r: Option<Identity>)
    ensures r.Some? ==> Matches(s, session, r.value.user) && r.value == IdentityOf(s, r.value.user)
    ensures r.Some? <==> exists u :: Matches(s, session, u) && forall w :: Matches(s, session, w) ==> w == u
  {
    if exists u :: Matches(s, session, u) && forall w :: Matches(s, session, w) ==> w == u then
      var u :| Matches(s, session, u) && forall w :: Matches(s, session, w) ==> w == u;
      Some(IdentityOf(s, u))
    else None
  }

  predicate Alive(s: State, id: nat) { id in s.sessions && s.sessions[id].alive }

  function Enter(s: State, i: nat, phase: Phase): State
    requires i < |s.auths|
  {
    s.(auths := s.auths[i := s.auths[i].(phase := phase)])
  }

  function End(s: State, id: nat): State
  {
    if id in s.sessions then s.(sessions := s.sessions[id := s.sessions[id].(alive := false)]) else s
  }

  /** The next statement of an authentication. */
  ghost function AdvanceStep(s: State, i: nat): State
    requires i < |s.auths|
  {
    var id := s.auths[i].session;
    match s.auths[i].phase
    case Reading => if Alive(s, id) then Enter(s, i, Resolving(s.sessions[id])) else Enter(s, i, Failed)
    case Resolving(session) =>
      var identity := Resolve(s, session);
      if identity.None? then Enter(s, i, Revoking)
      else if session.access.None? then Enter(s, i, Binding(identity.value))
      else if session.access.value == identity.value.access then Enter(s, i, Succeeded(identity.value))
      else Enter(s, i, Revoking)
    case Binding(identity) =>
      if Alive(s, id) && s.sessions[id].access.None? then
        Enter(s, i, Succeeded(identity)).(sessions :=
                                          s.sessions[id := s.sessions[id].(access := Some(identity.access))])
      else Enter(s, i, Rereading(identity))
    case Rereading(identity) =>
      if Alive(s, id) && s.sessions[id].access == Some(identity.access) then Enter(s, i, Succeeded(identity))
      else Enter(s, i, Revoking)
    case Revoking => End(Enter(s, i, Failed), id)
    case _ => s
  }

  /** The table's uniqueness constraint: within an organization no other row, deleted or not, has the subject. */
  predicate SubjectFree(s: State, subject: Option<nat>, org: nat)
  {
    subject.Some? ==> forall w <- s.users :: !(s.users[w].org == org && s.users[w].subject == subject)
  }

  ghost function Step(s: State, a: Action): State
  {
    match a
    case AddUser(u, subject, org) =>
      if u in s.users || !SubjectFree(s, subject, org) then s
      else s.(users := s.users[u := UserRow(subject, org, false)])
    case DeleteUser(u) => if u in s.users then s.(users := s.users[u := s.users[u].(deleted := true)]) else s
    case DeleteOrg(org) => s.(deletedOrgs := s.deletedOrgs + {org})
    case UpsertMembership(org, u) =>
      if u !in s.users || s.users[u].org != org then s
      else s.(members := s.members[(org, u) :=
                                   Membership(true, if (org, u) in s.members then s.members[(org, u)].version + 1
                                                    else 1)])
    case RevokeMembership(org, u) =>
      if (org, u) in s.members && s.members[(org, u)].active
      then s.(members := s.members[(org, u) := Membership(false, s.members[(org, u)].version + 1)]) else s
    case CreateSession(id, subject, access) =>
      if id in s.sessions then s else s.(sessions := s.sessions[id := Session(subject, access, true)])
    case EndSession(id) => End(s, id)
    case Begin(id) => s.(auths := s.auths + [Auth(id, Reading)])
    case Advance(i) => if i < |s.auths| then AdvanceStep(s, i) else s
    case ResolverFails(i) => if i < |s.auths| && s.auths[i].phase.Resolving? then Enter(s, i, Revoking) else s
  }

  ghost function Play(s: State, actions: seq<Action>): State
    decreases |actions|
  {
    if actions == [] then s else Play(Step(s, actions[0]), actions[1..])
  }

  const EMPTY := State(map[], {}, map[], map[], [])

  // ---------- What only grows ----------

  function Version(s: State, org: nat, u: nat): nat { if (org, u) in s.members then s.members[(org, u)].version else 0 }

  /** Access versions never fall, a user keeps its organization and subject, a bound session is never rebound, a dead
    * one never lives again, and an authentication keeps its session. */
  ghost predicate Grows(s: State, t: State)
  {
    && (forall org, u :: Version(s, org, u) <= Version(t, org, u))
    && (forall u <- s.users :: u in t.users && t.users[u].subject == s.users[u].subject
          && t.users[u].org == s.users[u].org)
    && (forall id <- s.sessions ::
          && id in t.sessions && t.sessions[id].subject == s.sessions[id].subject
          && (s.sessions[id].access.Some? ==> t.sessions[id].access == s.sessions[id].access)
          && (!s.sessions[id].alive ==> !t.sessions[id].alive))
    && |s.auths| <= |t.auths| && forall i :: 0 <= i < |s.auths| ==> t.auths[i].session == s.auths[i].session
  }

  predicate SessionGrows(x: Session, y: Session)
  {
    y.subject == x.subject && (x.access.Some? ==> y.access == x.access) && (!x.alive ==> !y.alive)
  }

  /** A statement of an authentication changes at most the session it is about. */
  lemma AdvanceSessions(s: State, i: nat)
    requires i < |s.auths|
    ensures var t, id := AdvanceStep(s, i), s.auths[i].session;
            && t.members == s.members && t.users == s.users
            && if id in s.sessions
               then id in t.sessions && SessionGrows(s.sessions[id], t.sessions[id])
                    && t.sessions == s.sessions[id := t.sessions[id]]
               else t.sessions == s.sessions
  {
    hide Resolve;
    var id := s.auths[i].session;
    if id in s.sessions { assert s.sessions == s.sessions[id := s.sessions[id]]; }
  }

  /** And its own phase. */
  lemma AdvanceAuths(s: State, i: nat)
    requires i < |s.auths|
    ensures var t := AdvanceStep(s, i);
            |t.auths| == |s.auths| && t.auths == s.auths[i := Auth(s.auths[i].session, t.auths[i].phase)]
  {
    hide Resolve;
  }

  lemma AdvanceGrows(s: State, i: nat)
    requires i < |s.auths|
    ensures Grows(s, AdvanceStep(s, i))
  {
    AdvanceSessions(s, i);
    AdvanceAuths(s, i);
    hide AdvanceStep;
  }

  lemma StepGrows(s: State, a: Action)
    ensures Grows(s, Step(s, a))
  {
    hide AdvanceStep;
    if a.Advance? && a.auth < |s.auths| { AdvanceGrows(s, a.auth); }
  }

  lemma {:induction false} PlayGrows(s: State, actions: seq<Action>)
    ensures Grows(s, Play(s, actions))
    decreases |actions|
  {
    hide Step;
    if actions != [] {
      StepGrows(s, actions[0]);
      PlayGrows(Step(s, actions[0]), actions[1..]);
    }
  }

  /** Every revocation of an active membership and every role change raises its access version. */
  lemma ChangesRaiseVersions(s: State, org: nat, u: nat)
    ensures (org, u) in s.members && s.members[(org, u)].active
            ==> Version(Step(s, RevokeMembership(org, u)), org, u) == Version(s, org, u) + 1
    ensures u in s.users && s.users[u].org == org
            ==> Version(Step(s, UpsertMembership(org, u)), org, u) == Version(s, org, u) + 1
  {
  }

  // ---------- What a success means ----------

  /** The identity names a user with the session's subject, in the organization it names, and a version that the
    * membership has had. */
  ghost predicate Held(s: State, session: nat, identity: Identity)
  {
    && session in s.sessions && identity.user in s.users
    && s.users[identity.user].subject == Some(s.sessions[session].subject)
    && s.users[identity.user].org == identity.access.org
    && identity.access.version <= Version(s, identity.access.org, identity.user)
  }

  /** What an authentication holds is right, and a success is on a session bound to it. */
  ghost predicate Sound(s: State, a: Auth)
  {
    match a.phase
    case Reading => true
    case Resolving(session) =>
      && a.session in s.sessions && session.subject == s.sessions[a.session].subject
      && (session.access.Some? ==> s.sessions[a.session].access == session.access)
    case Binding(identity) => Held(s, a.session, identity)
    case Rereading(identity) => Held(s, a.session, identity)
    case Succeeded(identity) => Held(s, a.session, identity) && s.sessions[a.session].access == Some(identity.access)
    case _ => true
  }

  ghost predicate Valid(s: State) { forall i :: 0 <= i < |s.auths| ==> Sound(s, s.auths[i]) }

  lemma HeldStays(s: State, t: State, session: nat, identity: Identity)
    requires Grows(s, t) && Held(s, session, identity)
    ensures Held(t, session, identity)
  {
    assert Version(s, identity.access.org, identity.user) <= Version(t, identity.access.org, identity.user);
  }

  /** Growth alone keeps what is known of an authentication that does not move. */
  lemma SoundStays(s: State, t: State, a: Auth)
    requires Grows(s, t) && Sound(s, a)
    ensures Sound(t, a)
  {
    match a.phase
    case Binding(identity) => HeldStays(s, t, a.session, identity);
    case Rereading(identity) => HeldStays(s, t, a.session, identity);
    case Succeeded(identity) => HeldStays(s, t, a.session, identity);
    case _ =>
  }

  /** The identity that the query answers with is right. */
  lemma ResolvedHeld(s: State, session: nat, read: Session)
    requires session in s.sessions && read.subject == s.sessions[session].subject && Resolve(s, read).Some?
    ensures Held(s, session, Resolve(s, read).value)
  {
    assert Matches(s, read, Resolve(s, read).value.user);
  }

  lemma AdvanceSound(s: State, i: nat)
    requires i < |s.auths| && Sound(s, s.auths[i])
    ensures Sound(AdvanceStep(s, i), AdvanceStep(s, i).auths[i])
  {
    AdvanceGrows(s, i);
    var t := AdvanceStep(s, i);
    match s.auths[i].phase
    case Resolving(read) =>
      if Resolve(s, read).Some? {
        ResolvedHeld(s, s.auths[i].session, read);
        hide Resolve;
        HeldStays(s, t, s.auths[i].session, Resolve(s, read).value);
      }
    case Binding(identity) => HeldStays(s, t, s.auths[i].session, identity);
    case Rereading(identity) => HeldStays(s, t, s.auths[i].session, identity);
    case _ =>
  }

  lemma OnlyAdvanceMoves(s: State, a: Action, i: nat)
    requires i < |Step(s, a).auths| && !(a.Advance? && a.auth == i)
    ensures var phase := Step(s, a).auths[i].phase;
            if i < |s.auths| then Step(s, a).auths[i] == s.auths[i] || phase.Revoking? else phase.Reading?
  {
    hide Resolve;
  }

  lemma AuthKeeps(s: State, a: Action, i: nat)
    requires Valid(s) && i < |Step(s, a).auths|
    ensures Sound(Step(s, a), Step(s, a).auths[i])
  {
    StepGrows(s, a);
    if a.Advance? && a.auth == i && i < |s.auths| {
      AdvanceSound(s, i);
    } else {
      OnlyAdvanceMoves(s, a, i);
      hide Step;
      if i < |s.auths| && Step(s, a).auths[i] == s.auths[i] { SoundStays(s, Step(s, a), s.auths[i]); }
    }
  }

  lemma StepKeeps(s: State, a: Action)
    requires Valid(s)
    ensures Valid(Step(s, a))
  {
    hide Step, Sound;
    forall i | 0 <= i < |Step(s, a).auths| ensures Sound(Step(s, a), Step(s, a).auths[i]) { AuthKeeps(s, a, i); }
  }

  lemma {:induction false} PlayKeeps(s: State, actions: seq<Action>)
    requires Valid(s)
    ensures Valid(Play(s, actions))
    decreases |actions|
  {
    hide Step, Valid;
    if actions != [] {
      StepKeeps(s, actions[0]);
      PlayKeeps(Step(s, actions[0]), actions[1..]);
    }
  }

  /** In every run, a successful authentication is on a session bound to exactly the organization and access version it
    * resolved, as a user of that organization with the session's subject; and two successes on one session resolved
    * the same pair. */
  lemma SuccessIsBound(actions: seq<Action>, i: nat, j: nat)
    requires var s := Play(EMPTY, actions);
             i < |s.auths| && j < |s.auths| && s.auths[i].phase.Succeeded? && s.auths[j].phase.Succeeded?
    ensures var s := Play(EMPTY, actions);
            var a, b := s.auths[i], s.auths[j];
            && Held(s, a.session, a.phase.identity) && s.sessions[a.session].access == Some(a.phase.identity.access)
            && (a.session == b.session ==> a.phase.identity.access == b.phase.identity.access)
  {
    hide Step, Held;
    PlayKeeps(EMPTY, actions);
    var s := Play(EMPTY, actions);
    assert Sound(s, s.auths[i]);
    assert Sound(s, s.auths[j]);
  }

  // ---------- Where an identity comes from ----------

  function IdentityHeld(phase: Phase): Option<Identity>
  {
    match phase
    case Binding(identity) => Some(identity)
    case Rereading(identity) => Some(identity)
    case Succeeded(identity) => Some(identity)
    case _ => None
  }

  /** In this state the authentication is about to run the query, and the query answers with the identity: the one
    * undeleted user with the session's subject that has an active membership in an undeleted organization, at the
    * membership's version. */
  ghost predicate Resolves(s: State, i: nat, identity: Identity)
  {
    && i < |s.auths| && s.auths[i].phase.Resolving?
    && var session, u, org := s.auths[i].phase.session, identity.user, identity.access.org;
       && (forall w :: Matches(s, session, w) <==> w == u)
       && u in s.users && s.users[u].org == org && (org, u) in s.members
       && s.members[(org, u)] == Membership(true, identity.access.version)
  }

  lemma AdvanceResolves(s: State, i: nat, identity: Identity)
    requires i < |s.auths| && s.auths[i].phase.Resolving?
             && IdentityHeld(AdvanceStep(s, i).auths[i].phase) == Some(identity)
    ensures Resolves(s, i, identity)
  {
    var session := s.auths[i].phase.session;
    assert Resolve(s, session) == Some(identity);
  }

  /** An authentication comes to hold an identity only by its own resolving step, and then keeps that identity. */
  lemma IdentityFromResolving(s: State, a: Action, i: nat, identity: Identity)
    requires i < |Step(s, a).auths| && IdentityHeld(Step(s, a).auths[i].phase) == Some(identity)
    ensures (a == Advance(i) && Resolves(s, i, identity))
            || (i < |s.auths| && IdentityHeld(s.auths[i].phase) == Some(identity))
  {
    hide Resolve, Matches;
    if a.Advance? && a.auth == i && i < |s.auths| {
      if s.auths[i].phase.Resolving? { AdvanceResolves(s, i, identity); }
    } else {
      OnlyAdvanceMoves(s, a, i);
    }
  }

  lemma PlayLast(s: State, actions: seq<Action>)
    requires actions != []
    ensures Play(s, actions) == Step(Play(s, actions[..|actions| - 1]), actions[|actions| - 1])
    decreases |actions|
  {
    hide Step;
    if |actions| > 1 {
      PlayLast(Step(s, actions[0]), actions[1..]);
      assert actions[1..][..|actions| - 2] == actions[..|actions| - 1][1..];
    } else {
      assert actions[1..] == [] && actions[..0] == [];
    }
  }

  /** The `k`th action of the run resolves the identity. */
  ghost predicate ResolvedBy(actions: seq<Action>, k: nat, i: nat, identity: Identity)
  {
    k < |actions| && actions[k] == Advance(i) && Resolves(Play(EMPTY, actions[..k]), i, identity)
  }

  /** In every run, whoever holds an identity, and so whoever succeeds, has at some moment of the run been about to
    * resolve, found exactly one active membership of a user with the session's subject, at exactly the version the
    * identity carries, and taken the identity from it. */
  lemma {:induction false} SuccessWasResolved(actions: seq<Action>, i: nat, identity: Identity)
    requires i < |Play(EMPTY, actions).auths| && IdentityHeld(Play(EMPTY, actions).auths[i].phase) == Some(identity)
    ensures exists k: nat :: ResolvedBy(actions, k, i, identity)
    decreases |actions|
  {
    hide Step, Resolves, IdentityHeld;
    if actions != [] {
      var front, last := actions[..|actions| - 1], actions[|actions| - 1];
      PlayLast(EMPTY, actions);
      IdentityFromResolving(Play(EMPTY, front), last, i, identity);
      if last == Advance(i) && Resolves(Play(EMPTY, front), i, identity) {
        assert ResolvedBy(actions, |front|, i, identity);
      } else {
        SuccessWasResolved(front, i, identity);
        var k: nat :| ResolvedBy(front, k, i, identity);
        assert front[..k] == actions[..k];
        assert ResolvedBy(actions, k, i, identity);
      }
    }
  }

  /** An authentication on a live session, undisturbed, succeeds exactly when one membership answers the query: three
    * statements bind a fresh session, two check a bound one. */
  lemma UndisturbedSucceeds(s: State, i: nat, id: nat)
    requires i < |s.auths| && s.auths[i] == Auth(id, Reading) && Alive(s, id)
    ensures var session := s.sessions[id];
            var identity := Resolve(s, session);
            var resolved := AdvanceStep(AdvanceStep(s, i), i);
            if identity.None? then resolved.auths[i].phase == Revoking
            else if session.access.Some? then resolved.auths[i].phase == Succeeded(identity.value)
            else
              && resolved.auths[i].phase == Binding(identity.value)
              && AdvanceStep(resolved, i).auths[i].phase == Succeeded(identity.value)
              && AdvanceStep(resolved, i).sessions[id].access == Some(identity.value.access)
  {
    var session, read := s.sessions[id], AdvanceStep(s, i);
    assert read.auths[i].phase == Resolving(session);
    SameTables(s, read, session);
    var identity := Resolve(s, session);
    if identity.Some? && session.access.Some? {
      assert Matches(s, session, identity.value.user);
    }
  }

  lemma SameTables(s: State, t: State, session: Session)
    requires t == s.(auths := t.auths)
    ensures Resolve(s, session) == Resolve(t, session)
  {
    assert forall u :: Matches(s, session, u) <==> Matches(t, session, u);
    if Resolve(s, session).Some? {
      var u := Resolve(s, session).value.user;
      assert Matches(t, session, u) && forall w :: Matches(t, session, w) ==> w == u;
      assert Resolve(t, session).value.user == u;
    }
  }

  // ---------- No success after a change ----------

  predicate Same(a: UserRow, b: UserRow) { a.subject.Some? && a.subject == b.subject && a.org == b.org }

  /** Within an organization a subject belongs to one user. */
  ghost predicate OneUser(s: State)
  {
    forall u, w :: u in s.users && w in s.users && Same(s.users[u], s.users[w]) ==> u == w
  }

  lemma StepOneUser(s: State, a: Action)
    requires OneUser(s)
    ensures OneUser(Step(s, a))
  {
    hide Resolve;
  }

  lemma {:induction false} PlayOneUser(s: State, actions: seq<Action>)
    requires OneUser(s)
    ensures OneUser(Play(s, actions))
    decreases |actions|
  {
    hide Step, OneUser;
    if actions != [] {
      StepOneUser(s, actions[0]);
      PlayOneUser(Step(s, actions[0]), actions[1..]);
    }
  }

  /** The session is bound to a version the membership has left behind, and the authentication, if it holds an
    * identity of that user at all, resolved it later. */
  ghost predicate Outdated(s: State, i: nat, id: nat, u: nat, access: Access)
  {
    && id in s.sessions && s.sessions[id].access == Some(access) && Version(s, access.org, u) > access.version
    && (i < |s.auths| ==> s.auths[i].session == id && Late(s.auths[i].phase, u, access))
  }

  predicate Late(phase: Phase, u: nat, access: Access)
  {
    match phase
    case Binding(identity) => identity.user == u ==> identity.access != access
    case Rereading(identity) => identity.user == u ==> identity.access != access
    case Succeeded(identity) => identity.user != u
    case _ => true
  }

  lemma LateKept(s: State, i: nat, id: nat, u: nat, access: Access)
    requires Outdated(s, i, id, u, access) && i < |s.auths| && Sound(s, s.auths[i])
    ensures Late(AdvanceStep(s, i).auths[i].phase, u, access)
  {
    match s.auths[i].phase
    case Resolving(read) =>
      if Resolve(s, read).Some? { assert Matches(s, read, Resolve(s, read).value.user); }
    case _ => hide Resolve;
  }

  lemma OutdatedKept(s: State, a: Action, i: nat, id: nat, u: nat, access: Access)
    requires Outdated(s, i, id, u, access) && Valid(s) && (a.Begin? && |s.auths| == i ==> a.id == id)
    ensures Outdated(Step(s, a), i, id, u, access)
  {
    StepGrows(s, a);
    assert Version(s, access.org, u) <= Version(Step(s, a), access.org, u);
    if a.Advance? && a.auth == i && i < |s.auths| {
      assert Sound(s, s.auths[i]);
      LateKept(s, i, id, u, access);
    } else if i < |Step(s, a).auths| {
      OnlyAdvanceMoves(s, a, i);
      BeganAs(s, a, i, Step(s, a));
    }
    hide Step, AdvanceStep;
  }

  lemma {:induction false} OutdatedStays(s: State, actions: seq<Action>, i: nat, id: nat, u: nat, access: Access)
    requires Outdated(s, i, id, u, access) && Valid(s)
    requires i < |Play(s, actions).auths| ==> Play(s, actions).auths[i].session == id
    ensures Outdated(Play(s, actions), i, id, u, access)
    decreases |actions|
  {
    hide Step, Valid, Outdated;
    if actions != [] {
      var next := Step(s, actions[0]);
      PlayGrows(next, actions[1..]);
      BeganAs(s, actions[0], i, next);
      OutdatedKept(s, actions[0], i, id, u, access);
      StepKeeps(s, actions[0]);
      OutdatedStays(next, actions[1..], i, id, u, access);
    }
  }

  lemma BeganAs(s: State, a: Action, i: nat, next: State)
    requires next == Step(s, a)
    ensures a.Begin? && |s.auths| == i ==> i < |next.auths| && next.auths[i].session == a.id
    ensures |s.auths| <= i < |next.auths| ==> a.Begin? && |s.auths| == i
  {
    hide Resolve;
  }

  /** Once the membership that a session is bound to has been revoked or changed, no authentication that resolves from
    * then on succeeds on that session at all, however steps interleave. */
  lemma NoSuccessAfterChange(before: seq<Action>, after: seq<Action>, i: nat, id: nat, u: nat, access: Access)
    requires var s := Play(EMPTY, before);
             && id in s.sessions && s.sessions[id].access == Some(access) && Version(s, access.org, u) > access.version
             && u in s.users && s.users[u].subject == Some(s.sessions[id].subject) && s.users[u].org == access.org
             && (i < |s.auths| ==> s.auths[i].session == id
                                   && (s.auths[i].phase.Reading? || s.auths[i].phase.Resolving?))
    requires var t := Play(Play(EMPTY, before), after); i < |t.auths| && t.auths[i].session == id
    ensures !Play(Play(EMPTY, before), after).auths[i].phase.Succeeded?
  {
    hide Step;
    PlayKeeps(EMPTY, before);
    var s, t := Play(EMPTY, before), Play(Play(EMPTY, before), after);
    OutdatedStays(s, after, i, id, u, access);
    PlayKeeps(s, after);
    PlayOneUser(EMPTY, before);
    PlayOneUser(s, after);
    PlayGrows(s, after);
    assert Sound(t, t.auths[i]);
  }

  /** A session that has ended never authenticates again: whoever has not read it by then fails. */
  ghost predicate Ended(s: State, i: nat, id: nat)
  {
    && id in s.sessions && !s.sessions[id].alive
    && (i < |s.auths| ==> s.auths[i].session == id && (s.auths[i].phase.Reading? || s.auths[i].phase.Failed?))
  }

  lemma EndedKept(s: State, a: Action, i: nat, id: nat)
    requires Ended(s, i, id) && (a.Begin? && |s.auths| == i ==> a.id == id)
    ensures Ended(Step(s, a), i, id)
  {
  }

  lemma {:induction false} EndedFails(s: State, actions: seq<Action>, i: nat, id: nat)
    requires Ended(s, i, id) && (i < |Play(s, actions).auths| ==> Play(s, actions).auths[i].session == id)
    ensures Ended(Play(s, actions), i, id)
    decreases |actions|
  {
    hide Step, Ended;
    if actions != [] {
      var next := Step(s, actions[0]);
      PlayGrows(next, actions[1..]);
      BeganAs(s, actions[0], i, next);
      EndedKept(s, actions[0], i, id);
      EndedFails(next, actions[1..], i, id);
    }
  }
}
