/** Group records and how users belong to them (internal/signal/groups.go, groups_accept.go). */
module Groups {
  import opened Wrappers
  import opened Seqs

  /** An identity field: empty, text that is no UUID, or the canonical text of a UUID. */
  datatype Id = NoId | BadId(text: string) | Canonical(uuid: Uuid)

  /** The typed identities of a user; number and username play no part in groups. */
  datatype Recipient = Recipient(aci: Id, pni: Id)

  datatype Role = RoleUnknown | RoleMember | RoleAdmin

  datatype Membership = NotInGroup | FullMember | Invited | Requesting

  datatype Member = Member(recipient: Recipient, role: Role)
  datatype Invitation = Invitation(recipient: Recipient, role: Role)
  datatype JoinRequest = JoinRequest(recipient: Recipient)
  datatype Ban = Ban(recipient: Recipient, bannedAt: nat)

  const MAX_UINT32: nat := 0xFFFF_FFFF

  datatype Group = Group(
    members: seq<Member>, pending: seq<Invitation>, requesting: seq<JoinRequest>, banned: seq<Ban>,
    revision: nat, membersCanAdd: bool, membership: Membership, role: Role)

  datatype GroupError =
    | NotAMember | LastAdmin | InvalidPromotion | GroupPermission | InvalidGroupMember
    | Unresolvable | UnknownGroup | InvalidResponse | InvitationNotFound

  function Aci(id: Id): Recipient {
    Recipient(id, NoId)
  }

  function Pni(id: Id): Recipient {
    Recipient(NoId, id)
  }

  /** The UUID of an identity; anything that isn't one is the nil UUID. */
  function Identity(id: Id): Uuid {
    if id.Canonical? then id.uuid else NIL_UUID
  }

  /** Whether recipient, which must have one typed identity, is that identity of self. */
  predicate SelfMatches(recipient: Recipient, self: Recipient) {
    if recipient.aci != NoId && recipient.pni == NoId then
      Identity(self.aci) != NIL_UUID && Identity(recipient.aci) == Identity(self.aci)
    else if recipient.pni != NoId && recipient.aci == NoId then
      Identity(self.pni) != NIL_UUID && Identity(recipient.pni) == Identity(self.pni)
    else false
  }

  // ----- Membership -----

  function HasAci(aci: Id): Member -> bool {
    (m: Member) => m.recipient.aci == aci
  }

  function InvitesAci(aci: Id): Invitation -> bool {
    (p: Invitation) => p.recipient.aci == aci
  }

  function RequestsAci(aci: Id): JoinRequest -> bool {
    (q: JoinRequest) => q.recipient.aci == aci
  }

  /** How the user with the ACI belongs to the group, and their (offered) role. */
  function MembershipOf(g: Group, aci: Id): (Membership, Role) {
    var m := IndexOf(g.members, HasAci(aci));
    var p := IndexOf(g.pending, InvitesAci(aci));
    if aci == NoId then (NotInGroup, RoleUnknown)
    else if m < |g.members| then (FullMember, g.members[m].role)
    else if p < |g.pending| then (Invited, g.pending[p].role)
    else if IndexOf(g.requesting, RequestsAci(aci)) < |g.requesting| then (Requesting, RoleUnknown)
    else (NotInGroup, RoleUnknown)
  }

  function InvitesSelf(self: Recipient): Invitation -> bool {
    (p: Invitation) => SelfMatches(p.recipient, self)
  }

  /** Own membership: full by ACI, invited by ACI or else PNI, or requesting by ACI. */
  function SelfMembership(g: Group, self: Recipient): (Membership, Role) {
    if Identity(self.aci) == NIL_UUID then (NotInGroup, RoleUnknown)
    else
      var plain := MembershipOf(g.(pending := []), Canonical(Identity(self.aci)));
      var byAci := IndexOf(g.pending, InvitesSelf(Aci(self.aci)));
      var byPni := IndexOf(g.pending, InvitesSelf(Pni(self.pni)));
      if plain.0 == FullMember then plain
      else if byAci < |g.pending| then (Invited, g.pending[byAci].role)
      else if byPni < |g.pending| then (Invited, g.pending[byPni].role)
      else plain
  }

  function AdminCount(members: seq<Member>): nat {
    if members == [] then 0
    else AdminCount(members[..|members| - 1]) + if members[|members| - 1].role == RoleAdmin then 1 else 0
  }

  lemma {:induction false} AdminCountPositive(members: seq<Member>)
    ensures AdminCount(members) > 0 <==> exists m :: m in members && m.role == RoleAdmin
  {
    if members != [] {
      AdminCountPositive(members[..|members| - 1]);
      assert members == members[..|members| - 1] + [members[|members| - 1]];
    }
  }

  method Admins(members: seq<Member>) returns (admins: nat)
    ensures admins == AdminCount(members)
  {
    admins := 0;
    for i := 0 to |members|
      invariant admins == AdminCount(members[..i])
    {
      assert members[..i + 1][..i] == members[..i];
      if members[i].role == RoleAdmin {
        admins := admins + 1;
      }
    }
    assert members[..|members|] == members;
  }

  // ----- Accepting and declining invitations -----

  predicate KnownRole(role: Role) {
    role == RoleMember || role == RoleAdmin
  }

  function OwnAciInvitations(pending: seq<Invitation>, self: Recipient): nat {
    if pending == [] then 0
    else
      var last := pending[|pending| - 1].recipient;
      OwnAciInvitations(pending[..|pending| - 1], self) + if SelfMatches(last, self) && last.aci != NoId then 1 else 0
  }

  function OwnPniInvitations(pending: seq<Invitation>, self: Recipient): nat {
    if pending == [] then 0
    else
      var last := pending[|pending| - 1].recipient;
      OwnPniInvitations(pending[..|pending| - 1], self) + if SelfMatches(last, self) && last.aci == NoId then 1 else 0
  }

  /** The identity under which the own invitation is accepted: ACI before PNI, None without one. */
  function PendingInvitation(g: Group, self: Recipient): Result<Option<Recipient>, GroupError> {
    if exists p :: p in g.pending && SelfMatches(p.recipient, self) && !KnownRole(p.role) then Err(InvalidResponse)
    else if OwnAciInvitations(g.pending, self) > 1 || OwnPniInvitations(g.pending, self) > 1 then Err(InvalidResponse)
    else if OwnAciInvitations(g.pending, self) == 1 then Ok(Some(Aci(Canonical(Identity(self.aci)))))
    else if OwnPniInvitations(g.pending, self) == 1 then Ok(Some(Pni(Canonical(Identity(self.pni)))))
    else Ok(None)
  }

  method PendingAcceptInvitation(g: Group, self: Recipient) returns (r: Result<Option<Recipient>, GroupError>)
    ensures r == PendingInvitation(g, self)
  {
    var aci: Option<Recipient>, pni: Option<Recipient> := None, None;
    var aciCount, pniCount := 0, 0;
    for i := 0 to |g.pending|
      invariant aciCount == OwnAciInvitations(g.pending[..i], self)
      invariant pniCount == OwnPniInvitations(g.pending[..i], self)
      invariant aci == if aciCount > 0 then Some(Aci(Canonical(Identity(self.aci)))) else None
      invariant pni == if pniCount > 0 then Some(Pni(Canonical(Identity(self.pni)))) else None
      invariant forall p :: p in g.pending[..i] && SelfMatches(p.recipient, self) ==> KnownRole(p.role)
    {
      assert g.pending[..i + 1][..i] == g.pending[..i];
      assert g.pending[..i + 1] == g.pending[..i] + [g.pending[i]];
      var pending := g.pending[i];
      if !SelfMatches(pending.recipient, self) {
        continue;
      }
      if !KnownRole(pending.role) {
        assert pending in g.pending;
        return Err(InvalidResponse);
      }
      if pending.recipient.aci != NoId {
        aci := Some(Aci(Canonical(Identity(self.aci))));
        aciCount := aciCount + 1;
      } else {
        pni := Some(Pni(Canonical(Identity(self.pni))));
        pniCount := pniCount + 1;
      }
    }
    assert g.pending[..|g.pending|] == g.pending;
    if aciCount > 1 || pniCount > 1 {
      return Err(InvalidResponse);
    }
    r := Ok(if aciCount == 1 then aci else pni);
  }

  /** What accepting means for a group: nothing to do (None) or the identity to accept with. */
  function AcceptDecision(g: Group, self: Recipient): Result<Option<Recipient>, GroupError> {
    var own := Identity(self.aci);
    if own == NIL_UUID then Err(InvalidResponse)
    else if exists m :: m in g.members && Identity(m.recipient.aci) == own then Ok(None)
    else
      var invited := PendingInvitation(g, self);
      if invited.Err? then invited
      else if exists b :: b in g.banned && SelfMatches(b.recipient, self) then Err(InvalidResponse)
      else if invited.value.None? then Err(InvitationNotFound)
      else if exists q :: q in g.requesting && SelfMatches(q.recipient, self) then Err(InvalidResponse)
      else if g.revision == MAX_UINT32 then Err(InvalidResponse)
      else invited
  }

  method CheckAcceptInvitation(g: Group, self: Recipient) returns (r: Result<Option<Recipient>, GroupError>)
    ensures r == AcceptDecision(g, self)
  {
    var own := Identity(self.aci);
    if own == NIL_UUID {
      return Err(InvalidResponse);
    }
    for i := 0 to |g.members|
      invariant forall k :: 0 <= k < i ==> Identity(g.members[k].recipient.aci) != own
    {
      if Identity(g.members[i].recipient.aci) == own {
        assert g.members[i] in g.members;
        return Ok(None);
      }
    }
    var invited := PendingAcceptInvitation(g, self);
    if invited.Err? {
      return invited;
    }
    for i := 0 to |g.banned|
      invariant forall k :: 0 <= k < i ==> !SelfMatches(g.banned[k].recipient, self)
    {
      if SelfMatches(g.banned[i].recipient, self) {
        assert g.banned[i] in g.banned;
        return Err(InvalidResponse);
      }
    }
    if invited.value.None? {
      return Err(InvitationNotFound);
    }
    for i := 0 to |g.requesting|
      invariant forall k :: 0 <= k < i ==> !SelfMatches(g.requesting[k].recipient, self)
    {
      if SelfMatches(g.requesting[i].recipient, self) {
        assert g.requesting[i] in g.requesting;
        return Err(InvalidResponse);
      }
    }
    if g.revision == MAX_UINT32 {
      return Err(InvalidResponse);
    }
    r := invited;
  }

  lemma {:induction false} OwnAciCounts(pending: seq<Invitation>, self: Recipient)
    ensures OwnAciInvitations(pending, self) > 0
            <==> exists i :: 0 <= i < |pending| && SelfMatches(pending[i].recipient, Aci(self.aci))
    ensures OwnAciInvitations(pending, self) <= 1 ==>
              forall i, j :: 0 <= i < j < |pending| && SelfMatches(pending[i].recipient, Aci(self.aci))
                ==> !SelfMatches(pending[j].recipient, Aci(self.aci))
  {
    if pending != [] {
      var front, last := pending[..|pending| - 1], pending[|pending| - 1];
      OwnAciCounts(front, self);
      assert forall k :: 0 <= k < |front| ==> front[k] == pending[k];
      assert SelfMatches(last.recipient, self) && last.recipient.aci != NoId <==> SelfMatches(last.recipient, Aci(self.aci));
      if i :| 0 <= i < |front| && SelfMatches(front[i].recipient, Aci(self.aci)) { assert pending[i] == front[i]; }
      if SelfMatches(last.recipient, Aci(self.aci)) { assert pending[|front|] == last; }
    }
  }

  lemma {:induction false} OwnPniCounts(pending: seq<Invitation>, self: Recipient)
    ensures OwnPniInvitations(pending, self) > 0
            <==> exists i :: 0 <= i < |pending| && SelfMatches(pending[i].recipient, Pni(self.pni))
    ensures OwnPniInvitations(pending, self) <= 1 ==>
              forall i, j :: 0 <= i < j < |pending| && SelfMatches(pending[i].recipient, Pni(self.pni))
                ==> !SelfMatches(pending[j].recipient, Pni(self.pni))
  {
    if pending != [] {
      var front, last := pending[..|pending| - 1], pending[|pending| - 1];
      OwnPniCounts(front, self);
      assert forall k :: 0 <= k < |front| ==> front[k] == pending[k];
      assert SelfMatches(last.recipient, self) && last.recipient.aci == NoId <==> SelfMatches(last.recipient, Pni(self.pni));
      if i :| 0 <= i < |front| && SelfMatches(front[i].recipient, Pni(self.pni)) { assert pending[i] == front[i]; }
      if SelfMatches(last.recipient, Pni(self.pni)) { assert pending[|front|] == last; }
    }
  }

  /** Accepting is a no-op exactly for a full member. */
  lemma NoOpIffFullMember(g: Group, self: Recipient)
    ensures AcceptDecision(g, self) == Ok(None) <==> SelfMembership(g, self).0 == FullMember
  {
    var own := Canonical(Identity(self.aci));
    var index := IndexOf(g.members, HasAci(own));
    if index < |g.members| {
      assert g.members[index] in g.members;
    }
    if m :| m in g.members && Identity(m.recipient.aci) == Identity(self.aci) && Identity(self.aci) != NIL_UUID {
      assert HasAci(own)(m);
    }
  }

  /** The role SelfMembership reports for someone who is no full member and has an own invitation. */
  lemma OwnInvitationRole(g: Group, self: Recipient, i: nat)
    requires i < |g.pending| && Identity(self.aci) != NIL_UUID && SelfMembership(g, self).0 != FullMember
    requires if SelfMatches(g.pending[i].recipient, Aci(self.aci))
             then forall k :: 0 <= k < i ==> !SelfMatches(g.pending[k].recipient, Aci(self.aci))
             else SelfMatches(g.pending[i].recipient, Pni(self.pni))
                  && (forall k :: 0 <= k < i ==> !SelfMatches(g.pending[k].recipient, Pni(self.pni)))
                  && (forall k :: 0 <= k < |g.pending| ==> !SelfMatches(g.pending[k].recipient, Aci(self.aci)))
    ensures SelfMembership(g, self) == (Invited, g.pending[i].role)
  {
    var byAci := IndexOf(g.pending, InvitesSelf(Aci(self.aci)));
    var byPni := IndexOf(g.pending, InvitesSelf(Pni(self.pni)));
    if SelfMatches(g.pending[i].recipient, Aci(self.aci)) {
      assert InvitesSelf(Aci(self.aci))(g.pending[i]);
      assert byAci == i;
    } else {
      assert InvitesSelf(Pni(self.pni))(g.pending[i]);
      assert byPni == i;
    }
  }

  /** When an identity is returned: the ACI with one invitation of it, or the PNI with one of it only. */
  lemma DecidedIdentity(g: Group, self: Recipient)
    requires AcceptDecision(g, self).Ok? && AcceptDecision(g, self).value.Some?
    ensures Identity(self.aci) != NIL_UUID && AcceptDecision(g, self) != Ok(None)
    ensures var identity := AcceptDecision(g, self).value.value;
            || (identity == Aci(Canonical(Identity(self.aci))) && OwnAciInvitations(g.pending, self) == 1)
            || (identity == Pni(Canonical(Identity(self.pni)))
                && OwnAciInvitations(g.pending, self) == 0 && OwnPniInvitations(g.pending, self) == 1)
  {
  }

  lemma CanonicalMatches(entry: Recipient, self: Recipient)
    ensures SelfMatches(entry, Aci(Canonical(Identity(self.aci)))) <==> SelfMatches(entry, Aci(self.aci))
    ensures SelfMatches(entry, Pni(Canonical(Identity(self.pni)))) <==> SelfMatches(entry, Pni(self.pni))
  {
  }

  predicate Usable(id: Id) {
    id.Canonical? && id.uuid != NIL_UUID
  }

  /** An entry is an own one if it has a usable own ACI, or PNI, and nothing else. */
  predicate IsOwn(entry: Recipient, self: Recipient) {
    (Usable(self.aci) && entry == Aci(self.aci)) || (Usable(self.pni) && entry == Pni(self.pni))
  }

  lemma SelfMatchesMeaning(entry: Recipient, self: Recipient)
    ensures SelfMatches(entry, self) <==> IsOwn(entry, self)
  {
  }

  predicate InvitedByAci(g: Group, self: Recipient, i: int) {
    0 <= i < |g.pending| && Usable(self.aci) && g.pending[i].recipient == Aci(self.aci)
  }

  predicate InvitedByPni(g: Group, self: Recipient, i: int) {
    0 <= i < |g.pending| && Usable(self.pni) && g.pending[i].recipient == Pni(self.pni)
  }

  /** The own invitations contradict each other, or offer no role. */
  ghost predicate Contradictory(g: Group, self: Recipient) {
    || (exists i, j :: i < j && InvitedByAci(g, self, i) && InvitedByAci(g, self, j))
    || (exists i, j :: i < j && InvitedByPni(g, self, i) && InvitedByPni(g, self, j))
    || exists i :: (InvitedByAci(g, self, i) || InvitedByPni(g, self, i)) && g.pending[i].role == RoleUnknown
  }

  lemma {:induction false} TwoByAci(g: Group, self: Recipient, n: nat)
    requires n <= |g.pending|
    ensures OwnAciInvitations(g.pending[..n], self) > 0 <==> exists i :: i < n && InvitedByAci(g, self, i)
    ensures OwnAciInvitations(g.pending[..n], self) > 1 <==> exists i, j :: i < j < n && InvitedByAci(g, self, i) && InvitedByAci(g, self, j)
  {
    if n > 0 {
      TwoByAci(g, self, n - 1);
      assert g.pending[..n][..n - 1] == g.pending[..n - 1];
      SelfMatchesMeaning(g.pending[n - 1].recipient, self);
      if InvitedByAci(g, self, n - 1) {
        assert exists i :: i < n && InvitedByAci(g, self, i);
        if i :| i < n - 1 && InvitedByAci(g, self, i) { assert i < n - 1 < n; }
      }
    }
  }

  lemma {:induction false} TwoByPni(g: Group, self: Recipient, n: nat)
    requires n <= |g.pending|
    ensures OwnPniInvitations(g.pending[..n], self) > 0 <==> exists i :: i < n && InvitedByPni(g, self, i)
    ensures OwnPniInvitations(g.pending[..n], self) > 1 <==> exists i, j :: i < j < n && InvitedByPni(g, self, i) && InvitedByPni(g, self, j)
  {
    if n > 0 {
      TwoByPni(g, self, n - 1);
      assert g.pending[..n][..n - 1] == g.pending[..n - 1];
      SelfMatchesMeaning(g.pending[n - 1].recipient, self);
      if InvitedByPni(g, self, n - 1) {
        assert exists i :: i < n && InvitedByPni(g, self, i);
        if i :| i < n - 1 && InvitedByPni(g, self, i) { assert i < n - 1 < n; }
      }
    }
  }

  lemma UnknownRoles(g: Group, self: Recipient)
    ensures (exists p :: p in g.pending && SelfMatches(p.recipient, self) && !KnownRole(p.role))
            <==> exists i :: (InvitedByAci(g, self, i) || InvitedByPni(g, self, i)) && g.pending[i].role == RoleUnknown
  {
    if p :| p in g.pending && SelfMatches(p.recipient, self) && !KnownRole(p.role) {
      var i :| 0 <= i < |g.pending| && g.pending[i] == p;
      SelfMatchesMeaning(p.recipient, self);
      assert InvitedByAci(g, self, i) || InvitedByPni(g, self, i);
    }
    if i :| (InvitedByAci(g, self, i) || InvitedByPni(g, self, i)) && g.pending[i].role == RoleUnknown {
      SelfMatchesMeaning(g.pending[i].recipient, self);
      assert g.pending[i] in g.pending;
    }
  }

  /** The invitation to accept: none, the one by ACI, else the one by PNI, unless the invitations contradict. */
  lemma PendingMeaning(g: Group, self: Recipient)
    ensures PendingInvitation(g, self) ==
            if Contradictory(g, self) then Err(InvalidResponse)
            else if exists i :: InvitedByAci(g, self, i) then Ok(Some(Aci(self.aci)))
            else if exists i :: InvitedByPni(g, self, i) then Ok(Some(Pni(self.pni)))
            else Ok(None)
  {
    TwoByAci(g, self, |g.pending|);
    TwoByPni(g, self, |g.pending|);
    assert g.pending[..|g.pending|] == g.pending;
    UnknownRoles(g, self);
  }

  /** Whether somebody with the own ACI is a full member, the own identities are banned, or the own ACI requests. */
  ghost predicate OwnMember(g: Group, self: Recipient) {
    exists m :: m in g.members && m.recipient.aci == self.aci
  }

  ghost predicate OwnBan(g: Group, self: Recipient) {
    exists b :: b in g.banned && IsOwn(b.recipient, self)
  }

  ghost predicate OwnRequest(g: Group, self: Recipient) {
    exists q :: q in g.requesting && IsOwn(q.recipient, self)
  }

  /** What accepting decides, by the entries of the group: a full member has nothing to do; somebody whose one
      invitation by ACI or PNI (or one of each) offers a role accepts with the ACI before the PNI, unless a ban,
      a request or the last revision forbids it; somebody without an invitation isn't invited. */
  lemma AcceptMeaning(g: Group, self: Recipient)
    ensures AcceptDecision(g, self) ==
            if !Usable(self.aci) then Err(InvalidResponse)
            else if OwnMember(g, self) then Ok(None)
            else if Contradictory(g, self) || OwnBan(g, self) then Err(InvalidResponse)
            else if !exists i :: InvitedByAci(g, self, i) || InvitedByPni(g, self, i) then Err(InvitationNotFound)
            else if OwnRequest(g, self) || g.revision == MAX_UINT32 then Err(InvalidResponse)
            else Ok(Some(if exists i :: InvitedByAci(g, self, i) then Aci(self.aci) else Pni(self.pni)))
  {
    PendingMeaning(g, self);
    forall b | b in g.banned ensures SelfMatches(b.recipient, self) <==> IsOwn(b.recipient, self) {
      SelfMatchesMeaning(b.recipient, self);
    }
    forall q | q in g.requesting ensures SelfMatches(q.recipient, self) <==> IsOwn(q.recipient, self) {
      SelfMatchesMeaning(q.recipient, self);
    }
    forall m | m in g.members && Usable(self.aci)
      ensures Identity(m.recipient.aci) == Identity(self.aci) <==> m.recipient.aci == self.aci
    {
    }
  }

  lemma PlainMembership(g: Group, aci: Id)
    requires aci != NoId
    ensures MembershipOf(g.(pending := []), aci).0 ==
            if exists m :: m in g.members && m.recipient.aci == aci then FullMember
            else if exists q :: q in g.requesting && q.recipient.aci == aci then Requesting
            else NotInGroup
  {
    var members := IndexOf(g.members, HasAci(aci));
    if m :| m in g.members && m.recipient.aci == aci { assert HasAci(aci)(m); }
    if members < |g.members| { assert g.members[members] in g.members; }
    var requests := IndexOf(g.requesting, RequestsAci(aci));
    if q :| q in g.requesting && q.recipient.aci == aci { assert RequestsAci(aci)(q); }
    if requests < |g.requesting| { assert g.requesting[requests] in g.requesting; }
  }

  /** Own membership by the entries of the group: full, invited by ACI, invited by PNI, requesting. */
  lemma SelfMembershipMeaning(g: Group, self: Recipient)
    ensures SelfMembership(g, self).0 ==
            if !Usable(self.aci) then NotInGroup
            else if OwnMember(g, self) then FullMember
            else if exists i :: InvitedByAci(g, self, i) || InvitedByPni(g, self, i) then Invited
            else if exists q :: q in g.requesting && q.recipient.aci == self.aci then Requesting
            else NotInGroup
  {
    if Usable(self.aci) {
      PlainMembership(g, self.aci);
      forall i | 0 <= i < |g.pending|
        ensures InvitesSelf(Aci(self.aci))(g.pending[i]) <==> InvitedByAci(g, self, i)
        ensures InvitesSelf(Pni(self.pni))(g.pending[i]) <==> InvitedByPni(g, self, i)
      {
        SelfMatchesMeaning(g.pending[i].recipient, Aci(self.aci));
        SelfMatchesMeaning(g.pending[i].recipient, Pni(self.pni));
      }
      var byAci, byPni := IndexOf(g.pending, InvitesSelf(Aci(self.aci))), IndexOf(g.pending, InvitesSelf(Pni(self.pni)));
      assert byAci < |g.pending| ==> InvitedByAci(g, self, byAci);
      assert byPni < |g.pending| ==> InvitedByPni(g, self, byPni);
    }
  }

  /** An identity is returned for accepting only to an invited user: it names exactly one invitation,
      whose role SelfMembership reports, and it is the PNI only without an invitation by ACI. */
  lemma AcceptedInvitation(g: Group, self: Recipient) returns (i: nat)
    requires AcceptDecision(g, self).Ok? && AcceptDecision(g, self).value.Some?
    ensures i < |g.pending| && SelfMatches(g.pending[i].recipient, AcceptDecision(g, self).value.value)
    ensures SelfMembership(g, self) == (Invited, g.pending[i].role)
    ensures forall k :: 0 <= k < |g.pending| && k != i
              ==> !SelfMatches(g.pending[k].recipient, AcceptDecision(g, self).value.value)
    ensures AcceptDecision(g, self).value.value.aci == NoId ==>
              forall k :: 0 <= k < |g.pending| ==> !SelfMatches(g.pending[k].recipient, Aci(self.aci))
  {
    NoOpIffFullMember(g, self);
    OwnAciCounts(g.pending, self);
    OwnPniCounts(g.pending, self);
    DecidedIdentity(g, self);
    forall k | 0 <= k < |g.pending|
      ensures SelfMatches(g.pending[k].recipient, AcceptDecision(g, self).value.value)
              <==> SelfMatches(g.pending[k].recipient, if OwnAciInvitations(g.pending, self) == 1 then Aci(self.aci) else Pni(self.pni))
    {
      CanonicalMatches(g.pending[k].recipient, self);
    }
    if OwnAciInvitations(g.pending, self) == 1 {
      i :| 0 <= i < |g.pending| && SelfMatches(g.pending[i].recipient, Aci(self.aci));
    } else {
      i :| 0 <= i < |g.pending| && SelfMatches(g.pending[i].recipient, Pni(self.pni));
    }
    OwnInvitationRole(g, self, i);
  }
}
