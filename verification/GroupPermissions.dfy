/** When membership changes succeed, by the entries of the group, and what leaving leaves
    (internal/signal/groups*.go, meow_groups.go). */
module GroupPermissions {
  import opened Wrappers
  import opened Seqs
  import opened Groups
  import opened GroupChanges
  import opened GroupRuns

  ghost predicate IsMember(g: Group, aci: Id) {
    exists m :: m in g.members && m.recipient.aci == aci
  }

  ghost predicate IsAdmin(g: Group, aci: Id) {
    exists m :: m in g.members && m.recipient.aci == aci && m.role == RoleAdmin
  }

  ghost predicate IsInvited(g: Group, aci: Id) {
    exists p :: p in g.pending && p.recipient.aci == aci
  }

  ghost predicate AsksToJoin(g: Group, aci: Id) {
    exists q :: q in g.requesting && q.recipient.aci == aci
  }

  predicate NamedUsable(members: seq<Recipient>) {
    members != [] && forall m :: m in members ==> Usable(m.aci)
  }

  /** Entries by ACI or PNI alone, and no ACI twice among the members. */
  predicate Sane(g: Group) {
    WellTyped(g) && UniqueMembers(g.members)
  }

  lemma MembershipByEntries(g: Group, aci: Id)
    requires Sane(g)
    ensures MembershipOf(g, aci).0 == FullMember <==> IsMember(g, aci)
    ensures MembershipOf(g, aci) == (FullMember, RoleAdmin) <==> IsAdmin(g, aci)
  {
    if aci != NoId {
      FoundMember(g, aci);
      if m :| m in g.members && m.recipient.aci == aci && m.role == RoleAdmin {
        UniqueIndex(g.members, m);
      }
    }
  }

  lemma OthersByEntries(g: Group, aci: Id)
    requires aci != NoId
    ensures MembershipOf(g, aci).0 == Invited <==> !IsMember(g, aci) && IsInvited(g, aci)
    ensures MembershipOf(g, aci).0 == Requesting <==> !IsMember(g, aci) && !IsInvited(g, aci) && AsksToJoin(g, aci)
  {
    FoundMember(g, aci);
    var p, q := IndexOf(g.pending, InvitesAci(aci)), IndexOf(g.requesting, RequestsAci(aci));
    if p < |g.pending| { assert g.pending[p] in g.pending; }
    if x :| x in g.pending && x.recipient.aci == aci { assert InvitesAci(aci)(x); }
    if q < |g.requesting| { assert g.requesting[q] in g.requesting; }
    if x :| x in g.requesting && x.recipient.aci == aci { assert RequestsAci(aci)(x); }
  }

  lemma NormalizedUsable(members: seq<Recipient>)
    ensures Normalized(members).Ok? <==> NamedUsable(members)
  {
  }

  // ----- Role changes -----

  /** Somebody is an administrator once the role is given. */
  ghost predicate AdminRemains(g: Group, members: seq<Recipient>, role: Role) {
    exists m :: m in g.members && (if NamesAci(members, m.recipient.aci) then role else m.role) == RoleAdmin
  }

  /** A role change succeeds exactly for an administrator who names full members, if an administrator remains and
      the revision can advance when it must. */
  lemma RoleChangeAllowed(g: Group, self: Id, members: seq<Recipient>, role: Role)
    requires Sane(g)
    ensures RoleChange(g, self, members, role).Ok? <==>
              && role != RoleUnknown && NamedUsable(members) && IsAdmin(g, self)
              && (forall t :: t in members ==> IsMember(g, t.aci)) && AdminRemains(g, members, role)
              && (g.revision != MAX_UINT32 || forall m :: m in g.members ==> !RoleDiffers(m, members, role))
  {
    NormalizedUsable(members);
    RoleChangeOk(g, self, members, role);
    if Normalized(members).Ok? {
      var targets := Normalized(members).value;
      MembershipByEntries(g, self);
      TargetsAreMembers(g, members);
      RolesByEntries(g, members, targets, role);
    }
  }

  lemma RoleChangeErr(g: Group, self: Id, members: seq<Recipient>, role: Role)
    requires RoleChange(g, self, members, role).Err?
    ensures RoleChange(g, self, members, role).error ==
            if !KnownRole(role) then InvalidGroupMember
            else if Normalized(members).Err? then Normalized(members).error
            else if MembershipOf(g, self).0 != FullMember then NotAMember
            else if MembershipOf(g, self).1 != RoleAdmin then GroupPermission
            else if exists t :: t in Normalized(members).value && MembershipOf(g, t.aci).0 != FullMember then InvalidGroupMember
            else if AdminCount(RolesSet(g.members, Normalized(members).value, role)) == 0 then LastAdmin
            else UnknownGroup
  {
  }

  /** Why a role change is refused, in the order of the checks. */
  lemma RoleChangeRefused(g: Group, self: Id, members: seq<Recipient>, role: Role)
    requires Sane(g) && RoleChange(g, self, members, role).Err?
    ensures RoleChange(g, self, members, role).error ==
            if role == RoleUnknown || members == [] then InvalidGroupMember
            else if !NamedUsable(members) then Unresolvable
            else if !IsMember(g, self) then NotAMember
            else if !IsAdmin(g, self) then GroupPermission
            else if exists t :: t in members && !IsMember(g, t.aci) then InvalidGroupMember
            else if !AdminRemains(g, members, role) then LastAdmin
            else UnknownGroup
  {
    RoleChangeErr(g, self, members, role);
    NormalizedUsable(members);
    if Normalized(members).Ok? {
      MembershipByEntries(g, self);
      TargetsAreMembers(g, members);
      RolesByEntries(g, members, Normalized(members).value, role);
    }
  }

  lemma RoleChangeOk(g: Group, self: Id, members: seq<Recipient>, role: Role)
    ensures RoleChange(g, self, members, role).Ok? <==>
              && KnownRole(role) && Normalized(members).Ok? && MembershipOf(g, self) == (FullMember, RoleAdmin)
              && (forall t :: t in Normalized(members).value ==> MembershipOf(g, t.aci).0 == FullMember)
              && var changed := RolesSet(g.members, Normalized(members).value, role);
                 AdminCount(changed) > 0 && (changed == g.members || g.revision != MAX_UINT32)
  {
  }

  lemma TargetsAreMembers(g: Group, members: seq<Recipient>)
    requires Sane(g) && Normalized(members).Ok?
    ensures (exists t :: t in Normalized(members).value && MembershipOf(g, t.aci).0 != FullMember)
            <==> exists t :: t in members && !IsMember(g, t.aci)
  {
    var targets := Normalized(members).value;
    if t :| t in targets && MembershipOf(g, t.aci).0 != FullMember {
      DistinctByAciSubset(members, t);
      MembershipByEntries(g, t.aci);
    }
    if t :| t in members && !IsMember(g, t.aci) {
      var d := DistinctByAciHas(members, t);
      MembershipByEntries(g, d.aci);
    }
  }

  lemma RolesAt(g: Group, members: seq<Recipient>, targets: seq<Recipient>, role: Role)
    requires Normalized(members) == Ok(targets)
    ensures var changed := RolesSet(g.members, targets, role);
            && |changed| == |g.members|
            && forall i :: 0 <= i < |g.members| ==>
                 changed[i] == if NamesAci(members, g.members[i].recipient.aci) then g.members[i].(role := role) else g.members[i]
  {
    forall i | 0 <= i < |g.members| { NormalizedNames(members, g.members[i].recipient.aci); }
  }

  lemma RolesByEntries(g: Group, members: seq<Recipient>, targets: seq<Recipient>, role: Role)
    requires Normalized(members) == Ok(targets)
    ensures AdminCount(RolesSet(g.members, targets, role)) > 0 <==> AdminRemains(g, members, role)
    ensures RolesSet(g.members, targets, role) != g.members <==> exists m :: m in g.members && RoleDiffers(m, members, role)
  {
    RolesAt(g, members, targets, role);
    AdminsByEntries(g, members, RolesSet(g.members, targets, role), role);
    var changed := RolesSet(g.members, targets, role);
    if m :| m in g.members && RoleDiffers(m, members, role) {
      var i :| 0 <= i < |g.members| && g.members[i] == m;
      assert changed[i] != g.members[i];
    } else {
      forall i | 0 <= i < |g.members| ensures changed[i] == g.members[i] { assert g.members[i] in g.members; }
    }
  }

  lemma AdminsByEntries(g: Group, members: seq<Recipient>, changed: seq<Member>, role: Role)
    requires |changed| == |g.members|
    requires forall i :: 0 <= i < |g.members| ==>
               changed[i] == if NamesAci(members, g.members[i].recipient.aci) then g.members[i].(role := role) else g.members[i]
    ensures AdminCount(changed) > 0 <==> AdminRemains(g, members, role)
  {
    AdminCountPositive(changed);
    if m :| m in changed && m.role == RoleAdmin {
      var i :| 0 <= i < |changed| && changed[i] == m;
      assert g.members[i] in g.members;
    }
    if m :| m in g.members && (if NamesAci(members, m.recipient.aci) then role else m.role) == RoleAdmin {
      var i :| 0 <= i < |g.members| && g.members[i] == m;
      assert changed[i] in changed;
    }
  }

  lemma MemberRole(g: Group, m: Member)
    requires UniqueMembers(g.members) && m in g.members && m.recipient.aci != NoId
    ensures MembershipOf(g, m.recipient.aci) == (FullMember, m.role)
  {
    UniqueIndex(g.members, m);
  }

  lemma RoleChangeOwn(g: Group, self: Id, members: seq<Recipient>, role: Role)
    requires RoleChange(g, self, members, role).Ok?
    ensures var next := RoleChange(g, self, members, role).value; (next.membership, next.role) == MembershipOf(next, self)
    ensures MembershipOf(g, self) == (FullMember, RoleAdmin)
  {
  }

  /** It reports the actor as a member with the role the actor has then. */
  lemma RoleChangeReports(g: Group, self: Id, members: seq<Recipient>, role: Role)
    requires Sane(g) && RoleChange(g, self, members, role).Ok?
    ensures var next := RoleChange(g, self, members, role).value;
            next.membership == FullMember && next.role == if NamesAci(members, self) then role else RoleAdmin
  {
    RoleChangeOwn(g, self, members, role);
    var i := AdminIndex(g, self);
    RoleChangeExact(g, self, members, role);
    RoleChangeGovernedMembers(g, self, members, role);
    RoleAt(RoleChange(g, self, members, role).value, i);
  }

  lemma AdminIndex(g: Group, self: Id) returns (i: nat)
    requires Sane(g) && MembershipOf(g, self) == (FullMember, RoleAdmin)
    ensures i < |g.members| && g.members[i].recipient.aci == self != NoId && g.members[i].role == RoleAdmin
  {
    MembershipByEntries(g, self);
    var m :| m in g.members && m.recipient.aci == self && m.role == RoleAdmin;
    i :| 0 <= i < |g.members| && g.members[i] == m;
  }

  lemma RoleChangeGovernedMembers(g: Group, self: Id, members: seq<Recipient>, role: Role)
    requires Sane(g) && RoleChange(g, self, members, role).Ok?
    ensures UniqueMembers(RoleChange(g, self, members, role).value.members)
  {
    RoleChangeShape(g, self, members, role);
    SameRecipients(g, RoleChange(g, self, members, role).value);
  }

  lemma RoleAt(g: Group, i: nat)
    requires UniqueMembers(g.members) && i < |g.members| && g.members[i].recipient.aci != NoId
    ensures MembershipOf(g, g.members[i].recipient.aci) == (FullMember, g.members[i].role)
  {
    MemberRole(g, g.members[i]);
  }

  // ----- Bans -----

  /** A ban or unban changes something. */
  ghost predicate BanChanges(g: Group, members: seq<Recipient>, ban: bool) {
    exists t :: t in members
      && if ban then !IsBanned(g.banned, t.aci) || IsMember(g, t.aci) || IsInvited(g, t.aci) || AsksToJoin(g, t.aci)
         else IsBanned(g.banned, t.aci)
  }

  lemma {:induction false} NoNewBans(banned: seq<Ban>, targets: seq<Recipient>, at: nat)
    requires forall t :: t in targets ==> t.aci != NoId
    ensures NewBans(banned, targets, at) != [] <==> exists t :: t in targets && !IsBanned(banned, t.aci)
  {
    if targets != [] {
      var front, last := targets[..|targets| - 1], targets[|targets| - 1];
      assert forall t :: t in targets <==> t in front || t == last;
      NoNewBans(banned, front, at);
    }
  }

  lemma FilterShorter<T>(s: seq<T>, p: T -> bool)
    ensures |Filter(s, p)| != |s| <==> exists x :: x in s && !p(x)
  {
    FilterContents(s, p);
    if forall x :: x in s ==> p(x) { FilterAll(s, p); }
  }

  lemma BanLengths(g: Group, members: seq<Recipient>, ban: bool, at: nat)
    requires Sane(g) && Normalized(members).Ok?
    ensures LengthsDiffer(g, BanApplied(g, Normalized(members).value, ban, at)) <==> BanChanges(g, members, ban)
  {
    var targets := Normalized(members).value;
    forall aci ensures NamesAci(targets, aci) <==> NamesAci(members, aci) { NormalizedNames(members, aci); }
    forall t | t in targets ensures t in members { DistinctByAciSubset(members, t); }
    forall t | t in members ensures NamesAci(targets, t.aci) { assert NamesAci(members, t.aci); }
    FilterShorter(g.members, KeepsMember(targets));
    FilterShorter(g.pending, KeepsInvitation(targets));
    FilterShorter(g.requesting, KeepsRequest(targets));
    FilterShorter(g.banned, KeepsBan(targets));
    NoNewBans(g.banned, targets, at);
    if ban {
      BanLengthsWhenBanning(g, members, targets, at);
    } else {
      BanLengthsWhenUnbanning(g, members, targets);
    }
  }

  lemma BanLengthsWhenUnbanning(g: Group, members: seq<Recipient>, targets: seq<Recipient>)
    requires forall aci :: NamesAci(targets, aci) <==> NamesAci(members, aci)
    ensures (exists b :: b in g.banned && !KeepsBan(targets)(b)) <==> BanChanges(g, members, false)
  {
    if b :| b in g.banned && !KeepsBan(targets)(b) {
      assert NamesAci(members, b.recipient.aci);
      var t :| t in members && t.aci == b.recipient.aci;
      assert IsBanned(g.banned, t.aci);
    }
    if t :| t in members && IsBanned(g.banned, t.aci) {
      assert NamesAci(members, t.aci);
      var b :| b in g.banned && b.recipient.aci != NoId && b.recipient.aci == t.aci;
      assert !KeepsBan(targets)(b);
    }
  }

  lemma BanLengthsWhenBanning(g: Group, members: seq<Recipient>, targets: seq<Recipient>, at: nat)
    requires forall aci :: NamesAci(targets, aci) <==> NamesAci(members, aci)
    requires forall t :: t in targets ==> t in members
    requires forall t :: t in members ==> t.aci != NoId
    ensures BanChanges(g, members, true) <==>
              || (exists m :: m in g.members && !KeepsMember(targets)(m))
              || (exists p :: p in g.pending && !KeepsInvitation(targets)(p))
              || (exists q :: q in g.requesting && !KeepsRequest(targets)(q))
              || (exists t :: t in targets && !IsBanned(g.banned, t.aci))
  {
    if t :| t in members && (!IsBanned(g.banned, t.aci) || IsMember(g, t.aci) || IsInvited(g, t.aci) || AsksToJoin(g, t.aci)) {
      assert NamesAci(members, t.aci);
      if !IsBanned(g.banned, t.aci) {
        var d :| d in targets && d.aci == t.aci;
        assert !IsBanned(g.banned, d.aci);
      } else if m :| m in g.members && m.recipient.aci == t.aci {
        assert !KeepsMember(targets)(m);
      } else if p :| p in g.pending && p.recipient.aci == t.aci {
        assert !KeepsInvitation(targets)(p);
      } else {
        var q :| q in g.requesting && q.recipient.aci == t.aci;
        assert !KeepsRequest(targets)(q);
      }
    }
    if m :| m in g.members && !KeepsMember(targets)(m) {
      assert NamesAci(members, m.recipient.aci);
      var t :| t in members && t.aci == m.recipient.aci;
      assert IsMember(g, t.aci);
    }
    if p :| p in g.pending && !KeepsInvitation(targets)(p) {
      assert NamesAci(members, p.recipient.aci);
      var t :| t in members && t.aci == p.recipient.aci;
      assert IsInvited(g, t.aci);
    }
    if q :| q in g.requesting && !KeepsRequest(targets)(q) {
      assert NamesAci(members, q.recipient.aci);
      var t :| t in members && t.aci == q.recipient.aci;
      assert AsksToJoin(g, t.aci);
    }
  }

  /** A ban or unban succeeds exactly for an administrator who doesn't name the own ACI, if the revision can
      advance when it must; it reports the actor as an administrator. */
  lemma BanChangeAllowed(g: Group, self: Id, members: seq<Recipient>, ban: bool, at: nat)
    requires Sane(g)
    ensures BanChange(g, self, members, ban, at).Ok? <==>
              && NamedUsable(members) && IsAdmin(g, self) && !NamesAci(members, self)
              && (g.revision != MAX_UINT32 || !BanChanges(g, members, ban))
  {
    NormalizedUsable(members);
    if Normalized(members).Ok? {
      MembershipByEntries(g, self);
      NormalizedNames(members, self);
      BanLengths(g, members, ban, at);
    }
  }

  /** Why it is refused. */
  lemma BanChangeRefused(g: Group, self: Id, members: seq<Recipient>, ban: bool, at: nat)
    requires Sane(g) && BanChange(g, self, members, ban, at).Err?
    ensures BanChange(g, self, members, ban, at).error ==
            if members == [] then InvalidGroupMember
            else if !NamedUsable(members) then Unresolvable
            else if !IsMember(g, self) then NotAMember
            else if !IsAdmin(g, self) then GroupPermission
            else if NamesAci(members, self) then InvalidGroupMember
            else UnknownGroup
  {
    NormalizedUsable(members);
    if Normalized(members).Ok? {
      MembershipByEntries(g, self);
      NormalizedNames(members, self);
    }
  }

  lemma BanChangeOwn(g: Group, self: Id, members: seq<Recipient>, ban: bool, at: nat)
    requires BanChange(g, self, members, ban, at).Ok?
    ensures var next := BanChange(g, self, members, ban, at).value; (next.membership, next.role) == MembershipOf(next, self)
    ensures MembershipOf(g, self) == (FullMember, RoleAdmin) && !NamesAci(Normalized(members).value, self)
  {
  }

  lemma BanChangeReports(g: Group, self: Id, members: seq<Recipient>, ban: bool, at: nat)
    requires Sane(g) && BanChange(g, self, members, ban, at).Ok?
    ensures var next := BanChange(g, self, members, ban, at).value; next.membership == FullMember && next.role == RoleAdmin
  {
    var next := BanChange(g, self, members, ban, at).value;
    BanChangeOwn(g, self, members, ban, at);
    NormalizedNames(members, self);
    MembershipByEntries(g, self);
    var m :| m in g.members && m.recipient.aci == self && m.role == RoleAdmin;
    BanChangeActive(g, self, members, ban, at);
    BanChangeShape(g, self, members, ban, at);
    KeptMembers(g.members, KeepsMember(Normalized(members).value));
    MemberRole(next, m);
  }

  // ----- Removals -----

  /** Some entry of the group is named by a target. */
  ghost predicate HasEntry(g: Group, target: Recipient) {
    || (exists m :: m in g.members && Named(m.recipient, [target]))
    || (exists p :: p in g.pending && Named(p.recipient, [target]))
    || (exists q :: q in g.requesting && Named(q.recipient, [target]))
  }

  lemma NamesSelfMeaning(m: Recipient, self: Recipient)
    ensures NamesSelf(m, self) <==> (Usable(self.aci) && m.aci == self.aci) || (Usable(self.pni) && m.pni == self.pni)
  {
    SelfMatchesMeaning(Aci(m.aci), self);
    SelfMatchesMeaning(Pni(m.pni), self);
  }

  lemma MatchedHasEntry(g: Group, target: Recipient, t: Recipient)
    requires Sane(g) && UsableTarget(target) && t in MatchedTargets(g, target)
    ensures UsableTarget(t) && HasEntry(g, target)
  {
    PendingMatchesContents(g.pending, target, t);
    if p :| p in g.pending && p.recipient == t && SelfMatches(t, target) {
      SelfMatchesMeaning(t, target);
      assert Named(p.recipient, [target]);
    } else {
      assert t == Aci(target.aci) && target.aci != NoId;
      PlainMembership(g, target.aci);
      if m :| m in g.members && m.recipient.aci == target.aci {
        assert Named(m.recipient, [target]);
      } else {
        var q :| q in g.requesting && q.recipient.aci == target.aci;
        assert Named(q.recipient, [target]);
      }
    }
  }

  lemma MatchedByEntries(g: Group, target: Recipient)
    requires Sane(g) && UsableTarget(target)
    ensures MatchedTargets(g, target) != [] <==> HasEntry(g, target)
    ensures forall t :: t in MatchedTargets(g, target) ==> UsableTarget(t)
  {
    var matched := MatchedTargets(g, target);
    forall t | t in matched ensures UsableTarget(t) && HasEntry(g, target) { MatchedHasEntry(g, target, t); }
    if HasEntry(g, target) { EntryGivesMatch(g, target); }
    if matched != [] { assert matched[0] in matched; }
  }

  lemma EntryGivesMatch(g: Group, target: Recipient)
    requires Sane(g) && HasEntry(g, target)
    ensures MatchedTargets(g, target) != []
  {
    if m :| m in g.members && Named(m.recipient, [target]) {
      EntryIsMatched(g, target, m.recipient);
    } else if p :| p in g.pending && Named(p.recipient, [target]) {
      EntryIsMatched(g, target, p.recipient);
    } else {
      var q :| q in g.requesting && Named(q.recipient, [target]);
      EntryIsMatched(g, target, q.recipient);
    }
  }

  ghost predicate MayRemove(g: Group, self: Recipient, target: Recipient) {
    && !((Usable(self.aci) && target.aci == self.aci) || (Usable(self.pni) && target.pni == self.pni))
    && HasEntry(g, target)
  }

  lemma CannotRemoveMeaning(g: Group, self: Recipient, target: Recipient)
    requires Sane(g) && UsableTarget(target)
    ensures CannotRemove(g, self, target) <==> !MayRemove(g, self, target)
  {
    NamesSelfMeaning(target, self);
    MatchedByEntries(g, target);
  }

  lemma SomeoneForbidden(g: Group, self: Recipient, members: seq<Recipient>)
    requires Sane(g) && forall m :: m in members ==> UsableTarget(m)
    ensures (exists m :: m in Distinct(members) && CannotRemove(g, self, m)) <==> exists m :: m in members && !MayRemove(g, self, m)
  {
    if m :| m in Distinct(members) && CannotRemove(g, self, m) {
      DistinctSubset(members, m);
      CannotRemoveMeaning(g, self, m);
    }
    if m :| m in members && !MayRemove(g, self, m) {
      var d := DistinctHas(members, m);
      assert d == m;
      CannotRemoveMeaning(g, self, m);
    }
  }

  lemma MatchedIsUsable(g: Group, self: Recipient, wanted: seq<Recipient>)
    requires Sane(g) && wanted != [] && forall w :: w in wanted ==> UsableTarget(w) && !CannotRemove(g, self, w)
    ensures NormalizedRemoval(AllMatched(g, wanted)).Ok?
  {
    var first := wanted[0];
    assert first in wanted;
    assert MatchedTargets(g, first)[0] in MatchedTargets(g, first);
    AllMatchedContents(g, wanted, MatchedTargets(g, first)[0]);
    forall t | t in AllMatched(g, wanted) ensures UsableTarget(t) {
      AllMatchedContents(g, wanted, t);
      var w :| w in wanted && t in MatchedTargets(g, w);
      MatchedByEntries(g, w);
    }
  }

  lemma RemovalOk(g: Group, self: Recipient, members: seq<Recipient>)
    ensures Removal(g, self, members).Ok? <==>
              && members != [] && (forall m :: m in members ==> UsableTarget(m))
              && MembershipOf(g, self.aci) == (FullMember, RoleAdmin)
              && (forall m :: m in Distinct(members) ==> !CannotRemove(g, self, m))
              && NormalizedRemoval(AllMatched(g, Distinct(members))).Ok?
  {
  }

  /** A removal succeeds exactly for an administrator who names usable users with an entry in the group, and
      neither the own ACI nor the own PNI. */
  lemma RemovalAllowed(g: Group, self: Recipient, members: seq<Recipient>)
    requires Sane(g)
    ensures Removal(g, self, members).Ok? <==>
              && members != [] && (forall m :: m in members ==> UsableTarget(m)) && IsAdmin(g, self.aci)
              && forall m :: m in members ==> MayRemove(g, self, m)
  {
    RemovalOk(g, self, members);
    MembershipByEntries(g, self.aci);
    if members != [] && forall m :: m in members ==> UsableTarget(m) {
      SomeoneForbidden(g, self, members);
      forall w | w in Distinct(members) ensures w in members { DistinctSubset(members, w); }
      var d := DistinctHas(members, members[0]);
      if forall w :: w in Distinct(members) ==> !CannotRemove(g, self, w) {
        MatchedIsUsable(g, self, Distinct(members));
      }
    }
  }

  /** Why it is refused. */
  lemma RemovalRefused(g: Group, self: Recipient, members: seq<Recipient>)
    requires Sane(g) && Removal(g, self, members).Err?
    ensures Removal(g, self, members).error ==
            if members == [] then InvalidGroupMember
            else if exists m :: m in members && !UsableTarget(m) then Unresolvable
            else if !IsMember(g, self.aci) then NotAMember
            else if !IsAdmin(g, self.aci) then GroupPermission
            else InvalidGroupMember
  {
    MembershipByEntries(g, self.aci);
    if members != [] && forall m :: m in members ==> UsableTarget(m) {
      SomeoneForbidden(g, self, members);
      forall w | w in Distinct(members) ensures w in members { DistinctSubset(members, w); }
      var d := DistinctHas(members, members[0]);
      if forall w :: w in Distinct(members) ==> !CannotRemove(g, self, w) {
        MatchedIsUsable(g, self, Distinct(members));
      }
    }
  }

  // ----- Additions -----

  ghost predicate IsNew(g: Group, aci: Id) {
    !IsMember(g, aci) && !IsInvited(g, aci)
  }

  lemma AddableMeaning(g: Group, members: seq<Recipient>, aci: Id)
    requires Normalized(members).Ok?
    ensures NamesAci(Addable(g, Normalized(members).value), aci) <==> NamesAci(members, aci) && IsNew(g, aci)
  {
    var wanted := Normalized(members).value;
    NormalizedNames(members, aci);
    FilterContents(wanted, IsAddable(g));
    if NamesAci(members, aci) {
      var m :| m in members && m.aci == aci;
      FoundMember(g, aci);
      OthersByEntries(g, aci);
      var w :| w in wanted && w.aci == aci;
      assert w in Addable(g, wanted) <==> IsNew(g, aci);
    }
  }

  /** An addition succeeds exactly for a full member who may add, as an administrator or because members may and
      nobody named asks to join, if nobody who would be added is banned; the named who are neither members nor
      invited are added. */
  lemma AdditionAllowed(g: Group, self: Id, members: seq<Recipient>)
    requires Sane(g)
    ensures AddTargets(g, self, members).Ok? <==>
              && NamedUsable(members) && IsMember(g, self)
              && (IsAdmin(g, self)
                  || (g.membersCanAdd && forall t :: t in members ==> !(IsNew(g, t.aci) && AsksToJoin(g, t.aci))))
              && forall t :: t in members && IsNew(g, t.aci) ==> !IsBanned(g.banned, t.aci)
    ensures AddTargets(g, self, members).Ok? ==>
              forall aci :: NamesAci(AddTargets(g, self, members).value, aci) <==> NamesAci(members, aci) && IsNew(g, aci)
  {
    NormalizedUsable(members);
    AddTargetsOk(g, self, members);
    if Normalized(members).Ok? {
      MembershipByEntries(g, self);
      NobodyAsks(g, members);
      NobodyBanned(g, members);
      forall aci ensures NamesAci(Addable(g, Normalized(members).value), aci) <==> NamesAci(members, aci) && IsNew(g, aci) {
        AddableMeaning(g, members, aci);
      }
    }
  }

  /** Why it is refused. */
  lemma AdditionRefused(g: Group, self: Id, members: seq<Recipient>)
    requires Sane(g) && AddTargets(g, self, members).Err?
    ensures AddTargets(g, self, members).error ==
            if members == [] then InvalidGroupMember
            else if !NamedUsable(members) then Unresolvable
            else if !IsMember(g, self) then NotAMember
            else if !IsAdmin(g, self) && (!g.membersCanAdd || exists t :: t in members && IsNew(g, t.aci) && AsksToJoin(g, t.aci))
              then GroupPermission
            else InvalidGroupMember
  {
    NormalizedUsable(members);
    if Normalized(members).Ok? {
      MembershipByEntries(g, self);
      NobodyAsks(g, members);
    }
  }

  lemma AddTargetsOk(g: Group, self: Id, members: seq<Recipient>)
    ensures AddTargets(g, self, members).Ok? <==>
              && Normalized(members).Ok? && MembershipOf(g, self).0 == FullMember
              && (MembershipOf(g, self).1 == RoleAdmin
                  || (g.membersCanAdd && forall t :: t in Normalized(members).value ==> MembershipOf(g, t.aci).0 != Requesting))
              && forall t :: t in Addable(g, Normalized(members).value) ==> !IsBanned(g.banned, t.aci)
    ensures AddTargets(g, self, members).Ok? ==> AddTargets(g, self, members).value == Addable(g, Normalized(members).value)
  {
  }

  lemma NobodyAsks(g: Group, members: seq<Recipient>)
    requires Normalized(members).Ok?
    ensures (exists t :: t in Normalized(members).value && MembershipOf(g, t.aci).0 == Requesting)
            <==> exists t :: t in members && IsNew(g, t.aci) && AsksToJoin(g, t.aci)
  {
    if t :| t in Normalized(members).value && MembershipOf(g, t.aci).0 == Requesting {
      DistinctByAciSubset(members, t);
      OthersByEntries(g, t.aci);
    }
    if t :| t in members && IsNew(g, t.aci) && AsksToJoin(g, t.aci) {
      var d := DistinctByAciHas(members, t);
      OthersByEntries(g, t.aci);
    }
  }

  lemma NobodyBanned(g: Group, members: seq<Recipient>)
    requires Normalized(members).Ok?
    ensures (exists t :: t in Addable(g, Normalized(members).value) && IsBanned(g.banned, t.aci))
            <==> exists t :: t in members && IsNew(g, t.aci) && IsBanned(g.banned, t.aci)
  {
    var targets := Addable(g, Normalized(members).value);
    if t :| t in targets && IsBanned(g.banned, t.aci) {
      assert NamesAci(targets, t.aci);
      AddableMeaning(g, members, t.aci);
      var m :| m in members && m.aci == t.aci;
    }
    if t :| t in members && IsNew(g, t.aci) && IsBanned(g.banned, t.aci) {
      assert NamesAci(members, t.aci);
      AddableMeaning(g, members, t.aci);
      var d :| d in targets && d.aci == t.aci;
    }
  }

  // ----- Leaving -----

  ghost predicate OtherMember(g: Group, self: Id, aci: Id) {
    aci != self && IsMember(g, aci)
  }

  /** Another member is an administrator, or is promoted. */
  ghost predicate AnotherGoverns(g: Group, self: Id, promote: seq<Recipient>) {
    exists m :: m in g.members && m.recipient.aci != self && (m.role == RoleAdmin || NamesAci(promote, m.recipient.aci))
  }

  lemma {:induction false} TwoAdmins(members: seq<Member>, i: nat, j: nat)
    requires i < j < |members| && members[i].role == RoleAdmin && members[j].role == RoleAdmin
    ensures AdminCount(members) > 1
  {
    var front := members[..|members| - 1];
    if j < |front| {
      TwoAdmins(front, i, j);
    } else {
      assert front[i] in front;
      AdminCountPositive(front);
    }
  }

  lemma OtherMembers(g: Group, self: Id, promote: seq<Recipient>)
    requires Sane(g)
    ensures (exists p :: p in promote && !IsOtherMember(g.members, self, p.aci)) <==> exists p :: p in promote && !OtherMember(g, self, p.aci)
  {
    forall p | p in promote ensures IsOtherMember(g.members, self, p.aci) <==> OtherMember(g, self, p.aci) {
      var i := IndexOf(g.members, HasAci(p.aci));
      if i < |g.members| { assert g.members[i] in g.members; }
      if m :| m in g.members && m.recipient.aci == p.aci { assert HasAci(p.aci)(m); }
    }
  }

  /** A promotion of another member counts unless that is an administrator. */
  lemma NewAdminsCount(g: Group, promote: seq<Recipient>)
    requires Sane(g)
    ensures NewAdminAcis(g.members, promote) != {}
            <==> exists m :: m in g.members && m.role != RoleAdmin && NamesAci(promote, m.recipient.aci)
  {
    if aci :| aci in NewAdminAcis(g.members, promote) {
      var i := IndexOf(g.members, HasAci(aci));
      assert g.members[i] in g.members && g.members[i].recipient.aci == aci;
    }
    if m :| m in g.members && m.role != RoleAdmin && NamesAci(promote, m.recipient.aci) {
      UniqueIndex(g.members, m);
      var r :| r in promote && r.aci == m.recipient.aci;
      assert r.aci in NewAdminAcis(g.members, promote);
    }
  }

  lemma CountsOther(g: Group, self: Id, promote: seq<Recipient>, own: Member, m: Member)
    requires Sane(g) && own in g.members && own.recipient.aci == self && own.role == RoleAdmin
    requires m in g.members && m.recipient.aci != self && (m.role == RoleAdmin || NamesAci(promote, m.recipient.aci))
    ensures AdminCount(g.members) + |NewAdminAcis(g.members, promote)| > 1
  {
    AdminCountPositive(g.members);
    if m.role == RoleAdmin {
      var i, j :| 0 <= i < |g.members| && g.members[i] == own && 0 <= j < |g.members| && g.members[j] == m;
      TwoAdmins(g.members, if i < j then i else j, if i < j then j else i);
    } else {
      NewAdminsCount(g, promote);
      assert NewAdminAcis(g.members, promote) != {};
    }
  }

  lemma CountedGoverns(g: Group, self: Id, promote: seq<Recipient>)
    requires Sane(g) && forall p :: p in promote ==> OtherMember(g, self, p.aci)
    requires AdminCount(g.members) > 1 || NewAdminAcis(g.members, promote) != {}
    ensures AnotherGoverns(g, self, promote)
  {
    if AdminCount(g.members) > 1 {
      AnotherAdmin(g.members, self);
    } else {
      NewAdminsCount(g, promote);
      var m :| m in g.members && m.role != RoleAdmin && NamesAci(promote, m.recipient.aci);
      var p :| p in promote && p.aci == m.recipient.aci;
      assert OtherMember(g, self, p.aci);
    }
  }

  /** An administrator is the last one, and stays so, exactly if nobody else governs. */
  lemma LastAdminMeaning(g: Group, self: Id, promote: seq<Recipient>)
    requires Sane(g) && IsAdmin(g, self) && forall p :: p in promote ==> OtherMember(g, self, p.aci)
    ensures AdminCount(g.members) + |NewAdminAcis(g.members, promote)| == 1 <==> !AnotherGoverns(g, self, promote)
  {
    var own :| own in g.members && own.recipient.aci == self && own.role == RoleAdmin;
    AdminCountPositive(g.members);
    if AnotherGoverns(g, self, promote) {
      var m :| m in g.members && m.recipient.aci != self && (m.role == RoleAdmin || NamesAci(promote, m.recipient.aci));
      CountsOther(g, self, promote, own, m);
    } else if AdminCount(g.members) + |NewAdminAcis(g.members, promote)| != 1 {
      CountedGoverns(g, self, promote);
    }
  }

  /** The own full membership, by the own ACI. */
  lemma OwnMembership(g: Group, self: Recipient)
    requires Sane(g)
    ensures SelfMembership(g, self).0 == FullMember <==> Usable(self.aci) && IsMember(g, self.aci)
    ensures SelfMembership(g, self) == (FullMember, RoleAdmin) <==> Usable(self.aci) && IsAdmin(g, self.aci)
  {
    SelfMembershipMeaning(g, self);
    if Usable(self.aci) && IsMember(g, self.aci) {
      var m :| m in g.members && m.recipient.aci == self.aci;
      MemberRole(g.(pending := []), m);
      assert SelfMembership(g, self) == MembershipOf(g.(pending := []), self.aci);
      if a :| a in g.members && a.recipient.aci == self.aci && a.role == RoleAdmin { UniqueIndex(g.members, a); UniqueIndex(g.members, m); }
    }
  }

  lemma LeaveOk(g: Group, self: Recipient, promote: seq<Recipient>)
    ensures LeaveChange(g, self, promote).Ok? <==>
              var own := SelfMembership(g, self);
              && Identity(self.aci) != NIL_UUID && own.0 != NotInGroup && (promote != [] ==> own == (FullMember, RoleAdmin))
              && (own.0 == FullMember ==>
                    && (forall p :: p in promote ==> IsOtherMember(g.members, self.aci, p.aci))
                    && (own.1 == RoleAdmin && |g.members| > 1 ==> AdminCount(g.members) + |NewAdminAcis(g.members, promote)| != 1)
                    && forall r :: r in Promotions(g.members, promote) ==> r.aci.Canonical?)
  {
    LeaveUnproblematic(g, self, promote);
  }

  lemma LeaveUnproblematic(g: Group, self: Recipient, promote: seq<Recipient>)
    ensures LeaveProblem(g, self, promote).None? <==>
              var own := SelfMembership(g, self);
              && Identity(self.aci) != NIL_UUID && own.0 != NotInGroup && (promote != [] ==> own == (FullMember, RoleAdmin))
              && (own.0 == FullMember ==>
                    && (forall p :: p in promote ==> IsOtherMember(g.members, self.aci, p.aci))
                    && (own.1 == RoleAdmin && |g.members| > 1 ==> AdminCount(g.members) + |NewAdminAcis(g.members, promote)| != 1))
  {
  }

  /** Leaving succeeds exactly for somebody who belongs to the group; only an administrator may promote, only
      other members, and must unless alone or another administrator remains. */
  lemma LeaveAllowed(g: Group, self: Recipient, promote: seq<Recipient>)
    requires Sane(g)
    ensures LeaveChange(g, self, promote).Ok? <==>
              && SelfMembership(g, self).0 != NotInGroup && (promote != [] ==> IsAdmin(g, self.aci))
              && (forall p :: p in promote ==> OtherMember(g, self.aci, p.aci))
              && (IsAdmin(g, self.aci) && |g.members| > 1 ==> AnotherGoverns(g, self.aci, promote))
  {
    LeaveOk(g, self, promote);
    OwnMembership(g, self);
    SelfMembershipMeaning(g, self);
    OtherMembers(g, self.aci, promote);
    forall r | r in Promotions(g.members, promote) ensures r.aci.Canonical? { PromotionsContents(g.members, promote, r); }
    if IsAdmin(g, self.aci) && forall p :: p in promote ==> OtherMember(g, self.aci, p.aci) {
      LastAdminMeaning(g, self.aci, promote);
    }
  }

  /** Why it is refused. */
  lemma LeaveRefused(g: Group, self: Recipient, promote: seq<Recipient>)
    requires Sane(g) && LeaveChange(g, self, promote).Err?
    ensures LeaveChange(g, self, promote).error ==
            if !Usable(self.aci) then Unresolvable
            else if SelfMembership(g, self).0 == NotInGroup then NotAMember
            else if promote != [] && (!IsAdmin(g, self.aci) || exists p :: p in promote && !OtherMember(g, self.aci, p.aci))
              then InvalidPromotion
            else LastAdmin
  {
    OwnMembership(g, self);
    SelfMembershipMeaning(g, self);
    OtherMembers(g, self.aci, promote);
    forall r | r in Promotions(g.members, promote) ensures r.aci.Canonical? { PromotionsContents(g.members, promote, r); }
    LeaveProblemOf(g, self, promote);
  }

  lemma LeaveProblemOf(g: Group, self: Recipient, promote: seq<Recipient>)
    requires LeaveChange(g, self, promote).Err?
    requires forall r :: r in Promotions(g.members, promote) ==> r.aci.Canonical?
    ensures LeaveProblem(g, self, promote) == Some(LeaveChange(g, self, promote).error)
  {
  }

  /** Withdrawing removes exactly the own request. */
  lemma WithdrawExact(g: Group, self: Recipient, promote: seq<Recipient>)
    requires WellTyped(g) && LeaveChange(g, self, promote).Ok? && SelfMembership(g, self).0 == Requesting
    ensures Left(g, LeaveChange(g, self, promote).value)
            == g.(requesting := Filter(g.requesting, (q: JoinRequest) => q.recipient.aci != self.aci))
  {
    SelfMembershipMeaning(g, self);
    assert PromotedRoles(g.members, []) == g.members;
    FilterAll(g.members, NotDeleted([]));
    FilterAll(g.pending, NotDeclined([]));
    FilterAgree(g.requesting, NotWithdrawn([Identity(self.aci)]), (q: JoinRequest) => q.recipient.aci != self.aci);
  }

  function LeftAs(m: Member, promote: seq<Recipient>): Member {
    if NamesAci(promote, m.recipient.aci) then m.(role := RoleAdmin) else m
  }

  lemma PromotedRole(g: Group, promote: seq<Recipient>, i: nat)
    requires Sane(g) && i < |g.members|
    ensures PromotedRoles(g.members, Identities(Promotions(g.members, promote)))[i] == LeftAs(g.members[i], promote)
  {
    var m, promoted := g.members[i], Promotions(g.members, promote);
    var ids := Identities(promoted);
    assert m in g.members;
    PromotionsContents(g.members, promote, m.recipient);
    if m.recipient in promoted {
      var k :| 0 <= k < |promoted| && promoted[k] == m.recipient;
      assert ids[k] == Identity(m.recipient.aci);
    }
    if Identity(m.recipient.aci) in ids {
      var k :| 0 <= k < |ids| && ids[k] == Identity(m.recipient.aci);
      PromotionsContents(g.members, promote, promoted[k]);
      var n :| n in g.members && n.recipient == promoted[k] && NamesAci(promote, promoted[k].aci);
      assert n.recipient.aci == m.recipient.aci;
    }
  }

  lemma RolesContents(g: Group, promote: seq<Recipient>, x: Member)
    requires Sane(g)
    ensures x in PromotedRoles(g.members, Identities(Promotions(g.members, promote)))
            <==> exists m :: m in g.members && x == LeftAs(m, promote)
  {
    var roles := PromotedRoles(g.members, Identities(Promotions(g.members, promote)));
    if x in roles {
      var i :| 0 <= i < |roles| && roles[i] == x;
      PromotedRole(g, promote, i);
      assert g.members[i] in g.members;
    }
    if m :| m in g.members && x == LeftAs(m, promote) {
      var i :| 0 <= i < |g.members| && g.members[i] == m;
      PromotedRole(g, promote, i);
      assert roles[i] in roles;
    }
  }

  lemma RolesWithout(g: Group, self: Id, promote: seq<Recipient>, x: Member)
    requires Sane(g) && Usable(self)
    ensures x in Filter(PromotedRoles(g.members, Identities(Promotions(g.members, promote))), NotDeleted([Identity(self)]))
            <==> exists m :: m in g.members && m.recipient.aci != self && x == LeftAs(m, promote)
  {
    RolesContents(g, promote, x);
    FilterContents(PromotedRoles(g.members, Identities(Promotions(g.members, promote))), NotDeleted([Identity(self)]));
    forall m | m in g.members && x == LeftAs(m, promote) ensures NotDeleted([Identity(self)])(x) <==> m.recipient.aci != self {
      assert x.recipient == m.recipient;
    }
  }

  lemma LeftOfMember(g: Group, self: Recipient, promote: seq<Recipient>)
    requires Sane(g) && LeaveChange(g, self, promote).Ok? && SelfMembership(g, self).0 == FullMember
    ensures Usable(self.aci)
    ensures Left(g, LeaveChange(g, self, promote).value)
            == g.(members := Filter(PromotedRoles(g.members, Identities(Promotions(g.members, promote))), NotDeleted([Identity(self.aci)])))
  {
    LeaveShape(g, self, promote);
    SelfMembershipMeaning(g, self);
    FilterAll(g.pending, NotDeclined([]));
    FilterAll(g.requesting, NotWithdrawn([]));
  }

  /** When a full member leaves, exactly the leaver goes; the others stay, those promoted as administrators. */
  lemma MemberLeaves(g: Group, self: Recipient, promote: seq<Recipient>, x: Member)
    requires Sane(g) && LeaveChange(g, self, promote).Ok? && SelfMembership(g, self).0 == FullMember
    ensures var next := Left(g, LeaveChange(g, self, promote).value);
            && next.pending == g.pending && next.requesting == g.requesting && next.banned == g.banned
            && (x in next.members <==> exists m :: m in g.members && m.recipient.aci != self.aci && x == LeftAs(m, promote))
  {
    LeftOfMember(g, self, promote);
    RolesWithout(g, self.aci, promote, x);
  }
}
