/** Membership changes of a group: roles, bans, removals, additions and leaving
    (internal/signal/groups*.go, meow_groups.go). */
module GroupChanges {
  import opened Wrappers
  import opened Seqs
  import opened Groups

  // ----- Normalizing targets -----

  /** The first recipient of each key, in order. */
  function Distinct(members: seq<Recipient>): seq<Recipient> {
    if members == [] then []
    else
      var front := Distinct(members[..|members| - 1]);
      var last := members[|members| - 1];
      if exists r :: r in front && r.aci == last.aci && r.pni == last.pni then front else front + [last]
  }

  function DistinctByAci(members: seq<Recipient>): seq<Recipient> {
    if members == [] then []
    else
      var front := DistinctByAci(members[..|members| - 1]);
      var last := members[|members| - 1];
      if exists r :: r in front && r.aci == last.aci then front else front + [last]
  }

  predicate UsableTarget(r: Recipient) {
    && (r.aci != NoId || r.pni != NoId)
    && (r.aci != NoId ==> Identity(r.aci) != NIL_UUID)
    && (r.pni != NoId ==> Identity(r.pni) != NIL_UUID)
  }

  function NormalizedRemoval(members: seq<Recipient>): Result<seq<Recipient>, GroupError> {
    if members == [] then Err(InvalidGroupMember)
    else if exists m :: m in members && !UsableTarget(m) then Err(Unresolvable)
    else Ok(Distinct(members))
  }

  function Normalized(members: seq<Recipient>): Result<seq<Recipient>, GroupError> {
    if members == [] then Err(InvalidGroupMember)
    else if exists m :: m in members && Identity(m.aci) == NIL_UUID then Err(Unresolvable)
    else Ok(DistinctByAci(members))
  }

  method NormalizeGroupRemovalMembers(members: seq<Recipient>) returns (r: Result<seq<Recipient>, GroupError>)
    ensures r == NormalizedRemoval(members)
  {
    if members == [] {
      return Err(InvalidGroupMember);
    }
    var out: seq<Recipient> := [];
    var seen: set<(Id, Id)> := {};
    for i := 0 to |members|
      invariant out == Distinct(members[..i])
      invariant forall k :: k in seen <==> exists r :: r in out && (r.aci, r.pni) == k
      invariant forall m :: m in members[..i] ==> UsableTarget(m)
    {
      assert members[..i + 1][..i] == members[..i];
      assert members[..i + 1] == members[..i] + [members[i]];
      var member := members[i];
      if (member.aci == NoId && member.pni == NoId)
        || (member.aci != NoId && Identity(member.aci) == NIL_UUID)
        || (member.pni != NoId && Identity(member.pni) == NIL_UUID)
      {
        assert member in members;
        return Err(Unresolvable);
      }
      if (member.aci, member.pni) !in seen {
        assert forall r :: r in out ==> (r.aci, r.pni) in seen;
        seen := seen + {(member.aci, member.pni)};
        out := out + [member];
      }
    }
    assert members[..|members|] == members;
    r := Ok(out);
  }

  method NormalizeGroupMembers(members: seq<Recipient>) returns (r: Result<seq<Recipient>, GroupError>)
    ensures r == Normalized(members)
  {
    if members == [] {
      return Err(InvalidGroupMember);
    }
    var out: seq<Recipient> := [];
    var seen: set<Id> := {};
    for i := 0 to |members|
      invariant out == DistinctByAci(members[..i])
      invariant forall k :: k in seen <==> exists r :: r in out && r.aci == k
      invariant forall m :: m in members[..i] ==> Identity(m.aci) != NIL_UUID
    {
      assert members[..i + 1][..i] == members[..i];
      assert members[..i + 1] == members[..i] + [members[i]];
      var member := members[i];
      if Identity(member.aci) == NIL_UUID {
        assert member in members;
        return Err(Unresolvable);
      }
      if member.aci !in seen {
        seen := seen + {member.aci};
        out := out + [member];
      }
    }
    assert members[..|members|] == members;
    r := Ok(out);
  }

  lemma {:induction false} DistinctSubset(members: seq<Recipient>, r: Recipient)
    requires r in Distinct(members)
    ensures r in members
  {
    if r in Distinct(members[..|members| - 1]) {
      DistinctSubset(members[..|members| - 1], r);
    }
  }

  lemma {:induction false} DistinctHas(members: seq<Recipient>, r: Recipient) returns (d: Recipient)
    requires r in members
    ensures d in Distinct(members) && d.aci == r.aci && d.pni == r.pni
  {
    var front, last := members[..|members| - 1], members[|members| - 1];
    assert members == front + [last];
    if r in front {
      d := DistinctHas(front, r);
    } else if e :| e in Distinct(front) && e.aci == r.aci && e.pni == r.pni {
      d := e;
    } else {
      d := last;
    }
  }

  lemma {:induction false} DistinctByAciSubset(members: seq<Recipient>, r: Recipient)
    requires r in DistinctByAci(members)
    ensures r in members
  {
    if r in DistinctByAci(members[..|members| - 1]) {
      DistinctByAciSubset(members[..|members| - 1], r);
    }
  }

  lemma {:induction false} DistinctByAciHas(members: seq<Recipient>, r: Recipient) returns (d: Recipient)
    requires r in members
    ensures d in DistinctByAci(members) && d.aci == r.aci
  {
    var front, last := members[..|members| - 1], members[|members| - 1];
    assert members == front + [last];
    if r in front {
      d := DistinctByAciHas(front, r);
    } else if e :| e in DistinctByAci(front) && e.aci == r.aci {
      d := e;
    } else {
      d := last;
    }
  }

  lemma {:induction false} DistinctByAciUnique(members: seq<Recipient>, i: nat, j: nat)
    requires i < j < |DistinctByAci(members)|
    ensures DistinctByAci(members)[i].aci != DistinctByAci(members)[j].aci
  {
    var front := DistinctByAci(members[..|members| - 1]);
    if j < |front| {
      DistinctByAciUnique(members[..|members| - 1], i, j);
    } else {
      assert front[i] in front;
    }
  }

  predicate NamesAci(members: seq<Recipient>, aci: Id) {
    exists m :: m in members && m.aci == aci
  }

  lemma NormalizedNames(members: seq<Recipient>, aci: Id)
    requires Normalized(members).Ok?
    ensures NamesAci(Normalized(members).value, aci) <==> NamesAci(members, aci)
  {
    if m :| m in members && m.aci == aci {
      var d := DistinctByAciHas(members, m);
    }
    if d :| d in DistinctByAci(members) && d.aci == aci {
      DistinctByAciSubset(members, d);
    }
  }

  // ----- Roles -----

  function RolesSet(members: seq<Member>, targets: seq<Recipient>, role: Role): seq<Member> {
    seq(|members|, i requires 0 <= i < |members| =>
      if NamesAci(targets, members[i].recipient.aci) then members[i].(role := role) else members[i])
  }

  function RoleChange(g: Group, self: Id, members: seq<Recipient>, role: Role): Result<Group, GroupError> {
    if !KnownRole(role) then Err(InvalidGroupMember)
    else
      var targets := Normalized(members);
      if targets.Err? then Err(targets.error)
      else if MembershipOf(g, self).0 != FullMember then Err(NotAMember)
      else if MembershipOf(g, self).1 != RoleAdmin then Err(GroupPermission)
      else if exists t :: t in targets.value && MembershipOf(g, t.aci).0 != FullMember then Err(InvalidGroupMember)
      else
        var changed := RolesSet(g.members, targets.value, role);
        if AdminCount(changed) == 0 then Err(LastAdmin)
        else if changed != g.members && g.revision == MAX_UINT32 then Err(UnknownGroup)
        else
          var next := g.(members := changed, revision := if changed != g.members then g.revision + 1 else g.revision);
          Ok(next.(membership := MembershipOf(next, self).0, role := MembershipOf(next, self).1))
  }

  method MemberRoleTargets(g: Group, self: Id, members: seq<Recipient>) returns (r: Result<set<Id>, GroupError>)
    ensures r.Ok? <==>
              && MembershipOf(g, self) == (FullMember, RoleAdmin)
              && forall t :: t in members ==> MembershipOf(g, t.aci).0 == FullMember
    ensures r.Ok? ==> forall id :: id in r.value <==> NamesAci(members, id)
    ensures r.Err? ==> r.error == if MembershipOf(g, self).0 != FullMember then NotAMember
                                  else if MembershipOf(g, self).1 != RoleAdmin then GroupPermission
                                  else InvalidGroupMember
  {
    if MembershipOf(g, self).0 != FullMember {
      return Err(NotAMember);
    }
    if MembershipOf(g, self).1 != RoleAdmin {
      return Err(GroupPermission);
    }
    var targets: set<Id> := {};
    for i := 0 to |members|
      invariant forall id :: id in targets <==> exists k :: 0 <= k < i && members[k].aci == id
      invariant forall k :: 0 <= k < i ==> MembershipOf(g, members[k].aci).0 == FullMember
    {
      if MembershipOf(g, members[i].aci).0 != FullMember {
        assert members[i] in members;
        return Err(InvalidGroupMember);
      }
      targets := targets + {members[i].aci};
    }
    r := Ok(targets);
  }

  /** Writes the role into the targets' copies and reports whether any role changed. */
  method SetRoles(members: seq<Member>, targets: set<Id>, ghost named: seq<Recipient>, role: Role)
    returns (out: seq<Member>, changed: bool)
    requires forall id :: id in targets <==> NamesAci(named, id)
    ensures out == RolesSet(members, named, role) && (changed <==> out != members)
  {
    ghost var goal := RolesSet(members, named, role);
    out, changed := members, false;
    for i := 0 to |members|
      invariant |out| == |members|
      invariant forall k :: 0 <= k < i ==> out[k] == goal[k]
      invariant forall k :: i <= k < |members| ==> out[k] == members[k]
      invariant changed <==> exists k :: 0 <= k < i && out[k] != members[k]
    {
      if out[i].recipient.aci in targets && out[i].role != role {
        out := out[i := out[i].(role := role)];
        changed := true;
        assert out[i] != members[i];
      }
    }
    assert out == goal;
  }

  method WithMemberRole(g: Group, self: Id, members: seq<Recipient>, role: Role) returns (r: Result<Group, GroupError>)
    ensures r == RoleChange(g, self, members, role)
  {
    if role != RoleAdmin && role != RoleMember {
      return Err(InvalidGroupMember);
    }
    var normalized := NormalizeGroupMembers(members);
    if normalized.Err? {
      return Err(normalized.error);
    }
    var targets := MemberRoleTargets(g, self, normalized.value);
    if targets.Err? {
      return Err(targets.error);
    }
    var changedMembers, changed := SetRoles(g.members, targets.value, normalized.value, role);
    var next := g.(members := changedMembers);
    var admins := Admins(next.members);
    if admins == 0 {
      return Err(LastAdmin);
    }
    if changed {
      if g.revision == MAX_UINT32 {
        return Err(UnknownGroup);
      }
      next := next.(revision := next.revision + 1);
    }
    var (membership, ownRole) := MembershipOf(next, self);
    r := Ok(next.(membership := membership, role := ownRole));
  }

  // ----- Bans -----

  predicate IsBanned(banned: seq<Ban>, aci: Id) {
    exists b :: b in banned && b.recipient.aci != NoId && b.recipient.aci == aci
  }

  function KeepsMember(targets: seq<Recipient>): Member -> bool {
    (m: Member) => !NamesAci(targets, m.recipient.aci)
  }

  function KeepsInvitation(targets: seq<Recipient>): Invitation -> bool {
    (p: Invitation) => !(p.recipient.aci != NoId && NamesAci(targets, p.recipient.aci))
  }

  function KeepsRequest(targets: seq<Recipient>): JoinRequest -> bool {
    (q: JoinRequest) => !NamesAci(targets, q.recipient.aci)
  }

  function KeepsBan(targets: seq<Recipient>): Ban -> bool {
    (b: Ban) => !(b.recipient.aci != NoId && NamesAci(targets, b.recipient.aci))
  }

  /** The bans to add: one for each target that isn't banned yet, in order. */
  function NewBans(banned: seq<Ban>, targets: seq<Recipient>, at: nat): seq<Ban> {
    if targets == [] then []
    else
      var last := targets[|targets| - 1];
      NewBans(banned, targets[..|targets| - 1], at) + if IsBanned(banned, last.aci) then [] else [Groups.Ban(last, at)]
  }

  /** The four lists after a ban or unban of normalized targets. */
  function BanApplied(g: Group, targets: seq<Recipient>, ban: bool, at: nat): Group {
    if ban then
      g.(members := Filter(g.members, KeepsMember(targets)),
         pending := Filter(g.pending, KeepsInvitation(targets)),
         requesting := Filter(g.requesting, KeepsRequest(targets)),
         banned := g.banned + NewBans(g.banned, targets, at))
    else
      g.(banned := Filter(g.banned, KeepsBan(targets)))
  }

  predicate LengthsDiffer(g: Group, next: Group) {
    || |next.members| != |g.members| || |next.pending| != |g.pending|
    || |next.requesting| != |g.requesting| || |next.banned| != |g.banned|
  }

  function BanChange(g: Group, self: Id, members: seq<Recipient>, ban: bool, at: nat): Result<Group, GroupError> {
    var targets := Normalized(members);
    if targets.Err? then Err(targets.error)
    else if MembershipOf(g, self).0 != FullMember then Err(NotAMember)
    else if MembershipOf(g, self).1 != RoleAdmin then Err(GroupPermission)
    else if NamesAci(targets.value, self) then Err(InvalidGroupMember)
    else
      var applied := BanApplied(g, targets.value, ban, at);
      if LengthsDiffer(g, applied) && g.revision == MAX_UINT32 then Err(UnknownGroup)
      else
        var next := if LengthsDiffer(g, applied) then applied.(revision := g.revision + 1) else applied;
        Ok(next.(membership := MembershipOf(next, self).0, role := MembershipOf(next, self).1))
  }

  method BanTargets(g: Group, self: Id, members: seq<Recipient>) returns (r: Result<set<Id>, GroupError>)
    ensures r.Ok? <==> MembershipOf(g, self) == (FullMember, RoleAdmin) && !NamesAci(members, self)
    ensures r.Ok? ==> forall id :: id in r.value <==> NamesAci(members, id)
    ensures r.Err? ==> r.error == if MembershipOf(g, self).0 != FullMember then NotAMember
                                  else if MembershipOf(g, self).1 != RoleAdmin then GroupPermission
                                  else InvalidGroupMember
  {
    if MembershipOf(g, self).0 != FullMember {
      return Err(NotAMember);
    }
    if MembershipOf(g, self).1 != RoleAdmin {
      return Err(GroupPermission);
    }
    var targets: set<Id> := {};
    for i := 0 to |members|
      invariant forall id :: id in targets <==> exists k :: 0 <= k < i && members[k].aci == id
      invariant forall k :: 0 <= k < i ==> members[k].aci != self
    {
      if members[i].aci == self {
        assert members[i] in members;
        return Err(InvalidGroupMember);
      }
      targets := targets + {members[i].aci};
    }
    r := Ok(targets);
  }

  method CollectBans(banned: seq<Ban>, members: seq<Recipient>, at: nat) returns (added: seq<Ban>)
    ensures added == NewBans(banned, members, at)
  {
    added := [];
    for i := 0 to |members|
      invariant added == NewBans(banned, members[..i], at)
    {
      assert members[..i + 1][..i] == members[..i];
      if !IsBanned(banned, members[i].aci) {
        added := added + [Groups.Ban(members[i], at)];
      }
    }
    assert members[..|members|] == members;
  }

  method WithBannedMembers(g: Group, self: Id, members: seq<Recipient>, ban: bool, at: nat) returns (r: Result<Group, GroupError>)
    ensures r == BanChange(g, self, members, ban, at)
  {
    var normalized := NormalizeGroupMembers(members);
    if normalized.Err? {
      return Err(normalized.error);
    }
    var named := BanTargets(g, self, normalized.value);
    if named.Err? {
      return Err(named.error);
    }
    var targets := named.value;
    var next := g;
    if ban {
      next := next.(members := Filter(next.members, (m: Member) => m.recipient.aci !in targets));
      next := next.(pending := Filter(next.pending, (p: Invitation) => !(p.recipient.aci != NoId && p.recipient.aci in targets)));
      next := next.(requesting := Filter(next.requesting, (q: JoinRequest) => q.recipient.aci !in targets));
      FilterAgree(g.members, (m: Member) => m.recipient.aci !in targets, KeepsMember(normalized.value));
      FilterAgree(g.pending, (p: Invitation) => !(p.recipient.aci != NoId && p.recipient.aci in targets), KeepsInvitation(normalized.value));
      FilterAgree(g.requesting, (q: JoinRequest) => q.recipient.aci !in targets, KeepsRequest(normalized.value));
      var added := CollectBans(g.banned, normalized.value, at);
      next := next.(banned := next.banned + added);
    } else {
      next := next.(banned := Filter(next.banned, (b: Ban) => !(b.recipient.aci != NoId && b.recipient.aci in targets)));
      FilterAgree(g.banned, (b: Ban) => !(b.recipient.aci != NoId && b.recipient.aci in targets), KeepsBan(normalized.value));
    }
    if LengthsDiffer(g, next) {
      if g.revision == MAX_UINT32 {
        return Err(UnknownGroup);
      }
      next := next.(revision := next.revision + 1);
    }
    var (membership, ownRole) := MembershipOf(next, self);
    r := Ok(next.(membership := membership, role := ownRole));
  }

  // ----- Removals -----

  predicate RemovalMatches(recipient: Recipient, targets: seq<Recipient>) {
    exists t :: t in targets && SelfMatches(recipient, t)
  }

  function PendingMatches(pending: seq<Invitation>, member: Recipient): seq<Recipient> {
    if pending == [] then []
    else
      PendingMatches(pending[..|pending| - 1], member)
      + if SelfMatches(pending[|pending| - 1].recipient, member) then [pending[|pending| - 1].recipient] else []
  }

  /** The identities under which a removal target belongs to the group. */
  function MatchedTargets(g: Group, member: Recipient): seq<Recipient> {
    (if MembershipOf(g.(pending := []), member.aci).0 != NotInGroup then [Aci(member.aci)] else [])
    + PendingMatches(g.pending, member)
  }

  function AllMatched(g: Group, members: seq<Recipient>): seq<Recipient> {
    if members == [] then []
    else AllMatched(g, members[..|members| - 1]) + MatchedTargets(g, members[|members| - 1])
  }

  predicate NamesSelf(member: Recipient, self: Recipient) {
    SelfMatches(Aci(member.aci), self) || SelfMatches(Pni(member.pni), self)
  }

  function RemovalTargets(g: Group, self: Recipient, members: seq<Recipient>): Result<seq<Recipient>, GroupError> {
    var targets := NormalizedRemoval(members);
    if targets.Err? then targets
    else if MembershipOf(g, self.aci).0 != FullMember then Err(NotAMember)
    else if MembershipOf(g, self.aci).1 != RoleAdmin then Err(GroupPermission)
    else if exists m :: m in targets.value && CannotRemove(g, self, m) then Err(InvalidGroupMember)
    else NormalizedRemoval(AllMatched(g, targets.value))
  }

  function StaysMember(targets: seq<Recipient>): Member -> bool {
    (m: Member) => !RemovalMatches(Aci(m.recipient.aci), targets)
  }

  function StaysInvited(targets: seq<Recipient>): Invitation -> bool {
    (p: Invitation) => !RemovalMatches(p.recipient, targets)
  }

  function StaysRequesting(targets: seq<Recipient>): JoinRequest -> bool {
    (q: JoinRequest) => !RemovalMatches(Aci(q.recipient.aci), targets)
  }

  function WithoutTargets(g: Group, targets: seq<Recipient>): Group {
    g.(members := Filter(g.members, StaysMember(targets)),
       pending := Filter(g.pending, StaysInvited(targets)),
       requesting := Filter(g.requesting, StaysRequesting(targets)))
  }

  function Removal(g: Group, self: Recipient, members: seq<Recipient>): Result<Group, GroupError> {
    var targets := RemovalTargets(g, self, members);
    if targets.Err? then Err(targets.error) else Ok(WithoutTargets(g, targets.value))
  }

  lemma PendingMatchesAlong(pending: seq<Invitation>, member: Recipient, i: nat)
    requires i < |pending|
    ensures PendingMatches(pending[..i + 1], member)
            == PendingMatches(pending[..i], member) + if SelfMatches(pending[i].recipient, member) then [pending[i].recipient] else []
  {
    assert pending[..i + 1][..i] == pending[..i];
  }

  method RemovalMembershipTargets(g: Group, member: Recipient) returns (targets: seq<Recipient>)
    ensures targets == MatchedTargets(g, member)
  {
    targets := [];
    if MembershipOf(g.(pending := []), member.aci).0 != NotInGroup {
      targets := targets + [Aci(member.aci)];
    }
    ghost var first := targets;
    for i := 0 to |g.pending|
      invariant targets == first + PendingMatches(g.pending[..i], member)
    {
      PendingMatchesAlong(g.pending, member, i);
      if SelfMatches(g.pending[i].recipient, member) {
        targets := targets + [g.pending[i].recipient];
      }
    }
    assert g.pending[..|g.pending|] == g.pending;
  }

  /** The account itself, or somebody the group doesn't have, can't be removed. */
  predicate CannotRemove(g: Group, self: Recipient, m: Recipient) {
    NamesSelf(m, self) || MatchedTargets(g, m) == []
  }

  method MatchAll(g: Group, self: Recipient, wanted: seq<Recipient>) returns (r: Result<seq<Recipient>, GroupError>)
    ensures r == if exists m :: m in wanted && CannotRemove(g, self, m) then Err(InvalidGroupMember) else Ok(AllMatched(g, wanted))
  {
    var targets: seq<Recipient> := [];
    for i := 0 to |wanted|
      invariant targets == AllMatched(g, wanted[..i])
      invariant forall k :: 0 <= k < i ==> !CannotRemove(g, self, wanted[k])
    {
      assert wanted[..i + 1][..i] == wanted[..i];
      assert wanted[i] in wanted;
      if NamesSelf(wanted[i], self) {
        return Err(InvalidGroupMember);
      }
      var matched := RemovalMembershipTargets(g, wanted[i]);
      if |matched| == 0 {
        return Err(InvalidGroupMember);
      }
      targets := targets + matched;
    }
    assert wanted[..|wanted|] == wanted;
    r := Ok(targets);
  }

  method FindRemovalTargets(g: Group, self: Recipient, members: seq<Recipient>) returns (r: Result<seq<Recipient>, GroupError>)
    ensures r == RemovalTargets(g, self, members)
  {
    var normalized := NormalizeGroupRemovalMembers(members);
    if normalized.Err? {
      return normalized;
    }
    if MembershipOf(g, self.aci).0 != FullMember {
      return Err(NotAMember);
    }
    if MembershipOf(g, self.aci).1 != RoleAdmin {
      return Err(GroupPermission);
    }
    var matched := MatchAll(g, self, normalized.value);
    if matched.Err? {
      return matched;
    }
    r := NormalizeGroupRemovalMembers(matched.value);
  }

  method WithRemovedMembersAs(g: Group, self: Recipient, members: seq<Recipient>) returns (r: Result<Group, GroupError>)
    ensures r == Removal(g, self, members)
  {
    var targets := FindRemovalTargets(g, self, members);
    if targets.Err? {
      return Err(targets.error);
    }
    r := Ok(WithoutTargets(g, targets.value));
  }

  // ----- Additions -----

  function IsAddable(g: Group): Recipient -> bool {
    (t: Recipient) => MembershipOf(g, t.aci).0 !in {FullMember, Invited}
  }

  /** The targets that aren't in the group or invited yet. */
  function Addable(g: Group, targets: seq<Recipient>): seq<Recipient> {
    Filter(targets, IsAddable(g))
  }

  function AddTargets(g: Group, self: Id, members: seq<Recipient>): Result<seq<Recipient>, GroupError> {
    var targets := Normalized(members);
    if targets.Err? then targets
    else
      var own := MembershipOf(g, self);
      if own.0 != FullMember then Err(NotAMember)
      else if own.1 != RoleAdmin && !g.membersCanAdd then Err(GroupPermission)
      else if own.1 != RoleAdmin && exists t :: t in targets.value && MembershipOf(g, t.aci).0 == Requesting
        then Err(GroupPermission)
      else if exists t :: t in Addable(g, targets.value) && IsBanned(g.banned, t.aci) then Err(InvalidGroupMember)
      else Ok(Addable(g, targets.value))
  }

  lemma AddableAlong(g: Group, wanted: seq<Recipient>, i: nat)
    requires i < |wanted|
    ensures Addable(g, wanted[..i + 1]) == Addable(g, wanted[..i]) + if IsAddable(g)(wanted[i]) then [wanted[i]] else []
  {
    assert wanted[..i + 1][..i] == wanted[..i];
  }

  method FindAddable(g: Group, wanted: seq<Recipient>, admin: bool) returns (r: Result<seq<Recipient>, GroupError>)
    ensures r == if !admin && exists t :: t in wanted && MembershipOf(g, t.aci).0 == Requesting then Err(GroupPermission)
                 else Ok(Addable(g, wanted))
  {
    var targets: seq<Recipient> := [];
    for i := 0 to |wanted|
      invariant targets == Addable(g, wanted[..i])
      invariant !admin ==> forall k :: 0 <= k < i ==> MembershipOf(g, wanted[k].aci).0 != Requesting
    {
      AddableAlong(g, wanted, i);
      var current := MembershipOf(g, wanted[i].aci).0;
      if current == FullMember || current == Invited {
        continue;
      }
      if current == Requesting && !admin {
        assert wanted[i] in wanted;
        return Err(GroupPermission);
      }
      targets := targets + [wanted[i]];
    }
    assert wanted[..|wanted|] == wanted;
    r := Ok(targets);
  }

  method CheckAddMembers(g: Group, self: Id, members: seq<Recipient>) returns (r: Result<seq<Recipient>, GroupError>)
    ensures r == AddTargets(g, self, members)
  {
    var normalized := NormalizeGroupMembers(members);
    if normalized.Err? {
      return normalized;
    }
    var (membership, ownRole) := MembershipOf(g, self);
    if membership != FullMember {
      return Err(NotAMember);
    }
    if ownRole != RoleAdmin && !g.membersCanAdd {
      return Err(GroupPermission);
    }
    var targets := FindAddable(g, normalized.value, ownRole == RoleAdmin);
    if targets.Err? {
      return targets;
    }
    r := CheckedBannedAddTargets(g.banned, targets.value);
  }

  method CheckedBannedAddTargets(banned: seq<Ban>, targets: seq<Recipient>) returns (r: Result<seq<Recipient>, GroupError>)
    ensures r == if exists t :: t in targets && IsBanned(banned, t.aci) then Err(InvalidGroupMember) else Ok(targets)
  {
    for i := 0 to |targets|
      invariant forall k :: 0 <= k < i ==> !IsBanned(banned, targets[k].aci)
    {
      if IsBanned(banned, targets[i].aci) {
        assert targets[i] in targets;
        return Err(InvalidGroupMember);
      }
    }
    r := Ok(targets);
  }

  // ----- Leaving -----

  datatype ServiceId = AciService(uuid: Uuid) | PniService(uuid: Uuid)

  function ServiceOf(r: Recipient): ServiceId {
    if r.aci != NoId then AciService(Identity(r.aci)) else PniService(Identity(r.pni))
  }

  /** The parts of a server group change that leaving uses. */
  datatype GroupChange = GroupChange(
    deleteMembers: seq<Uuid>, deletePending: seq<ServiceId>, deleteRequesting: seq<Uuid>, promote: seq<Uuid>)

  /** Whether a promotion target is another member. */
  predicate IsOtherMember(members: seq<Member>, self: Id, aci: Id) {
    aci != NoId && aci != self && IndexOf(members, HasAci(aci)) < |members|
  }

  /** The ACIs of the promoted members that aren't admins yet. */
  function NewAdminAcis(members: seq<Member>, promote: seq<Recipient>): set<Id> {
    set r | r in promote && IndexOf(members, HasAci(r.aci)) < |members|
            && members[IndexOf(members, HasAci(r.aci))].role != RoleAdmin :: r.aci
  }

  method NewAdmins(members: seq<Member>, self: Id, promote: seq<Recipient>) returns (r: Result<nat, GroupError>)
    ensures r == if exists p :: p in promote && !IsOtherMember(members, self, p.aci) then Err(InvalidPromotion)
                 else Ok(|NewAdminAcis(members, promote)|)
  {
    var promoted: set<Id> := {};
    for i := 0 to |promote|
      invariant promoted == NewAdminAcis(members, promote[..i])
      invariant forall k :: 0 <= k < i ==> IsOtherMember(members, self, promote[k].aci)
    {
      assert promote[..i + 1] == promote[..i] + [promote[i]];
      assert forall p :: p in promote[..i + 1] <==> p in promote[..i] || p == promote[i];
      var index := IndexOf(members, HasAci(promote[i].aci));
      if promote[i].aci == NoId || index == |members| || promote[i].aci == self {
        assert promote[i] in promote;
        return Err(InvalidPromotion);
      }
      if members[index].role != RoleAdmin {
        promoted := promoted + {promote[i].aci};
      }
    }
    assert promote[..|promote|] == promote;
    r := Ok(|promoted|);
  }

  function LeaveProblem(g: Group, self: Recipient, promote: seq<Recipient>): Option<GroupError> {
    var own := SelfMembership(g, self);
    var admin := own == (FullMember, RoleAdmin);
    if Identity(self.aci) == NIL_UUID then Some(Unresolvable)
    else if own.0 == NotInGroup then Some(NotAMember)
    else if promote != [] && !admin then Some(InvalidPromotion)
    else if own.0 != FullMember then None
    else if exists p :: p in promote && !IsOtherMember(g.members, self.aci, p.aci) then Some(InvalidPromotion)
    else if admin && AdminCount(g.members) + |NewAdminAcis(g.members, promote)| == 1 && |g.members| > 1 then Some(LastAdmin)
    else None
  }

  method PrepareLeave(g: Group, self: Recipient, promote: seq<Recipient>) returns (r: Result<Group, GroupError>)
    ensures r == var problem := LeaveProblem(g, self, promote);
                 if problem.Some? then Err(problem.value)
                 else Ok(g.(membership := SelfMembership(g, self).0, role := SelfMembership(g, self).1))
  {
    if Identity(self.aci) == NIL_UUID {
      return Err(Unresolvable);
    }
    var (membership, role) := SelfMembership(g, self);
    var admin := membership == FullMember && role == RoleAdmin;
    if membership == NotInGroup {
      return Err(NotAMember);
    }
    if |promote| > 0 && !admin {
      return Err(InvalidPromotion);
    }
    if membership == FullMember {
      var newAdmins := NewAdmins(g.members, self.aci, promote);
      if newAdmins.Err? {
        return Err(newAdmins.error);
      }
      var admins := Admins(g.members);
      if admin && admins + newAdmins.value == 1 && |g.members| > 1 {
        return Err(LastAdmin);
      }
    }
    r := Ok(g.(membership := membership, role := role));
  }

  /** The members leaving promotes: those named that aren't admins yet. */
  function Promotions(members: seq<Member>, promote: seq<Recipient>): seq<Recipient> {
    if members == [] then []
    else
      var last := members[|members| - 1];
      Promotions(members[..|members| - 1], promote)
      + if last.role != RoleAdmin && NamesAci(promote, last.recipient.aci) then [last.recipient] else []
  }

  function Identities(recipients: seq<Recipient>): seq<Uuid> {
    seq(|recipients|, i requires 0 <= i < |recipients| => Identity(recipients[i].aci))
  }

  function OwnServices(pending: seq<Invitation>, self: Recipient): seq<ServiceId> {
    if pending == [] then []
    else
      OwnServices(pending[..|pending| - 1], self)
      + if SelfMatches(pending[|pending| - 1].recipient, self) then [ServiceOf(pending[|pending| - 1].recipient)] else []
  }

  /** The change with which self leaves. Promoted members need a canonical ACI. */
  function LeaveChange(g: Group, self: Recipient, promote: seq<Recipient>): Result<GroupChange, GroupError> {
    var problem := LeaveProblem(g, self, promote);
    var own := Identity(self.aci);
    if problem.Some? then Err(problem.value)
    else match SelfMembership(g, self).0
      case Invited => Ok(GroupChange([], OwnServices(g.pending, self), [], []))
      case Requesting => Ok(GroupChange([], [], [own], []))
      case _ =>
        if exists r :: r in Promotions(g.members, promote) && !r.aci.Canonical? then Err(InvalidPromotion)
        else Ok(GroupChange([own], [], [], Identities(Promotions(g.members, promote))))
  }

  method DeclineInvitations(g: Group, self: Recipient) returns (services: seq<ServiceId>)
    ensures services == OwnServices(g.pending, self)
  {
    services := [];
    for i := 0 to |g.pending|
      invariant services == OwnServices(g.pending[..i], self)
    {
      assert g.pending[..i + 1][..i] == g.pending[..i];
      if SelfMatches(g.pending[i].recipient, self) {
        services := services + [ServiceOf(g.pending[i].recipient)];
      }
    }
    assert g.pending[..|g.pending|] == g.pending;
  }

  method CollectPromotions(members: seq<Member>, promote: seq<Recipient>) returns (r: Result<seq<Recipient>, GroupError>)
    ensures r == if exists p :: p in Promotions(members, promote) && !p.aci.Canonical? then Err(InvalidPromotion)
                 else Ok(Promotions(members, promote))
  {
    var promoted: seq<Recipient> := [];
    for i := 0 to |members|
      invariant promoted == Promotions(members[..i], promote)
      invariant forall p :: p in promoted ==> p.aci.Canonical?
    {
      assert members[..i + 1][..i] == members[..i];
      var member := members[i];
      if member.role == RoleAdmin || !NamesAci(promote, member.recipient.aci) {
        continue;
      }
      if !member.recipient.aci.Canonical? {
        PromotionsGrow(members, i + 1, promote, member.recipient);
        return Err(InvalidPromotion);
      }
      promoted := promoted + [member.recipient];
    }
    assert members[..|members|] == members;
    r := Ok(promoted);
  }

  method BuildLeaveChange(group: Group, self: Recipient, promote: seq<Recipient>)
    returns (r: Result<GroupChange, GroupError>, promoted: seq<Recipient>)
    ensures r == LeaveChange(group, self, promote)
    ensures promoted == if r.Ok? && SelfMembership(group, self).0 == FullMember then Promotions(group.members, promote) else []
  {
    promoted := [];
    var prepared := PrepareLeave(group, self, promote);
    if prepared.Err? {
      return Err(prepared.error), [];
    }
    var g := prepared.value;
    if g.membership == Invited {
      var services := DeclineInvitations(g, self);
      return Ok(GroupChange([], services, [], [])), [];
    }
    if g.membership == Requesting {
      return Ok(GroupChange([], [], [Identity(self.aci)], [])), [];
    }
    var collected := CollectPromotions(g.members, promote);
    if collected.Err? {
      return Err(collected.error), [];
    }
    promoted := collected.value;
    r := Ok(GroupChange([Identity(self.aci)], [], [], Identities(promoted)));
  }

  lemma {:induction false} PromotionsGrow(members: seq<Member>, n: nat, promote: seq<Recipient>, r: Recipient)
    requires n <= |members| && r in Promotions(members[..n], promote)
    ensures r in Promotions(members, promote)
    decreases |members|
  {
    if n < |members| {
      var front := members[..|members| - 1];
      assert front[..n] == members[..n];
      PromotionsGrow(front, n, promote, r);
    } else {
      assert members[..n] == members;
    }
  }
}
