/** What membership changes keep, one by one and over whole runs (internal/signal/groups*.go). */
module GroupRuns {
  import opened Wrappers
  import opened Seqs
  import opened Groups
  import opened GroupChanges

  /** Entries as convertGroup makes them: members and requests by ACI, invitations by ACI or PNI. */
  predicate WellTyped(g: Group) {
    && (forall m :: m in g.members ==> Usable(m.recipient.aci) && m.recipient.pni == NoId)
    && (forall p :: p in g.pending ==>
          || (Usable(p.recipient.aci) && p.recipient.pni == NoId)
          || (Usable(p.recipient.pni) && p.recipient.aci == NoId))
    && (forall q :: q in g.requesting ==> Usable(q.recipient.aci) && q.recipient.pni == NoId)
  }

  predicate UniqueMembers(members: seq<Member>) {
    forall i, j :: 0 <= i < j < |members| ==> members[i].recipient.aci != members[j].recipient.aci
  }

  /** Members are unique, and a group that has any has an administrator. */
  predicate Governed(g: Group) {
    WellTyped(g) && UniqueMembers(g.members) && (g.members != [] ==> AdminCount(g.members) > 0)
  }

  /** No banned user is a member, invited or requesting. */
  predicate BansHold(g: Group) {
    forall b :: b in g.banned && b.recipient.aci != NoId ==>
      && (forall m :: m in g.members ==> m.recipient.aci != b.recipient.aci)
      && (forall p :: p in g.pending ==> p.recipient.aci != b.recipient.aci)
      && (forall q :: q in g.requesting ==> q.recipient.aci != b.recipient.aci)
  }

  // ----- The server's part -----

  function AddedMembers(g: Group, targets: seq<Recipient>, asInvitation: set<Id>): seq<Member> {
    if targets == [] then []
    else
      var last := targets[|targets| - 1];
      AddedMembers(g, targets[..|targets| - 1], asInvitation)
      + if MembershipOf(g, last.aci).0 == Requesting || last.aci !in asInvitation then [Member(Aci(last.aci), RoleMember)] else []
  }

  function AddedInvitations(g: Group, targets: seq<Recipient>, asInvitation: set<Id>): seq<Invitation> {
    if targets == [] then []
    else
      var last := targets[|targets| - 1];
      AddedInvitations(g, targets[..|targets| - 1], asInvitation)
      + if MembershipOf(g, last.aci).0 == Requesting || last.aci !in asInvitation then [] else [Invitation(Aci(last.aci), RoleMember)]
  }

  /** The group after an addition: requesters become members, others members or invited. */
  function Added(g: Group, targets: seq<Recipient>, asInvitation: set<Id>): Group {
    g.(members := g.members + AddedMembers(g, targets, asInvitation),
       pending := g.pending + AddedInvitations(g, targets, asInvitation),
       requesting := Filter(g.requesting, KeepsRequest(targets)))
  }

  function PromotedRoles(members: seq<Member>, promote: seq<Uuid>): seq<Member> {
    seq(|members|, i requires 0 <= i < |members| =>
      if Identity(members[i].recipient.aci) in promote then members[i].(role := RoleAdmin) else members[i])
  }

  function NotDeleted(deleted: seq<Uuid>): Member -> bool {
    (m: Member) => Identity(m.recipient.aci) !in deleted
  }

  function NotDeclined(services: seq<ServiceId>): Invitation -> bool {
    (p: Invitation) => ServiceOf(p.recipient) !in services
  }

  function NotWithdrawn(deleted: seq<Uuid>): JoinRequest -> bool {
    (q: JoinRequest) => Identity(q.recipient.aci) !in deleted
  }

  /** The group after a leave: promotions first, then the deletions. */
  function Left(g: Group, change: GroupChange): Group {
    g.(members := Filter(PromotedRoles(g.members, change.promote), NotDeleted(change.deleteMembers)),
       pending := Filter(g.pending, NotDeclined(change.deletePending)),
       requesting := Filter(g.requesting, NotWithdrawn(change.deleteRequesting)))
  }

  // ----- Runs -----

  datatype Operation =
    | SetRole(actor: Id, members: seq<Recipient>, role: Role)
    | SetBan(actor: Id, members: seq<Recipient>, ban: bool, at: nat)
    | Remove(admin: Recipient, members: seq<Recipient>)
    | Add(actor: Id, members: seq<Recipient>, asInvitation: set<Id>)
    | Leave(leaver: Recipient, promote: seq<Recipient>)

  /** A refused operation changes nothing. */
  function Next(g: Group, op: Operation): Group {
    match op
    case SetRole(actor, members, role) =>
      var r := RoleChange(g, actor, members, role); if r.Ok? then r.value else g
    case SetBan(actor, members, ban, at) =>
      var r := BanChange(g, actor, members, ban, at); if r.Ok? then r.value else g
    case Remove(admin, members) =>
      var r := Removal(g, admin, members); if r.Ok? then r.value else g
    case Add(actor, members, asInvitation) =>
      var r := AddTargets(g, actor, members); if r.Ok? then Added(g, r.value, asInvitation) else g
    case Leave(leaver, promote) =>
      var r := LeaveChange(g, leaver, promote); if r.Ok? then Left(g, r.value) else g
  }

  function Run(g: Group, ops: seq<Operation>): Group {
    if ops == [] then g else Next(Run(g, ops[..|ops| - 1]), ops[|ops| - 1])
  }

  // ----- Helpers -----

  /** Keeping some members keeps them unique and well-typed. */
  lemma KeptMembers(members: seq<Member>, p: Member -> bool)
    requires UniqueMembers(members)
    ensures UniqueMembers(Filter(members, p))
  {
    FilterDistinct(members, p, (m: Member) => m.recipient.aci);
    var kept := Filter(members, p);
    var key := (m: Member) => m.recipient.aci;
    forall i, j | 0 <= i < j < |kept| ensures kept[i].recipient.aci != kept[j].recipient.aci {
      assert key(kept[i]) != key(kept[j]);
    }
  }

  lemma KeptWellTyped(g: Group, next: Group, keepM: Member -> bool, keepP: Invitation -> bool, keepQ: JoinRequest -> bool)
    requires WellTyped(g)
    requires next.members == Filter(g.members, keepM)
    requires next.pending == Filter(g.pending, keepP)
    requires next.requesting == Filter(g.requesting, keepQ)
    ensures WellTyped(next)
    ensures BansHold(g) && next.banned == g.banned ==> BansHold(next)
  {
    FilterContents(g.members, keepM);
    FilterContents(g.pending, keepP);
    FilterContents(g.requesting, keepQ);
  }

  /** A member with the role is found under their ACI. */
  lemma FoundMember(g: Group, aci: Id)
    requires aci != NoId
    ensures MembershipOf(g, aci).0 == FullMember <==> exists m :: m in g.members && m.recipient.aci == aci
    ensures MembershipOf(g, aci).0 == FullMember ==>
              exists m :: m in g.members && m.recipient.aci == aci && m.role == MembershipOf(g, aci).1
  {
    var i := IndexOf(g.members, HasAci(aci));
    if i < |g.members| {
      assert g.members[i] in g.members;
    }
    if m :| m in g.members && m.recipient.aci == aci {
      assert HasAci(aci)(m);
    }
  }

  /** An admin who stays keeps the group governed. */
  lemma AdminStays(members: seq<Member>, p: Member -> bool, m: Member)
    requires m in members && m.role == RoleAdmin && p(m)
    ensures AdminCount(Filter(members, p)) > 0
  {
    FilterContents(members, p);
    AdminCountPositive(Filter(members, p));
  }

  // ----- Role changes -----

  /** Changing nothing but roles keeps entries typed, unique and apart from the bans. */
  lemma SameRecipients(g: Group, next: Group)
    requires |next.members| == |g.members|
    requires forall i :: 0 <= i < |g.members| ==> next.members[i].recipient == g.members[i].recipient
    requires next.pending == g.pending && next.requesting == g.requesting && next.banned == g.banned
    ensures WellTyped(g) ==> WellTyped(next)
    ensures UniqueMembers(g.members) ==> UniqueMembers(next.members)
    ensures BansHold(g) ==> BansHold(next)
  {
    forall m | m in next.members ensures exists i :: 0 <= i < |g.members| && g.members[i].recipient == m.recipient {
      var i :| 0 <= i < |next.members| && next.members[i] == m;
      assert g.members[i].recipient == m.recipient;
    }
    forall m | m in next.members && WellTyped(g) ensures Usable(m.recipient.aci) && m.recipient.pni == NoId {
      var i :| 0 <= i < |g.members| && g.members[i].recipient == m.recipient;
      assert g.members[i] in g.members;
    }
    forall b, m | b in g.banned && b.recipient.aci != NoId && m in next.members && BansHold(g)
      ensures m.recipient.aci != b.recipient.aci
    {
      var i :| 0 <= i < |g.members| && g.members[i].recipient == m.recipient;
      assert g.members[i] in g.members;
    }
  }

  lemma RoleChangeShape(g: Group, self: Id, members: seq<Recipient>, role: Role)
    requires RoleChange(g, self, members, role).Ok?
    ensures var next := RoleChange(g, self, members, role).value;
            && Normalized(members).Ok?
            && next.members == RolesSet(g.members, Normalized(members).value, role) && AdminCount(next.members) > 0
            && next.pending == g.pending && next.requesting == g.requesting && next.banned == g.banned
            && next.revision == (if next.members != g.members then g.revision + 1 else g.revision)
  {
  }

  lemma RoleChangeGoverned(g: Group, self: Id, members: seq<Recipient>, role: Role)
    requires Governed(g) && RoleChange(g, self, members, role).Ok?
    ensures Governed(RoleChange(g, self, members, role).value)
    ensures BansHold(g) ==> BansHold(RoleChange(g, self, members, role).value)
  {
    RoleChangeShape(g, self, members, role);
    SameRecipients(g, RoleChange(g, self, members, role).value);
  }

  /** Whether a role change to role alters the member. */
  predicate RoleDiffers(m: Member, members: seq<Recipient>, role: Role) {
    NamesAci(members, m.recipient.aci) && m.role != role
  }

  /** A role change gives exactly the named members the role, and the revision counts it, by one,
      exactly when some role differs. */
  lemma RoleChangeExact(g: Group, self: Id, members: seq<Recipient>, role: Role)
    requires RoleChange(g, self, members, role).Ok?
    ensures var next := RoleChange(g, self, members, role).value;
            && |next.members| == |g.members|
            && (forall i :: 0 <= i < |g.members| ==>
                  next.members[i] == if RoleDiffers(g.members[i], members, role) then g.members[i].(role := role) else g.members[i])
            && next.revision == (if exists i :: 0 <= i < |g.members| && RoleDiffers(g.members[i], members, role)
                                 then g.revision + 1 else g.revision)
  {
    var next := RoleChange(g, self, members, role).value;
    RoleChangeShape(g, self, members, role);
    forall i | 0 <= i < |g.members|
      ensures next.members[i] == if RoleDiffers(g.members[i], members, role) then g.members[i].(role := role) else g.members[i]
    {
      NormalizedNames(members, g.members[i].recipient.aci);
    }
    if i :| 0 <= i < |g.members| && RoleDiffers(g.members[i], members, role) {
      assert next.members[i] != g.members[i];
    } else {
      assert next.members == g.members;
    }
  }

  // ----- Bans -----

  lemma {:induction false} NewBansContents(banned: seq<Ban>, targets: seq<Recipient>, at: nat, aci: Id)
    requires aci != NoId
    ensures IsBanned(NewBans(banned, targets, at), aci) <==> NamesAci(targets, aci) && !IsBanned(banned, aci)
    ensures forall b :: b in NewBans(banned, targets, at) ==> b.bannedAt == at
  {
    if targets != [] {
      var front, last := targets[..|targets| - 1], targets[|targets| - 1];
      NewBansContents(banned, front, at, aci);
      assert targets == front + [last];
      assert NamesAci(targets, aci) <==> NamesAci(front, aci) || last.aci == aci;
      var earlier := NewBans(banned, front, at);
      assert NewBans(banned, targets, at) == earlier + if IsBanned(banned, last.aci) then [] else [Groups.Ban(last, at)];
      if b :| b in earlier && b.recipient.aci != NoId && b.recipient.aci == aci {
        assert b in NewBans(banned, targets, at);
      }
      if last.aci == aci && !IsBanned(banned, aci) {
        assert Groups.Ban(last, at) in NewBans(banned, targets, at);
      }
    }
  }

  lemma BanChangeGoverned(g: Group, self: Id, members: seq<Recipient>, ban: bool, at: nat)
    requires Governed(g) && BanChange(g, self, members, ban, at).Ok?
    ensures Governed(BanChange(g, self, members, ban, at).value)
  {
    if ban {
      var next := BanChange(g, self, members, ban, at).value;
      var targets := Normalized(members).value;
      KeptMembers(g.members, KeepsMember(targets));
      KeptWellTyped(g, next, KeepsMember(targets), KeepsInvitation(targets), KeepsRequest(targets));
      FoundMember(g, self);
      var m :| m in g.members && m.recipient.aci == self && m.role == RoleAdmin;
      AdminStays(g.members, KeepsMember(targets), m);
    }
  }

  lemma BanChangeShape(g: Group, self: Id, members: seq<Recipient>, ban: bool, at: nat)
    requires BanChange(g, self, members, ban, at).Ok?
    ensures var next := BanChange(g, self, members, ban, at).value;
            && Normalized(members).Ok?
            && var applied := BanApplied(g, Normalized(members).value, ban, at);
            && next.members == applied.members && next.pending == applied.pending
            && next.requesting == applied.requesting && next.banned == applied.banned
            && next.revision == (if LengthsDiffer(g, applied) then g.revision + 1 else g.revision)
  {
  }

  /** After a ban every target is banned, after an unban none is; nobody else's state changes. */
  lemma BanChangeBanned(g: Group, self: Id, members: seq<Recipient>, ban: bool, at: nat, aci: Id)
    requires BanChange(g, self, members, ban, at).Ok? && aci != NoId
    ensures IsBanned(BanChange(g, self, members, ban, at).value.banned, aci)
            <==> if NamesAci(members, aci) then ban else IsBanned(g.banned, aci)
  {
    var targets := Normalized(members).value;
    BanChangeShape(g, self, members, ban, at);
    NormalizedNames(members, aci);
    if ban {
      NewBansContents(g.banned, targets, at, aci);
      BannedAppend(g.banned, NewBans(g.banned, targets, at), aci);
    } else {
      FilterContents(g.banned, KeepsBan(targets));
    }
  }

  /** A ban leaves no target a member, invited by ACI or requesting; every other entry stays, and an
      unban adds or removes none. */
  lemma BanChangeActive(g: Group, self: Id, members: seq<Recipient>, ban: bool, at: nat)
    requires BanChange(g, self, members, ban, at).Ok?
    ensures var next := BanChange(g, self, members, ban, at).value;
            && (forall m :: m in next.members <==> m in g.members && !(ban && NamesAci(members, m.recipient.aci)))
            && (forall p :: p in next.pending
                  <==> p in g.pending && !(ban && p.recipient.aci != NoId && NamesAci(members, p.recipient.aci)))
            && (forall q :: q in next.requesting <==> q in g.requesting && !(ban && NamesAci(members, q.recipient.aci)))
  {
    var targets := Normalized(members).value;
    BanChangeShape(g, self, members, ban, at);
    forall aci ensures NamesAci(targets, aci) <==> NamesAci(members, aci) {
      NormalizedNames(members, aci);
    }
    if ban {
      FilterContents(g.members, KeepsMember(targets));
      FilterContents(g.pending, KeepsInvitation(targets));
      FilterContents(g.requesting, KeepsRequest(targets));
    }
  }

  lemma BannedAppend(a: seq<Ban>, b: seq<Ban>, aci: Id)
    ensures IsBanned(a + b, aci) <==> IsBanned(a, aci) || IsBanned(b, aci)
  {
    assert forall x :: x in a + b <==> x in a || x in b;
    if x :| x in a && x.recipient.aci != NoId && x.recipient.aci == aci {
      assert x in a + b;
    }
    if x :| x in b && x.recipient.aci != NoId && x.recipient.aci == aci {
      assert x in a + b;
    }
  }

  /** Existing bans keep their order and times: a ban adds after them, an unban only leaves some out. */
  lemma BanTimesKept(g: Group, self: Id, members: seq<Recipient>, ban: bool, at: nat)
    requires BanChange(g, self, members, ban, at).Ok?
    ensures var next := BanChange(g, self, members, ban, at).value;
            if ban then g.banned <= next.banned && forall b :: b in next.banned[|g.banned|..] ==> b.bannedAt == at
            else next.banned == Filter(g.banned, KeepsBan(Normalized(members).value))
  {
    BanChangeShape(g, self, members, ban, at);
    if ban {
      NewBansContents(g.banned, Normalized(members).value, at, BadId(""));
    }
  }

  lemma BanChangeBans(g: Group, self: Id, members: seq<Recipient>, ban: bool, at: nat)
    requires BansHold(g) && BanChange(g, self, members, ban, at).Ok?
    ensures BansHold(BanChange(g, self, members, ban, at).value)
  {
    var next := BanChange(g, self, members, ban, at).value;
    forall b | b in next.banned && b.recipient.aci != NoId
      ensures (forall m :: m in next.members ==> m.recipient.aci != b.recipient.aci)
           && (forall p :: p in next.pending ==> p.recipient.aci != b.recipient.aci)
           && (forall q :: q in next.requesting ==> q.recipient.aci != b.recipient.aci)
    {
      assert IsBanned(next.banned, b.recipient.aci);
      BanChangeBanned(g, self, members, ban, at, b.recipient.aci);
      BanChangeActive(g, self, members, ban, at);
    }
  }

  /** Although only lengths are compared, the revision advances, by one, exactly when a list changed. */
  lemma BanRevision(g: Group, self: Id, members: seq<Recipient>, ban: bool, at: nat)
    requires BanChange(g, self, members, ban, at).Ok?
    ensures var next := BanChange(g, self, members, ban, at).value;
            && (next.revision == g.revision || next.revision == g.revision + 1)
            && (next.revision == g.revision + 1 <==>
                  || next.members != g.members || next.pending != g.pending
                  || next.requesting != g.requesting || next.banned != g.banned)
  {
    var targets := Normalized(members).value;
    BanChangeShape(g, self, members, ban, at);
    FilterContents(g.members, KeepsMember(targets));
    FilterContents(g.pending, KeepsInvitation(targets));
    FilterContents(g.requesting, KeepsRequest(targets));
    FilterContents(g.banned, KeepsBan(targets));
    if ban && NewBans(g.banned, targets, at) == [] {
      assert g.banned + [] == g.banned;
    }
  }

  // ----- Removals -----

  /** The entry's typed identity is one of the targets'. */
  predicate Named(entry: Recipient, targets: seq<Recipient>) {
    exists t :: t in targets &&
      ((entry.aci != NoId && entry.aci == t.aci) || (entry.aci == NoId && entry.pni != NoId && entry.pni == t.pni))
  }

  function UnnamedMember(targets: seq<Recipient>): Member -> bool {
    (m: Member) => !Named(m.recipient, targets)
  }

  function UnnamedInvitation(targets: seq<Recipient>): Invitation -> bool {
    (p: Invitation) => !Named(p.recipient, targets)
  }

  function UnnamedRequest(targets: seq<Recipient>): JoinRequest -> bool {
    (q: JoinRequest) => !Named(q.recipient, targets)
  }

  lemma {:induction false} PendingMatchesContents(pending: seq<Invitation>, member: Recipient, r: Recipient)
    ensures r in PendingMatches(pending, member) <==> exists p :: p in pending && p.recipient == r && SelfMatches(r, member)
  {
    if pending != [] {
      var front, last := pending[..|pending| - 1], pending[|pending| - 1];
      PendingMatchesContents(front, member, r);
      assert forall p :: p in pending <==> p in front || p == last;
    }
  }

  lemma {:induction false} AllMatchedContents(g: Group, members: seq<Recipient>, r: Recipient)
    ensures r in AllMatched(g, members) <==> exists m :: m in members && r in MatchedTargets(g, m)
  {
    if members != [] {
      var front, last := members[..|members| - 1], members[|members| - 1];
      AllMatchedContents(g, front, r);
      assert forall m :: m in members <==> m in front || m == last;
    }
  }

  predicate TypedEntry(r: Recipient) {
    (Usable(r.aci) && r.pni == NoId) || (Usable(r.pni) && r.aci == NoId)
  }

  /** The identities found for the targets name the same entries as the targets themselves. */
  lemma MatchedNamesSame(g: Group, wanted: seq<Recipient>, entry: Recipient)
    requires WellTyped(g) && TypedEntry(entry) && forall w :: w in wanted ==> UsableTarget(w)
    requires
      || (exists m :: m in g.members && m.recipient == entry)
      || (exists p :: p in g.pending && p.recipient == entry)
      || (exists q :: q in g.requesting && q.recipient == entry)
    ensures RemovalMatches(entry, AllMatched(g, wanted)) <==> Named(entry, wanted)
  {
    if t :| t in AllMatched(g, wanted) && SelfMatches(entry, t) {
      AllMatchedContents(g, wanted, t);
      var w :| w in wanted && t in MatchedTargets(g, w);
      PendingMatchesContents(g.pending, w, t);
      assert w in wanted && ((entry.aci != NoId && entry.aci == w.aci) || (entry.aci == NoId && entry.pni != NoId && entry.pni == w.pni));
    }
    if w :| w in wanted && ((entry.aci != NoId && entry.aci == w.aci) || (entry.aci == NoId && entry.pni != NoId && entry.pni == w.pni)) {
      EntryIsMatched(g, w, entry);
      AllMatchedContents(g, wanted, entry);
      assert SelfMatches(entry, entry);
    }
  }

  lemma EntryIsMatched(g: Group, w: Recipient, entry: Recipient)
    requires WellTyped(g) && TypedEntry(entry)
    requires (entry.aci != NoId && entry.aci == w.aci) || (entry.aci == NoId && entry.pni != NoId && entry.pni == w.pni)
    requires
      || (exists m :: m in g.members && m.recipient == entry)
      || (exists p :: p in g.pending && p.recipient == entry)
      || (exists q :: q in g.requesting && q.recipient == entry)
    ensures entry in MatchedTargets(g, w)
  {
    if p :| p in g.pending && p.recipient == entry {
      PendingMatchesContents(g.pending, w, entry);
    } else {
      if m :| m in g.members && m.recipient == entry {
        assert HasAci(w.aci)(m);
      }
      if q :| q in g.requesting && q.recipient == entry {
        assert RequestsAci(w.aci)(q);
      }
      assert entry == Aci(w.aci);
    }
  }

  lemma MatchedUsable(g: Group, wanted: seq<Recipient>)
    requires WellTyped(g) && NormalizedRemoval(AllMatched(g, wanted)).Ok?
    ensures forall entry :: RemovalMatches(entry, NormalizedRemoval(AllMatched(g, wanted)).value)
                       <==> RemovalMatches(entry, AllMatched(g, wanted))
  {
    var all := AllMatched(g, wanted);
    forall entry
      ensures RemovalMatches(entry, Distinct(all)) <==> RemovalMatches(entry, all)
    {
      if t :| t in all && SelfMatches(entry, t) {
        var d := DistinctHas(all, t);
        assert SelfMatches(entry, d);
      }
      if d :| d in Distinct(all) && SelfMatches(entry, d) {
        DistinctSubset(all, d);
      }
    }
  }

  lemma {:induction false} DistinctNames(members: seq<Recipient>, entry: Recipient)
    ensures Named(entry, Distinct(members)) <==> Named(entry, members)
  {
    if t :| t in members && ((entry.aci != NoId && entry.aci == t.aci) || (entry.aci == NoId && entry.pni != NoId && entry.pni == t.pni)) {
      var d := DistinctHas(members, t);
    }
    if d :| d in Distinct(members) && ((entry.aci != NoId && entry.aci == d.aci) || (entry.aci == NoId && entry.pni != NoId && entry.pni == d.pni)) {
      DistinctSubset(members, d);
    }
  }

  lemma RemovalTargetsAre(g: Group, self: Recipient, members: seq<Recipient>)
    requires RemovalTargets(g, self, members).Ok?
    ensures NormalizedRemoval(AllMatched(g, Distinct(members))) == RemovalTargets(g, self, members)
    ensures forall w :: w in Distinct(members) ==> UsableTarget(w)
    ensures forall w :: w in Distinct(members) ==> !CannotRemove(g, self, w)
  {
    forall w | w in Distinct(members) ensures UsableTarget(w) {
      DistinctSubset(members, w);
    }
  }

  lemma RemovalNames(g: Group, self: Recipient, members: seq<Recipient>, entry: Recipient)
    requires WellTyped(g) && TypedEntry(entry) && RemovalTargets(g, self, members).Ok?
    requires
      || (exists m :: m in g.members && m.recipient == entry)
      || (exists p :: p in g.pending && p.recipient == entry)
      || (exists q :: q in g.requesting && q.recipient == entry)
    ensures RemovalMatches(entry, RemovalTargets(g, self, members).value) <==> Named(entry, members)
  {
    var wanted := Distinct(members);
    RemovalTargetsAre(g, self, members);
    MatchedUsable(g, wanted);
    MatchedNamesSame(g, wanted, entry);
    DistinctNames(members, entry);
  }

  /** A removal removes exactly the entries whose typed identity is named; all others stay in order. An
      invitation by PNI stays even if its UUID is that of a removed ACI. */
  lemma RemovalExact(g: Group, self: Recipient, members: seq<Recipient>)
    requires WellTyped(g) && Removal(g, self, members).Ok?
    ensures Removal(g, self, members).value ==
            g.(members := Filter(g.members, UnnamedMember(members)),
               pending := Filter(g.pending, UnnamedInvitation(members)),
               requesting := Filter(g.requesting, UnnamedRequest(members)))
  {
    var targets := RemovalTargets(g, self, members).value;
    forall m | m in g.members ensures StaysMember(targets)(m) == UnnamedMember(members)(m) {
      assert Aci(m.recipient.aci) == m.recipient;
      RemovalNames(g, self, members, m.recipient);
    }
    forall p | p in g.pending ensures StaysInvited(targets)(p) == UnnamedInvitation(members)(p) {
      RemovalNames(g, self, members, p.recipient);
    }
    forall q | q in g.requesting ensures StaysRequesting(targets)(q) == UnnamedRequest(members)(q) {
      assert Aci(q.recipient.aci) == q.recipient;
      RemovalNames(g, self, members, q.recipient);
    }
    FilterAgree(g.members, StaysMember(targets), UnnamedMember(members));
    FilterAgree(g.pending, StaysInvited(targets), UnnamedInvitation(members));
    FilterAgree(g.requesting, StaysRequesting(targets), UnnamedRequest(members));
  }

  lemma ActorUnnamed(g: Group, self: Recipient, members: seq<Recipient>, entry: Recipient)
    requires RemovalTargets(g, self, members).Ok? && TypedEntry(entry) && SelfMatches(entry, self)
    ensures !Named(entry, members)
  {
    RemovalTargetsAre(g, self, members);
    if t :| t in members && ((entry.aci != NoId && entry.aci == t.aci) || (entry.aci == NoId && entry.pni != NoId && entry.pni == t.pni)) {
      var d := DistinctHas(members, t);
      assert NamesSelf(d, self);
    }
  }

  /** The acting administrator keeps the own membership and invitations. */
  lemma RemovalKeepsActor(g: Group, self: Recipient, members: seq<Recipient>)
    requires WellTyped(g) && Removal(g, self, members).Ok?
    ensures exists m :: m in Removal(g, self, members).value.members && m.recipient.aci == self.aci && m.role == RoleAdmin
    ensures forall p :: p in g.pending && SelfMatches(p.recipient, self) ==> p in Removal(g, self, members).value.pending
  {
    RemovalExact(g, self, members);
    FilterContents(g.members, UnnamedMember(members));
    FilterContents(g.pending, UnnamedInvitation(members));
    FoundMember(g, self.aci);
    var m :| m in g.members && m.recipient.aci == self.aci && m.role == RoleAdmin;
    ActorUnnamed(g, self, members, m.recipient);
    assert UnnamedMember(members)(m);
    forall p | p in g.pending && SelfMatches(p.recipient, self) ensures UnnamedInvitation(members)(p) {
      ActorUnnamed(g, self, members, p.recipient);
    }
  }

  lemma RemovalGoverned(g: Group, self: Recipient, members: seq<Recipient>)
    requires Governed(g) && Removal(g, self, members).Ok?
    ensures Governed(Removal(g, self, members).value)
    ensures BansHold(g) ==> BansHold(Removal(g, self, members).value)
  {
    var next := Removal(g, self, members).value;
    RemovalExact(g, self, members);
    RemovalKeepsActor(g, self, members);
    KeptMembers(g.members, UnnamedMember(members));
    KeptWellTyped(g, next, UnnamedMember(members), UnnamedInvitation(members), UnnamedRequest(members));
    AdminCountPositive(next.members);
  }

  // ----- Additions -----

  predicate UniqueAcis(targets: seq<Recipient>) {
    forall i, j :: 0 <= i < j < |targets| ==> targets[i].aci != targets[j].aci
  }

  /** Addition targets are usable, distinct, neither members nor invited, and not banned. */
  lemma AddTargetsMeaning(g: Group, self: Id, members: seq<Recipient>)
    requires AddTargets(g, self, members).Ok?
    ensures var targets := AddTargets(g, self, members).value;
            && UniqueAcis(targets)
            && g.members != []
            && forall t :: t in targets ==>
                 && t in members && Usable(t.aci) && !IsBanned(g.banned, t.aci)
                 && MembershipOf(g, t.aci).0 != FullMember && MembershipOf(g, t.aci).0 != Invited
  {
    var wanted := DistinctByAci(members);
    var targets := Addable(g, wanted);
    FilterContents(wanted, IsAddable(g));
    forall i, j | 0 <= i < j < |wanted| ensures wanted[i].aci != wanted[j].aci {
      DistinctByAciUnique(members, i, j);
    }
    var key := (t: Recipient) => t.aci;
    FilterDistinct(wanted, IsAddable(g), key);
    forall i, j | 0 <= i < j < |targets| ensures targets[i].aci != targets[j].aci {
      assert key(targets[i]) != key(targets[j]);
    }
    forall t | t in targets ensures t in members && Usable(t.aci) {
      DistinctByAciSubset(members, t);
    }
    FoundMember(g, self);
  }

  lemma {:induction false} AddedMembersContents(g: Group, targets: seq<Recipient>, asInvitation: set<Id>)
    ensures forall m :: m in AddedMembers(g, targets, asInvitation) ==> m.role == RoleMember && m.recipient.pni == NoId && NamesAci(targets, m.recipient.aci)
    ensures forall p :: p in AddedInvitations(g, targets, asInvitation) ==> p.recipient.pni == NoId && NamesAci(targets, p.recipient.aci)
  {
    if targets != [] {
      var front, last := targets[..|targets| - 1], targets[|targets| - 1];
      AddedMembersContents(g, front, asInvitation);
      assert targets == front + [last];
      assert forall aci :: NamesAci(targets, aci) <==> NamesAci(front, aci) || last.aci == aci;
    }
  }

  lemma {:induction false} AddedMembersUnique(g: Group, targets: seq<Recipient>, asInvitation: set<Id>)
    requires UniqueAcis(targets)
    ensures UniqueMembers(AddedMembers(g, targets, asInvitation))
  {
    if targets != [] {
      var front, last := targets[..|targets| - 1], targets[|targets| - 1];
      AddedMembersUnique(g, front, asInvitation);
      AddedMembersContents(g, front, asInvitation);
      forall i | 0 <= i < |front| ensures front[i].aci != last.aci {
        assert targets[i] == front[i];
      }
      assert !NamesAci(front, last.aci);
      var earlier := AddedMembers(g, front, asInvitation);
      forall i | 0 <= i < |earlier| ensures earlier[i].recipient.aci != last.aci {
        assert earlier[i] in earlier;
      }
    }
  }

  /** New members have other ACIs than the members there are. */
  lemma AddedMembersAreNew(g: Group, self: Id, members: seq<Recipient>, asInvitation: set<Id>)
    requires Governed(g) && AddTargets(g, self, members).Ok?
    ensures UniqueMembers(g.members + AddedMembers(g, AddTargets(g, self, members).value, asInvitation))
    ensures g.members != []
  {
    var targets := AddTargets(g, self, members).value;
    var newMembers := AddedMembers(g, targets, asInvitation);
    AddTargetsMeaning(g, self, members);
    AddedMembersContents(g, targets, asInvitation);
    AddedMembersUnique(g, targets, asInvitation);
    forall i, j | 0 <= i < |g.members| && 0 <= j < |newMembers| ensures g.members[i].recipient.aci != newMembers[j].recipient.aci {
      assert newMembers[j] in newMembers && g.members[i] in g.members;
      FoundMember(g, newMembers[j].recipient.aci);
    }
  }

  lemma AdditionGoverned(g: Group, self: Id, members: seq<Recipient>, asInvitation: set<Id>)
    requires Governed(g) && AddTargets(g, self, members).Ok?
    ensures Governed(Added(g, AddTargets(g, self, members).value, asInvitation))
    ensures BansHold(g) ==> BansHold(Added(g, AddTargets(g, self, members).value, asInvitation))
  {
    var targets := AddTargets(g, self, members).value;
    var next := Added(g, targets, asInvitation);
    AddedMembersAreNew(g, self, members, asInvitation);
    AddTargetsMeaning(g, self, members);
    AddedMembersContents(g, targets, asInvitation);
    FilterContents(g.requesting, KeepsRequest(targets));
    assert forall m :: m in next.members <==> m in g.members || m in AddedMembers(g, targets, asInvitation);
    assert forall p :: p in next.pending <==> p in g.pending || p in AddedInvitations(g, targets, asInvitation);
    AdminCountPositive(g.members);
    AdminCountPositive(next.members);
  }

  // ----- Leaving -----

  lemma {:induction false} PromotionsContents(members: seq<Member>, promote: seq<Recipient>, r: Recipient)
    ensures r in Promotions(members, promote)
            <==> exists m :: m in members && m.recipient == r && m.role != RoleAdmin && NamesAci(promote, r.aci)
  {
    if members != [] {
      var front, last := members[..|members| - 1], members[|members| - 1];
      PromotionsContents(front, promote, r);
      assert forall m :: m in members <==> m in front || m == last;
    }
  }

  lemma {:induction false} PromotionsDistinct(members: seq<Member>, promote: seq<Recipient>)
    requires UniqueMembers(members)
    ensures |set r | r in Promotions(members, promote) :: r.aci| == |Promotions(members, promote)|
  {
    if members != [] {
      var front, last := members[..|members| - 1], members[|members| - 1];
      PromotionsDistinct(front, promote);
      var acis := set r | r in Promotions(members, promote) :: r.aci;
      var earlier := set r | r in Promotions(front, promote) :: r.aci;
      if last.role != RoleAdmin && NamesAci(promote, last.recipient.aci) {
        forall r | r in Promotions(front, promote) ensures r.aci != last.recipient.aci {
          PromotionsContents(front, promote, r);
        }
        assert last.recipient.aci !in earlier;
        assert acis == earlier + {last.recipient.aci};
      } else {
        assert acis == earlier;
      }
    }
  }

  lemma UniqueIndex(members: seq<Member>, m: Member)
    requires UniqueMembers(members) && m in members
    ensures IndexOf(members, HasAci(m.recipient.aci)) < |members| && members[IndexOf(members, HasAci(m.recipient.aci))] == m
  {
    var i :| 0 <= i < |members| && members[i] == m;
    assert HasAci(m.recipient.aci)(members[i]);
  }

  /** With unique members, the check counts exactly the members that leaving promotes. */
  lemma NewAdminsArePromotions(members: seq<Member>, promote: seq<Recipient>)
    requires UniqueMembers(members)
    ensures NewAdminAcis(members, promote) == set r | r in Promotions(members, promote) :: r.aci
    ensures |NewAdminAcis(members, promote)| == |Promotions(members, promote)|
  {
    var acis := set r | r in Promotions(members, promote) :: r.aci;
    forall aci | aci in NewAdminAcis(members, promote) ensures aci in acis {
      var m := members[IndexOf(members, HasAci(aci))];
      assert m in members && m.recipient.aci == aci;
      PromotionsContents(members, promote, m.recipient);
      assert m.recipient in Promotions(members, promote);
    }
    forall aci | aci in acis ensures aci in NewAdminAcis(members, promote) {
      var r :| r in Promotions(members, promote) && r.aci == aci;
      PromotionsContents(members, promote, r);
      var m :| m in members && m.recipient == r && m.role != RoleAdmin;
      UniqueIndex(members, m);
    }
    PromotionsDistinct(members, promote);
  }

  lemma {:induction false} AnotherAdmin(members: seq<Member>, aci: Id)
    requires UniqueMembers(members) && AdminCount(members) > 1
    ensures exists m :: m in members && m.role == RoleAdmin && m.recipient.aci != aci
  {
    var front, last := members[..|members| - 1], members[|members| - 1];
    assert members == front + [last];
    if last.role == RoleAdmin && last.recipient.aci != aci {
      assert last in members;
    } else if last.role == RoleAdmin {
      AdminCountPositive(front);
      var m :| m in front && m.role == RoleAdmin;
      var i :| 0 <= i < |front| && front[i] == m;
      assert members[i] == m;
      assert m.recipient.aci != aci;
    } else {
      AnotherAdmin(front, aci);
    }
  }

  lemma LastAdminPromotes(g: Group, self: Recipient, promote: seq<Recipient>)
    requires LeaveChange(g, self, promote).Ok? && SelfMembership(g, self) == (FullMember, RoleAdmin) && |g.members| > 1
    ensures AdminCount(g.members) + |NewAdminAcis(g.members, promote)| != 1
    ensures forall p :: p in promote ==> IsOtherMember(g.members, self.aci, p.aci)
  {
  }

  /** The last administrator can only leave when somebody else is promoted. */
  lemma PromotedSuccessor(g: Group, self: Recipient, promote: seq<Recipient>) returns (successor: Member)
    requires Governed(g) && LeaveChange(g, self, promote).Ok? && SelfMembership(g, self) == (FullMember, RoleAdmin)
    requires |g.members| > 1 && AdminCount(g.members) <= 1
    ensures successor in g.members && successor.recipient.aci != self.aci
    ensures successor.recipient in Promotions(g.members, promote)
  {
    LastAdminPromotes(g, self, promote);
    AdminCountPositive(g.members);
    NewAdminsArePromotions(g.members, promote);
    var promoted := Promotions(g.members, promote);
    assert promoted != [];
    PromotionsContents(g.members, promote, promoted[0]);
    successor :| successor in g.members && successor.recipient == promoted[0] && successor.role != RoleAdmin;
    var p :| p in promote && p.aci == successor.recipient.aci;
    assert IsOtherMember(g.members, self.aci, p.aci);
  }

  lemma LeaverIsReplaced(g: Group, self: Recipient, promote: seq<Recipient>) returns (successor: Member)
    requires Governed(g) && LeaveChange(g, self, promote).Ok? && SelfMembership(g, self).0 == FullMember && |g.members| > 1
    ensures successor in g.members && successor.recipient.aci != self.aci
    ensures successor.role == RoleAdmin || successor.recipient in Promotions(g.members, promote)
  {
    var own := Canonical(Identity(self.aci));
    FoundMember(g, own);
    var m :| m in g.members && m.recipient.aci == own;
    UniqueIndex(g.members, m);
    AdminCountPositive(g.members);
    if m.role != RoleAdmin {
      successor :| successor in g.members && successor.role == RoleAdmin;
      if successor.recipient.aci == own { UniqueIndex(g.members, successor); }
    } else if AdminCount(g.members) > 1 {
      AnotherAdmin(g.members, self.aci);
      successor :| successor in g.members && successor.role == RoleAdmin && successor.recipient.aci != self.aci;
    } else {
      successor := PromotedSuccessor(g, self, promote);
    }
  }

  lemma LeaveShape(g: Group, self: Recipient, promote: seq<Recipient>)
    requires LeaveChange(g, self, promote).Ok?
    ensures var change := LeaveChange(g, self, promote).value;
            && (SelfMembership(g, self).0 == FullMember ==>
                  && change == GroupChange([Identity(self.aci)], [], [], Identities(Promotions(g.members, promote))))
            && (SelfMembership(g, self).0 != FullMember ==> change.deleteMembers == [] && change.promote == [])
  {
  }

  lemma LeaveGoverned(g: Group, self: Recipient, promote: seq<Recipient>)
    requires Governed(g) && LeaveChange(g, self, promote).Ok?
    ensures Governed(Left(g, LeaveChange(g, self, promote).value))
    ensures BansHold(g) ==> BansHold(Left(g, LeaveChange(g, self, promote).value))
  {
    var change := LeaveChange(g, self, promote).value;
    var promoted := g.(members := PromotedRoles(g.members, change.promote));
    var next := Left(g, change);
    LeaveShape(g, self, promote);
    SameRecipients(g, promoted);
    KeptMembers(promoted.members, NotDeleted(change.deleteMembers));
    KeptWellTyped(promoted, next, NotDeleted(change.deleteMembers), NotDeclined(change.deletePending), NotWithdrawn(change.deleteRequesting));
    if next.members != [] {
      LeaveKeepsAdmin(g, self, promote);
    }
  }

  lemma LeaveKeepsAdmin(g: Group, self: Recipient, promote: seq<Recipient>)
    requires Governed(g) && LeaveChange(g, self, promote).Ok?
    requires Left(g, LeaveChange(g, self, promote).value).members != []
    ensures AdminCount(Left(g, LeaveChange(g, self, promote).value).members) > 0
  {
    LeaveShape(g, self, promote);
    if SelfMembership(g, self).0 == FullMember {
      SoleMemberLeaves(g, self, Identities(Promotions(g.members, promote)));
      var successor := LeaverIsReplaced(g, self, promote);
      SuccessorGoverns(g, self, promote, successor);
    } else {
      assert PromotedRoles(g.members, []) == g.members;
      FilterAll(g.members, NotDeleted([]));
    }
  }

  lemma SuccessorGoverns(g: Group, self: Recipient, promote: seq<Recipient>, successor: Member)
    requires WellTyped(g) && self.aci.Canonical?
    requires successor in g.members && successor.recipient.aci != self.aci
    requires successor.role == RoleAdmin || successor.recipient in Promotions(g.members, promote)
    ensures AdminCount(Filter(PromotedRoles(g.members, Identities(Promotions(g.members, promote))), NotDeleted([Identity(self.aci)]))) > 0
  {
    var roles := PromotedRoles(g.members, Identities(Promotions(g.members, promote)));
    var i :| 0 <= i < |g.members| && g.members[i] == successor;
    PromotedIsAdmin(g.members, promote, i);
    AdminStays(roles, NotDeleted([Identity(self.aci)]), roles[i]);
  }

  /** If anyone stays after a full member leaves, the group had more than one member. */
  lemma SoleMemberLeaves(g: Group, self: Recipient, promoted: seq<Uuid>)
    requires SelfMembership(g, self).0 == FullMember
    requires Filter(PromotedRoles(g.members, promoted), NotDeleted([Identity(self.aci)])) != []
    ensures |g.members| > 1
  {
    var own := Canonical(Identity(self.aci));
    var roles := PromotedRoles(g.members, promoted);
    FoundMember(g.(pending := []), own);
    var m :| m in g.members && m.recipient.aci == own;
    FilterElement(roles, NotDeleted([Identity(self.aci)]), 0);
  }

  lemma PromotedIsAdmin(members: seq<Member>, promote: seq<Recipient>, i: nat)
    requires i < |members|
    requires members[i].role == RoleAdmin || members[i].recipient in Promotions(members, promote)
    ensures PromotedRoles(members, Identities(Promotions(members, promote)))[i].role == RoleAdmin
  {
    var promoted := Promotions(members, promote);
    if members[i].recipient in promoted {
      var k :| 0 <= k < |promoted| && promoted[k] == members[i].recipient;
      assert Identities(promoted)[k] == Identity(members[i].recipient.aci);
    }
  }

  lemma {:induction false} OwnServicesContents(pending: seq<Invitation>, self: Recipient, service: ServiceId)
    ensures service in OwnServices(pending, self)
            <==> exists p :: p in pending && SelfMatches(p.recipient, self) && ServiceOf(p.recipient) == service
  {
    if pending != [] {
      var front, last := pending[..|pending| - 1], pending[|pending| - 1];
      OwnServicesContents(front, self, service);
      assert forall p :: p in pending <==> p in front || p == last;
    }
  }

  /** Declining removes the own invitations, by ACI and by PNI, and no other entry. */
  lemma DeclineExact(g: Group, self: Recipient, promote: seq<Recipient>)
    requires WellTyped(g) && LeaveChange(g, self, promote).Ok? && SelfMembership(g, self).0 == Invited
    ensures Left(g, LeaveChange(g, self, promote).value)
            == g.(pending := Filter(g.pending, (p: Invitation) => !SelfMatches(p.recipient, self)))
  {
    var change := LeaveChange(g, self, promote).value;
    assert PromotedRoles(g.members, []) == g.members;
    FilterAll(g.members, NotDeleted([]));
    FilterAll(g.requesting, NotWithdrawn([]));
    forall p | p in g.pending ensures NotDeclined(change.deletePending)(p) == !SelfMatches(p.recipient, self) {
      OwnServicesContents(g.pending, self, ServiceOf(p.recipient));
    }
    FilterAgree(g.pending, NotDeclined(change.deletePending), (p: Invitation) => !SelfMatches(p.recipient, self));
  }

  // ----- The invariant of every run -----

  ghost predicate Keeps(g: Group, next: Group) {
    Governed(next) && (BansHold(g) ==> BansHold(next))
  }

  lemma RoleStep(g: Group, actor: Id, members: seq<Recipient>, role: Role)
    requires Governed(g)
    ensures Keeps(g, Next(g, SetRole(actor, members, role)))
  {
    if RoleChange(g, actor, members, role).Ok? { RoleChangeGoverned(g, actor, members, role); }
  }

  lemma BanStep(g: Group, actor: Id, members: seq<Recipient>, ban: bool, at: nat)
    requires Governed(g)
    ensures Keeps(g, Next(g, SetBan(actor, members, ban, at)))
  {
    if BanChange(g, actor, members, ban, at).Ok? {
      BanChangeGoverned(g, actor, members, ban, at);
      if BansHold(g) { BanChangeBans(g, actor, members, ban, at); }
    }
  }

  lemma RemoveStep(g: Group, admin: Recipient, members: seq<Recipient>)
    requires Governed(g)
    ensures Keeps(g, Next(g, Remove(admin, members)))
  {
    if Removal(g, admin, members).Ok? { RemovalGoverned(g, admin, members); }
  }

  lemma AddStep(g: Group, actor: Id, members: seq<Recipient>, asInvitation: set<Id>)
    requires Governed(g)
    ensures Keeps(g, Next(g, Add(actor, members, asInvitation)))
  {
    if AddTargets(g, actor, members).Ok? { AdditionGoverned(g, actor, members, asInvitation); }
  }

  lemma LeaveStep(g: Group, leaver: Recipient, promote: seq<Recipient>)
    requires Governed(g)
    ensures Keeps(g, Next(g, Leave(leaver, promote)))
  {
    var change := LeaveChange(g, leaver, promote);
    NextLeave(g, leaver, promote, change);
    if change.Ok? { LeaveGoverned(g, leaver, promote); }
  }

  lemma NextLeave(g: Group, leaver: Recipient, promote: seq<Recipient>, change: Result<GroupChange, GroupError>)
    requires change == LeaveChange(g, leaver, promote)
    ensures Next(g, Leave(leaver, promote)) == if change.Ok? then Left(g, change.value) else g
  {
  }

  lemma StepGoverned(g: Group, op: Operation)
    requires Governed(g)
    ensures Keeps(g, Next(g, op))
  {
    match op
    case SetRole(actor, members, role) => RoleStep(g, actor, members, role);
    case SetBan(actor, members, ban, at) => BanStep(g, actor, members, ban, at);
    case Remove(admin, members) => RemoveStep(g, admin, members);
    case Add(actor, members, asInvitation) => AddStep(g, actor, members, asInvitation);
    case Leave(leaver, promote) => LeaveStep(g, leaver, promote);
  }

  /** Over every run of role changes, bans, unbans, removals, additions and leaves, a group that still
      has a full member has an administrator, its members stay unique, and no banned user gets in. */
  lemma {:induction false} RunGoverned(g: Group, ops: seq<Operation>)
    requires Governed(g)
    ensures Governed(Run(g, ops))
    ensures BansHold(g) ==> BansHold(Run(g, ops))
  {
    if ops != [] {
      RunGoverned(g, ops[..|ops| - 1]);
      StepGoverned(Run(g, ops[..|ops| - 1]), ops[|ops| - 1]);
    }
  }
}
