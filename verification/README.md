# Verified model of go-signal's hard core

A Dafny 4.11 model of the parts of go-signal in which state, order and concurrency decide whether it is
right, with proofs about them. `dafny verify dfyconfig.toml` checks all of it.

- **Blocking** (`BlockedLists`, `StorageSnapshots`, `BlockOverrides`, `BlockOverrideRuns`, `SentLists`): local
  block and unblock decisions as overrides over the stored flags and the storage service, the complete list sent
  to the phone, and what settling does. `Client` and `BlockedList` are classes that change in place.
- **Groups** (`Groups`, `GroupChanges`, `GroupRuns`, `GroupPermissions`, `GroupAccept`): membership views, role
  changes, bans, removals, additions and leaves as methods proved against functions; runs of them; when each
  succeeds; and accepting an invitation as a protocol over operations that return anything, with a log of its calls.
- **Events** (`ClientLifecycle`, `Inbox`, `InboxWait`, `MarkRead`, `EventStream`, `SseFrames`): handing events
  out and closing, the inbox with cursors and waiting, read receipts, and the daemon's event stream with the
  client that resumes it. The concurrent ones are state machines over atomic steps.
- **Pins** (`PinReducer`): the fold over a bounded snapshot and its sorted list.
- **Mentions** (`Mentions`, `Recipients`, `MessageContent`): placeholders to UTF-16 ranges and back, and the
  resolution of everybody a message mentions in one batch.
- `Wrappers`, `Sorting` and `Seqs` are shared.

A loop in the program is a method with a loop, proved equal to a function; the lemmas say what the function means.

## Findings

- The version asked about after a background sync is the minimum over the overrides read before the settle takes
  its mutex (`internal/signal/meow_contacts.go:568-600`). An override stored in between against an older fetch may
  be below it; a "no content" answer then neither drops nor re-applies it. `NoContentReapplies` gives the exact
  condition, `LateOverrideNotReapplied` a run in which it fails.
- A mention's start is truncated to 32 bits (`internal/app/content.go:331`, which trusts the body to bound it). A
  range is right if and only if fewer than 2^32 code units come before its placeholder (`RangeCovers`), as in every
  shorter body; `FarPlaceholderMissed` is a family of bodies for which it is not. Printing gives a body back if and
  only if that holds for all of its placeholders (`PrintingUndoesParsing`).
- The client may have processed more than one entry beyond its saved cursor: `PruningLeavesTwoUnsaved` is a run in
  which an entry is pruned between a crash and the resumption. Of the retained entries only the one processed last
  can be (`BeyondCursor`), so any other was pruned (`OthersBeyondArePruned`). It still repeats at most one entry per
  crash (`ResumesWithoutGap`).
- An event can be consumed and still be on the server after Close (`internal/signal/meow.go:441-497`):
  `ConsumedAndKept` is a run in which flushing is given up before the ack is written. It is both exactly if its ack
  was lost or not written (`ClosedPartition`), and never if none was and flushing ended (`FlushedPartition`).

## Model

| member | source | states |
|---|---|---|
| BlockOverrideRuns.DecisionSurvives | internal/signal/meow_contacts.go:380-410 | Over every run of SetBlocked calls, syncs and settles: a decision made against a storage service that says otherwise stays the state shown for its user until another SetBlocked on them, a snapshot that knows them at a later version, or the TTL |
| BlockOverrideRuns.StepKeepsOverride | internal/signal/meow_contacts.go:486-516 | One step keeps the override of another user if and only if it does not overrule it, and never alters it |
| BlockOverrideRuns.OverrideSurvives | internal/signal/meow_contacts.go:486-516 | The same over any run of steps none of which overrules it |
| BlockOverrideRuns.PhoneOverrules | internal/signal/meow_contacts.go:802-829 | Once a settle sees that the phone wrote later, what the phone wrote (or a decision still protected) is shown through every run until the row of the user is written again |
| BlockOverrideRuns.ShownAgreesWithSent | internal/signal/meow_contacts.go:259-410 | After a successful SetBlocked, for a target or anyone who had an override, the state shown is the one in the list sent; needs that protected decisions on overridden users agree with overrides and flags |
| BlockOverrideRuns.ShownAgreesInRuns | internal/signal/meow_contacts.go:259-410 | So it is after every run that begins without overrides, whatever the guards |
| BlockOverrideRuns.RunConsistent | docs/maintenance.md:655-664 | Every run keeps protected decisions on overridden users, their overrides and their stored flags in agreement |
| BlockOverrideRuns.SentState | internal/signal/meow_contacts.go:296-373 | In the list sent, a user has the request if a target, else the live override that is not superseded, else the protected guard, else the storage record |
| BlockOverrideRuns.BystandersKept | internal/signal/meow_contacts.go:937-1004 | The message sent keeps every group, the exact entry of every untouched user, and every number not attributed to a touched user |
| BlockOverrideRuns.SentWithin | internal/signal/meow_contacts.go:296-373 | What the list sent changes lies within the touched users and the numbers attributed to them |
| BlockOverrideRuns.SettleMeaning | internal/signal/meow_contacts.go:486-537 | Settling leaves exactly the unexpired overrides that are not both superseded and known, writes each flag by the four cases and projected through a protected guard if it changes, and changes nobody else |
| BlockOverrideRuns.SettledShown | internal/signal/meow_contacts.go:486-537 | After settling a user is shown the override if it stays, else the protected decision, else what was seen, else the stored flag |
| BlockOverrideRuns.SettleIdempotent | internal/signal/meow_contacts.go:486-516 | Settling twice against the same snapshot is settling once |
| BlockOverrideRuns.NoContentDropsNothing | internal/signal/meow_contacts.go:604-618 | A "no content" answer drops no unexpired override, whatever version was asked about |
| BlockOverrideRuns.NoContentReapplies | internal/signal/meow_contacts.go:568-618 | A "no content" answer re-applies an unexpired override exactly when the version asked about is not later than the one of the override |
| BlockOverrideRuns.LateOverrideNotReapplied | internal/signal/meow_contacts.go:568-600 | A run after which an override stored since the minimum was taken, and undone by a sync, is not re-applied (see Findings) |
| BlockOverrideRuns.BackgroundSyncUndone | internal/signal/meow_contacts.go:568-618 | Whatever rows a background sync wrote and guards it released: if the service answers that nothing was written since, or does not answer, every unexpired override is in the flags again |
| BlockOverrideRuns.ContentSettles | internal/signal/meow_contacts.go:486-618 | After an answer with records an override is gone exactly if it expired, or the records are of a later version and know its user; then the flag is set exactly if some record blocks the user, and an override of their version or a later one is in the flags again |
| BlockOverrideRuns.ContentSettlesGuarded | internal/signal/meow_contacts.go:486-618 | The same with a protected decision, which stays in the flags |
| SentLists.SentUnblocked | internal/signal/meow_contacts.go:263-291 | After an unblock no target is in the list sent, and neither the number of one (given, else the store has) nor that of its old entry is listed without a user; in the message such a number comes only with another user who stays blocked |
| SentLists.SentBlocked | internal/signal/meow_contacts.go:263-291 | After a block each target is listed with its time and the number known last, which is not listed without a user, too; the message has both |
| SentLists.TargetsUnblocked | internal/signal/meow_contacts.go:281-283 | Unblocking takes out exactly the targets, and of the numbers without a user exactly theirs |
| SentLists.TargetBlocked | internal/signal/meow_contacts.go:281-283 | Blocking gives each target an entry with the old time or now, and the number known last or the old one; everybody else keeps the entry |
| SentLists.UndecidedEntry | internal/signal/meow_contacts.go:296-325 | A user without a protected decision or live override is in the list before the targets as the storage service has the user |
| SentLists.SentOverride | internal/signal/meow_contacts.go:296-325 | Somebody who is no target is listed as the live override says, with the stored number and the time of the decision when newly blocked; a number it frees is not listed without a user |
| SentLists.SentGuarded | internal/signal/meow_contacts.go:331-373 | Somebody with only a protected decision is listed as that says, keeping the entry or with the stored number and now |
| SentLists.SentNumbers | internal/signal/meow_contacts.go:897-924 | A number of none of the touched users is listed without a user as the protected decision on somebody known by PNI only says, else as in the storage service |
| SentLists.GuardsFail | internal/signal/meow_contacts.go:331-373 | The protected decisions fail exactly if the number of a blocked user known by PNI only is unknown or a lookup fails; the first one says which |
| BlockOverrides.SettledAlongAll | internal/signal/meow_contacts.go:486-516 | Settling the overrides one after another, in the order of the store, settles each on its own |
| BlockOverrides.Client.ApplyBlocked | internal/signal/meow_contacts.go:259-291 | Sends the message of the specified list (see SentUnblocked and SentBlocked) and only then changes the store; an incomplete fetch, an unresolvable guard or a failed send leaves the store alone |
| BlockOverrides.Client.StoreBlocked | internal/signal/meow_contacts.go:380-410 | The new flags, guards and overrides are the recorded targets followed by settling the others |
| BlockOverrides.Client.WriteFlag | internal/signal/meow_contacts.go:446-461 | Writes a flag that differs, with the protected value if there is one |
| BlockOverrides.Client.SetRecipientBlocked | docs/maintenance.md:661-664 | Arms the guard of the user again with the new value, then writes the flag |
| BlockOverrides.Client.SettleOverrides | internal/signal/meow_contacts.go:486-516 | The loop over the overrides computes the settled state |
| BlockOverrides.Client.SettleOverride | internal/signal/meow_contacts.go:486-548 | One override: expired, superseded and known, superseded only, or re-applied |
| BlockOverrides.Client.SettleAnswer | internal/signal/meow_contacts.go:568-618 | Settles against the snapshot an answer stands for: none, an empty one at the version asked about, or the records (see ContentSettles) |
| BlockOverrides.Client.SyncCheck | internal/signal/meow_contacts.go:568-600 | Whether a sync touched an overridden user, and the least version over all overrides |
| BlockOverrides.Client.PendingBlockedList | internal/signal/meow_contacts.go:296-325 | A clone of the fetched list with the guards and then the pending overrides applied; the fetched list is not changed |
| BlockOverrides.Client.ProtectBlocked | internal/signal/meow_contacts.go:331-373 | Applies the protected guards in place, and reports the first that cannot be |
| BlockOverrides.Client.ApplySetPni | internal/signal/meow_contacts.go:897-924 | Blocks or unblocks a user known by PNI through the number the store has for it, or reports that the lookup failed |
| BlockOverrides.Client.PendingOverrides | internal/signal/meow_contacts.go:651-670 | The unexpired overrides with their blocked states |
| BlockOverrides.Client.ShownBlocked | internal/signal/meow_contacts.go:673-679 | The state shown is the unexpired override, else the stored flag |
| BlockedLists.BlockedList.Set | internal/signal/meow_contacts.go:937-963 | In place: one user blocked or unblocked, with the number kept or removed as specified |
| BlockedLists.BlockedList.Clone | internal/signal/meow_contacts.go:926-928 | A fresh list with the same value |
| BlockedLists.BlockedList.ToSyncMessage | internal/signal/meow_contacts.go:968-1004 | The message lists users, numbers and groups in ascending order, the number of a user before numbers without one |
| BlockedLists.MessageContents | internal/signal/meow_contacts.go:968-1004 | A message carries exactly the users, groups and numbers of its list |
| Sorting.StringLessMeaning | internal/signal/meow_contacts.go:968-1004 | The order of numbers and groups: a proper prefix comes first, else the lesser character where two first differ |
| BlockedLists.SetStaysWithin | internal/signal/meow_contacts.go:937-963 | One change stays within its user and the numbers attributed to them |
| BlockedLists.UnrelatedNumberKept | internal/signal/meow_contacts.go:937-963 | A number outside the attributed ones is in the new message exactly when it was in the old one |
| StorageSnapshots.ReadStorage | internal/signal/meow_contacts.go:744-782 | Reading the records one by one gives the specified snapshot |
| StorageSnapshots.CompleteStorage | internal/signal/meow_contacts.go:787-798 | The same for a fetch that must be complete, with its errors |
| StorageSnapshots.ReadRecordsMeaning | internal/signal/meow_contacts.go:744-782 | A user, number or group is blocked exactly when some record blocks it, a user is read exactly when a contact record names them, and a problem is reported exactly when records are missing or cannot be carried |
| StorageSnapshots.ReadEntries | internal/signal/meow_contacts.go:856-892 | The last record that blocks a user or number gives its number and time; groups have no time |
| StorageSnapshots.ReadProblem | internal/signal/meow_contacts.go:744-782 | A problem is reported exactly if a record is missing or cannot be sent: missing records first, then the first record that cannot |
| StorageSnapshots.CompleteUpdateMeaning | internal/signal/meow_contacts.go:787-829 | A fetch passes as complete exactly when every record was read, each blocked contact has an ACI or a number and each blocked group a key and ID; then every user is known by whether a record blocks them |
| GroupRuns.RunGoverned | internal/signal/groups.go:281-358 | Over every run of role changes, bans, unbans, removals, additions and leaves: a group that still has a full member has an administrator, member ACIs stay unique, and no banned user is a member, invited or requesting |
| GroupRuns.StepGoverned | internal/signal/groups.go:281-358 | The same for one step |
| GroupRuns.RoleChangeExact | internal/signal/groups_roles.go:23-62 | Exactly the named members get the role; the revision advances by one if and only if some role differs |
| GroupRuns.RoleChangeGoverned | internal/signal/groups_roles.go:23-62 | A role change keeps uniqueness, an administrator and the bans |
| GroupRuns.BanChangeBanned | internal/signal/groups_bans.go:19-62 | After a ban exactly the targets join the banned, after an unban exactly they leave |
| GroupRuns.BanChangeActive | internal/signal/groups_bans.go:19-103 | A ban leaves no target a member, invited by ACI or requesting; every other entry stays; an unban changes none |
| GroupRuns.BanTimesKept | internal/signal/groups_bans.go:19-62 | Existing bans keep their order and times |
| GroupRuns.BanRevision | internal/signal/groups_bans.go:19-108 | The revision advances by exactly one if and only if one of the four lists changed, although only lengths are compared |
| GroupRuns.BanChangeGoverned | internal/signal/groups_bans.go:19-62 | A ban change keeps uniqueness and an administrator |
| GroupRuns.BanChangeBans | internal/signal/groups_bans.go:19-62 | A ban change keeps "no banned user is a member, invited or requesting" |
| GroupRuns.RemovalExact | internal/signal/groups_remove.go:86-170 | A removal removes exactly the entries whose typed identity is named; all others stay in order, also a PNI invitation with the UUID of a removed ACI |
| GroupRuns.RemovalKeepsActor | internal/signal/groups_remove.go:95-126 | The acting administrator keeps the own membership, role and invitations |
| GroupRuns.RemovalGoverned | internal/signal/groups_remove.go:86-126 | A removal keeps uniqueness, an administrator and the bans |
| GroupRuns.AddTargetsMeaning | internal/signal/groups_add.go:8-50 | Targets of an addition are distinct, usable, named, not banned, and neither members nor invited |
| GroupRuns.AdditionGoverned | internal/signal/groups_add.go:8-50 | An addition keeps uniqueness, an administrator and the bans |
| GroupRuns.NewAdminsArePromotions | internal/signal/groups.go:343-358 | With unique members, the check counts exactly the members that the leave change promotes |
| GroupRuns.LeaverIsReplaced | internal/signal/groups.go:316-358 | When a full member may leave a group with others, another member is or becomes an administrator |
| GroupRuns.LeaveGoverned | internal/signal/meow_groups.go:419-460 | A leave with its promotions keeps uniqueness, an administrator of what is left, and the bans |
| GroupRuns.DeclineExact | internal/signal/meow_groups.go:462-473 | Declining removes all own ACI and PNI invitations and only those |
| GroupPermissions.RoleChangeAllowed | internal/signal/groups_roles.go:23-86 | By the entries of the group: a role change succeeds exactly for an administrator who names full members, if an administrator remains and the revision can advance when it must |
| GroupPermissions.RoleChangeRefused | internal/signal/groups_roles.go:23-86 | The error in each other case, in the order of the checks |
| GroupPermissions.RoleChangeReports | internal/signal/groups_roles.go:23-62 | It reports the actor as a full member with the role the actor has afterwards |
| GroupPermissions.BanChangeAllowed | internal/signal/groups_bans.go:19-84 | A ban or unban succeeds exactly for an administrator who does not name the own ACI, if the revision can advance when something changes |
| GroupPermissions.BanChangeRefused | internal/signal/groups_bans.go:19-84 | The error in each other case |
| GroupPermissions.BanChangeReports | internal/signal/groups_bans.go:19-62 | It reports the actor as an administrator |
| GroupPermissions.RemovalAllowed | internal/signal/groups_remove.go:86-146 | A removal succeeds exactly for an administrator who names usable users with an entry in the group, and no own identity |
| GroupPermissions.RemovalRefused | internal/signal/groups_remove.go:86-146 | The error in each other case |
| GroupPermissions.AdditionAllowed | internal/signal/groups_add.go:8-50 | An addition succeeds exactly for an administrator, or a member where members may add and nobody named asks to join, if nobody new is banned; exactly the named who are neither members nor invited are added |
| GroupPermissions.AdditionRefused | internal/signal/groups_add.go:8-50 | The error in each other case |
| GroupPermissions.LeaveAllowed | internal/signal/groups.go:299-358 | Leaving succeeds exactly for somebody in the group; only an administrator promotes, only other members, and must unless alone or another administrator remains |
| GroupPermissions.LeaveRefused | internal/signal/groups.go:299-358 | The error in each other case |
| GroupPermissions.WithdrawExact | internal/signal/meow_groups.go:419-440 | Leaving as a requester removes exactly the own request |
| GroupPermissions.MemberLeaves | internal/signal/meow_groups.go:419-460 | When a full member leaves exactly the leaver goes; the others stay, those promoted as administrators |
| GroupChanges.NormalizeGroupRemovalMembers | internal/signal/groups_remove.go:17-52 | Usable typed identities, the first of each, or the error |
| GroupChanges.NormalizeGroupMembers | internal/signal/groups_remove.go:54-76 | Usable ACIs, the first of each, or the error |
| GroupChanges.DistinctByAciUnique | internal/signal/groups_remove.go:54-76 | Normalized members have distinct ACIs |
| GroupChanges.NormalizedNames | internal/signal/groups_remove.go:54-76 | Normalizing names exactly the same ACIs |
| GroupChanges.MemberRoleTargets | internal/signal/groups_roles.go:65-86 | Succeeds if and only if the actor administers and every target is a full member; each failing case has its error |
| GroupChanges.SetRoles | internal/signal/groups_roles.go:23-62 | Writes the role of each target and reports whether any role changed |
| GroupChanges.WithMemberRole | internal/signal/groups_roles.go:23-62 | The role change, its guards, the last-administrator check and the bounded revision |
| GroupChanges.BanTargets | internal/signal/groups_bans.go:64-84 | Succeeds if and only if the actor administers and is not a target; each failing case has its error |
| GroupChanges.WithBannedMembers | internal/signal/groups_bans.go:19-62 | The ban change with its guards, the last-administrator check and the bounded revision |
| GroupChanges.RemovalMembershipTargets | internal/signal/groups_remove.go:128-146 | The typed entries of the group that a removal of one recipient means |
| GroupChanges.MatchAll | internal/signal/groups_remove.go:95-126 | All matched entries, or the error if somebody is the actor or not in the group |
| GroupChanges.FindRemovalTargets | internal/signal/groups_remove.go:95-126 | The removal targets with all guards in order |
| GroupChanges.WithRemovedMembersAs | internal/signal/groups_remove.go:86-93 | The group without its targets |
| GroupChanges.FindAddable | internal/signal/groups_add.go:8-40 | The targets not in the group or invited yet, or the permission error |
| GroupChanges.CheckAddMembers | internal/signal/groups_add.go:8-40 | The addition targets with all guards in order |
| GroupChanges.CheckedBannedAddTargets | internal/signal/groups_add.go:42-50 | Refuses if some target is banned |
| GroupChanges.NewAdmins | internal/signal/groups.go:343-358 | Counts the distinct promoted ACIs that are no administrators yet, or refuses |
| GroupChanges.PrepareLeave | internal/signal/groups.go:306-339 | The group with the own membership and role, or the problem with leaving |
| GroupChanges.BuildLeaveChange | internal/signal/meow_groups.go:419-460 | The change of a leave: promotions and deletion, declines, or withdrawal |
| GroupChanges.DeclineInvitations | internal/signal/meow_groups.go:462-473 | The service IDs of all own invitations |
| Groups.Admins | internal/signal/groups.go:282-292 | Counts the administrators |
| Groups.NoOpIffFullMember | internal/signal/groups_accept.go:139-178 | Accepting is a no-op exactly when SelfMembership is a full member |
| Groups.AcceptMeaning | internal/signal/groups_accept.go:139-214 | By the entries of the group: accepting succeeds exactly with a usable ACI, no full membership, invitations that offer a role, at most one by ACI and one by PNI and one at all, no own ban or request and a revision below the last; the ACI comes before the PNI; and the result in each other case |
| Groups.PendingMeaning | internal/signal/groups_accept.go:180-214 | The invitation to accept is the one by ACI, else the one by PNI, else none, unless they contradict each other |
| Groups.SelfMembershipMeaning | internal/signal/groups.go:255-279 | Own membership is full, invited by ACI or PNI, or requesting, by the entries of the group |
| Groups.SelfMatchesMeaning | internal/signal/groups_accept.go:119-132 | An entry is an own one exactly if it is the usable own ACI or PNI alone |
| Groups.AcceptedInvitation | internal/signal/groups_accept.go:180-214 | A returned identity names exactly one invitation, SelfMembership is invited with its role, and the PNI is used only without an ACI invitation |
| Groups.OwnInvitationRole | internal/signal/groups.go:255-279 | The role SelfMembership reports is the one of the first own invitation, ACI before PNI |
| Groups.CheckAcceptInvitation | internal/signal/groups_accept.go:139-178 | The decision of accepting, with its errors |
| Groups.PendingAcceptInvitation | internal/signal/groups_accept.go:180-214 | The one own invitation to accept, or the error of none or several |
| GroupAccept.AcceptGroupWithOperations | internal/signal/meow_groups_accept.go:99-168 | Every run, whatever the operations return, is a run of the stages, ends by invalidating the cache, and its result is what the calls give evidence for; it ends early only with the error its last call explains, or by a cancelled context at the check that comes next |
| GroupAccept.SubmitGroupAcceptance | internal/signal/meow_groups_accept.go:170-194 | One accept call; the evidence gets its answer, with changed and accepted set together; each error has its cause |
| GroupAccept.CompleteGroupAcceptance | internal/signal/meow_groups_accept.go:222-280 | Fresh fetch, verification, caching, then notification; the proof is added to the evidence, and each error has its cause |
| GroupAccept.ResolveAcceptanceKey | internal/signal/meow_groups_accept.go:197-219 | A key counts only if the ID derives from it |
| GroupAccept.CheckAcceptSnapshot | internal/signal/meow_groups_accept.go:294-324 | True exactly for a snapshot of the requested key and ID whose every identity is usable |
| GroupAccept.CheckedConversion | internal/signal/meow_groups_accept.go:294-324 | A checked snapshot converts without loss: each entry has the identity, kind and role of its record |
| GroupAccept.AcceptedAndNotifiedOnce | internal/signal/meow_groups_accept.go:99-168 | Accept and Notify are each called at most once |
| GroupAccept.AcceptFollowsDecision | internal/signal/meow_groups_accept.go:99-168 | Accept follows directly a fetch of the requested group and key that decided for it, at that revision and as that identity |
| GroupAccept.AcceptOnlyInvited | internal/signal/meow_groups_accept.go:99-168 | Accept is called only for somebody invited, never for a full member |
| GroupAccept.NotifiedAfterProof | internal/signal/meow_groups_accept.go:222-280 | Notify comes only after the confirmed acceptance, a fresh fetch at that revision or later that shows there is nothing left to do, and caching |
| GroupAccept.ChangedEqualsAccepted | internal/signal/meow_groups_accept.go:99-194 | Changed equals Accepted, and both say what the server answered |
| GroupAccept.VerifiedByLastFetch | internal/signal/meow_groups_accept.go:222-280 | No error implies Verified, and Verified means that the last fetch, of the requested group and after any acceptance, proves it |
| GroupAccept.VerifiedMeansMember | internal/signal/meow_groups_accept.go:222-280 | A verified result rests on a fetch that shows full membership at the reported revision |
| GroupAccept.ExposedIdIsBound | internal/signal/meow_groups_accept.go:197-219 | An ID is exposed only if derived from the stored key; then the cache is invalidated before each fetch and on exit |
| ClientLifecycle.NothingSentAfterClose | internal/signal/meow.go:292-331 | Once the events channel is closed nobody is at sending on it |
| ClientLifecycle.ReleasedWhenIdle | internal/signal/meow.go:418-439 | When the store is released no handler or operation runs, and none can begin |
| ClientLifecycle.EventsConserved | internal/signal/meow.go:674-733 | Each event that arrived is on the server or was taken by the consumer; each time it was taken its ack was lost, except one that is being returned, on its way or written |
| ClientLifecycle.ClosedPartition | internal/signal/meow.go:292-331 | After Close each event is consumed or still on the server; it is both exactly when the server still has it and its ack was queued but never written, or lost |
| ClientLifecycle.FlushedPartition | internal/signal/meow.go:441-497 | If no ack was lost and flushing was not given up, each event is after Close consumed once or on the server, never both |
| ClientLifecycle.ConsumedAndKept | internal/signal/meow.go:441-497 | A run of a handler, the consumer and Close, with flushing given up before the ack was written, after which an event is both (see Findings) |
| ClientLifecycle.StepKeepsInvariant | internal/signal/meow.go:292-331 | Every step of handlers, operations, supervisor, consumer and Close keeps the invariant |
| ClientLifecycle.RunKeepsInvariant | internal/signal/meow.go:292-331 | So does every run |
| ClientLifecycle.StepsReduceWork | internal/signal/meow.go:292-331 | Once Close has begun no step adds work |
| ClientLifecycle.CloseNotStuck | internal/signal/meow.go:292-331 | While Close has not returned, something it waits for can go on without the consumer or the server |
| ClientLifecycle.RunsAreBounded | internal/signal/meow.go:292-331 | In any run once Close has begun, whatever the schedule, the steps other than arrivals and those of a supervisor not yet stopped are at most as many as the work left |
| ClientLifecycle.MaximalRunsClose | internal/signal/meow.go:292-331 | Once the supervisor is stopped every run without arrivals has at most as many steps as there is work left, and a run after which only arrivals are possible has closed the client |
| ClientLifecycle.CloseCompletes | internal/signal/meow.go:292-331 | From every state in which Close has begun, it completes in as many steps as there is work left, without the consumer and without an ack reaching the server, and no handler stays blocked |
| Inbox.PageMeaning | internal/app/inbox.go:145-184 | A page after a cursor has the oldest entries that follow, its cursor, and says whether there are more |
| Inbox.NewestPage | internal/app/inbox.go:145-184 | Without a cursor a page has the newest entries, and nothing wanted lies behind its cursor |
| Inbox.SincePage | internal/app/inbox.go:145-184 | With a time but no cursor a page has the oldest entries not before the time, its cursor, and says whether there are more |
| Inbox.SincePaging | internal/app/inbox.go:145-184 | Paging on from it yields every entry not before the time, each once and in order |
| Inbox.FollowingContents | internal/app/inbox.go:145-184 | Those are exactly the entries of the chat after the cursor and not before the time |
| Inbox.PageSize | internal/app/inbox.go:151-156 | A page has at most the entries asked for, 50 by default and 200 at most |
| Inbox.PagingCoversAll | internal/app/inbox.go:145-184 | Paging with the cursor of each page yields every entry that follows, each once and in order |
| Inbox.LatestIsLast | internal/app/inbox.go:459-470 | The latest cursor is the newest entry of any chat |
| InboxWait.NoLostWakeup | internal/app/inbox.go:206-224 | In every interleaving: if a retained entry that a blocked client wants has been announced, its channel is closed; woken, it returns a page that begins no later than that entry |
| InboxWait.WaitingLeavesNoGap | internal/app/inbox.go:189-225 | Over any run, a client that waits on the cursor of each page before is given each entry at most once and in order, and was given exactly the retained wanted ones up to its cursor |
| InboxWait.WaitStarts | internal/app/inbox.go:197-204 | A client waits from its cursor on, and without one from the newest entry of any chat |
| InboxWait.StepKeepsInvariant | internal/app/inbox.go:399-433 | Adding, pruning, marking, announcing and every step of Wait keep the invariant |
| InboxWait.RunKeepsInvariant | internal/app/inbox.go:399-433 | So does every run |
| MarkRead.OneReceiptPerSender | internal/app/receipts.go:34-51 | Every sender of an incoming message gets exactly one receipt with exactly its distinct timestamps; nobody else gets one |
| MarkRead.BatchGroups | internal/app/receipts.go:34-51 | Adding event by event gives the grouping by sender, in the order of first messages |
| MarkRead.ReadReceipts.Add | internal/app/receipts.go:34-51 | The queue afterwards, and whether the event was queued |
| MarkRead.Client.MarkRead | internal/app/inbox.go:259-299 | One receipt per sender is submitted; then exactly the unread records whose receipt succeeded are marked and counted; an explicit zero cursor and an invalid one do nothing |
| MarkRead.Client.SubmitAll | internal/app/inbox.go:270-289 | Each receipt is submitted once; the marks are those of the ones that succeed |
| MarkRead.Client.InboxMarkRead | internal/store/inbox.go:166-193 | All marks at once or nothing; every record counts once even if several marks name it |
| MarkRead.MarkedIffReceiptSucceeded | internal/app/inbox.go:259-299 | The message of a selected incoming entry is marked if and only if the one receipt of its sender succeeded |
| MarkRead.OnlySelectedMarked | internal/app/inbox.go:259-299 | Only messages of selected incoming entries are marked |
| MarkRead.OnlyMessagesMarked | internal/store/inbox.go:166-193 | A record that is marked is of a message with the sender and timestamp of a selected incoming one |
| MarkRead.SelectedForMarking | internal/app/inbox.go:380-397 | The selected entries are exactly the unread ones of the chat up to the cursor |
| EventStream.ResumesWithoutGap | scripts/daemon-example.py:94-131 | Over any number of lost connections and crashes the client processes entries of its chat in order, repeats at most one per crash, and has processed every retained one up to its saved cursor |
| EventStream.CatchesUp | internal/daemon/events.go:71-101 | A client that has read everything when the next page is empty has processed and saved every retained entry |
| EventStream.StepKeepsInvariant | scripts/daemon-example.py:94-131 | Every step of the daemon, the connection and the client keeps the invariant |
| EventStream.StartsAtTail | internal/daemon/events.go:50-69 | A stream without a cursor starts after the newest entry of any chat, with an empty page |
| EventStream.PageAdded | internal/daemon/events.go:71-101 | A further page puts everything retained between two cursors in flight, in order |
| EventStream.Dropped | internal/daemon/events.go:71-101 | Losing the rest of what is in flight skips nothing |
| EventStream.HeaderOverrides | internal/daemon/messages.go:115-130 | A Last-Event-ID overrides the cursor of the query, whatever both are; an unusable one is refused, and without one the one cursor of the query counts |
| EventStream.BeyondCursor | scripts/daemon-example.py:94-131 | A retained entry beyond the saved cursor was processed if and only if it is the one processed last |
| EventStream.OthersBeyondArePruned | scripts/daemon-example.py:94-131 | Any other entry processed beyond the saved cursor is no longer retained |
| EventStream.PruningLeavesTwoUnsaved | scripts/daemon-example.py:94-131 | A run with one crash after which two entries are processed beyond the saved cursor (see Findings) |
| SseFrames.RoundTrip | internal/daemon/events.go:103-143 | The parser of the client applied to the bytes of the daemon yields exactly the named events, in order, with their IDs and data (section 9.2 of the HTML Standard) |
| SseFrames.CutStream | scripts/daemon-example.py:70-91 | When the connection breaks anywhere within a frame, exactly the events of the complete frames were yielded |
| SseFrames.SseEvents | scripts/daemon-example.py:70-91 | The loop over the lines computes the events of the response |
| SseFrames.FieldLine | scripts/daemon-example.py:83-91 | A line of a field sets it to the value, with one leading space taken off |
| PinReducer.PinList | internal/app/pin_list.go:44-97 | The list and the counts are those of the newest entries of the whole chat up to the scan limit, and the snapshot says whether there are older ones; a limit out of range is refused |
| PinReducer.BoundSnapshot | internal/app/pin_list.go:105-118 | Keeps the newest entries up to the limit, sorted by ID, and says what was scanned and whether it truncated |
| PinReducer.NewestOfChat | internal/app/pin_list.go:68-73 | Asking for one entry more than the limit is enough to keep the newest of the whole chat and to know whether there are older ones |
| PinReducer.NewestMeaning | internal/app/pin_list.go:182-212 | The observation of a target is of its newest valid pin or unpin that does not reuse an identity |
| PinReducer.NewestNone | internal/app/pin_list.go:182-212 | A target without one is not listed |
| PinReducer.ListedMeaning | internal/app/pin_list.go:182-240 | What is listed describes the newest entry that concerns its target: a pin for some seconds expires that long after it was received, one forever and an unpin never, and the target is deleted exactly if its author deleted it |
| PinReducer.IgnoredMeaning | internal/app/pin_list.go:145-240 | Ignored counts exactly the invalid pins, and the deletes, pins and unpins of the chat that lack a usable sender, author, timestamp, target, time or duration |
| PinReducer.ConflictsMeaning | internal/app/pin_list.go:196-202 | Conflicts counts exactly the later reuses of an identity with another payload |
| PinReducer.DeleteMoves | internal/app/pin_list.go:172-180 | Moving a delete to another place changes neither the list nor the counts |
| PinReducer.OutputUnique | internal/app/pin_list.go:249-262 | There is one possible list, whatever order the map is traversed in |
| PinReducer.DurationFits | internal/app/pin_list.go:206-209 | The expiry of any 32-bit number of seconds fits a signed 64-bit number of nanoseconds |
| PinReducer.Reducer.Observe | internal/app/pin_list.go:145-170 | The maps and counters stay those of the entries observed so far |
| PinReducer.Reducer.ObserveDelete | internal/app/pin_list.go:172-180 | The same for a delete |
| PinReducer.Reducer.ObserveValid | internal/app/pin_list.go:182-212 | The same for a pin or unpin |
| PinReducer.Reducer.Finalize | internal/app/pin_list.go:249-262 | Each target once, with whether it was deleted, strictly ascending by author and timestamp |
| Mentions.ParseMentions | internal/app/content.go:310-343 | The loop gives the rewritten body, the starts as 32-bit numbers, and the users |
| Mentions.RewrittenMeaning | internal/app/content.go:310-343 | Exactly the placeholders of users are replaced, and offsets and users are theirs |
| Mentions.RangeCovers | internal/app/content.go:310-352 | Offsets increase; in UTF-16 the one unit from the start of a range is the 0xFFFC of its placeholder, with exactly the text before it encoded before it, if and only if fewer than 2^32 units come before it, as in every body shorter than that |
| Mentions.PrintingReplaces | internal/output/mentions.go:14-54 | If fewer than 2^32 code units come before each placeholder, printing what was parsed puts the name of each recipient in the place of its placeholder, skipping none |
| Mentions.ShortBodyFits | internal/app/content.go:329-332 | In a body of fewer than 2^32 code units every placeholder begins that early |
| Mentions.PrintingUndoesParsing | internal/output/mentions.go:14-54 | With the original {recipient} texts as names, printing gives the original body back if and only if fewer than 2^32 code units come before each placeholder |
| Mentions.FarPlaceholderMissed | internal/app/content.go:329-332 | The placeholder of a self mention after n letters, for any n of 2^32 or more, is not covered by its range (see Findings) |
| Mentions.Utf16Len | internal/app/content.go:346-353 | The length of a text in UTF-16 code units |
| Mentions.Utf16Decodes | internal/app/content.go:346-353 | The UTF-16 encoding of a text (surrogate pairs from 0x10000) decodes back to it and is as long as computed (section 2 of RFC 2781) |
| Mentions.FindAllMeaning | internal/app/content.go:42 | The matches found are exactly the occurrences of the pattern |
| Mentions.BoundaryMeaning | internal/output/mentions.go:19-27 | A code unit begins at a position exactly if that many come before it in UTF-16 |
| Mentions.PrintedFirst | internal/output/mentions.go:37-50 | A range between two positions, neither empty nor of nobody nor before what is printed, is printed as the name in the place of its text; any other is left alone |
| Mentions.MentionText | internal/output/mentions.go:14-54 | The printer computes the specified text: invalid and overlapping ranges leave the text intact |
| Mentions.Boundaries | internal/output/mentions.go:19-27 | The map has exactly the code units at which a character or the end begins |
| Mentions.SortedByStart | internal/output/mentions.go:29-30 | The sort is by start |
| Mentions.StableSortedMeaning | internal/output/mentions.go:29-30 | Ranges with the same start stay in their order |
| Mentions.PiecesCovered | internal/app/content.go:323-338 | Every placeholder is the one code unit at its offset |
| Mentions.FindAllInOrder | internal/app/content.go:42 | Matches of the pattern lie one after the other |
| MessageContent.ResolveContent | internal/app/content.go:398-443 | Resolved in one batch, mention i keeps the user of placeholder i in body and quote, and the quote its author; an invalid quote is refused, resolution fails exactly if there is somebody to resolve and the account or the lookup fails, and otherwise it succeeds |
| MessageContent.ResolvedMentions | internal/app/content.go:445-458 | A range per mention for the target at the same place |
| Recipients.ResolveUsers | internal/app/recipient.go:136-157 | In place: each target becomes what it resolves to by itself; fails exactly if the account or the lookup of the unknown ones does |
| Recipients.ResolvedMeaning | internal/app/recipient.go:136-195 | A group stays; self, the own ACI and the own number become note-to-self; another user keeps a known ACI and is looked up without one |
| Recipients.LookUp | internal/app/recipient.go:142-156 | One lookup of exactly the unknown users, written back by index, leaves every other target alone |
| Recipients.MarkSelf | internal/app/recipient.go:161-189 | In place: own targets become note-to-self; returns the indices of the unknown users in order |
| Recipients.Dedupe | internal/app/recipient.go:198-218 | In place: compacts to the first target of each key, in order |
| Recipients.DedupedMeaning | internal/app/recipient.go:198-218 | Keys are distinct afterwards |
| Recipients.DedupedKeeps | internal/app/recipient.go:198-218 | The first target of each key is kept |
| Recipients.SameKey | internal/app/recipient.go:198-218 | Targets are duplicates exactly if they are the same group, or users with the same ACI |

## Left out

- Commands, flags, configuration, HTTP routing and authentication, MCP, and rendering other than mentions: plumbing.
- signalmeow, libsignal, HPKE, protobuf, JSON, SQLite and account locks: maps and sequences, or operations that return anything.
- UUID, base64, cursor and recipient parsing: identities are canonical values or marked as unusable; cursors are numbers or invalid; ParseRecipient, ParseQuote and group references are parameters. CheckGroupAcceptReference is a flag.
- The mention pattern is a function with the matches of the regular expression; other patterns are not part of this model.
- Positions in texts count Unicode scalar values where the program counts bytes; invalid UTF-8 is left out.
- Errors are tags: their texts, wrapping and joining are left out, as is logging.
- Store writes of blocking succeed: their failures are only logged and the next settle repeats them. The stored flags are the set of blocked users; creating recipient rows is left out. Guards on users are modelled at every write of a row; a sync may release any of them, where the program releases those that the phone confirmed. Rows known by PNI only are left out.
- Time is a parameter. Timeouts, heartbeats and backoff are steps that may happen at any time.
- ClientLifecycle: Connect still running when Close begins, internal events that are acked without the consumer, delivery receipts, and an envelope whose ack the server wrote but did not confirm are left out; steps are atomic and on values, not in place.
- SseFrames.CutStream: cuts fall between characters. A cut within a character makes the client's decoding fail, which ends it like a crash.
- GroupAccept.Converted: membership and access fields keep their defaults; the decisions use SelfMembership, which does not read them.
- InboxWait and EventStream: steps are atomic and on values, not in place. The two queries of a page without a cursor are one step. The files and sockets are values; saving the cursor to the file and to memory is one step, as a crash between them is one before or after.
- GroupRuns: what the server makes of an addition or a leave (`Added`, `Left`) is this model's reading of the changes sent; the revision it gives is left out. Accepting into a group without members is outside the runs.
- MarkRead.Client.MarkRead: other changes of the inbox between selecting and marking are left out; the result of marking is stated for the records at that time.
- PinReducer: events carry only what the reducer reads; cancellation is left out. The list is sorted by its targets, which determine the order, instead of by a comparison of observations.
- Recipients: caching and contact discovery are behind the lookup, which is a function of each recipient, with failure depending on all that are asked about.
- Rename, profiles, stickers, stories, polls, attachments and group links: they would only add easy members.
