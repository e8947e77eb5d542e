# Member store index: a Dafny model of the group membership trust chain

Every group in berty keeps a replicated member log. Each entry is a signed claim:
"device D, acting for member M, was invited by the device whose public key is I".
The member store index (`go/internal/orbitutil/member_store_index.go`) turns that
log into the group's member list. It works like this:

- It rescans the whole log on every update.
- It decodes each entry the first time its hash is seen and never decodes it again.
- It classifies the entry. A **root** is an entry invited by the group's own public
  key (the founding key). An **invited** entry is one whose inviter is the device
  of some indexed entry.
- It links a validated entry to the entry of its inviter (its **parent**). The
  parent records the entry as a **child**.
- Once the chain of validated parents reaches a root, it promotes the entry to
  **fully valid** and appends its member device to the member list. It then
  revisits the children that were waiting on that entry.

The project has four modules:

- `MemberLog` (`member_log.dfy`): the log entry, keys, hashes and check outcomes,
  shared by the others.
- `EntryPayload` (`entry_payload.dfy`): the payload and the chain of
  decoding gates. The external decoding steps are carried by a `Codec` value of
  total functions.
- `TrustChain` (`trust_chain.dfy`): the index entry, the walk `hasAllParentsValid`
  makes, and the lemmas about chains to a root. These are the pigeonhole
  exactness of a bounded walk, the as-written unbounded walk, and the
  monotonicity of the index.
- `MemberIndex` (`member_index.dfy`): the class `MemberStoreIndex`. Its fields are
  `entries`, a map from log hash to index entry, and `members`, the member list.
  It also has a ghost ledger `validated` of promoted hashes. Its methods follow
  `UpdateIndex`, `validateEntry`, `findParent` and the two checks. They keep one
  invariant, `Valid()`, which says:
  - decoded claims are well formed;
  - a root is exactly a validated entry whose inviter is the founding key;
  - any other validated entry is linked to a parent, an indexed entry whose device
    is its inviter;
  - a fully valid entry has a chain of validated parents to a root;
  - parent and child links agree and are made only to the inviter's device;
  - `members` lists the member device of each fully valid entry exactly once, in
    the order of promotion.

Between calls the index also keeps every entry **settled**. A validated entry
that is not fully valid is not a root, and its parent is not fully valid. With
every entry settled, each validated entry whose chain reaches a root is fully
valid, and every ancestor of a fully valid entry is fully valid. `validateEntry`
unsettles only the children of an entry it promotes, and its recursion
re-settles them before it returns.

Parent and child links become hashes into the entry map. Go's map iteration
order becomes an arbitrary choice (`:|`) in `FindDevice`.

## Model

| member | source | states |
|---|---|---|
| EntryPayload.Decode | go/internal/orbitutil/member_store_index.go:98-118 | A claim (an inviter key) exists exactly when no gate failed. A claim is built from the outputs of the gates on one opened payload that passed the structure check. Each of the five errors holds exactly when its gate is the first to fail. Each error keeps exactly the fields the gates before it filled in: the opened payload after the structure check, the member device after its conversion. The other fields stay empty. |
| TrustChain.Shortest | go/internal/orbitutil/member_store_index.go:157-171 | Pigeonhole: any chain of validated parents to a root is at most one link shorter than the number of entries. |
| TrustChain.HasAllParentsValidExact | go/internal/orbitutil/member_store_index.go:157-171 | The walk bounded by the number of entries succeeds exactly when some finite chain of validated parents reaches a root. |
| TrustChain.HasAllParentsValidUnfold | go/internal/orbitutil/member_store_index.go:157-171 | The corrected `hasAllParentsValid` answers step by step as the source does. It is true at a root. It is false without a linked, validated parent. Otherwise it gives the parent's answer. |
| TrustChain.ChildOfValid | go/internal/orbitutil/member_store_index.go:147-171 | A child linked to a validated parent whose chain reaches a root also has a chain to a root. This is why revisiting children promotes them. |
| TrustChain.AsWrittenAgrees | go/internal/orbitutil/member_store_index.go:157-171 | Whenever the unbounded recursion as written returns, it returns what the bounded walk returns. |
| TrustChain.SelfInviteDiverges | go/internal/orbitutil/member_store_index.go:157-171 | For a validated non-root entry that is its own parent, the recursion as written never returns, and the bounded walk answers false. |
| TrustChain.SelfLoopNeverRoots | go/internal/orbitutil/member_store_index.go:157-171 | A non-root entry that is its own parent never reaches a root, at any walk length. |
| TrustChain.ParentsValidGrows | go/internal/orbitutil/member_store_index.go:135-171 | A chain to a root survives every change the index makes: flags are only set, links only added, decodings never changed. |
| TrustChain.HasAllParentsValidGrows | go/internal/orbitutil/member_store_index.go:135-171 | Once an entry's parents are all valid, they stay so as the index grows. |
| TrustChain.ChainsGrow | go/internal/orbitutil/member_store_index.go:135-171 | The same, for every entry at once. |
| TrustChain.HasInviterGrows | go/internal/orbitutil/member_store_index.go:59-67 | Once some entry has a device, the invited check for that device passes from then on. |
| TrustChain.HasInviterSame | go/internal/orbitutil/member_store_index.go:59-67 | The invited check depends only on the decoded entries, not on flags or links. |
| MemberIndex.Memo | go/internal/orbitutil/member_store_index.go:91-97 | The lookup adds exactly the entry's hash and leaves existing entries as they were. A hash seen for the first time gets its decoding, no flag and no link. |
| MemberIndex.MemoIdempotent | go/internal/orbitutil/member_store_index.go:91-97 | Decoding happens at most once per hash: a second delivery of the same hash finds the stored entry. |
| MemberIndex.MemoKeepsInv | go/internal/orbitutil/member_store_index.go:91-97 | Recording a new entry keeps the index invariant. |
| MemberIndex.MemoKeepsSettled | go/internal/orbitutil/member_store_index.go:91-97 | Recording a new entry keeps every entry settled. |
| MemberIndex.MemoKept | go/internal/orbitutil/member_store_index.go:91-97 | Recording a new entry changes no entry's `isValid` or `root` and unsettles none. |
| MemberIndex.Link | go/internal/orbitutil/member_store_index.go:31-32 | The child's parent becomes the found entry, and the child is appended to that entry's children. Nothing else changes. |
| MemberIndex.LinkKeepsInv | go/internal/orbitutil/member_store_index.go:24-39 | Linking a validated, unlinked entry to an entry whose device is its inviter keeps the invariant: the links stay mutual and children are not duplicated. |
| MemberIndex.LinkKept | go/internal/orbitutil/member_store_index.go:31-32 | Linking an entry changes no other entry's `isValid` or `root` and unsettles no other entry. |
| MemberIndex.MarkKeepsInv | go/internal/orbitutil/member_store_index.go:139-143 | Setting `isValid` (and `root` for a founder-invited entry) keeps the invariant. |
| MemberIndex.Mark | go/internal/orbitutil/member_store_index.go:139-143 | The entry is validated, and it is a root iff it was one or is validated as a root. Nothing else changes. |
| MemberIndex.MarkKept | go/internal/orbitutil/member_store_index.go:139-143 | Setting one entry's flags unsettles no other entry. |
| MemberIndex.PromoteKeepsInv | go/internal/orbitutil/member_store_index.go:147-150 | Promoting an entry whose chain reaches a root, and appending its member device, keeps the invariant. The entry is not yet in the ledger, so no device is listed twice. |
| MemberIndex.Promote | go/internal/orbitutil/member_store_index.go:149 | The entry is fully valid. Nothing else changes. |
| MemberIndex.PropagateKept | go/internal/orbitutil/member_store_index.go:147-154 | Promoting an entry unsettles only its children. Once they are fully valid, every entry settled before is settled again. |
| MemberIndex.SettledClosed | go/internal/orbitutil/member_store_index.go:135-171 | If every entry is settled, a validated entry whose chain of validated parents reaches a root is fully valid. |
| MemberIndex.PromotionComplete | go/internal/orbitutil/member_store_index.go:135-171 | The same, for every entry at once. |
| MemberIndex.SettledAfter | go/internal/orbitutil/member_store_index.go:121-129 | A change that unsettles no entry but one, and leaves that one settled, keeps every entry settled. |
| MemberIndex.ChainIntegrity | go/internal/orbitutil/member_store_index.go:135-171 | Every ancestor of a fully valid entry is fully valid: a fully valid non-root entry has a fully valid parent. |
| MemberIndex.ValidatedHasInviter | go/internal/orbitutil/member_store_index.go:139-145 | A validated entry that is not a root was invited by a key other than the founding key. It is linked to a parent, an indexed entry whose device is that key, so the invited check holds for it. |
| MemberIndex.InvitedByMember | go/internal/orbitutil/member_store_index.go:145-154 | If every entry with the inviter's device is fully valid, a validated invited entry is fully valid too. |
| MemberIndex.UnpromotedSettled | go/internal/orbitutil/member_store_index.go:155-171 | A validated entry whose chain does not reach a root is not a root, and its parent is not fully valid. |
| MemberIndex.LinkedKept | go/internal/orbitutil/member_store_index.go:139-145 | A step that keeps the flags and links of the other entries keeps them linked. |
| MemberIndex.RejectedNeverValid | go/internal/orbitutil/member_store_index.go:98-118 | An entry that failed decoding is never validated, never fully valid and never listed. |
| MemberIndex.LedgerListsMembers | go/internal/orbitutil/member_store_index.go:47-49 | The member list holds exactly the member devices of the fully valid entries. |
| MemberIndex.PromoteShrinks | go/internal/orbitutil/member_store_index.go:149-154 | Each promotion shrinks the set of entries not yet fully valid, which bounds the recursion into children. |
| MemberIndex.MemberStoreIndex.constructor | go/internal/orbitutil/member_store_index.go:174-181 | A new index has no entries and no members, every entry is trivially settled, and it is bound to its group. |
| MemberIndex.MemberStoreIndex.Get | go/internal/orbitutil/member_store_index.go:47-49 | Whatever the key, the result is the member list: one device per fully valid entry, and m is listed iff some fully valid entry decoded m. |
| MemberIndex.MemberStoreIndex.CheckMemberLogEntryPayloadFirst | go/internal/orbitutil/member_store_index.go:51-57 | Passes iff the inviter key is the group's founding key. Otherwise it fails with the wrong-inviter error. |
| MemberIndex.MemberStoreIndex.FindDevice | go/internal/orbitutil/member_store_index.go:60-64 | The search over the map, in no fixed order, finds an entry whose device is the key iff one exists. Whatever it finds has that device. |
| MemberIndex.MemberStoreIndex.CheckMemberLogEntryPayloadInvited | go/internal/orbitutil/member_store_index.go:59-67 | Passes iff some indexed entry has the inviter key as its device. Otherwise it fails with the wrong-inviter error. |
| MemberIndex.MemberStoreIndex.FindParent | go/internal/orbitutil/member_store_index.go:24-39 | An existing parent is returned unchanged. Otherwise a parent is found iff some entry has the inviter as its device. The entry is then linked to it, and nothing else changes. Every other validated entry stays linked. |
| MemberIndex.MemberStoreIndex.ValidateEntry | go/internal/orbitutil/member_store_index.go:135-155 | The entry is validated. A root entry is fully valid. The entry is fully valid iff its chain reaches a root. An already fully valid entry is left alone. On promotion, every linked child is fully valid too. An unlinked entry is linked iff its inviter is known, and no other link is made. No other entry is validated or made a root. The entry is settled afterwards. Every entry settled before stays settled, so the pending subtree below it is promoted. Nothing is undone. |
| MemberIndex.MemberStoreIndex.MarkAndLink | go/internal/orbitutil/member_store_index.go:139-145 | Sets `isValid`, and `root` iff it was or is asked for. Then it links the parent as `FindParent` does. Afterwards the entry is linked whenever it is not a root. No other entry's flags change or become unsettled. Members are unchanged. |
| MemberIndex.MemberStoreIndex.MarkEntry | go/internal/orbitutil/member_store_index.go:139-143 | The new state is `Mark(old, h, isRoot)`. The index invariant holds, and every other entry stays linked and settled. |
| MemberIndex.MemberStoreIndex.PromoteAndPropagate | go/internal/orbitutil/member_store_index.go:147-154 | Promotes the entry, then leaves every child linked to it fully valid, without changing any link. No entry's `isValid` or `root` changes. Every entry settled before, the children's pending descendants included, is settled after. |
| MemberIndex.MemberStoreIndex.PromoteEntry | go/internal/orbitutil/member_store_index.go:147-150 | Sets `fullyValid` and appends exactly the entry's member device to the member list. |
| MemberIndex.MemberStoreIndex.ValidateChildren | go/internal/orbitutil/member_store_index.go:152-154 | After the loop, every child of the promoted entry is fully valid. Links and `isValid`/`root` flags are unchanged, and members only grow. Every entry settled before is settled after, so no descendant of a child is left waiting. |
| MemberIndex.MemberStoreIndex.RevalidateChild | go/internal/orbitutil/member_store_index.go:153 | One child of a fully valid entry becomes fully valid. No entry's `isValid` or `root` changes, and every entry settled before, including the child's own descendants, is settled after. |
| MemberIndex.MemberStoreIndex.IndexLogEntry | go/internal/orbitutil/member_store_index.go:84-130 | A new hash is decoded from its entry. A rejected entry is only recorded. A founder-invited claim becomes a fully valid root. A claim whose inviter is known is validated. A claim is newly validated only in those two cases. A validated claim whose chain reaches a root is fully valid. Any other claim is left untouched until a later pass. Redelivering a fully valid entry changes nothing. No other entry's `isValid` or `root` changes, and every entry stays settled. |
| MemberIndex.MemberStoreIndex.ClassifyEntry | go/internal/orbitutil/member_store_index.go:121-129 | The root check first, then the invited check, then nothing, with the same outcomes as above. No other entry's `isValid` or `root` changes. |
| MemberIndex.MemberStoreIndex.UpdateIndex | go/internal/orbitutil/member_store_index.go:83-133 | After a pass, exactly the log's hashes are added, and each new hash holds the decoding of its first occurrence. Every founder-invited claim is a fully valid root. A claim is validated if its inviter was a known device when the pass reached it, either from before the pass or from earlier in the log. Conversely, an entry the pass validated was founder-invited, or its inviter was known when the pass reached one of its occurrences. Every other entry keeps its flag. Each validated invited claim is linked to an entry with its inviter's device. No validated entry whose chain reaches a root is left unpromoted, and every entry is settled. No flag, link or member is undone. |
| MemberIndex.MemberStoreIndex.IndexNext | go/internal/orbitutil/member_store_index.go:84-130 | One turn of the loop extends the pass to one more log entry, in both directions, and keeps the index valid and settled. |
| MemberIndex.IndexedStep | go/internal/orbitutil/member_store_index.go:84-130 | One more log entry extends what the pass so far guarantees to one more entry. |
| MemberIndex.InvitedStep | go/internal/orbitutil/member_store_index.go:126-128 | A claim whose inviter was a known device when the pass reached it stays validated as the pass goes on. The step covers inviters from before the pass and from earlier in the log. |
| MemberIndex.InvitedEarlier | go/internal/orbitutil/member_store_index.go:92-128 | An inviter known when the pass reached an earlier entry keeps that entry validated after later steps. |
| MemberIndex.KnownNow | go/internal/orbitutil/member_store_index.go:92-128 | An inviter known among the keys after the lookup of `:92-96` passes the invited check of `:126`. |
| MemberIndex.InOrderLogJoins | go/internal/orbitutil/member_store_index.go:83-133 | One pass over a root claim followed by a claim invited by the root's device makes both fully valid and lists both member devices. This holds when no other entry has that device. |
| MemberIndex.AdmittedStep | go/internal/orbitutil/member_store_index.go:121-129 | The step validates the entry it reaches only if that entry passes one of the two checks among the keys known then. No other entry is validated. |
| MemberIndex.AdmittedEarlier | go/internal/orbitutil/member_store_index.go:84-130 | An entry validated earlier in the pass keeps the occurrence that admitted it. |
| MemberIndex.AdmittedNow | go/internal/orbitutil/member_store_index.go:92-128 | The entry the pass reaches, when validated there, passed the root check or the invited check among the keys known then. |
| MemberIndex.AdmittedGrows | go/internal/orbitutil/member_store_index.go:59-67 | Whether an entry passes the checks among a set of keys depends only on decodings, so it survives every step. |
| MemberIndex.KnownFromMemo | go/internal/orbitutil/member_store_index.go:59-67 | A device known in the map the lookup made is known among its keys after the step. |
| MemberIndex.OutOfOrderLogWaits | go/internal/orbitutil/member_store_index.go:83-133 | One pass over an invited claim placed before the founder's claim validates the root claim only. The invited claim stays neither validated nor fully valid, because its inviter was unknown when the pass reached it. |
| MemberIndex.RootsStep | go/internal/orbitutil/member_store_index.go:121-123 | Root claims stay fully valid roots as the pass goes on. |
| MemberIndex.DecodedStep | go/internal/orbitutil/member_store_index.go:91-97 | The decoding of the first occurrence of each new hash is kept as the pass goes on. |
| MemberIndex.RejectedEntriesStayOut | go/internal/orbitutil/member_store_index.go:83-133 | After a pass, a log entry whose first occurrence failed decoding is recorded but neither validated nor fully valid. |

## Left out

- Decoding steps: parsing the operation, opening the payload (its signature and its
  encryption), the structure check, the member/device conversion and Ed25519 key
  unmarshalling live in other packages. They are abstract total functions of a
  `Codec`. Public keys are byte strings, and key `Equals` is byte equality.
- Decoding errors: the Go error values are reduced to the gate that failed. The
  type assertion in `unwrapOperation` is merged into the operation gate.
- Rejected entries: an entry that failed decoding has no inviter key and possibly
  no member device. The source calls `Equals` on its nil key (`:52`) and on its nil
  device (`:30`, `:61`) when it meets such an entry. The model skips the entry on
  every pass and passes over it in device searches. An entry whose member device
  decoded but whose inviter key did not still matches device searches, as in Go.
- Map order: Go's randomised iteration in `findParent` and
  `checkMemberLogEntryPayloadInvited` is an arbitrary choice. When two entries have
  the inviter's device, the contracts hold for either one.
- MemberIndex.MemberStoreIndex.ValidateEntry: children are revisited only after the
  entry is promoted. In the source, an entry that is validated but not promoted also
  revisits its children. That revisit changes no state: each child is already
  validated and linked, and its chain still fails. It does, however, recurse
  forever on a cycle of invitations (see Findings).
- MemberIndex.MemberStoreIndex.UpdateIndex: the batch of new entries the source
  receives is unused there too. It always returns nil, so the method has no result.
- MemberIndex.MemberStoreIndex.constructor: `NewMemberStoreIndex` returns a
  closure that ignores its store public key. The group context is reduced to the
  founding key and the `Codec`.
- MemberIndex.MemberStoreIndex.Get: the source returns the member slice itself,
  which the caller could alias. The model returns its value.
- No property states "one fully valid entry per device". The source does not
  enforce it, because two log entries may claim the same device.
- Concurrency: concurrent calls into the index are not modelled.
- `group_holder.go`, the demo command, and the BLE transport (Go and Java) are not
  part of this model.

## Findings

| source | as written | input that shows it | evidently intended | confidence | as-written member | corrected member |
|---|---|---|---|---|---|---|
| go/internal/orbitutil/member_store_index.go:145-171 | `hasAllParentsValid` follows parent links with no bound or visited set. `findParent` may pick the entry itself as its own parent. | A log whose only entry is a device that names its own device key as inviter. The invited check passes on the entry itself (`:60-62`), and `findParent` links the entry to itself. `hasAllParentsValid` then recurses forever. The children loop at `:152-154` would also revisit the entry forever; that loop is not modelled as written. | A chain with a cycle never reaches a root, so the entry is left validated but not fully valid. | not executed; assumes the structure check does not reject an inviter equal to the device | TrustChain.SelfInviteDiverges (over TrustChain.ParentsValidAsWritten) | TrustChain.HasAllParentsValidExact (over TrustChain.HasAllParentsValid, walking at most as many links as there are entries) |
