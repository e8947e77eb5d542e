/**
 * The membership index of one group: it rescans the group's member log,
 * decodes each entry once, classifies it as a root (invited by the group's
 * founding key) or as invited by a known device, links it to its inviter and
 * promotes it, and every descendant waiting on it, to fully valid once its
 * chain of validated inviters reaches a root.
 */
module MemberIndex {
  import opened MemberLog
  import opened EntryPayload
  import opened TrustChain

  /** Decoding left either a whole claim or an error, never half of each. */
  ghost predicate WellDecoded(d: Decoded)
  {
    && (d.err.None? <==> d.parentPubKey.Some?)
    && (d.err.None? ==> d.memberDevice.Some?)
  }

  /**
   * What the flags of entry `h` imply: a validated entry holds a claim, a
   * validated entry invited by the founding key is a root and only those are,
   * and a fully valid entry has a chain to a root and is listed in `validated`.
   */
  ghost predicate FlagsOk(e: Entries, founder: PubKey, validated: seq<Hash>, h: Hash)
  {
    h in e ==>
      && WellDecoded(e[h].decoded)
      && (e[h].isValid ==> e[h].decoded.err.None?)
      && (e[h].isValid && e[h].decoded.parentPubKey == Some(founder) ==> e[h].root)
      && (e[h].root ==> e[h].isValid && e[h].decoded.parentPubKey == Some(founder))
      && (e[h].fullyValid ==> e[h].isValid && HasAllParentsValid(e, h) && h in validated)
  }

  /**
   * The links of entry `h`: only a validated entry has a parent, and that
   * parent's device is its inviter and lists it as a child; each child
   * names `h` as its parent, and no child is listed twice.
   */
  ghost predicate LinksOk(e: Entries, h: Hash)
  {
    h in e ==>
      && (e[h].parent.Some? ==>
            && e[h].isValid
            && e[h].parent.value in e
            && h in e[e[h].parent.value].children
            && e[h].decoded.parentPubKey.Some?
            && e[e[h].parent.value].HasDevice(e[h].decoded.parentPubKey.value))
      && (forall i :: 0 <= i < |e[h].children| ==>
            e[h].children[i] in e && e[e[h].children[i]].parent == Some(h))
      && (forall i, j :: 0 <= i < j < |e[h].children| ==> e[h].children[i] != e[h].children[j])
  }

  /**
   * A validated entry that is not a root has been linked to a parent (which
   * `LinksOk` makes an entry whose device is its inviter). `validateEntry`
   * breaks this for its own entry between setting the flags and `findParent`.
   */
  ghost predicate Linked(e: Entries, h: Hash)
  {
    h in e && e[h].isValid && !e[h].root ==> e[h].parent.Some?
  }

  /** Every entry other than those in `except` is linked. */
  ghost predicate LinkedExcept(e: Entries, except: set<Hash>)
  {
    forall h :: h !in except ==> Linked(e, h)
  }

  /**
   * Slot `i` of the ledger: `validated[i]` is a fully valid entry listed
   * once, and `members[i]` is its member device.
   */
  ghost predicate SlotOk(e: Entries, validated: seq<Hash>, members: seq<MemberDevice>, i: int)
  {
    0 <= i < |validated| && i < |members| ==>
      && validated[i] in e
      && e[validated[i]].fullyValid
      && e[validated[i]].decoded.memberDevice == Some(members[i])
      && (forall j :: 0 <= j < i ==> validated[j] != validated[i])
  }

  /**
   * The index invariant, stated entry by entry and slot by slot, so that a
   * proof unfolds it only at the entries it names.
   */
  ghost predicate Inv(e: Entries, founder: PubKey, validated: seq<Hash>, members: seq<MemberDevice>)
  {
    && |validated| == |members|
    && (forall h :: FlagsOk(e, founder, validated, h))
    && (forall h :: LinksOk(e, h))
    && (forall i :: SlotOk(e, validated, members, i))
  }

  /** The entries not yet fully valid; validation only ever shrinks this set. */
  ghost function Unvalidated(e: Entries): (r: set<Hash>)
  {
    set h | h in e && !e[h].fullyValid
  }

  /** Both maps hold the same links. */
  ghost predicate SameLinks(e: Entries, e': Entries)
  {
    && e.Keys == e'.Keys
    && forall h :: h in e ==> e'[h].parent == e[h].parent && e'[h].children == e[h].children
  }

  /**
   * Entry `h` is settled: when it is validated but not fully valid, it is no
   * root and its parent, if any, is not fully valid either, so it does not
   * wait on a promotion that has already happened.
   */
  ghost predicate Settled(e: Entries, h: Hash)
  {
    h in e && e[h].isValid && !e[h].fullyValid ==>
      && !e[h].root
      && (e[h].parent.None? || e[h].parent.value !in e || !e[e[h].parent.value].fullyValid)
  }

  /** No entry waits on a promotion: what `validateEntry`'s propagation restores. */
  ghost predicate AllSettled(e: Entries)
  {
    forall h :: Settled(e, h)
  }

  /** Entry `k` keeps its `isValid` and `root` flags, and stays settled if it was. */
  ghost predicate Kept(e: Entries, e': Entries, k: Hash)
  {
    && (k in e && k in e' ==> e'[k].isValid == e[k].isValid && e'[k].root == e[k].root)
    && (Settled(e, k) ==> Settled(e', k))
  }

  /** Two steps that each keep the entries outside `except` keep them together. */
  lemma KeptTransitive(e1: Entries, e2: Entries, e3: Entries, except: set<Hash>)
    requires e1.Keys <= e2.Keys
    requires forall k :: k !in except ==> Kept(e1, e2, k)
    requires forall k :: k !in except ==> Kept(e2, e3, k)
    ensures forall k :: k !in except ==> Kept(e1, e3, k)
  {
    forall k | k !in except ensures Kept(e1, e3, k) {
      assert Kept(e1, e2, k) && Kept(e2, e3, k);
    }
  }

  /** Setting an entry's flags leaves every other entry's flags and settledness alone. */
  lemma MarkKept(e: Entries, h: Hash, isRoot: bool)
    requires h in e
    ensures forall k :: k != h ==> Kept(e, Mark(e, h, isRoot), k)
  {
    var r := Mark(e, h, isRoot);
    forall k | k != h ensures Kept(e, r, k) {
      if k in e && e[k].parent.Some? && e[k].parent.value == h {
        assert r[h].fullyValid == e[h].fullyValid;
      }
    }
  }

  /** Linking an entry to its parent leaves every other entry's flags and settledness alone. */
  lemma LinkKept(e: Entries, c: Hash, p: Hash)
    requires c in e && p in e
    ensures forall k :: k != c ==> Kept(e, Link(e, c, p), k)
  {
    var r := Link(e, c, p);
    forall k | k != c ensures Kept(e, r, k) {
      if k in e && e[k].parent.Some? && e[k].parent.value in e {
        assert r[e[k].parent.value].fullyValid == e[e[k].parent.value].fullyValid;
      }
    }
  }

  /**
   * Promoting `h` unsettles only its children; once they are fully valid
   * again, every entry settled before is settled.
   */
  lemma PropagateKept(e: Entries, f: Entries, h: Hash)
    requires h in e && forall k :: LinksOk(e, k)
    requires f.Keys == e.Keys
    requires forall k :: Kept(Promote(e, h), f, k)
    requires forall c :: c in e[h].children ==> c in f && f[c].fullyValid
    ensures forall k :: Kept(e, f, k)
  {
    var r := Promote(e, h);
    forall k ensures Kept(e, f, k) {
      assert Kept(r, f, k);
      if k in e && e[k].parent == Some(h) {
        assert LinksOk(e, k);
      } else if k in e && e[k].parent.Some? && e[k].parent.value in e {
        assert r[e[k].parent.value].fullyValid == e[e[k].parent.value].fullyValid;
      }
    }
  }

  /**
   * With every entry settled, promotion is complete: each validated entry
   * whose chain of validated parents reaches a root is fully valid.
   */
  lemma {:induction false} SettledClosed(e: Entries, h: Hash, n: nat)
    requires AllSettled(e) && ParentsValid(e, h, n) && e[h].isValid
    ensures e[h].fullyValid
    decreases n
  {
    assert Settled(e, h);
    if !e[h].root {
      SettledClosed(e, e[h].parent.value, n - 1);
    }
  }

  /** The closure, for every entry at once. */
  lemma PromotionComplete(e: Entries)
    requires AllSettled(e)
    ensures forall h :: h in e && e[h].isValid && HasAllParentsValid(e, h) ==> e[h].fullyValid
  {
    forall h | h in e && e[h].isValid && HasAllParentsValid(e, h) ensures e[h].fullyValid {
      SettledClosed(e, h, |e|);
    }
  }

  /** A change that unsettles no entry other than `h`, and leaves `h` settled, keeps all settled. */
  lemma SettledAfter(e: Entries, e': Entries, h: Hash)
    requires AllSettled(e) && Settled(e', h)
    requires forall k :: k != h ==> Kept(e, e', k)
    ensures AllSettled(e')
  {
    forall k ensures Settled(e', k) {
      if k != h {
        assert Kept(e, e', k) && Settled(e, k);
      }
    }
  }

  /** A validated entry whose chain does not reach a root waits on no promotion. */
  lemma UnpromotedSettled(e: Entries, founder: PubKey, validated: seq<Hash>, members: seq<MemberDevice>, h: Hash)
    requires Inv(e, founder, validated, members) && h in e && !HasAllParentsValid(e, h)
    ensures Settled(e, h)
  {
    HasAllParentsValidUnfold(e, h);
    if e[h].parent.Some? {
      assert FlagsOk(e, founder, validated, e[h].parent.value);
    }
  }

  /** Every ancestor of a fully valid entry is fully valid. */
  lemma ChainIntegrity(e: Entries, founder: PubKey, validated: seq<Hash>, members: seq<MemberDevice>, h: Hash)
    requires Inv(e, founder, validated, members) && AllSettled(e)
    requires h in e && e[h].fullyValid && !e[h].root
    ensures e[h].parent.Some? && e[h].parent.value in e && e[e[h].parent.value].fullyValid
  {
    assert FlagsOk(e, founder, validated, h);
    HasAllParentsValidUnfold(e, h);
    SettledClosed(e, e[h].parent.value, |e|);
  }

  /**
   * A validated entry that is not a root was invited, by a key other than the
   * founding key, and is linked to an indexed entry whose device is that key.
   */
  lemma ValidatedHasInviter(e: Entries, founder: PubKey, validated: seq<Hash>, members: seq<MemberDevice>, h: Hash)
    requires Inv(e, founder, validated, members) && LinkedExcept(e, {})
    requires h in e && e[h].isValid && !e[h].root
    ensures e[h].decoded.parentPubKey.Some? && e[h].decoded.parentPubKey != Some(founder)
    ensures e[h].parent.Some? && e[h].parent.value in e
    ensures e[e[h].parent.value].HasDevice(e[h].decoded.parentPubKey.value)
    ensures HasInviter(e, e[h].decoded.parentPubKey.value)
  {
    assert FlagsOk(e, founder, validated, h) && Linked(e, h) && LinksOk(e, h);
  }

  /**
   * A validated entry invited by a member joins it: when every entry whose
   * device is the inviter is fully valid, so is the invited entry.
   */
  lemma InvitedByMember(e: Entries, founder: PubKey, validated: seq<Hash>, members: seq<MemberDevice>, h: Hash)
    requires Inv(e, founder, validated, members) && LinkedExcept(e, {}) && AllSettled(e)
    requires h in e && e[h].isValid && e[h].decoded.parentPubKey.Some?
    requires forall k :: k in e && e[k].HasDevice(e[h].decoded.parentPubKey.value) ==> e[k].fullyValid
    ensures e[h].fullyValid
  {
    assert Settled(e, h);
    if !e[h].root {
      ValidatedHasInviter(e, founder, validated, members, h);
    }
  }

  /** A step that keeps the flags and the links it had of every entry outside `except` keeps them linked. */
  lemma LinkedKept(e: Entries, e': Entries, except: set<Hash>)
    requires Grows(e, e') && e'.Keys == e.Keys && LinkedExcept(e, except)
    requires forall k :: k !in except ==> Kept(e, e', k)
    ensures LinkedExcept(e', except)
  {
    forall k | k !in except ensures Linked(e', k) {
      assert Linked(e, k) && Kept(e, e', k);
    }
  }

  /** An entry that failed decoding is never validated, so never listed. */
  lemma RejectedNeverValid(e: Entries, founder: PubKey, validated: seq<Hash>, members: seq<MemberDevice>, h: Hash)
    requires Inv(e, founder, validated, members) && h in e && e[h].decoded.err.Some?
    ensures !e[h].isValid && !e[h].fullyValid && h !in validated
  {
    assert FlagsOk(e, founder, validated, h);
    forall i | 0 <= i < |validated| ensures validated[i] != h {
      assert SlotOk(e, validated, members, i);
    }
  }

  /** Recording a new entry keeps every entry settled and linked. */
  lemma MemoKeepsSettled(e: Entries, codec: Codec, l: LogEntry)
    requires AllSettled(e) && LinkedExcept(e, {})
    ensures AllSettled(Memo(e, codec, l)) && LinkedExcept(Memo(e, codec, l), {})
  {
    var r := Memo(e, codec, l);
    forall k ensures Settled(r, k) && Linked(r, k) {
      assert Settled(e, k) && Linked(e, k);
    }
  }

  /** Recording a new entry changes no entry's flags and unsettles none. */
  lemma MemoKept(e: Entries, codec: Codec, l: LogEntry)
    ensures forall k :: Kept(e, Memo(e, codec, l), k)
  {
    var r := Memo(e, codec, l);
    forall k ensures Kept(e, r, k) {
      if k in e && e[k].parent.Some? && e[k].parent.value in e {
        assert r[e[k].parent.value] == e[e[k].parent.value];
      }
    }
  }

  /** The map lookup of a log hash, creating and decoding the entry the first time the hash is seen. */
  function Memo(e: Entries, codec: Codec, l: LogEntry): (r: Entries)
    ensures r.Keys == e.Keys + {l.hash}
    ensures Grows(e, r)
    ensures forall k :: k in e ==> r[k] == e[k]
    // a hash seen for the first time gets its decoding, and no flag or link yet
    ensures l.hash !in e ==>
              && r[l.hash].decoded == Decode(codec, l)
              && !r[l.hash].root && !r[l.hash].isValid && !r[l.hash].fullyValid
              && r[l.hash].parent.None? && r[l.hash].children == []
  {
    if l.hash in e then e else e[l.hash := NewEntry(Decode(codec, l))]
  }

  /** Decoding runs at most once per hash: a second delivery of a hash finds the stored entry. */
  lemma MemoIdempotent(e: Entries, codec: Codec, l: LogEntry, l': LogEntry)
    requires l'.hash == l.hash
    ensures Memo(Memo(e, codec, l), codec, l') == Memo(e, codec, l)
  {
  }

  /** `findParent`'s link: the child records its parent, the parent appends the child. */
  function Link(e: Entries, c: Hash, p: Hash): (r: Entries)
    requires c in e && p in e
    ensures r.Keys == e.Keys
    ensures r[c].parent == Some(p) && r[p].children == e[p].children + [c]
    ensures forall k :: k in e ==>
              && r[k].decoded == e[k].decoded && r[k].root == e[k].root
              && r[k].isValid == e[k].isValid && r[k].fullyValid == e[k].fullyValid
    ensures forall k :: k in e && k != c ==> r[k].parent == e[k].parent
    ensures forall k :: k in e && k != p ==> r[k].children == e[k].children
  {
    var e1 := e[c := e[c].(parent := Some(p))];
    e1[p := e1[p].(children := e1[p].children + [c])]
  }

  lemma MemoKeepsInv(e: Entries, founder: PubKey, validated: seq<Hash>, members: seq<MemberDevice>, codec: Codec, l: LogEntry)
    requires Inv(e, founder, validated, members)
    ensures Inv(Memo(e, codec, l), founder, validated, members)
  {
    var r := Memo(e, codec, l);
    ChainsGrow(e, r);
    forall h ensures FlagsOk(r, founder, validated, h) {
      assert FlagsOk(e, founder, validated, h);
    }
    forall h ensures LinksOk(r, h) {
      assert LinksOk(e, h);
    }
    forall i ensures SlotOk(r, validated, members, i) {
      assert SlotOk(e, validated, members, i);
    }
  }

  lemma LinkGrows(e: Entries, c: Hash, p: Hash)
    requires c in e && p in e && e[c].parent.None?
    ensures Grows(e, Link(e, c, p))
  {
  }

  /** `findParent`'s link keeps every entry's links consistent. */
  lemma LinkKeepsLinks(e: Entries, c: Hash, p: Hash, h: Hash)
    requires forall k :: LinksOk(e, k)
    requires c in e && p in e && e[c].parent.None? && e[c].isValid
    requires e[c].decoded.parentPubKey.Some? && e[p].HasDevice(e[c].decoded.parentPubKey.value)
    ensures LinksOk(Link(e, c, p), h)
  {
    var r := Link(e, c, p);
    assert LinksOk(e, c) && LinksOk(e, p) && LinksOk(e, h);
    assert c !in e[p].children;
    if h in r && h != c && r[h].parent.Some? {
      var q := e[h].parent.value;
      assert LinksOk(e, q);
      if q == p {
        assert r[q].children == e[q].children + [c];
      }
    }
    if h in r {
      forall i | 0 <= i < |r[h].children|
        ensures r[h].children[i] in r && r[r[h].children[i]].parent == Some(h)
      {
        if h == p && i == |r[h].children| - 1 {
        } else {
          var x := e[h].children[i];
          assert x != c;
        }
      }
      forall i, j | 0 <= i < j < |r[h].children|
        ensures r[h].children[i] != r[h].children[j]
      {
        if h == p && j == |r[h].children| - 1 {
          assert r[h].children[i] == e[h].children[i];
        }
      }
    }
  }

  lemma LinkKeepsInv(e: Entries, founder: PubKey, validated: seq<Hash>, members: seq<MemberDevice>, c: Hash, p: Hash)
    requires Inv(e, founder, validated, members)
    requires c in e && p in e && e[c].parent.None? && e[c].isValid
    requires e[c].decoded.parentPubKey.Some? && e[p].HasDevice(e[c].decoded.parentPubKey.value)
    ensures Grows(e, Link(e, c, p))
    ensures Inv(Link(e, c, p), founder, validated, members)
  {
    var r := Link(e, c, p);
    LinkGrows(e, c, p);
    ChainsGrow(e, r);
    forall h ensures FlagsOk(r, founder, validated, h) {
      assert FlagsOk(e, founder, validated, h);
    }
    forall h ensures LinksOk(r, h) {
      LinkKeepsLinks(e, c, p, h);
    }
    forall i ensures SlotOk(r, validated, members, i) {
      assert SlotOk(e, validated, members, i);
    }
  }

  /** Validating an entry (and marking it root) keeps the invariant. */
  lemma MarkKeepsInv(e: Entries, founder: PubKey, validated: seq<Hash>, members: seq<MemberDevice>, h: Hash, isRoot: bool)
    requires Inv(e, founder, validated, members) && h in e
    requires e[h].decoded.parentPubKey.Some? && !e[h].fullyValid
    requires isRoot ==> e[h].decoded.parentPubKey == Some(founder)
    requires !isRoot ==> e[h].decoded.parentPubKey != Some(founder) || e[h].isValid
    ensures Grows(e, Mark(e, h, isRoot))
    ensures Inv(Mark(e, h, isRoot), founder, validated, members)
  {
    var r := Mark(e, h, isRoot);
    ChainsGrow(e, r);
    forall k ensures FlagsOk(r, founder, validated, k) {
      assert FlagsOk(e, founder, validated, k);
    }
    forall k ensures LinksOk(r, k) {
      assert LinksOk(e, k);
      if k in e {
        forall i | 0 <= i < |e[k].children| ensures r[e[k].children[i]].parent == Some(k) {
        }
      }
    }
    forall i ensures SlotOk(r, validated, members, i) {
      assert SlotOk(e, validated, members, i);
    }
  }

  /** Promoting an entry whose chain reaches a root, and listing its member device, keeps the invariant. */
  lemma PromoteKeepsInv(e: Entries, founder: PubKey, validated: seq<Hash>, members: seq<MemberDevice>, h: Hash)
    requires Inv(e, founder, validated, members) && h in e
    requires e[h].isValid && !e[h].fullyValid && HasAllParentsValid(e, h)
    ensures e[h].decoded.memberDevice.Some?
    ensures Grows(e, Promote(e, h))
    ensures Inv(Promote(e, h), founder, validated + [h], members + [e[h].decoded.memberDevice.value])
  {
    assert FlagsOk(e, founder, validated, h);
    var r := Promote(e, h);
    var validated', members' := validated + [h], members + [e[h].decoded.memberDevice.value];
    ChainsGrow(e, r);
    forall i | 0 <= i < |validated| ensures validated[i] != h {
      assert SlotOk(e, validated, members, i);
    }
    forall k ensures FlagsOk(r, founder, validated', k) {
      assert FlagsOk(e, founder, validated, k);
    }
    forall k ensures LinksOk(r, k) {
      assert LinksOk(e, k);
      if k in e {
        forall i | 0 <= i < |e[k].children| ensures r[e[k].children[i]].parent == Some(k) {
        }
      }
    }
    forall i ensures SlotOk(r, validated', members', i) {
      assert SlotOk(e, validated, members, i);
    }
  }

  /** The ledger's member list holds exactly the member devices of the fully valid entries. */
  lemma LedgerListsMembers(e: Entries, founder: PubKey, validated: seq<Hash>, members: seq<MemberDevice>)
    requires Inv(e, founder, validated, members)
    ensures forall m :: m in members <==>
              exists h :: h in e && e[h].fullyValid && e[h].decoded.memberDevice == Some(m)
  {
    forall m | m in members
      ensures exists h :: h in e && e[h].fullyValid && e[h].decoded.memberDevice == Some(m)
    {
      var i :| 0 <= i < |members| && members[i] == m;
      assert SlotOk(e, validated, members, i);
    }
    forall m | exists h :: h in e && e[h].fullyValid && e[h].decoded.memberDevice == Some(m)
      ensures m in members
    {
      var h :| h in e && e[h].fullyValid && e[h].decoded.memberDevice == Some(m);
      assert FlagsOk(e, founder, validated, h);
      var i :| 0 <= i < |validated| && validated[i] == h;
      assert SlotOk(e, validated, members, i);
    }
  }

  /** Promoting an entry not yet fully valid strictly shrinks the unvalidated set. */
  lemma PromoteShrinks(e: Entries, e': Entries, h: Hash)
    requires Grows(e, e') && e'.Keys == e.Keys && h in e' && !e'[h].fullyValid
    ensures Unvalidated(Promote(e', h)) < Unvalidated(e)
  {
    assert h in Unvalidated(e) && h !in Unvalidated(Promote(e', h));
  }

  lemma UnvalidatedShrinks(e: Entries, e': Entries)
    requires Grows(e, e') && e'.Keys == e.Keys
    ensures Unvalidated(e') <= Unvalidated(e)
  {
  }

  lemma PromoteKeepsLinked(e: Entries, h: Hash)
    requires h in e && LinkedExcept(e, {})
    ensures LinkedExcept(Promote(e, h), {})
  {
    forall k ensures Linked(Promote(e, h), k) {
      assert Linked(e, k);
    }
  }

  lemma SameLinksTransitive(e: Entries, e': Entries, e'': Entries)
    requires SameLinks(e, e') && SameLinks(e', e'')
    ensures SameLinks(e, e'')
  {
  }

  /** Flags never touch links, and linking maps with the same links gives maps with the same links. */
  lemma FlagsKeepLinks(e: Entries, h: Hash, isRoot: bool)
    requires h in e
    ensures SameLinks(e, Mark(e, h, isRoot)) && SameLinks(e, Promote(e, h))
  {
  }

  lemma LinkSameLinks(e: Entries, e': Entries, c: Hash, p: Hash)
    requires SameLinks(e, e') && c in e && p in e
    ensures SameLinks(Link(e, c, p), Link(e', c, p))
  {
  }

  lemma PrefixOfExtension<T>(a: seq<T>, x: T, c: seq<T>)
    requires a + [x] <= c
    ensures a <= c
  {
    assert forall i :: 0 <= i < |a| ==> c[i] == (a + [x])[i];
  }

  /** The map with `h` linked to `parent`, when `h` had no parent yet and `parent` names an entry. */
  ghost function Linking(e: Entries, h: Hash, parent: Option<Hash>): (r: Entries)
    requires h in e
  {
    if e[h].parent.None? && parent.Some? && parent.value in e then Link(e, h, parent.value) else e
  }

  /** `validateEntry`'s first assignments: the entry marked validated, and root when `isRoot`. */
  function Mark(e: Entries, h: Hash, isRoot: bool): (r: Entries)
    requires h in e
    ensures r.Keys == e.Keys && r[h].isValid
    ensures r[h].root == (e[h].root || isRoot)
    ensures r[h].decoded == e[h].decoded && r[h].fullyValid == e[h].fullyValid
    ensures r[h].parent == e[h].parent && r[h].children == e[h].children
    ensures forall k :: k in e && k != h ==> r[k] == e[k]
  {
    e[h := e[h].(isValid := true, root := e[h].root || isRoot)]
  }

  /** `validateEntry`'s promotion: the entry marked fully valid. */
  function Promote(e: Entries, h: Hash): (r: Entries)
    requires h in e
    ensures r.Keys == e.Keys && r[h].fullyValid
    ensures r[h].decoded == e[h].decoded && r[h].root == e[h].root && r[h].isValid == e[h].isValid
    ensures r[h].parent == e[h].parent && r[h].children == e[h].children
    ensures forall k :: k in e && k != h ==> r[k] == e[k]
  {
    e[h := e[h].(fullyValid := true)]
  }

  class MemberStoreIndex {
    /** The group's founding public key, the trust anchor of every chain. */
    const founder: PubKey
    /** The group-bound decoding steps. */
    const codec: Codec
    var entries: Entries
    var members: seq<MemberDevice>
    /** The hashes of the fully valid entries, in the order they were promoted. */
    ghost var validated: seq<Hash>

    ghost predicate Valid()
      reads this
    {
      Inv(entries, founder, validated, members) && LinkedExcept(entries, {})
    }

    /** `NewMemberStoreIndex`: an index over no entries, with no members. */
    constructor (founder: PubKey, codec: Codec)
      ensures Valid() && AllSettled(entries)
      ensures this.founder == founder && this.codec == codec
      ensures entries == map[] && members == [] && validated == []
    {
      this.founder := founder;
      this.codec := codec;
      entries := map[];
      members := [];
      validated := [];
    }

    /** The member list, whatever key is asked for: exactly the member devices of the fully valid entries. */
    function Get(key: string): (r: seq<MemberDevice>)
      reads this
      requires Valid()
      ensures |r| == |validated|
      ensures forall m :: m in r <==>
                exists h :: h in entries && entries[h].fullyValid && entries[h].decoded.memberDevice == Some(m)
    {
      LedgerListsMembers(entries, founder, validated, members);
      members
    }

    /** The root check: an entry is a root candidate exactly when its inviter is the founding key. */
    function CheckMemberLogEntryPayloadFirst(entry: IndexEntry): (r: Outcome<CheckError>)
      requires entry.decoded.parentPubKey.Some?
      ensures r == Pass <==> entry.decoded.parentPubKey.value == founder
      ensures r != Pass ==> r == Fail(GroupMemberLogWrongInviter)
    {
      if entry.decoded.parentPubKey.value != founder then Fail(GroupMemberLogWrongInviter) else Pass
    }

    /**
     * One pass over the entry map, in an order the map does not fix, for an
     * entry whose device is `key`; entries with no decoded member device are
     * passed over.
     */
    method FindDevice(key: PubKey) returns (found: Option<Hash>)
      ensures found.Some? ==> found.value in entries && entries[found.value].HasDevice(key)
      ensures found.None? <==> !HasInviter(entries, key)
    {
      var rest := entries.Keys;
      while rest != {}
        invariant rest <= entries.Keys
        invariant forall h :: h in entries && h !in rest ==> !entries[h].HasDevice(key)
        decreases rest
      {
        var h :| h in rest;
        if entries[h].HasDevice(key) {
          return Some(h);
        }
        rest := rest - {h};
      }
      return None;
    }

    /** The invited check: some indexed entry has the entry's inviter as its device. */
    method CheckMemberLogEntryPayloadInvited(entry: IndexEntry) returns (r: Outcome<CheckError>)
      requires entry.decoded.parentPubKey.Some?
      ensures r == Pass <==> HasInviter(entries, entry.decoded.parentPubKey.value)
      ensures r != Pass ==> r == Fail(GroupMemberLogWrongInviter)
    {
      var found := FindDevice(entry.decoded.parentPubKey.value);
      r := if found.Some? then Pass else Fail(GroupMemberLogWrongInviter);
    }

    /**
     * `findParent`: a parent once found is returned unchanged; otherwise the
     * first entry found whose device is the inviter becomes the parent, and
     * the entry is appended to that parent's children.
     */
    method FindParent(h: Hash) returns (parent: Option<Hash>)
      requires Inv(entries, founder, validated, members) && LinkedExcept(entries, {h})
      requires h in entries && entries[h].isValid && entries[h].decoded.parentPubKey.Some?
      modifies this
      ensures Inv(entries, founder, validated, members) && LinkedExcept(entries, {h})
      ensures members == old(members) && validated == old(validated)
      ensures Grows(old(entries), entries)
      ensures parent == entries[h].parent
      ensures old(entries[h].parent).Some? || parent.None? ==> entries == old(entries)
      ensures old(entries[h].parent).None? ==>
                (parent.Some? <==> HasInviter(old(entries), entries[h].decoded.parentPubKey.value))
      ensures old(entries[h].parent).None? && parent.Some? ==>
                parent.value in old(entries) && entries == Link(old(entries), h, parent.value)
    {
      if entries[h].parent.Some? {
        return entries[h].parent;
      }
      var found := FindDevice(entries[h].decoded.parentPubKey.value);
      if found.Some? {
        LinkKeepsInv(entries, founder, validated, members, h, found.value);
        LinkKept(entries, h, found.value);
        LinkedKept(entries, Link(entries, h, found.value), {h});
        entries := Link(entries, h, found.value);
      }
      parent := found;
    }

    /**
     * `validateEntry`: marks the entry validated (and root), links its
     * parent, promotes it to fully valid and appends its member device when
     * its chain reaches a root, and then re-validates each child already
     * linked to it.
     */
    method ValidateEntry(h: Hash, isRoot: bool)
      requires Valid() && h in entries
      requires entries[h].decoded.parentPubKey.Some?
      requires isRoot ==> entries[h].decoded.parentPubKey == Some(founder)
      requires !isRoot ==>
                 || (entries[h].decoded.parentPubKey != Some(founder) &&
                     HasInviter(entries, entries[h].decoded.parentPubKey.value))
                 || entries[h].isValid
      modifies this
      decreases Unvalidated(entries), 3
      ensures Valid()
      ensures entries.Keys == old(entries.Keys)
      ensures Grows(old(entries), entries)
      ensures old(validated) <= validated && old(members) <= members
      ensures entries[h].isValid
      ensures isRoot ==> entries[h].fullyValid && entries[h].root
      // the entry is fully valid exactly when its chain reaches a root
      ensures entries[h].fullyValid == HasAllParentsValid(entries, h)
      // a fully valid entry is left alone
      ensures old(entries[h].fullyValid) ==>
                entries == old(entries) && members == old(members) && validated == old(validated)
      // promoting an entry promotes every child already linked to it
      ensures !old(entries[h].fullyValid) && entries[h].fullyValid ==>
                forall c :: c in entries[h].children ==> c in entries && entries[c].fullyValid
      // an unlinked entry is linked exactly when some entry has its inviter as device
      ensures !old(entries[h].fullyValid) && old(entries[h].parent).None? ==>
                (entries[h].parent.Some? <==> HasInviter(old(entries), entries[h].decoded.parentPubKey.value))
      // and that link is the only one made
      ensures SameLinks(Linking(old(entries), h, entries[h].parent), entries)
      // no other entry is validated or made a root ...
      ensures !isRoot ==> entries[h].root == old(entries[h].root)
      ensures forall k :: k != h ==> Kept(old(entries), entries, k)
      // ... and afterwards nothing waits on a promotion made here: the entry, and
      // every entry settled before (its whole pending subtree included), is settled
      ensures Settled(entries, h)
    {
      if entries[h].fullyValid {
        assert FlagsOk(entries, founder, validated, h);
        return;
      }
      var parent := MarkAndLink(h, isRoot);
      if HasAllParentsValid(entries, h) {
        ghost var linked := entries;
        UnvalidatedShrinks(old(entries), linked);
        PromoteAndPropagate(h, Unvalidated(old(entries)));
        GrowsTransitive(old(entries), linked, entries);
        SameLinksTransitive(Linking(old(entries), h, parent), linked, entries);
        assert Kept(linked, entries, h);
        KeptTransitive(old(entries), linked, entries, {h});
      } else {
        UnpromotedSettled(entries, founder, validated, members, h);
      }
    }

    /**
     * The last steps of `validateEntry` for an entry whose chain reaches a
     * root: promote it, then re-validate the children linked to it.
     */
    method PromoteAndPropagate(h: Hash, ghost bound: set<Hash>)
      requires Valid() && h in entries
      requires entries[h].isValid && !entries[h].fullyValid && HasAllParentsValid(entries, h)
      requires Unvalidated(entries) <= bound
      modifies this
      decreases bound, 2
      ensures Valid()
      ensures entries.Keys == old(entries.Keys)
      ensures Grows(old(entries), entries)
      ensures old(validated) <= validated && old(members) <= members
      ensures SameLinks(old(entries), entries)
      ensures entries[h].fullyValid && HasAllParentsValid(entries, h)
      ensures forall c :: c in entries[h].children ==> c in entries && entries[c].fullyValid
      // no entry changes its `isValid` or `root` flags, and every entry settled
      // before stays settled: the children's pending subtrees are promoted too
      ensures forall k :: Kept(old(entries), entries, k)
    {
      ghost var md := entries[h].decoded.memberDevice;
      PromoteEntry(h);
      ghost var promoted := entries;
      PromoteShrinks(old(entries), old(entries), h);
      ValidateChildren(h, bound);
      GrowsTransitive(old(entries), promoted, entries);
      SameLinksTransitive(old(entries), promoted, entries);
      PrefixOfExtension(old(validated), h, validated);
      PrefixOfExtension(old(members), md.value, members);
      assert FlagsOk(entries, founder, validated, h);
      PropagateKept(old(entries), entries, h);
    }

    /** The first steps of `validateEntry`: set the flags, then find the parent. */
    method MarkAndLink(h: Hash, isRoot: bool) returns (parent: Option<Hash>)
      requires Valid() && h in entries
      requires entries[h].decoded.parentPubKey.Some? && !entries[h].fullyValid
      requires isRoot ==> entries[h].decoded.parentPubKey == Some(founder)
      requires !isRoot ==>
                 || (entries[h].decoded.parentPubKey != Some(founder) &&
                     HasInviter(entries, entries[h].decoded.parentPubKey.value))
                 || entries[h].isValid
      modifies this
      ensures Valid()
      ensures members == old(members) && validated == old(validated)
      ensures entries.Keys == old(entries.Keys)
      ensures Grows(old(entries), entries)
      ensures entries[h].isValid && !entries[h].fullyValid
      ensures entries[h].root == (old(entries[h].root) || isRoot)
      ensures parent == entries[h].parent
      ensures old(entries[h].parent).None? ==>
                (parent.Some? <==> HasInviter(old(entries), entries[h].decoded.parentPubKey.value))
      ensures SameLinks(Linking(old(entries), h, parent), entries)
      ensures forall k :: k != h ==> Kept(old(entries), entries, k)
    {
      assert Linked(entries, h);
      MarkEntry(h, isRoot);
      ghost var marked := entries;
      parent := FindParent(h);
      GrowsTransitive(old(entries), marked, entries);
      HasInviterSame(old(entries), marked, entries[h].decoded.parentPubKey.value);
      if old(entries[h].parent).None? && parent.Some? {
        LinkSameLinks(old(entries), marked, h, parent.value);
        LinkKept(marked, h, parent.value);
      } else {
        SameLinksTransitive(old(entries), marked, entries);
      }
      KeptTransitive(old(entries), marked, entries, {h});
      assert Linked(entries, h);
    }

    /** `validateEntry`'s first assignments: the entry is validated, and made a root when `isRoot`. */
    method MarkEntry(h: Hash, isRoot: bool)
      requires Valid() && h in entries
      requires entries[h].decoded.parentPubKey.Some? && !entries[h].fullyValid
      requires isRoot ==> entries[h].decoded.parentPubKey == Some(founder)
      requires !isRoot ==> entries[h].decoded.parentPubKey != Some(founder) || entries[h].isValid
      modifies this
      ensures Inv(entries, founder, validated, members) && LinkedExcept(entries, {h})
      ensures members == old(members) && validated == old(validated)
      ensures entries == Mark(old(entries), h, isRoot)
      ensures Grows(old(entries), entries) && SameLinks(old(entries), entries)
      ensures forall k :: k != h ==> Kept(old(entries), entries, k)
    {
      MarkKeepsInv(entries, founder, validated, members, h, isRoot);
      FlagsKeepLinks(entries, h, isRoot);
      MarkKept(entries, h, isRoot);
      LinkedKept(entries, Mark(entries, h, isRoot), {h});
      entries := Mark(entries, h, isRoot);
    }

    /** Promotes an entry whose chain reaches a root, appending its member device. */
    method PromoteEntry(h: Hash)
      requires Valid() && h in entries
      requires entries[h].isValid && !entries[h].fullyValid && HasAllParentsValid(entries, h)
      modifies this
      ensures Valid()
      ensures old(entries[h].decoded.memberDevice).Some?
      ensures entries == Promote(old(entries), h)
      ensures validated == old(validated) + [h]
      ensures members == old(members) + [old(entries[h].decoded.memberDevice).value]
      ensures Grows(old(entries), entries) && SameLinks(old(entries), entries)
    {
      PromoteKeepsInv(entries, founder, validated, members, h);
      FlagsKeepLinks(entries, h, false);
      PromoteKeepsLinked(entries, h);
      members := members + [entries[h].decoded.memberDevice.value];
      validated := validated + [h];
      entries := Promote(entries, h);
    }

    /** `validateEntry`'s loop over the children linked to a newly promoted entry. */
    method ValidateChildren(h: Hash, ghost bound: set<Hash>)
      requires Valid() && h in entries && entries[h].fullyValid
      requires Unvalidated(entries) < bound
      modifies this
      decreases bound, 1
      ensures Valid()
      ensures entries.Keys == old(entries.Keys)
      ensures Grows(old(entries), entries)
      ensures old(validated) <= validated && old(members) <= members
      ensures SameLinks(old(entries), entries)
      ensures forall c :: c in entries[h].children ==> c in entries && entries[c].fullyValid
      ensures forall k :: Kept(old(entries), entries, k)
    {
      var kids := entries[h].children;
      var i := 0;
      while i < |kids|
        invariant 0 <= i <= |kids|
        invariant Valid()
        invariant entries.Keys == old(entries.Keys)
        invariant Grows(old(entries), entries)
        invariant old(validated) <= validated && old(members) <= members
        invariant Unvalidated(entries) < bound
        invariant SameLinks(old(entries), entries)
        invariant forall j :: 0 <= j < i ==> kids[j] in entries && entries[kids[j]].fullyValid
        invariant forall k :: Kept(old(entries), entries, k)
      {
        ghost var before := entries;
        RevalidateChild(h, kids[i], bound);
        GrowsTransitive(old(entries), before, entries);
        SameLinksTransitive(old(entries), before, entries);
        KeptTransitive(old(entries), before, entries, {});
        i := i + 1;
      }
    }

    /** One turn of `validateEntry`'s loop: validate a child of a fully valid entry. */
    method RevalidateChild(h: Hash, c: Hash, ghost bound: set<Hash>)
      requires Valid() && h in entries && entries[h].fullyValid && c in entries[h].children
      requires Unvalidated(entries) < bound
      modifies this
      decreases bound, 0
      ensures Valid()
      ensures entries.Keys == old(entries.Keys)
      ensures Grows(old(entries), entries)
      ensures old(validated) <= validated && old(members) <= members
      ensures Unvalidated(entries) <= old(Unvalidated(entries))
      ensures SameLinks(old(entries), entries)
      ensures c in entries && entries[c].fullyValid
      ensures forall k :: Kept(old(entries), entries, k)
    {
      assert LinksOk(entries, h) && LinksOk(entries, c) && FlagsOk(entries, founder, validated, c);
      ValidateEntry(c, false);
      UnvalidatedShrinks(old(entries), entries);
      assert FlagsOk(entries, founder, validated, h);
      ChildOfValid(entries, c, h);
    }

    /**
     * The body of `UpdateIndex`'s loop for one log entry: look the hash up
     * (decoding it the first time), skip it if decoding failed, validate it as
     * a root if the founding key invited it, else validate it as invited if
     * its inviter is a known device, and otherwise leave it for a later pass.
     */
    method IndexLogEntry(l: LogEntry)
      requires Valid() && AllSettled(entries)
      modifies this
      ensures Valid() && AllSettled(entries)
      ensures entries.Keys == old(entries.Keys) + {l.hash}
      ensures Grows(old(entries), entries) && Grows(Memo(old(entries), codec, l), entries)
      ensures old(validated) <= validated && old(members) <= members
      ensures l.hash !in old(entries) ==> entries[l.hash].decoded == Decode(codec, l)
      // an entry that failed decoding is only recorded
      ensures entries[l.hash].decoded.err.Some? ==>
                entries == Memo(old(entries), codec, l) && members == old(members)
      // root entries are promoted at once
      ensures entries[l.hash].decoded.parentPubKey == Some(founder) ==>
                entries[l.hash].root && entries[l.hash].fullyValid
      // invited entries are validated when their inviter is a known device ...
      ensures entries[l.hash].decoded.parentPubKey.Some? &&
              HasInviter(Memo(old(entries), codec, l), entries[l.hash].decoded.parentPubKey.value) ==>
                entries[l.hash].isValid
      // ... and otherwise left untouched until a later pass
      ensures entries[l.hash].decoded.parentPubKey.Some? &&
              entries[l.hash].decoded.parentPubKey != Some(founder) &&
              !HasInviter(Memo(old(entries), codec, l), entries[l.hash].decoded.parentPubKey.value) ==>
                entries == Memo(old(entries), codec, l) && members == old(members)
      // redelivering a fully valid entry changes nothing
      ensures l.hash in old(entries) && old(entries[l.hash].fullyValid) ==>
                entries == old(entries) && members == old(members)
      // a validated entry whose chain reaches a root is promoted
      ensures entries[l.hash].isValid && HasAllParentsValid(entries, l.hash) ==> entries[l.hash].fullyValid
      // the entry is newly validated only as a root or as invited by a known device ...
      ensures entries[l.hash].isValid && !(l.hash in old(entries) && old(entries[l.hash].isValid)) ==>
                && entries[l.hash].decoded.parentPubKey.Some?
                && (|| entries[l.hash].decoded.parentPubKey == Some(founder)
                    || HasInviter(Memo(old(entries), codec, l), entries[l.hash].decoded.parentPubKey.value))
      // ... and no other entry changes its `isValid` or `root` flags or is left unsettled
      ensures forall k :: k != l.hash ==> Kept(old(entries), entries, k)
    {
      MemoKeepsInv(entries, founder, validated, members, codec, l);
      MemoKeepsSettled(entries, codec, l);
      MemoKept(entries, codec, l);
      entries := Memo(entries, codec, l);
      ghost var memo := entries;
      assert FlagsOk(entries, founder, validated, l.hash);
      if entries[l.hash].decoded.parentPubKey.None? {
        return;
      }
      ClassifyEntry(l.hash);
      KeptTransitive(old(entries), memo, entries, {l.hash});
    }

    /**
     * The classification of a decoded claim: validated as a root when the
     * founding key invited it, else as invited when its inviter is a known
     * device, else left alone.
     */
    method ClassifyEntry(h: Hash)
      requires Valid() && AllSettled(entries) && h in entries && entries[h].decoded.parentPubKey.Some?
      modifies this
      ensures Valid() && AllSettled(entries)
      ensures entries.Keys == old(entries.Keys)
      ensures Grows(old(entries), entries)
      ensures old(validated) <= validated && old(members) <= members
      ensures entries[h].decoded.parentPubKey == Some(founder) ==>
                entries[h].isValid && entries[h].root && entries[h].fullyValid
      ensures HasInviter(old(entries), entries[h].decoded.parentPubKey.value) ==> entries[h].isValid
      ensures entries[h].decoded.parentPubKey != Some(founder) &&
              !HasInviter(old(entries), entries[h].decoded.parentPubKey.value) ==>
                entries == old(entries) && members == old(members)
      ensures old(entries[h].fullyValid) ==> entries == old(entries) && members == old(members)
      // a validated entry whose chain reaches a root is promoted
      ensures entries[h].isValid && HasAllParentsValid(entries, h) ==> entries[h].fullyValid
      // no other entry changes its `isValid` or `root` flags or is left unsettled
      ensures forall k :: k != h ==> Kept(old(entries), entries, k)
    {
      var entry := entries[h];
      if CheckMemberLogEntryPayloadFirst(entry) == Pass {
        ValidateEntry(h, true);
        SettledAfter(old(entries), entries, h);
        return;
      }
      var invited := CheckMemberLogEntryPayloadInvited(entry);
      if invited == Pass {
        ValidateEntry(h, false);
        SettledAfter(old(entries), entries, h);
      } else if entries[h].isValid && HasAllParentsValid(entries, h) {
        SettledClosed(entries, h, |entries|);
      }
    }

    /**
     * `UpdateIndex`: rescans the whole log on every call (the batch of new
     * entries it is given is not used), indexing each log entry in log order.
     */
    method UpdateIndex(log: seq<LogEntry>, batch: seq<LogEntry>)
      requires Valid() && AllSettled(entries)
      modifies this
      ensures Valid() && AllSettled(entries)
      ensures old(validated) <= validated && old(members) <= members
      ensures Indexed(old(entries), entries, codec, founder, log, |log|)
      // no validated entry whose chain reaches a root is left unpromoted
      ensures forall h :: h in entries && entries[h].isValid && HasAllParentsValid(entries, h) ==>
                entries[h].fullyValid
    {
      var i := 0;
      while i < |log|
        invariant 0 <= i <= |log|
        invariant Valid() && AllSettled(entries)
        invariant old(validated) <= validated && old(members) <= members
        invariant Indexed(old(entries), entries, codec, founder, log, i)
      {
        ghost var validated0, members0 := validated, members;
        IndexNext(log, i, old(entries));
        PrefixTransitive(old(validated), validated0, validated);
        PrefixTransitive(old(members), members0, members);
        i := i + 1;
      }
      PromotionComplete(entries);
    }

    /** One turn of `UpdateIndex`'s loop: the pass from `e0` extends over `log[i]`. */
    method IndexNext(log: seq<LogEntry>, i: nat, ghost e0: Entries)
      requires i < |log| && Valid() && AllSettled(entries)
      requires Indexed(e0, entries, codec, founder, log, i)
      modifies this
      ensures Valid() && AllSettled(entries)
      ensures old(validated) <= validated && old(members) <= members
      ensures Indexed(e0, entries, codec, founder, log, i + 1)
    {
      IndexLogEntry(log[i]);
      IndexedStep(e0, old(entries), entries, codec, founder, log, i);
    }
  }

  /**
   * What a pass over the first `n` log entries leaves, starting from `e0`:
   * exactly their hashes are added; each new hash is decoded from its first
   * occurrence; each root claim is fully valid; each claim whose inviter was
   * a known device when the pass reached it is validated; and nothing earlier
   * is undone.
   */
  ghost predicate Indexed(e0: Entries, e: Entries, codec: Codec, founder: PubKey, log: seq<LogEntry>, n: nat)
    requires n <= |log|
  {
    && e.Keys == e0.Keys + Hashes(log, n)
    && Grows(e0, e)
    && DecodedUpTo(e0, e, codec, log, n)
    && RootsUpTo(e, founder, log, n)
    && InvitedUpTo(e0, e, log, n)
    && AdmittedUpTo(e0, e, founder, log, n)
  }

  /** Each hash the pass added is decoded from its first occurrence in the log. */
  ghost predicate DecodedUpTo(e0: Entries, e: Entries, codec: Codec, log: seq<LogEntry>, n: nat)
    requires n <= |log|
  {
    forall j :: 0 <= j < n && log[j].hash !in e0 && FirstWithHash(log, j) && log[j].hash in e ==>
      e[log[j].hash].decoded == Decode(codec, log[j])
  }

  /** Each claim among the first `n` hashes that names the founder is a fully valid root. */
  ghost predicate RootsUpTo(e: Entries, founder: PubKey, log: seq<LogEntry>, n: nat)
    requires n <= |log|
  {
    forall h :: h in Hashes(log, n) && h in e && e[h].decoded.parentPubKey == Some(founder) ==>
      e[h].root && e[h].fullyValid
  }

  /** Some entry of `e` among `keys` has `key` as its device. */
  ghost predicate KnownAmong(e: Entries, keys: set<Hash>, key: PubKey)
  {
    exists k :: k in keys && k in e && e[k].HasDevice(key)
  }

  /**
   * Each of the first `n` log entries whose inviter was a known device when
   * the pass reached it (an entry of `e0`, or of the log up to and including
   * that entry) is validated.
   */
  ghost predicate InvitedUpTo(e0: Entries, e: Entries, log: seq<LogEntry>, n: nat)
    requires n <= |log|
  {
    forall j :: 0 <= j < n && log[j].hash in e && e[log[j].hash].decoded.parentPubKey.Some? &&
                KnownAmong(e, e0.Keys + Hashes(log, j + 1), e[log[j].hash].decoded.parentPubKey.value) ==>
                  e[log[j].hash].isValid
  }

  /**
   * Entry `h` passes one of the two checks: its inviter is the founding key,
   * or the device of an entry of `e` among `keys`.
   */
  ghost predicate AdmittedAmong(e: Entries, keys: set<Hash>, founder: PubKey, h: Hash)
    requires h in e
  {
    && e[h].decoded.parentPubKey.Some?
    && (|| e[h].decoded.parentPubKey.value == founder
        || KnownAmong(e, keys, e[h].decoded.parentPubKey.value))
  }

  /**
   * The converse of `RootsUpTo` and `InvitedUpTo`: each entry the pass
   * validated was admitted when the pass reached one of its occurrences in
   * the first `n` log entries; every other entry keeps its flag.
   */
  ghost predicate AdmittedUpTo(e0: Entries, e: Entries, founder: PubKey, log: seq<LogEntry>, n: nat)
    requires n <= |log|
  {
    forall h :: h in e && e[h].isValid && !(h in e0 && e0[h].isValid) ==>
      exists j :: 0 <= j < n && log[j].hash == h && AdmittedAmong(e, e0.Keys + Hashes(log, j + 1), founder, h)
  }

  /** One log entry extends the pass by one. */
  lemma IndexedStep(e0: Entries, e: Entries, e': Entries, codec: Codec, founder: PubKey, log: seq<LogEntry>, i: nat)
    requires i < |log| && Indexed(e0, e, codec, founder, log, i)
    requires e'.Keys == e.Keys + {log[i].hash}
    requires Grows(e, e') && Grows(Memo(e, codec, log[i]), e')
    requires log[i].hash !in e ==> e'[log[i].hash].decoded == Decode(codec, log[i])
    requires e'[log[i].hash].decoded.parentPubKey == Some(founder) ==>
               e'[log[i].hash].root && e'[log[i].hash].fullyValid
    requires e'[log[i].hash].decoded.parentPubKey.Some? &&
             HasInviter(Memo(e, codec, log[i]), e'[log[i].hash].decoded.parentPubKey.value) ==>
               e'[log[i].hash].isValid
    requires e'[log[i].hash].isValid && !(log[i].hash in e && e[log[i].hash].isValid) ==>
               && e'[log[i].hash].decoded.parentPubKey.Some?
               && (|| e'[log[i].hash].decoded.parentPubKey == Some(founder)
                   || HasInviter(Memo(e, codec, log[i]), e'[log[i].hash].decoded.parentPubKey.value))
    requires forall k :: k != log[i].hash ==> Kept(e, e', k)
    ensures Indexed(e0, e', codec, founder, log, i + 1)
  {
    HashesStep(log, i);
    GrowsTransitive(e0, e, e');
    DecodedStep(e0, e, e', codec, log, i);
    RootsStep(e0, e, e', founder, log, i);
    InvitedStep(e0, e, e', codec, log, i);
    AdmittedStep(e0, e, e', codec, founder, log, i);
  }

  /** The pass validates the entry it reaches only when that entry is admitted, and no other. */
  lemma AdmittedStep(e0: Entries, e: Entries, e': Entries, codec: Codec, founder: PubKey, log: seq<LogEntry>, i: nat)
    requires i < |log| && e.Keys == e0.Keys + Hashes(log, i) && e'.Keys == e.Keys + {log[i].hash}
    requires Grows(e, e') && Grows(Memo(e, codec, log[i]), e')
    requires AdmittedUpTo(e0, e, founder, log, i)
    requires e'[log[i].hash].isValid && !(log[i].hash in e && e[log[i].hash].isValid) ==>
               && e'[log[i].hash].decoded.parentPubKey.Some?
               && (|| e'[log[i].hash].decoded.parentPubKey == Some(founder)
                   || HasInviter(Memo(e, codec, log[i]), e'[log[i].hash].decoded.parentPubKey.value))
    requires forall k :: k != log[i].hash ==> Kept(e, e', k)
    ensures AdmittedUpTo(e0, e', founder, log, i + 1)
  {
    HashesStep(log, i);
    forall h | h in e' && e'[h].isValid && !(h in e0 && e0[h].isValid)
      ensures exists j :: 0 <= j < i + 1 && log[j].hash == h &&
                AdmittedAmong(e', e0.Keys + Hashes(log, j + 1), founder, h)
    {
      if h != log[i].hash {
        assert h in e && Kept(e, e', h);
      }
      if h in e && e[h].isValid {
        AdmittedEarlier(e0, e, e', founder, log, i, h);
      } else {
        assert h == log[i].hash;
        AdmittedNow(e0, e, e', codec, founder, log, i);
      }
    }
  }

  /** An entry validated earlier in the pass was admitted at an earlier occurrence. */
  lemma AdmittedEarlier(e0: Entries, e: Entries, e': Entries, founder: PubKey, log: seq<LogEntry>, i: nat, h: Hash)
    requires i < |log| && Grows(e, e') && AdmittedUpTo(e0, e, founder, log, i)
    requires h in e && e[h].isValid && !(h in e0 && e0[h].isValid)
    ensures exists j :: 0 <= j < i + 1 && log[j].hash == h &&
              AdmittedAmong(e', e0.Keys + Hashes(log, j + 1), founder, h)
  {
    var j :| 0 <= j < i && log[j].hash == h && AdmittedAmong(e, e0.Keys + Hashes(log, j + 1), founder, h);
    AdmittedGrows(e, e', e0.Keys + Hashes(log, j + 1), founder, h);
  }

  /** The entry the pass reaches is validated there only when it is admitted among the keys known then. */
  lemma AdmittedNow(e0: Entries, e: Entries, e': Entries, codec: Codec, founder: PubKey, log: seq<LogEntry>, i: nat)
    requires i < |log| && e.Keys == e0.Keys + Hashes(log, i) && e'.Keys == e.Keys + {log[i].hash}
    requires Grows(Memo(e, codec, log[i]), e')
    requires e'[log[i].hash].decoded.parentPubKey.Some?
    requires || e'[log[i].hash].decoded.parentPubKey == Some(founder)
             || HasInviter(Memo(e, codec, log[i]), e'[log[i].hash].decoded.parentPubKey.value)
    ensures AdmittedAmong(e', e0.Keys + Hashes(log, i + 1), founder, log[i].hash)
  {
    HashesStep(log, i);
    KnownFromMemo(e, e', codec, log[i]);
  }

  /** Admission depends only on decodings, which never change. */
  lemma AdmittedGrows(e: Entries, e': Entries, keys: set<Hash>, founder: PubKey, h: Hash)
    requires Grows(e, e') && h in e && AdmittedAmong(e, keys, founder, h)
    ensures AdmittedAmong(e', keys, founder, h)
  {
    if e[h].decoded.parentPubKey.value != founder {
      var k :| k in keys && k in e && e[k].HasDevice(e[h].decoded.parentPubKey.value);
      assert k in e' && e'[k].decoded == e[k].decoded;
    }
  }

  /** A device the lookup's map knows is known among the keys after the step. */
  lemma KnownFromMemo(e: Entries, e': Entries, codec: Codec, l: LogEntry)
    requires Grows(Memo(e, codec, l), e')
    ensures forall key :: HasInviter(Memo(e, codec, l), key) ==> KnownAmong(e', Memo(e, codec, l).Keys, key)
  {
    var m := Memo(e, codec, l);
    forall key | HasInviter(m, key) ensures KnownAmong(e', m.Keys, key) {
      var k :| k in m && m[k].HasDevice(key);
      assert k in e' && e'[k].decoded == m[k].decoded;
    }
  }

  lemma RootsStep(e0: Entries, e: Entries, e': Entries, founder: PubKey, log: seq<LogEntry>, i: nat)
    requires i < |log| && e.Keys == e0.Keys + Hashes(log, i) && e'.Keys == e.Keys + {log[i].hash}
    requires Grows(e, e')
    requires RootsUpTo(e, founder, log, i)
    requires e'[log[i].hash].decoded.parentPubKey == Some(founder) ==>
               e'[log[i].hash].root && e'[log[i].hash].fullyValid
    ensures RootsUpTo(e', founder, log, i + 1)
  {
  }

  lemma DecodedStep(e0: Entries, e: Entries, e': Entries, codec: Codec, log: seq<LogEntry>, i: nat)
    requires i < |log| && e.Keys == e0.Keys + Hashes(log, i) && e'.Keys == e.Keys + {log[i].hash}
    requires Grows(e, e')
    requires DecodedUpTo(e0, e, codec, log, i)
    requires log[i].hash !in e ==> e'[log[i].hash].decoded == Decode(codec, log[i])
    ensures DecodedUpTo(e0, e', codec, log, i + 1)
  {
    forall j | 0 <= j < i + 1 && log[j].hash !in e0 && FirstWithHash(log, j) && log[j].hash in e'
      ensures e'[log[j].hash].decoded == Decode(codec, log[j])
    {
      if j == i {
        assert log[i].hash !in Hashes(log, i);
      }
    }
  }

  lemma InvitedStep(e0: Entries, e: Entries, e': Entries, codec: Codec, log: seq<LogEntry>, i: nat)
    requires i < |log| && e.Keys == e0.Keys + Hashes(log, i) && e'.Keys == e.Keys + {log[i].hash}
    requires Grows(e0, e) && Grows(e, e') && Grows(Memo(e, codec, log[i]), e')
    requires InvitedUpTo(e0, e, log, i)
    requires e'[log[i].hash].decoded.parentPubKey.Some? &&
             HasInviter(Memo(e, codec, log[i]), e'[log[i].hash].decoded.parentPubKey.value) ==>
               e'[log[i].hash].isValid
    ensures InvitedUpTo(e0, e', log, i + 1)
  {
    HashesStep(log, i);
    forall j | 0 <= j < i + 1 && log[j].hash in e' && e'[log[j].hash].decoded.parentPubKey.Some? &&
               KnownAmong(e', e0.Keys + Hashes(log, j + 1), e'[log[j].hash].decoded.parentPubKey.value)
      ensures e'[log[j].hash].isValid
    {
      if j < i {
        InvitedEarlier(e0, e, e', log, j, i);
      } else {
        assert j == i;
        KnownNow(e, e', codec, log[j], e0.Keys + Hashes(log, j + 1));
      }
    }
  }

  /** An inviter known among the keys of the map after the step is known in the map the lookup made. */
  lemma KnownNow(e: Entries, e': Entries, codec: Codec, l: LogEntry, keys: set<Hash>)
    requires Grows(Memo(e, codec, l), e') && e'.Keys == e.Keys + {l.hash}
    requires e'[l.hash].decoded.parentPubKey.Some?
    requires KnownAmong(e', keys, e'[l.hash].decoded.parentPubKey.value)
    ensures HasInviter(Memo(e, codec, l), e'[l.hash].decoded.parentPubKey.value)
  {
    var m := Memo(e, codec, l);
    var key := e'[l.hash].decoded.parentPubKey.value;
    var k :| k in keys && k in e' && e'[k].HasDevice(key);
    assert k in m && m[k].HasDevice(key);
  }

  /** An earlier entry validated by the pass stays validated, whatever the later entries add. */
  lemma InvitedEarlier(e0: Entries, e: Entries, e': Entries, log: seq<LogEntry>, j: nat, i: nat)
    requires j < i <= |log| && e.Keys == e0.Keys + Hashes(log, i) && Grows(e, e')
    requires InvitedUpTo(e0, e, log, i)
    requires log[j].hash in e' && e'[log[j].hash].decoded.parentPubKey.Some?
    requires KnownAmong(e', e0.Keys + Hashes(log, j + 1), e'[log[j].hash].decoded.parentPubKey.value)
    ensures e'[log[j].hash].isValid
  {
    HashesMono(log, j + 1, i);
    var key := e'[log[j].hash].decoded.parentPubKey.value;
    var k :| k in e0.Keys + Hashes(log, j + 1) && k in e' && e'[k].HasDevice(key);
    assert log[j].hash in Hashes(log, i);
    assert k in e && e[k].decoded == e'[k].decoded;
    assert KnownAmong(e, e0.Keys + Hashes(log, j + 1), e[log[j].hash].decoded.parentPubKey.value);
  }

  lemma HashesMono(log: seq<LogEntry>, m: nat, n: nat)
    requires m <= n <= |log|
    ensures Hashes(log, m) <= Hashes(log, n)
  {
  }

  /**
   * A log entry whose first occurrence failed decoding is recorded by the pass
   * but is neither validated nor fully valid after it.
   */
  lemma RejectedEntriesStayOut(e0: Entries, e: Entries, codec: Codec, founder: PubKey, validated: seq<Hash>,
                               members: seq<MemberDevice>, log: seq<LogEntry>, j: nat)
    requires Inv(e, founder, validated, members) && Indexed(e0, e, codec, founder, log, |log|)
    requires j < |log| && log[j].hash !in e0 && FirstWithHash(log, j)
    requires Decode(codec, log[j]).err.Some?
    ensures log[j].hash in e && !e[log[j].hash].isValid && !e[log[j].hash].fullyValid
  {
    assert log[j].hash in Hashes(log, |log|);
    RejectedNeverValid(e, founder, validated, members, log[j].hash);
  }

  /**
   * One pass over a log holding a claim the founding key made and then a
   * claim invited by the first claim's device leaves both fully valid and
   * both member devices listed, when no other entry has that device.
   */
  lemma InOrderLogJoins(e: Entries, codec: Codec, founder: PubKey, validated: seq<Hash>,
                        members: seq<MemberDevice>, a: LogEntry, b: LogEntry)
    requires Inv(e, founder, validated, members) && LinkedExcept(e, {}) && AllSettled(e)
    requires Indexed(map[], e, codec, founder, [a, b], 2)
    requires a.hash != b.hash
    requires Decode(codec, a).parentPubKey == Some(founder) && Decode(codec, a).memberDevice.Some?
    requires Decode(codec, b).parentPubKey == Some(Decode(codec, a).memberDevice.value.device)
    requires Decode(codec, b).memberDevice.Some? &&
             Decode(codec, b).memberDevice.value.device != Decode(codec, a).memberDevice.value.device
    ensures a.hash in e && e[a.hash].fullyValid && b.hash in e && e[b.hash].fullyValid
    ensures Decode(codec, a).memberDevice.value in members && Decode(codec, b).memberDevice.value in members
  {
    var log := [a, b];
    assert log[0] == a && log[1] == b;
    assert Hashes(log, 1) == {a.hash};
    assert Hashes(log, 2) == {a.hash, b.hash};
    assert FirstWithHash(log, 0) && FirstWithHash(log, 1);
    var key := Decode(codec, b).parentPubKey.value;
    var none: Entries := map[];
    if key != founder {
      assert KnownAmong(e, none.Keys + Hashes(log, 2), key) by {
        assert e[a.hash].HasDevice(key);
      }
      InvitedByMember(e, founder, validated, members, b.hash);
    }
    LedgerListsMembers(e, founder, validated, members);
  }

  /**
   * One pass over a log holding an invited claim before the founding key's
   * claim leaves the invited claim untouched: its inviter was unknown when
   * the pass reached it. The root claim is still promoted.
   */
  lemma OutOfOrderLogWaits(e: Entries, codec: Codec, founder: PubKey, validated: seq<Hash>,
                           members: seq<MemberDevice>, b: LogEntry, a: LogEntry)
    requires Inv(e, founder, validated, members)
    requires Indexed(map[], e, codec, founder, [b, a], 2)
    requires a.hash != b.hash
    requires Decode(codec, a).parentPubKey == Some(founder)
    requires Decode(codec, b).parentPubKey.Some? && Decode(codec, b).parentPubKey.value != founder
    requires Decode(codec, b).memberDevice.Some? &&
             Decode(codec, b).memberDevice.value.device != Decode(codec, b).parentPubKey.value
    ensures a.hash in e && e[a.hash].fullyValid
    ensures b.hash in e && !e[b.hash].isValid && !e[b.hash].fullyValid
  {
    var log := [b, a];
    var none: Entries := map[];
    assert log[0] == b && log[1] == a;
    assert Hashes(log, 1) == {b.hash};
    assert Hashes(log, 2) == {b.hash, a.hash};
    assert FirstWithHash(log, 0) && FirstWithHash(log, 1);
    assert !AdmittedAmong(e, none.Keys + Hashes(log, 1), founder, b.hash);
    assert FlagsOk(e, founder, validated, b.hash);
  }

  lemma PrefixTransitive<T>(a: seq<T>, b: seq<T>, c: seq<T>)
    requires a <= b && b <= c
    ensures a <= c
  {
    assert forall i :: 0 <= i < |a| ==> a[i] == b[i] == c[i];
  }

  lemma HashesStep(log: seq<LogEntry>, i: nat)
    requires i < |log|
    ensures Hashes(log, i + 1) == Hashes(log, i) + {log[i].hash}
  {
  }

  /** The hashes of the first `n` entries of a log. */
  ghost function Hashes(log: seq<LogEntry>, n: nat): (r: set<Hash>)
    requires n <= |log|
  {
    set j | 0 <= j < n :: log[j].hash
  }

  /** `log[j]` is the first entry of the log with its hash. */
  ghost predicate FirstWithHash(log: seq<LogEntry>, j: int)
    requires 0 <= j < |log|
  {
    forall k :: 0 <= k < j ==> log[k].hash != log[j].hash
  }
}
