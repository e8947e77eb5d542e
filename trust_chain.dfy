/**
 * The per-entry state of the membership index and the trust chain it follows:
 * an entry is kept in an arena keyed by its log hash, and its parent and
 * children are hashes into that arena.
 */
module TrustChain {
  import opened MemberLog
  import opened EntryPayload

  /** One index entry, as the index keeps it for a log hash. */
  datatype IndexEntry = IndexEntry(
    decoded: Decoded,          // memberDevice, err, payload and parentPubKey, fixed once decoded
    root: bool,
    children: seq<Hash>,
    isValid: bool,
    parent: Option<Hash>,
    fullyValid: bool)
  {
    /** The entry decoded a member device whose device key is `key`. */
    predicate HasDevice(key: PubKey)
    {
      decoded.memberDevice.Some? && decoded.memberDevice.value.device == key
    }
  }

  type Entries = map<Hash, IndexEntry>

  /** A freshly decoded entry: no flag set, no link made. */
  function NewEntry(d: Decoded): (r: IndexEntry)
  {
    IndexEntry(d, false, [], false, None, false)
  }

  /** Some indexed entry has `key` as its device: the invited-entry check. */
  predicate HasInviter(e: Entries, key: PubKey)
  {
    exists h :: h in e && e[h].HasDevice(key)
  }

  /**
   * The walk that `hasAllParentsValid` makes, allowed `fuel` parent links: `h`
   * is a root, or its parent is linked, validated and itself passes.
   */
  predicate ParentsValid(e: Entries, h: Hash, fuel: nat)
    decreases fuel
  {
    && h in e
    && (|| e[h].root
        || (&& fuel > 0
            && e[h].parent.Some?
            && e[h].parent.value in e
            && e[e[h].parent.value].isValid
            && ParentsValid(e, e[h].parent.value, fuel - 1)))
  }

  /**
   * `hasAllParentsValid`, walking at most as many links as there are entries;
   * `Shortest` shows that no chain to a root needs more.
   */
  predicate HasAllParentsValid(e: Entries, h: Hash)
  {
    ParentsValid(e, h, |e|)
  }

  lemma {:induction false} FuelMono(e: Entries, h: Hash, n: nat, m: nat)
    requires ParentsValid(e, h, n) && n <= m
    ensures ParentsValid(e, h, m)
    decreases n
  {
    if !e[h].root {
      FuelMono(e, e[h].parent.value, n - 1, m - 1);
    }
  }

  /** The number of links from `h` to the first root on its chain. */
  function Depth(e: Entries, h: Hash, n: nat): (d: nat)
    requires ParentsValid(e, h, n)
    ensures d <= n && ParentsValid(e, h, d)
    decreases n
  {
    if e[h].root then 0 else 1 + Depth(e, e[h].parent.value, n - 1)
  }

  /** No chain from `h` to a root is shorter than `Depth`. */
  lemma {:induction false} DepthMinimal(e: Entries, h: Hash, n: nat, k: nat)
    requires ParentsValid(e, h, n)
    ensures ParentsValid(e, h, k) ==> Depth(e, h, n) <= k
    decreases n
  {
    if !e[h].root && ParentsValid(e, h, k) {
      DepthMinimal(e, e[h].parent.value, n - 1, k - 1);
    }
  }

  /** The entries on the chain from `h` up to and including its first root. */
  ghost function Ancestry(e: Entries, h: Hash, n: nat): (s: set<Hash>)
    requires ParentsValid(e, h, n)
    ensures h in s && s <= e.Keys
    decreases n
  {
    if e[h].root then {h} else {h} + Ancestry(e, e[h].parent.value, n - 1)
  }

  /** Every entry on the chain reaches the root within the chain's own length. */
  lemma {:induction false} AncestryMember(e: Entries, h: Hash, n: nat, x: Hash)
    requires ParentsValid(e, h, n)
    ensures x in Ancestry(e, h, n) ==> ParentsValid(e, x, Depth(e, h, n))
    decreases n
  {
    if x != h && !e[h].root {
      var p := e[h].parent.value;
      AncestryMember(e, p, n - 1, x);
      if x in Ancestry(e, p, n - 1) {
        FuelMono(e, x, Depth(e, p, n - 1), Depth(e, h, n));
      }
    }
  }

  /** A chain to a root visits no entry twice: it holds one entry more than it has links. */
  lemma {:induction false} AncestrySize(e: Entries, h: Hash, n: nat)
    requires ParentsValid(e, h, n)
    ensures |Ancestry(e, h, n)| == Depth(e, h, n) + 1
    decreases n
  {
    if !e[h].root {
      var p := e[h].parent.value;
      AncestrySize(e, p, n - 1);
      AncestryMember(e, p, n - 1, h);
      DepthMinimal(e, h, n, Depth(e, p, n - 1));
      assert h !in Ancestry(e, p, n - 1);
    }
  }

  lemma {:induction false} SubsetSize<T>(a: set<T>, b: set<T>)
    requires a <= b
    ensures |a| <= |b|
    decreases |a|
  {
    if a != {} {
      var x :| x in a;
      SubsetSize(a - {x}, b - {x});
    }
  }

  /** Pigeonhole: a chain to a root never needs more links than there are other entries. */
  lemma {:induction false} Shortest(e: Entries, h: Hash, n: nat)
    requires ParentsValid(e, h, n)
    ensures |e| >= 1 && ParentsValid(e, h, |e| - 1)
  {
    AncestrySize(e, h, n);
    SubsetSize(Ancestry(e, h, n), e.Keys);
    assert |e.Keys| == |e|;
    FuelMono(e, h, Depth(e, h, n), |e| - 1);
  }

  /** The bounded walk is exact: it succeeds iff some finite chain of validated parents reaches a root. */
  lemma {:induction false} HasAllParentsValidExact(e: Entries, h: Hash)
    ensures HasAllParentsValid(e, h) <==> exists n: nat :: ParentsValid(e, h, n)
  {
    if HasAllParentsValid(e, h) {
      assert ParentsValid(e, h, |e|);
    }
    if n: nat :| ParentsValid(e, h, n) {
      Shortest(e, h, n);
      FuelMono(e, h, |e| - 1, |e|);
      assert exists k: nat :: ParentsValid(e, h, k);
    }
  }

  /**
   * The corrected walk answers as `hasAllParentsValid` does, step by step: true
   * at a root, false without a linked and validated parent, otherwise the
   * parent's answer.
   */
  lemma HasAllParentsValidUnfold(e: Entries, h: Hash)
    ensures HasAllParentsValid(e, h) <==>
              && h in e
              && (|| e[h].root
                  || (&& e[h].parent.Some?
                      && e[h].parent.value in e
                      && e[e[h].parent.value].isValid
                      && HasAllParentsValid(e, e[h].parent.value)))
  {
    if h in e && !e[h].root && e[h].parent.Some? && e[h].parent.value in e && e[e[h].parent.value].isValid {
      var p := e[h].parent.value;
      if HasAllParentsValid(e, p) {
        Shortest(e, p, |e|);
      }
      if HasAllParentsValid(e, h) {
        FuelMono(e, p, |e| - 1, |e|);
      }
    }
  }

  /** Once a validated parent has a chain to a root, so has each child linked to it. */
  lemma {:induction false} ChildOfValid(e: Entries, c: Hash, p: Hash)
    requires c in e && e[c].parent == Some(p)
    requires p in e && e[p].isValid && HasAllParentsValid(e, p)
    ensures HasAllParentsValid(e, c)
  {
    Shortest(e, p, |e|);
  }

  /**
   * `hasAllParentsValid` exactly as written: it follows parent links with no
   * bound. `calls` bounds the nested calls made; None means the recursion was
   * still going when the bound ran out.
   */
  function ParentsValidAsWritten(e: Entries, h: Hash, calls: nat): (r: Option<bool>)
    decreases calls
  {
    if calls == 0 then None
    else if h !in e then Some(false)
    else if e[h].root then Some(true)
    else if e[h].parent.None? then Some(false)
    else if e[h].parent.value !in e || !e[e[h].parent.value].isValid then Some(false)
    else ParentsValidAsWritten(e, e[h].parent.value, calls - 1)
  }

  /** Whenever the unbounded recursion returns, it returns what the bounded walk returns. */
  lemma {:induction false} AsWrittenAgrees(e: Entries, h: Hash, calls: nat, b: bool)
    requires ParentsValidAsWritten(e, h, calls) == Some(b)
    ensures b == HasAllParentsValid(e, h)
    decreases calls
  {
    HasAllParentsValidExact(e, h);
    if h in e && !e[h].root && e[h].parent.Some? && e[h].parent.value in e && e[e[h].parent.value].isValid {
      var p := e[h].parent.value;
      AsWrittenAgrees(e, p, calls - 1, b);
      HasAllParentsValidExact(e, p);
      if b {
        var n: nat :| ParentsValid(e, p, n);
        assert ParentsValid(e, h, n + 1);
        assert exists k: nat :: ParentsValid(e, h, k);
      } else {
        forall n: nat ensures !ParentsValid(e, h, n) {
          if n > 0 {
            assert !ParentsValid(e, p, n - 1);
          }
        }
      }
    } else if !b {
      forall n: nat ensures !ParentsValid(e, h, n) {
      }
    }
  }

  /**
   * A validated, non-root entry that is its own parent (what a self-invite
   * links) makes the unbounded recursion run forever, while the bounded walk
   * answers false.
   */
  lemma {:induction false} SelfInviteDiverges(e: Entries, h: Hash, calls: nat)
    requires h in e && !e[h].root && e[h].isValid && e[h].parent == Some(h)
    ensures ParentsValidAsWritten(e, h, calls) == None
    ensures !HasAllParentsValid(e, h)
    decreases calls
  {
    if calls > 0 {
      SelfInviteDiverges(e, h, calls - 1);
    }
    SelfLoopNeverRoots(e, h, |e|);
  }

  lemma {:induction false} SelfLoopNeverRoots(e: Entries, h: Hash, n: nat)
    requires h in e && !e[h].root && e[h].parent == Some(h)
    ensures !ParentsValid(e, h, n)
    decreases n
  {
    if n > 0 {
      SelfLoopNeverRoots(e, h, n - 1);
    }
  }

  /**
   * How the index may change an entry: its decoding never changes, flags are
   * only ever set, a parent once linked stays, children are only appended.
   */
  ghost predicate EntryGrows(a: IndexEntry, b: IndexEntry)
  {
    && b.decoded == a.decoded
    && (a.root ==> b.root)
    && (a.isValid ==> b.isValid)
    && (a.fullyValid ==> b.fullyValid)
    && (a.parent.Some? ==> b.parent == a.parent)
    && a.children <= b.children
  }

  ghost predicate Grows(e: Entries, e': Entries)
  {
    && e.Keys <= e'.Keys
    && forall h :: h in e ==> EntryGrows(e[h], e'[h])
  }

  lemma GrowsTransitive(e1: Entries, e2: Entries, e3: Entries)
    requires Grows(e1, e2) && Grows(e2, e3)
    ensures Grows(e1, e3)
  {
  }

  /** A chain to a root survives every change the index makes. */
  lemma {:induction false} ParentsValidGrows(e: Entries, e': Entries, h: Hash, n: nat)
    requires Grows(e, e') && ParentsValid(e, h, n)
    ensures ParentsValid(e', h, n)
    decreases n
  {
    if !e[h].root {
      ParentsValidGrows(e, e', e[h].parent.value, n - 1);
    }
  }

  lemma HasAllParentsValidGrows(e: Entries, e': Entries, h: Hash)
    requires Grows(e, e') && HasAllParentsValid(e, h)
    ensures HasAllParentsValid(e', h)
  {
    ParentsValidGrows(e, e', h, |e|);
    SubsetSize(e.Keys, e'.Keys);
    assert |e.Keys| == |e| && |e'.Keys| == |e'|;
    FuelMono(e', h, |e|, |e'|);
  }

  lemma HasInviterGrows(e: Entries, e': Entries, key: PubKey)
    requires Grows(e, e') && HasInviter(e, key)
    ensures HasInviter(e', key)
  {
  }

  /** Every chain to a root, of every entry, survives every change the index makes. */
  lemma ChainsGrow(e: Entries, e': Entries)
    requires Grows(e, e')
    ensures forall h :: h in e && HasAllParentsValid(e, h) ==> HasAllParentsValid(e', h)
  {
    forall h | h in e && HasAllParentsValid(e, h) ensures HasAllParentsValid(e', h) {
      HasAllParentsValidGrows(e, e', h);
    }
  }

  /** The invited check does not depend on flags or links. */
  lemma HasInviterSame(e: Entries, e': Entries, key: PubKey)
    requires e.Keys == e'.Keys && forall h :: h in e ==> e'[h].decoded == e[h].decoded
    ensures HasInviter(e, key) == HasInviter(e', key)
  {
  }
}
