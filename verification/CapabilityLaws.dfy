/** What holds of checks, of attenuated chains and of revocation in every store. */
module CapabilityLaws {
  import opened Wrappers
  import opened Scope
  import opened Capabilities

  // ------------------------------------------------------- what a check decides

  /** `ids` follows parent links, leaf first. */
  ghost predicate Path(s: Store, ids: seq<Hash>) {
    && ids != []
    && (forall i :: 0 <= i < |ids| - 1 ==> ids[i] in s.byId && s.byId[ids[i]].content.parent == Some(ids[i + 1]))
  }

  /** A whole chain: present to its root, which has no parent. */
  ghost predicate Chain(s: Store, ids: seq<Hash>) {
    Path(s, ids) && ids[|ids| - 1] in s.byId && s.byId[ids[|ids| - 1]].content.parent.None?
  }

  function Contents(s: Store, ids: seq<Hash>): (caps: seq<Content>)
    requires forall id :: id in ids ==> id in s.byId
    ensures |caps| == |ids| && forall i :: 0 <= i < |ids| ==> caps[i] == s.byId[ids[i]].content
  {
    seq(|ids|, i requires 0 <= i < |ids| => s.byId[ids[i]].content)
  }

  ghost predicate Usable(s: Store, now: Option<int>, ids: seq<Hash>) {
    && Chain(s, ids)
    && (forall id :: id in ids ==> id in s.byId && id !in s.revoked && WithinWindow(s.byId[id].content, now))
  }

  lemma {:induction false} LinksAreUsable(env: Env, s: Store, now: Option<int>, id: Hash, depth: nat) returns (ids: seq<Hash>)
    requires depth <= env.maxDepth && WalkFrom(env, s, now, Some(id), depth).Links?
    ensures Usable(s, now, ids) && ids[0] == id && depth + |ids| <= env.maxDepth
    decreases env.maxDepth - depth
  {
    var parent := s.byId[id].content.parent;
    if parent.None? {
      ids := [id];
    } else {
      var rest := LinksAreUsable(env, s, now, parent.value, depth + 1);
      ids := [id] + rest;
    }
  }

  lemma TailUsable(s: Store, now: Option<int>, ids: seq<Hash>)
    requires Usable(s, now, ids) && |ids| > 1
    ensures Usable(s, now, ids[1..]) && s.byId[ids[0]].content.parent == Some(ids[1])
  {
  }

  lemma WalkStep(env: Env, s: Store, now: Option<int>, id: Hash, depth: nat)
    requires id in s.byId && id !in s.revoked && WithinWindow(s.byId[id].content, now) && depth < env.maxDepth
    ensures var cap := s.byId[id].content;
      WalkFrom(env, s, now, Some(id), depth) == Before(cap, WalkFrom(env, s, now, cap.parent, depth + 1))
  {
  }

  lemma {:induction false} UsableIsWalked(env: Env, s: Store, now: Option<int>, ids: seq<Hash>, depth: nat)
    requires Usable(s, now, ids) && depth + |ids| <= env.maxDepth
    ensures WalkFrom(env, s, now, Some(ids[0]), depth) == Links(Contents(s, ids))
    decreases |ids|
  {
    hide WithinWindow, WalkFrom;
    assert ids[0] in ids;
    WalkStep(env, s, now, ids[0], depth);
    if |ids| == 1 {
      assert WalkFrom(env, s, now, None, depth + 1) == Links([]) by { WalkEnds(env, s, now, depth + 1); }
      assert Contents(s, ids) == [s.byId[ids[0]].content] + [];
    } else {
      TailUsable(s, now, ids);
      UsableIsWalked(env, s, now, ids[1..], depth + 1);
      FirstContent(s, ids);
      hide Contents;
    }
  }

  lemma FirstContent(s: Store, ids: seq<Hash>)
    requires ids != [] && forall id :: id in ids ==> id in s.byId
    ensures Contents(s, ids) == [s.byId[ids[0]].content] + Contents(s, ids[1..])
  {
  }

  lemma WalkEnds(env: Env, s: Store, now: Option<int>, depth: nat)
    requires depth <= env.maxDepth
    ensures WalkFrom(env, s, now, None, depth) == Links([])
  {
  }

  lemma {:induction false} NoUnmetLabels(caveats: seq<Caveat>, d: Descriptor)
    ensures Labels(caveats, d, false) == [] <==> forall c :: c in caveats ==> CaveatPermits(c, d)
  {
    hide CaveatPermits;
    if caveats != [] {
      var init, last := caveats[..|caveats| - 1], caveats[|caveats| - 1];
      NoUnmetLabels(init, d);
      assert caveats == init + [last];
    }
  }

  lemma {:induction false} CaveatsOfAll(caps: seq<Content>)
    ensures forall c :: c in AllCaveats(caps) <==> exists i :: 0 <= i < |caps| && c in caps[i].caveats
  {
    if caps != [] {
      CaveatsOfAll(caps[..|caps| - 1]);
    }
  }

  ghost predicate EveryCaveatPermits(caps: seq<Content>, d: Descriptor) {
    forall i, c :: 0 <= i < |caps| && c in caps[i].caveats ==> CaveatPermits(c, d)
  }

  lemma DecidedBy(parse: Parser, caps: seq<Content>, d: Descriptor)
    ensures Decide(parse, Reversed(caps), d).permitted
       <==> Permits(parse, Fold(parse, Reversed(caps)), d) && EveryCaveatPermits(caps, d)
  {
    hide CaveatPermits, Permits, Fold;
    var chain := Reversed(caps);
    NoUnmetLabels(AllCaveats(chain), d);
    CaveatsOfAll(chain);
    if EveryCaveatPermits(caps, d) {
      forall c | c in AllCaveats(chain)
        ensures CaveatPermits(c, d)
      {
        var i :| 0 <= i < |chain| && c in chain[i].caveats;
        assert c in caps[|caps| - 1 - i].caveats;
      }
    } else {
      var i, c :| 0 <= i < |caps| && c in caps[i].caveats && !CaveatPermits(c, d);
      assert c in chain[|caps| - 1 - i].caveats;
    }
  }

  ghost predicate PermittedBy(env: Env, s: Store, id: Hash, d: Descriptor, now: Option<int>, ids: seq<Hash>) {
    && Usable(s, now, ids) && ids[0] == id && |ids| <= env.maxDepth
    && Permits(env.parse, Fold(env.parse, Reversed(Contents(s, ids))), d)
    && EveryCaveatPermits(Contents(s, ids), d)
  }

  /**
   A check permits exactly when the leaf's subject is not quarantined and a whole chain of at most
   the configured depth, all unrevoked and inside its window, folds to a scope that permits, with
   every caveat of every link permitting. Parent links may be anything, cyclic ones included.
   */
  lemma PermitExactly(env: Env, s: Store, id: Hash, d: Descriptor, now: Option<int>, quarantined: AgentId -> bool)
    ensures IsPermit(Check(env, s, id, d, now, quarantined)) <==>
      && id in s.byId && !quarantined(s.byId[id].content.subject)
      && exists ids :: PermittedBy(env, s, id, d, now, ids)
  {
    hide Permits, Fold, EveryCaveatPermits;
    if id in s.byId && (exists ids :: PermittedBy(env, s, id, d, now, ids)) {
      var ids :| PermittedBy(env, s, id, d, now, ids);
      UsableIsWalked(env, s, now, ids, 0);
      DecidedBy(env.parse, Contents(s, ids), d);
      assert ids[0] in ids;
    }
    if IsPermit(Check(env, s, id, d, now, quarantined)) {
      StoppedNeverPermits(env, s, now, Some(id), 0);
      var ids := LinksAreUsable(env, s, now, id, 0);
      UsableIsWalked(env, s, now, ids, 0);
      DecidedBy(env.parse, Contents(s, ids), d);
      assert PermittedBy(env, s, id, d, now, ids);
    }
  }

  lemma {:induction false} StoppedNeverPermits(env: Env, s: Store, now: Option<int>, cursor: Option<Hash>, depth: nat)
    requires depth <= env.maxDepth
    ensures var w := WalkFrom(env, s, now, cursor, depth); w.Stopped? ==> !IsPermit(w.result)
    decreases env.maxDepth - depth
  {
    if cursor.Some? && depth < env.maxDepth && cursor.value in s.byId {
      StoppedNeverPermits(env, s, now, s.byId[cursor.value].content.parent, depth + 1);
    }
  }

  // ------------------------------------------------------------ attenuated chains

  /** Distinct contents have distinct addresses. */
  ghost predicate Injective(addr: Content -> Hash) {
    forall a, b :: addr(a) == addr(b) ==> a == b
  }

  ghost predicate Keyed(env: Env, s: Store) {
    forall id :: id in s.byId ==> env.addr(s.byId[id].content) == id
  }

  predicate NarrowsParent(env: Env, s: Store, c: Content) {
    c.parent.None?
    || (c.parent.value in s.byId && Intersect(env.parse, s.byId[c.parent.value].content.scope, c.scope) == c.scope)
  }

  ghost predicate Linked(env: Env, s: Store) {
    forall id :: id in s.byId ==> NarrowsParent(env, s, s.byId[id].content)
  }

  predicate RootIssues(ops: seq<Op>) {
    forall i :: 0 <= i < |ops| && ops[i].Issued? ==> ops[i].cap.content.parent.None?
  }

  /** Inserting keeps every content already there. */
  lemma InsertKeeps(env: Env, s: Store, c: Capability)
    requires Injective(env.addr) && Keyed(env, s)
    ensures Keyed(env, Insert(env, s, c))
    ensures forall id :: id in s.byId ==>
      id in Insert(env, s, c).byId && Insert(env, s, c).byId[id].content == s.byId[id].content
  {
  }

  /** A capability issued with a parent of its own keeps the store's chains narrowing exactly when it passes the attenuation test. */
  lemma IssueKeepsChains(env: Env, s: Store, c: Capability)
    requires Injective(env.addr) && Keyed(env, s) && Linked(env, s)
    ensures Linked(env, Insert(env, s, c)) <==> NarrowsParent(env, Insert(env, s, c), c.content)
  {
    hide Intersect;
    var t := Insert(env, s, c);
    InsertKeeps(env, s, c);
    assert t.byId[env.addr(c.content)] == c;
    forall id | id in s.byId
      ensures NarrowsParent(env, t, s.byId[id].content)
    {
      assert NarrowsParent(env, s, s.byId[id].content);
    }
  }

  lemma {:induction false} ChainsStayLinked(env: Env, ops: seq<Op>)
    requires Injective(env.addr) && RootIssues(ops)
    ensures Keyed(env, RunFrom(env, NEW_STORE, ops)) && Linked(env, RunFrom(env, NEW_STORE, ops))
  {
    if ops != [] {
      var init, op := ops[..|ops| - 1], ops[|ops| - 1];
      ChainsStayLinked(env, init);
      var s := RunFrom(env, NEW_STORE, init);
      if !op.Revoked? {
        InsertKeeps(env, s, op.cap);
        IssueKeepsChains(env, s, op.cap);
      }
      hide Intersect;
    }
  }

  lemma {:induction false} FoldIsLast(env: Env, s: Store, ids: seq<Hash>, k: nat)
    requires Linked(env, s) && Chain(s, ids) && k < |ids|
    ensures Fold(env.parse, Reversed(Contents(s, ids))[..k + 1]) == s.byId[ids[|ids| - 1 - k]].content.scope
  {
    hide Intersect;
    var root := Reversed(Contents(s, ids));
    if k > 0 {
      FoldIsLast(env, s, ids, k - 1);
      FoldNext(env, root, k);
      assert root[k] == s.byId[ids[|ids| - 1 - k]].content;
      hide Fold, Contents;
      assert NarrowsParent(env, s, s.byId[ids[|ids| - 1 - k]].content);
    }
  }

  lemma FoldNext(env: Env, caps: seq<Content>, k: nat)
    requires 0 < k < |caps|
    ensures Fold(env.parse, caps[..k + 1]) == Intersect(env.parse, Fold(env.parse, caps[..k]), caps[k].scope)
  {
    assert caps[..k + 1][..k] == caps[..k];
  }

  lemma {:induction false} AncestorsPermit(env: Env, s: Store, ids: seq<Hash>, i: nat, j: nat, d: Descriptor)
    requires Linked(env, s) && Chain(s, ids) && i <= j < |ids|
    requires Permits(env.parse, s.byId[ids[i]].content.scope, d)
    ensures Permits(env.parse, s.byId[ids[j]].content.scope, d)
  {
    hide Intersect, Permits;
    if i < j {
      AncestorsPermit(env, s, ids, i, j - 1, d);
      assert NarrowsParent(env, s, s.byId[ids[j - 1]].content);
      SubsetPermitsLess(env.parse, s.byId[ids[j]].content.scope, s.byId[ids[j - 1]].content.scope, d);
    }
  }

  /**
   In every store built by issuing roots and attenuating: whatever the leaf's scope permits, every
   ancestor's permits, and the scope the check folds from root to leaf is the leaf's own.
   */
  lemma AttenuationNeverWidens(env: Env, ops: seq<Op>, ids: seq<Hash>)
    requires Injective(env.addr) && RootIssues(ops) && Chain(RunFrom(env, NEW_STORE, ops), ids)
    ensures var s := RunFrom(env, NEW_STORE, ops);
      && Fold(env.parse, Reversed(Contents(s, ids))) == s.byId[ids[0]].content.scope
      && (forall j, d :: 0 <= j < |ids| && Permits(env.parse, s.byId[ids[0]].content.scope, d) ==>
            Permits(env.parse, s.byId[ids[j]].content.scope, d))
  {
    var s := RunFrom(env, NEW_STORE, ops);
    ChainsStayLinked(env, ops);
    FoldIsLast(env, s, ids, |ids| - 1);
    var root := Reversed(Contents(s, ids));
    assert root[..|ids|] == root;
    forall j, d | 0 <= j < |ids| && Permits(env.parse, s.byId[ids[0]].content.scope, d)
      ensures Permits(env.parse, s.byId[ids[j]].content.scope, d)
    {
      AncestorsPermit(env, s, ids, 0, j, d);
    }
  }

  // ------------------------------------------------------------------ revocation

  lemma {:induction false} RunKeeps(env: Env, s: Store, ops: seq<Op>)
    requires Injective(env.addr) && Keyed(env, s)
    ensures var t := RunFrom(env, s, ops);
      && Keyed(env, t) && s.revoked.Keys <= t.revoked.Keys
      && (forall id :: id in s.byId ==> id in t.byId && t.byId[id].content == s.byId[id].content)
  {
    hide Apply, Keyed;
    if ops != [] {
      var init, op := ops[..|ops| - 1], ops[|ops| - 1];
      RunKeeps(env, s, init);
      ApplyKeeps(env, RunFrom(env, s, init), op);
    }
  }

  /** No operation forgets a capability or a revocation. */
  lemma ApplyKeeps(env: Env, s: Store, op: Op)
    requires Injective(env.addr) && Keyed(env, s)
    ensures var t := Apply(env, s, op);
      && Keyed(env, t) && s.revoked.Keys <= t.revoked.Keys
      && (forall id :: id in s.byId ==> id in t.byId && t.byId[id].content == s.byId[id].content)
  {
    if !op.Revoked? {
      InsertKeeps(env, s, op.cap);
    }
    hide Intersect;
  }

  lemma {:induction false} PathStops(env: Env, s: Store, now: Option<int>, ids: seq<Hash>, depth: nat)
    requires Path(s, ids) && ids[|ids| - 1] in s.revoked && depth <= env.maxDepth
    ensures WalkFrom(env, s, now, Some(ids[0]), depth).Stopped?
    decreases |ids|
  {
    if |ids| > 1 && depth < env.maxDepth {
      assert Path(s, ids[1..]);
      PathStops(env, s, now, ids[1..], depth + 1);
    }
  }

  /**
   Revocation is permanent: whatever is issued, attenuated or revoked afterwards, the revoked
   capability is never looked up or listed, and no check succeeds on it or on anything that has it
   among its ancestors, whether linked to it before or after the revocation.
   */
  lemma RevokedForever(env: Env, s: Store, more: seq<Op>, ids: seq<Hash>, d: Descriptor, now: Option<int>,
                       quarantined: AgentId -> bool)
    requires Injective(env.addr) && Keyed(env, s)
    requires ids != [] && ids[|ids| - 1] in s.revoked
    requires Path(s, ids) || Path(RunFrom(env, s, more), ids)
    ensures var t, revoked := RunFrom(env, s, more), ids[|ids| - 1];
      && Lookup(t, revoked).None? && (forall agent :: revoked !in Listed(t, agent))
      && !IsPermit(Check(env, t, ids[0], d, now, quarantined))
  {
    var t := RunFrom(env, s, more);
    RunKeeps(env, s, more);
    assert Path(t, ids);
    PathStops(env, t, now, ids, 0);
    StoppedNeverPermits(env, t, now, Some(ids[0]), 0);
  }

  // ------------------------------------------------------------------ quarantine

  /** While the subject is quarantined nothing is minted for it and no check of its capabilities permits. */
  lemma QuarantineBlocks(env: Env, s: Store, c: Capability, id: Hash, d: Descriptor, now: Option<int>,
                         quarantined: AgentId -> bool)
    requires quarantined(c.content.subject)
    requires id in s.byId ==> s.byId[id].content.subject == c.content.subject
    ensures Issue(env, s, c, quarantined) == (s, Err(SubjectQuarantined(c.content.subject)))
    ensures Attenuate(env, s, c, quarantined) == (s, Err(SubjectQuarantined(c.content.subject)))
    ensures !IsPermit(Check(env, s, id, d, now, quarantined))
  {
    PermitExactly(env, s, id, d, now, quarantined);
  }
}
