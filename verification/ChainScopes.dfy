/** What a check makes of a chain of scopes, however its capabilities came into the store. */
module ChainScopes {
  import opened Wrappers
  import opened Scope
  import opened Capabilities
  import opened CapabilityLaws

  /** Every link permits. */
  predicate AllPermit(parse: Parser, chain: seq<Content>, d: Descriptor) {
    forall i :: 0 <= i < |chain| ==> Permits(parse, chain[i].scope, d)
  }

  /** The folded scope of these links permits what all of them permit, and nothing else. */
  ghost predicate FoldsToAll(parse: Parser, chain: seq<Content>) {
    forall d :: Permits(parse, Fold(parse, chain), d) <==> AllPermit(parse, chain, d)
  }

  /** Root first: each link is compatible with the fold of the links before it. */
  predicate CompatibleChain(parse: Parser, chain: seq<Content>) {
    forall n :: 1 <= n < |chain| ==> Compatible(parse, Fold(parse, chain[..n]), chain[n].scope)
  }

  lemma AllButLast(parse: Parser, chain: seq<Content>, d: Descriptor)
    requires chain != []
    ensures AllPermit(parse, chain, d)
      <==> AllPermit(parse, chain[..|chain| - 1], d) && Permits(parse, chain[|chain| - 1].scope, d)
  {
  }

  /** One more link: from a fold that is right, the next is right exactly when the new link is compatible. */
  lemma FoldStep(parse: Parser, chain: seq<Content>)
    requires parse("-inf") == Some(NegInf) && |chain| > 1 && FoldsToAll(parse, chain[..|chain| - 1])
    ensures FoldsToAll(parse, chain)
      <==> Compatible(parse, Fold(parse, chain[..|chain| - 1]), chain[|chain| - 1].scope)
  {
    var before, last := Fold(parse, chain[..|chain| - 1]), chain[|chain| - 1].scope;
    IntersectIsBothExactly(parse, before, last);
    hide Permits, Compatible, Intersect, AllPermit;
    forall d
      ensures AllPermit(parse, chain, d) <==> Permits(parse, before, d) && Permits(parse, last, d)
    {
      AllButLast(parse, chain, d);
    }
    assert Fold(parse, chain) == Intersect(parse, before, last);
  }

  /**
   For any chain, issued or attenuated: the fold of every part of it that starts at the root is what its links all
   permit exactly when each link is compatible with the fold before it.
   */
  lemma {:induction false} FoldsToAllExactly(parse: Parser, chain: seq<Content>)
    requires parse("-inf") == Some(NegInf) && chain != []
    ensures (forall n :: 1 <= n <= |chain| ==> FoldsToAll(parse, chain[..n])) <==> CompatibleChain(parse, chain)
  {
    hide Permits, Compatible, Intersect, FoldsToAll, Fold;
    assert chain[..|chain|] == chain;
    if |chain| == 1 {
      SingleFold(parse, chain);
    } else {
      var init := chain[..|chain| - 1];
      FoldsToAllExactly(parse, init);
      assert forall n :: 0 <= n <= |init| ==> init[..n] == chain[..n];
      if FoldsToAll(parse, init) {
        FoldStep(parse, chain);
      }
    }
  }

  lemma SingleFold(parse: Parser, chain: seq<Content>)
    requires |chain| == 1
    ensures FoldsToAll(parse, chain)
  {
  }

  // ---- What checks then permit ----

  /** The links of a usable path, root first. */
  function RootFirst(s: Store, ids: seq<Hash>): seq<Content>
    requires forall id :: id in ids ==> id in s.byId
  {
    Reversed(Contents(s, ids))
  }

  lemma OneLinkExactly(s: Store, now: Option<int>, p: seq<Hash>)
    requires Usable(s, now, p)
    ensures p[0] in s.byId && (|p| == 1 <==> s.byId[p[0]].content.parent.None?)
  {
    assert p[0] in p;
    if |p| > 1 {
      TailUsable(s, now, p);
    }
  }

  lemma SameHeadAndTail<T>(p: seq<T>, q: seq<T>)
    requires p != [] && q != [] && p[0] == q[0] && p[1..] == q[1..]
    ensures p == q
  {
    assert p == [p[0]] + p[1..] && q == [q[0]] + q[1..];
  }

  /** A store has one usable path from a capability to its root. */
  lemma {:induction false} OnePath(s: Store, now: Option<int>, p: seq<Hash>, q: seq<Hash>)
    requires Usable(s, now, p) && Usable(s, now, q) && p[0] == q[0]
    ensures p == q
  {
    OneLinkExactly(s, now, p);
    OneLinkExactly(s, now, q);
    if |p| > 1 {
      TailUsable(s, now, p);
      TailUsable(s, now, q);
      hide Usable;
      OnePath(s, now, p[1..], q[1..]);
    } else {
      assert |q| == 1;
    }
    SameHeadAndTail(p, q);
  }

  /** With a compatible chain the check asks of every link what it asks of the leaf. */
  lemma CompatibleCheck(env: Env, s: Store, ids: seq<Hash>, d: Descriptor, now: Option<int>, quarantined: AgentId -> bool)
    requires env.parse("-inf") == Some(NegInf) && Usable(s, now, ids) && CompatibleChain(env.parse, RootFirst(s, ids))
    ensures IsPermit(Check(env, s, ids[0], d, now, quarantined)) <==>
      && |ids| <= env.maxDepth && !quarantined(s.byId[ids[0]].content.subject)
      && AllPermit(env.parse, RootFirst(s, ids), d) && EveryCaveatPermits(Contents(s, ids), d)
  {
    hide Permits, Check, AllPermit, EveryCaveatPermits, Fold, CompatibleChain;
    var chain := RootFirst(s, ids);
    FoldsToAllExactly(env.parse, chain);
    assert chain[..|chain|] == chain;
    assert FoldsToAll(env.parse, chain[..|chain|]);
    CheckOfPath(env, s, ids, d, now, quarantined);
  }

  /** PermitExactly, for a path that is known. */
  lemma CheckOfPath(env: Env, s: Store, ids: seq<Hash>, d: Descriptor, now: Option<int>, quarantined: AgentId -> bool)
    requires Usable(s, now, ids)
    ensures ids[0] in s.byId
    ensures IsPermit(Check(env, s, ids[0], d, now, quarantined)) <==>
      && |ids| <= env.maxDepth && !quarantined(s.byId[ids[0]].content.subject)
      && Permits(env.parse, Fold(env.parse, RootFirst(s, ids)), d) && EveryCaveatPermits(Contents(s, ids), d)
  {
    hide Permits, Check, EveryCaveatPermits, Fold;
    assert ids[0] in ids;
    PermitExactly(env, s, ids[0], d, now, quarantined);
    if exists p :: PermittedBy(env, s, ids[0], d, now, p) {
      var p :| PermittedBy(env, s, ids[0], d, now, p);
      OnePath(s, now, ids, p);
    }
    if |ids| <= env.maxDepth && Permits(env.parse, Fold(env.parse, RootFirst(s, ids)), d) && EveryCaveatPermits(Contents(s, ids), d) {
      assert PermittedBy(env, s, ids[0], d, now, ids);
    }
  }

  /** The check of each capability on the path permits what it and all its ancestors permit, and nothing else. */
  ghost predicate ChecksAskEveryLink(env: Env, s: Store, ids: seq<Hash>, now: Option<int>, quarantined: AgentId -> bool)
    requires forall id :: id in ids ==> id in s.byId
  {
    forall k, d :: 0 <= k < |ids| ==>
      (IsPermit(Check(env, s, ids[k], d, now, quarantined)) <==> AllPermit(env.parse, RootFirst(s, ids[k..]), d))
  }

  lemma {:induction false} SuffixUsable(s: Store, now: Option<int>, ids: seq<Hash>, k: nat)
    requires Usable(s, now, ids) && k < |ids|
    ensures Usable(s, now, ids[k..])
  {
    if k > 0 {
      SuffixUsable(s, now, ids, k - 1);
      TailUsable(s, now, ids[k - 1..]);
      assert ids[k - 1..][1..] == ids[k..];
    }
  }

  lemma PartsFromRoot(s: Store, ids: seq<Hash>, k: nat)
    requires k <= |ids| && forall id :: id in ids ==> id in s.byId
    ensures RootFirst(s, ids[k..]) == RootFirst(s, ids)[..|ids| - k]
  {
  }

  /**
   Over links that carry no caveats and no quarantined subject, checks ask every link exactly when the chain is
   compatible.
   */
  lemma ChecksAskEveryLinkExactly(env: Env, s: Store, ids: seq<Hash>, now: Option<int>, quarantined: AgentId -> bool)
    requires env.parse("-inf") == Some(NegInf) && Usable(s, now, ids) && |ids| <= env.maxDepth
    requires forall id :: id in ids ==> s.byId[id].content.caveats == [] && !quarantined(s.byId[id].content.subject)
    ensures ChecksAskEveryLink(env, s, ids, now, quarantined) <==> CompatibleChain(env.parse, RootFirst(s, ids))
  {
    hide Permits, Check, AllPermit, Fold, CompatibleChain;
    var chain := RootFirst(s, ids);
    FoldsToAllExactly(env.parse, chain);
    forall k, d | 0 <= k < |ids|
      ensures IsPermit(Check(env, s, ids[k], d, now, quarantined))
        <==> Permits(env.parse, Fold(env.parse, chain[..|ids| - k]), d)
      ensures RootFirst(s, ids[k..]) == chain[..|ids| - k]
    {
      SuffixUsable(s, now, ids, k);
      PartsFromRoot(s, ids, k);
      CheckOfPath(env, s, ids[k..], d, now, quarantined);
      assert EveryCaveatPermits(Contents(s, ids[k..]), d);
      assert ids[k] in ids;
    }
    if ChecksAskEveryLink(env, s, ids, now, quarantined) {
      forall n | 1 <= n <= |chain|
        ensures FoldsToAll(env.parse, chain[..n])
      {
        forall d
          ensures Permits(env.parse, Fold(env.parse, chain[..n]), d) <==> AllPermit(env.parse, chain[..n], d)
        {
          assert IsPermit(Check(env, s, ids[|ids| - n], d, now, quarantined))
            <==> AllPermit(env.parse, RootFirst(s, ids[|ids| - n..]), d);
        }
      }
    } else {
      var k, d :| 0 <= k < |ids| &&
        !(IsPermit(Check(env, s, ids[k], d, now, quarantined)) <==> AllPermit(env.parse, RootFirst(s, ids[k..]), d));
      assert !FoldsToAll(env.parse, chain[..|ids| - k]);
    }
  }

  // ---- An issued child that widens ----

  function Plain(name: string, action: string, parent: Option<Hash>): Content {
    Content(name, "swarm", "agent", Scope([action], [], map[], [], []), parent, Some(0), Some(10), [])
  }

  /** Nobody is quarantined. */
  const NOBODY: AgentId -> bool := agent => false

  /**
   Two issues and nothing else: a root for action "a" and a child of it for action "b". The check of the child
   permits "c", which neither of them permits.
   */
  lemma IssuedChildWidens(env: Env)
    requires Injective(env.addr) && env.maxDepth >= 2
    ensures var root := Plain("root", "a", None);
      var child := Plain("child", "b", Some(env.addr(root)));
      var s := RunFrom(env, NEW_STORE, [Issued(Capability(root, None), NOBODY), Issued(Capability(child, None), NOBODY)]);
      && IsPermit(Check(env, s, env.addr(child), Asking("c"), Some(5), NOBODY))
      && !Permits(env.parse, root.scope, Asking("c")) && !Permits(env.parse, child.scope, Asking("c"))
  {
    var root := Plain("root", "a", None);
    var child := Plain("child", "b", Some(env.addr(root)));
    var first, second := Issued(Capability(root, None), NOBODY), Issued(Capability(child, None), NOBODY);
    var ops := [first, second];
    assert ops[..1] == [first] && ops[..1][..0] == [];
    var s := RunFrom(env, NEW_STORE, ops);
    assert RunFrom(env, NEW_STORE, ops[..1]) == Insert(env, NEW_STORE, Capability(root, None));
    assert s == Insert(env, Insert(env, NEW_STORE, Capability(root, None)), Capability(child, None));
    assert env.addr(root) != env.addr(child);
    var ids := [env.addr(child), env.addr(root)];
    assert Usable(s, Some(5), ids);
    var chain := RootFirst(s, ids);
    assert chain == [root, child];
    assert chain[..1] == [root];
    assert ["a"][1..] == [] && Common(["a"], ["b"]) == [];
    assert MeetBounds(env.parse, map[], map[]) == map[];
    assert Fold(env.parse, chain[..1]) == root.scope;
    assert Fold(env.parse, chain) == EMPTY;
    CheckOfPath(env, s, ids, Asking("c"), Some(5), NOBODY);
  }
}
