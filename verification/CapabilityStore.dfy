/** The in-memory capability store: two maps updated in place, and a bounded chain walk. */
module CapabilityStore {
  import opened Wrappers
  import opened Scope
  import opened Capabilities

  class MemoryCapabilityStore {
    const env: Env
    var byId: map<Hash, Capability>
    var revoked: map<Hash, string>
    ghost var history: seq<Op>

    ghost function View(): Store
      reads this
    {
      Store(byId, revoked)
    }

    ghost predicate Valid()
      reads this
    {
      View() == RunFrom(env, NEW_STORE, history)
    }

    constructor (env: Env)
      ensures Valid() && this.env == env && View() == NEW_STORE && history == []
    {
      this.env := env;
      byId, revoked := map[], map[];
      history := [];
    }

    method Issue(c: Capability, quarantined: AgentId -> bool) returns (r: Result<Hash, Error>)
      requires Valid()
      modifies this
      ensures Valid() && history == old(history) + [Issued(c, quarantined)]
      ensures (View(), r) == Capabilities.Issue(env, old(View()), c, quarantined)
    {
      if quarantined(c.content.subject) {
        r := Err(SubjectQuarantined(c.content.subject));
      } else {
        var id := env.addr(c.content);
        byId := byId[id := c];
        r := Ok(id);
      }
      Record(Issued(c, quarantined));
    }

    method Attenuate(child: Capability, quarantined: AgentId -> bool) returns (r: Result<Hash, Error>)
      requires Valid()
      modifies this
      ensures Valid() && history == old(history) + [Attenuated(child, quarantined)]
      ensures (View(), r) == Capabilities.Attenuate(env, old(View()), child, quarantined)
    {
      if quarantined(child.content.subject) {
        r := Err(SubjectQuarantined(child.content.subject));
      } else if child.content.parent.None? {
        r := Err(MissingParent);
      } else if child.content.parent.value !in byId {
        r := Err(ParentNotFound(child.content.parent.value));
      } else {
        var parent := byId[child.content.parent.value];
        var intersected := Intersect(env.parse, parent.content.scope, child.content.scope);
        if intersected != child.content.scope {
          r := Err(AttenuationBroadens);
        } else {
          var id := env.addr(child.content);
          byId := byId[id := child];
          r := Ok(id);
        }
      }
      Record(Attenuated(child, quarantined));
    }

    method Revoke(id: Hash, reason: string) returns (r: Result<(), Error>)
      requires Valid()
      modifies this
      ensures Valid() && history == old(history) + [Revoked(id, reason)]
      ensures (View(), r) == Capabilities.Revoke(old(View()), id, reason)
    {
      if id !in byId {
        r := Err(NotFound(id));
      } else {
        revoked := revoked[id := reason];
        r := Ok(());
      }
      Record(Revoked(id, reason));
    }

    method Lookup(id: Hash) returns (r: Option<Capability>)
      ensures r == Capabilities.Lookup(View(), id)
    {
      if id in revoked {
        return None;
      }
      r := if id in byId then Some(byId[id]) else None;
    }

    /** Every unrevoked capability of the agent once, in no particular order. */
    method ListForSubject(agent: AgentId) returns (out: seq<Hash>)
      ensures (set id | id in out) == Listed(View(), agent)
      ensures forall i, j :: 0 <= i < j < |out| ==> out[i] != out[j]
    {
      out := [];
      var todo := byId.Keys;
      while todo != {}
        invariant todo <= byId.Keys
        invariant forall id :: id in out <==> id in Listed(View(), agent) && id !in todo
        invariant forall i, j :: 0 <= i < j < |out| ==> out[i] != out[j]
        decreases todo
      {
        var id :| id in todo;
        if byId[id].content.subject == agent && id !in revoked {
          out := out + [id];
        }
        todo := todo - {id};
      }
    }

    /** Quarantine first, then the walk, the folded scope and the caveats. */
    method Check(id: Hash, d: Descriptor, now: Option<int>, quarantined: AgentId -> bool)
      returns (r: Result<Outcome, Error>)
      ensures r == Capabilities.Check(env, View(), id, d, now, quarantined)
    {
      if id in byId && id !in revoked && quarantined(byId[id].content.subject) {
        return Ok(Deny("subject_quarantined", []));
      }
      var chain, stop := WalkChain(id, now);
      if stop.Some? {
        return stop.value;
      }
      chain := Reversed(chain);
      var scope := FoldScopes(chain);
      var ok := CheckPermits(env.parse, scope, d);
      if !ok {
        return Ok(Deny("effective scope (after chain intersection) does not permit action", []));
      }
      var matched, unmet := SortCaveats(chain, d);
      r := if unmet != [] then Ok(Deny("caveat(s) in chain not met", unmet)) else Ok(Outcome(true, "", matched, []));
    }

    /** Follow parent links from the leaf, stopping at the first bad link or beyond the depth bound. */
    method WalkChain(id: Hash, now: Option<int>) returns (chain: seq<Content>, stop: Option<Result<Outcome, Error>>)
      ensures WalkFrom(env, View(), now, Some(id), 0) == if stop.Some? then Stopped(stop.value) else Links(chain)
    {
      chain, stop := [], None;
      var cursor := Some(id);
      var depth := 0;
      while cursor.Some?
        invariant 0 <= depth <= env.maxDepth
        invariant WalkFrom(env, View(), now, Some(id), 0)
               == Prepend(chain, WalkFrom(env, View(), now, cursor, depth))
        decreases env.maxDepth - depth, cursor.Some?
      {
        var link := cursor.value;
        if depth + 1 > env.maxDepth {
          return chain, Some(Err(ChainTooDeep(depth + 1, env.maxDepth)));
        }
        if link in revoked {
          return chain, Some(Ok(Deny("capability revoked in chain", [])));
        }
        if link !in byId {
          return chain, Some(Err(MissingLink(link)));
        }
        var cap := byId[link].content;
        if !WithinWindow(cap, now) {
          return chain, Some(Ok(Deny("capability outside validity window", [])));
        }
        PrependBefore(chain, cap, WalkFrom(env, View(), now, cap.parent, depth + 1));
        depth := depth + 1;
        cursor := cap.parent;
        chain := chain + [cap];
      }
    }

    method FoldScopes(chain: seq<Content>) returns (scope: Scope)
      ensures scope == Fold(env.parse, chain)
    {
      scope := EMPTY;
      var first := true;
      for i := 0 to |chain|
        invariant first == (i == 0) && scope == Fold(env.parse, chain[..i])
      {
        assert chain[..i + 1][..i] == chain[..i];
        if first {
          scope := chain[i].scope;
          first := false;
        } else {
          scope := Intersect(env.parse, scope, chain[i].scope);
        }
      }
      assert chain[..|chain|] == chain;
    }

    method SortCaveats(chain: seq<Content>, d: Descriptor) returns (matched: seq<string>, unmet: seq<string>)
      ensures matched == Labels(AllCaveats(chain), d, true) && unmet == Labels(AllCaveats(chain), d, false)
    {
      hide CaveatPermits, CaveatLabel, Labels;
      LabelsOfNone(d);
      matched, unmet := [], [];
      ghost var done: seq<Caveat> := [];
      for i := 0 to |chain|
        invariant done == AllCaveats(chain[..i])
        invariant matched == Labels(done, d, true) && unmet == Labels(done, d, false)
      {
        assert chain[..i + 1][..i] == chain[..i];
        var caveats := chain[i].caveats;
        ghost var before := done;
        for j := 0 to |caveats|
          invariant done == before + caveats[..j]
          invariant matched == Labels(done, d, true) && unmet == Labels(done, d, false)
        {
          LabelsNext(done, caveats[j], d);
          if CaveatPermits(caveats[j], d) {
            matched := matched + [CaveatLabel(caveats[j])];
          } else {
            unmet := unmet + [CaveatLabel(caveats[j])];
          }
          done := done + [caveats[j]];
        }
        assert done == before + caveats;
      }
      assert chain[..|chain|] == chain;
    }

    ghost method Record(op: Op)
      modifies `history
      ensures history == old(history) + [op]
    {
      history := history + [op];
      assert history[..|history| - 1] == old(history);
    }
  }

  lemma LabelsNext(caveats: seq<Caveat>, c: Caveat, d: Descriptor)
    ensures Labels(caveats + [c], d, true) == Labels(caveats, d, true) + if CaveatPermits(c, d) then [CaveatLabel(c)] else []
    ensures Labels(caveats + [c], d, false) == Labels(caveats, d, false) + if CaveatPermits(c, d) then [] else [CaveatLabel(c)]
  {
    assert (caveats + [c])[..|caveats|] == caveats;
  }

  lemma LabelsOfNone(d: Descriptor)
    ensures Labels([], d, true) == [] && Labels([], d, false) == []
  {
  }

  ghost function Prepend(chain: seq<Content>, rest: Walk): Walk {
    match rest
    case Links(caps) => Links(chain + caps)
    case Stopped(_) => rest
  }

  lemma PrependBefore(chain: seq<Content>, cap: Content, rest: Walk)
    ensures Prepend(chain, Before(cap, rest)) == Prepend(chain + [cap], rest)
  {
    if rest.Links? {
      assert chain + ([cap] + rest.caps) == chain + [cap] + rest.caps;
    }
  }
}
