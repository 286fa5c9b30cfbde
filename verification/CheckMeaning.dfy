/** What checks and store calls answer, in the words of times, tags and scopes. */
module CheckMeaning {
  import opened Wrappers
  import opened Scope
  import opened Capabilities
  import opened CapabilityLaws

  // ---- When a check permits ----

  /** The link has both bounds, and they enclose the present. */
  predicate InForce(c: Content, now: Option<int>) {
    now.Some? && c.validFrom.Some? && c.validUntil.Some? && c.validFrom.value <= now.value && now.value <= c.validUntil.value
  }

  /** The resource carries every tag that the link demands, and none that it forbids. */
  ghost predicate TagsMet(c: Content, d: Descriptor) {
    && (forall tags, t :: OnlyIfTagged(tags) in c.caveats && t in tags ==> t in d.resourceTags)
    && (forall tags, t :: NeverIfTagged(tags) in c.caveats && t in tags ==> t !in d.resourceTags)
  }

  ghost predicate Opened(env: Env, s: Store, now: Option<int>, d: Descriptor, ids: seq<Hash>) {
    && Chain(s, ids) && |ids| <= env.maxDepth
    && (forall id :: id in ids ==>
          id in s.byId && id !in s.revoked && InForce(s.byId[id].content, now) && TagsMet(s.byId[id].content, d))
    && Permits(env.parse, Fold(env.parse, Reversed(Contents(s, ids))), d)
  }

  lemma TagsExactly(c: Content, d: Descriptor)
    ensures TagsMet(c, d) <==> forall k :: k in c.caveats ==> CaveatPermits(k, d)
  {
    if TagsMet(c, d) {
      forall k | k in c.caveats
        ensures CaveatPermits(k, d)
      {
      }
    }
    if forall k :: k in c.caveats ==> CaveatPermits(k, d) {
      forall tags, t | OnlyIfTagged(tags) in c.caveats && t in tags
        ensures t in d.resourceTags
      {
        assert CaveatPermits(OnlyIfTagged(tags), d);
      }
      forall tags, t | NeverIfTagged(tags) in c.caveats && t in tags
        ensures t !in d.resourceTags
      {
        assert CaveatPermits(NeverIfTagged(tags), d);
      }
    }
  }

  lemma EachMeets(s: Store, ids: seq<Hash>, d: Descriptor)
    requires forall id :: id in ids ==> id in s.byId
    ensures EveryCaveatPermits(Contents(s, ids), d) <==> forall id :: id in ids ==> TagsMet(s.byId[id].content, d)
  {
    hide CaveatPermits, TagsMet;
    var caps := Contents(s, ids);
    forall id | id in ids
      ensures TagsMet(s.byId[id].content, d) <==> forall k :: k in s.byId[id].content.caveats ==> CaveatPermits(k, d)
    {
      TagsExactly(s.byId[id].content, d);
    }
    if EveryCaveatPermits(caps, d) {
      forall id, k | id in ids && k in s.byId[id].content.caveats
        ensures CaveatPermits(k, d)
      {
        var i :| 0 <= i < |ids| && ids[i] == id;
        assert k in caps[i].caveats;
      }
    }
    if forall id :: id in ids ==> TagsMet(s.byId[id].content, d) {
      forall i, k | 0 <= i < |caps| && k in caps[i].caveats
        ensures CaveatPermits(k, d)
      {
        assert ids[i] in ids;
      }
    }
  }

  lemma OpenedExactly(env: Env, s: Store, now: Option<int>, d: Descriptor, id: Hash, ids: seq<Hash>)
    requires ids != [] && ids[0] == id
    ensures PermittedBy(env, s, id, d, now, ids) <==> Opened(env, s, now, d, ids)
  {
    hide Permits, Fold, TagsMet, EveryCaveatPermits;
    if forall i :: i in ids ==> i in s.byId {
      EachMeets(s, ids, d);
    }
  }

  /**
   A check permits exactly when the subject is not quarantined and a whole chain of at most the configured depth is
   unrevoked, in force now, link by link, demands and forbids no tag against the resource, and folds to a scope that
   permits.
   */
  lemma PermitMeans(env: Env, s: Store, id: Hash, d: Descriptor, now: Option<int>, quarantined: AgentId -> bool)
    ensures IsPermit(Check(env, s, id, d, now, quarantined)) <==>
      && id in s.byId && !quarantined(s.byId[id].content.subject)
      && exists ids :: ids != [] && ids[0] == id && Opened(env, s, now, d, ids)
  {
    hide Permits, Fold, Check, Opened;
    PermitExactly(env, s, id, d, now, quarantined);
    forall ids | ids != [] && ids[0] == id
      ensures PermittedBy(env, s, id, d, now, ids) <==> Opened(env, s, now, d, ids)
    {
      OpenedExactly(env, s, now, d, id, ids);
    }
    hide PermittedBy;
    if ids :| PermittedBy(env, s, id, d, now, ids) {
      PathsStart(env, s, id, d, now, ids);
    }
  }

  lemma PathsStart(env: Env, s: Store, id: Hash, d: Descriptor, now: Option<int>, ids: seq<Hash>)
    requires PermittedBy(env, s, id, d, now, ids)
    ensures ids != [] && ids[0] == id
  {
  }

  // ---- Why a check denies ----

  /** The links before the last of `ids` are all fit to be walked over. */
  ghost predicate Passed(s: Store, now: Option<int>, ids: seq<Hash>) {
    && Path(s, ids)
    && forall i :: 0 <= i < |ids| - 1 ==> ids[i] in s.byId && ids[i] !in s.revoked && InForce(s.byId[ids[i]].content, now)
  }

  /** Where the walk comes to a stop is where the whole walk stops. */
  lemma {:induction false} StopsThere(env: Env, s: Store, now: Option<int>, ids: seq<Hash>, depth: nat)
    requires Passed(s, now, ids) && depth + |ids| - 1 <= env.maxDepth
    requires WalkFrom(env, s, now, Some(ids[|ids| - 1]), depth + |ids| - 1).Stopped?
    ensures WalkFrom(env, s, now, Some(ids[0]), depth) == WalkFrom(env, s, now, Some(ids[|ids| - 1]), depth + |ids| - 1)
    decreases |ids|
  {
    if |ids| > 1 {
      var rest := ids[1..];
      assert Passed(s, now, rest) && rest[|rest| - 1] == ids[|ids| - 1];
      StopsThere(env, s, now, rest, depth + 1);
      WalkStep(env, s, now, ids[0], depth);
      hide WalkFrom;
    }
  }

  lemma StoppedCheck(env: Env, s: Store, ids: seq<Hash>, d: Descriptor, now: Option<int>, quarantined: AgentId -> bool)
    requires Passed(s, now, ids) && |ids| - 1 <= env.maxDepth
    requires ids[0] in s.byId && ids[0] !in s.revoked ==> !quarantined(s.byId[ids[0]].content.subject)
    requires WalkFrom(env, s, now, Some(ids[|ids| - 1]), |ids| - 1).Stopped?
    ensures Check(env, s, ids[0], d, now, quarantined) == WalkFrom(env, s, now, Some(ids[|ids| - 1]), |ids| - 1).result
  {
    StopsThere(env, s, now, ids, 0);
    hide WalkFrom;
  }

  /**
   The walk answers for the first link that is not fit: too deep, revoked, missing or not in force, asked in this order.
   */
  lemma FirstUnfitAnswers(env: Env, s: Store, ids: seq<Hash>, d: Descriptor, now: Option<int>, quarantined: AgentId -> bool)
    requires Passed(s, now, ids) && |ids| - 1 <= env.maxDepth
    requires ids[0] in s.byId && ids[0] !in s.revoked ==> !quarantined(s.byId[ids[0]].content.subject)
    ensures var last, answer := ids[|ids| - 1], Check(env, s, ids[0], d, now, quarantined);
      && (|ids| > env.maxDepth ==> answer == Err(ChainTooDeep(env.maxDepth + 1, env.maxDepth)))
      && (|ids| <= env.maxDepth && last in s.revoked ==>
            answer == Ok(Outcome(false, "capability revoked in chain", [], [])))
      && (|ids| <= env.maxDepth && last !in s.revoked && last !in s.byId ==> answer == Err(MissingLink(last)))
      && (|ids| <= env.maxDepth && last !in s.revoked && last in s.byId && !InForce(s.byId[last].content, now) ==>
            answer == Ok(Outcome(false, "capability outside validity window", [], [])))
  {
    var last := ids[|ids| - 1];
    if |ids| > env.maxDepth || last in s.revoked || last !in s.byId || !InForce(s.byId[last].content, now) {
      StoppedCheck(env, s, ids, d, now, quarantined);
    }
  }

  /** A quarantined subject is denied before anything else is looked at, unless the capability is itself revoked. */
  lemma QuarantineAnswers(env: Env, s: Store, id: Hash, d: Descriptor, now: Option<int>, quarantined: AgentId -> bool)
    requires id in s.byId && id !in s.revoked && quarantined(s.byId[id].content.subject)
    ensures Check(env, s, id, d, now, quarantined) == Ok(Outcome(false, "subject_quarantined", [], []))
  {
  }

  /** A whole chain in force is denied for its scope first, and then for each caveat that is not met. */
  lemma WholeChainAnswers(env: Env, s: Store, ids: seq<Hash>, d: Descriptor, now: Option<int>, quarantined: AgentId -> bool)
    requires Chain(s, ids) && |ids| <= env.maxDepth && !quarantined(s.byId[ids[0]].content.subject)
    requires forall id :: id in ids ==> id in s.byId && id !in s.revoked && InForce(s.byId[id].content, now)
    ensures var answer := Check(env, s, ids[0], d, now, quarantined);
      var permits := Permits(env.parse, Fold(env.parse, Reversed(Contents(s, ids))), d);
      && answer.Ok?
      && (!permits ==>
            answer.value == Outcome(false, "effective scope (after chain intersection) does not permit action", [], []))
      && (permits && (exists id :: id in ids && !TagsMet(s.byId[id].content, d)) ==>
            !answer.value.permitted && answer.value.denyReason == "caveat(s) in chain not met" && answer.value.matched == []
            && forall l :: l in answer.value.unmet <==> Unmet(s, ids, d, l))
      && (permits && (forall id :: id in ids ==> TagsMet(s.byId[id].content, d)) ==>
            answer.value.permitted && answer.value.unmet == []
            && forall l :: l in answer.value.matched <==> Carried(s, ids, l))
  {
    hide Permits, Fold, TagsMet, CaveatPermits, WithinWindow;
    assert Usable(s, now, ids) by {
      ForceIsWindow(s, now, ids);
    }
    UsableIsWalked(env, s, now, ids, 0);
    var caps := Contents(s, ids);
    EachMeets(s, ids, d);
    DecidedBy(env.parse, caps, d);
    LabelsOfChain(s, ids, d);
  }

  lemma ForceIsWindow(s: Store, now: Option<int>, ids: seq<Hash>)
    requires forall id :: id in ids ==> id in s.byId && InForce(s.byId[id].content, now)
    ensures forall id :: id in ids ==> WithinWindow(s.byId[id].content, now)
  {
  }

  /** The kind of a caveat, as answers name it. */
  predicate Names(c: Caveat, name: string) {
    || (c.OnlyIfTagged? && name == "only_if_tagged") || (c.NeverIfTagged? && name == "never_if_tagged")
    || (c.TimeOfDay? && name == "time_of_day") || (c.ConstitutionVersion? && name == "constitution_version")
    || (c.SupervisorRequired? && name == "supervisor_required") || (c.RateLimit? && name == "rate_limit")
  }

  /** Some link carries a caveat of this name. */
  ghost predicate Carried(s: Store, ids: seq<Hash>, name: string)
    requires forall id :: id in ids ==> id in s.byId
  {
    exists id, k :: id in ids && k in s.byId[id].content.caveats && Names(k, name)
  }

  /** The resource lacks a demanded tag or carries a forbidden one. */
  predicate Fails(k: Caveat, d: Descriptor) {
    || (k.OnlyIfTagged? && exists t :: t in k.requiredTags && t !in d.resourceTags)
    || (k.NeverIfTagged? && exists t :: t in k.forbiddenTags && t in d.resourceTags)
  }

  lemma FailsExactly(k: Caveat, d: Descriptor)
    ensures Fails(k, d) <==> !CaveatPermits(k, d)
  {
  }

  /** Some link carries a caveat of this name that the resource's tags do not meet. */
  ghost predicate Unmet(s: Store, ids: seq<Hash>, d: Descriptor, name: string)
    requires forall id :: id in ids ==> id in s.byId
  {
    exists id, k :: id in ids && k in s.byId[id].content.caveats && Names(k, name) && Fails(k, d)
  }

  lemma {:induction false} LabelsExactly(caveats: seq<Caveat>, d: Descriptor, permitted: bool, name: string)
    ensures name in Labels(caveats, d, permitted)
      <==> exists k :: k in caveats && Names(k, name) && CaveatPermits(k, d) == permitted
  {
    hide CaveatPermits;
    if caveats != [] {
      var init, last := caveats[..|caveats| - 1], caveats[|caveats| - 1];
      LabelsExactly(init, d, permitted, name);
      assert caveats == init + [last];
      assert Names(last, name) <==> CaveatLabel(last) == name;
      hide Names, CaveatLabel;
    }
  }

  lemma CaveatsOfChain(s: Store, ids: seq<Hash>, k: Caveat)
    requires forall id :: id in ids ==> id in s.byId
    ensures k in AllCaveats(Reversed(Contents(s, ids))) <==> exists id :: id in ids && k in s.byId[id].content.caveats
  {
    var chain := Reversed(Contents(s, ids));
    CaveatsOfAll(chain);
    hide AllCaveats;
    if k in AllCaveats(chain) {
      var i :| 0 <= i < |chain| && k in chain[i].caveats;
      assert ids[|ids| - 1 - i] in ids && k in s.byId[ids[|ids| - 1 - i]].content.caveats;
    }
    if id :| id in ids && k in s.byId[id].content.caveats {
      var j :| 0 <= j < |ids| && ids[j] == id;
      assert k in chain[|ids| - 1 - j].caveats;
    }
  }

  lemma LabelsOfChain(s: Store, ids: seq<Hash>, d: Descriptor)
    requires forall id :: id in ids ==> id in s.byId
    ensures var all := AllCaveats(Reversed(Contents(s, ids)));
      && (forall l :: l in Labels(all, d, false) <==> Unmet(s, ids, d, l))
      && (EveryCaveatPermits(Contents(s, ids), d) ==> forall l :: l in Labels(all, d, true) <==> Carried(s, ids, l))
  {
    hide Labels, Unmet, Carried, AllCaveats, Contents;
    forall l
      ensures l in Labels(AllCaveats(Reversed(Contents(s, ids))), d, false) <==> Unmet(s, ids, d, l)
    {
      LabelUnmet(s, ids, d, l);
    }
    if EveryCaveatPermits(Contents(s, ids), d) {
      hide EveryCaveatPermits;
      forall l
        ensures l in Labels(AllCaveats(Reversed(Contents(s, ids))), d, true) <==> Carried(s, ids, l)
      {
        LabelCarried(s, ids, d, l);
      }
    }
  }

  lemma LabelUnmet(s: Store, ids: seq<Hash>, d: Descriptor, l: string)
    requires forall id :: id in ids ==> id in s.byId
    ensures l in Labels(AllCaveats(Reversed(Contents(s, ids))), d, false) <==> Unmet(s, ids, d, l)
  {
    hide CaveatPermits, Names, Labels, Fails, AllCaveats, Contents;
    var all := AllCaveats(Reversed(Contents(s, ids)));
    LabelsExactly(all, d, false, l);
    if l in Labels(all, d, false) {
      var k :| k in all && Names(k, l) && CaveatPermits(k, d) == false;
      CaveatsOfChain(s, ids, k);
      FailsExactly(k, d);
    }
    if id, k :| id in ids && k in s.byId[id].content.caveats && Names(k, l) && Fails(k, d) {
      CaveatsOfChain(s, ids, k);
      FailsExactly(k, d);
      assert k in all && Names(k, l) && CaveatPermits(k, d) == false;
    }
  }

  lemma LabelCarried(s: Store, ids: seq<Hash>, d: Descriptor, l: string)
    requires forall id :: id in ids ==> id in s.byId
    requires EveryCaveatPermits(Contents(s, ids), d)
    ensures l in Labels(AllCaveats(Reversed(Contents(s, ids))), d, true) <==> Carried(s, ids, l)
  {
    hide CaveatPermits, Names, Labels, AllCaveats;
    var all := AllCaveats(Reversed(Contents(s, ids)));
    LabelsExactly(all, d, true, l);
    if l in Labels(all, d, true) {
      var k :| k in all && Names(k, l) && CaveatPermits(k, d) == true;
      CaveatsOfChain(s, ids, k);
    }
    if id, k :| id in ids && k in s.byId[id].content.caveats && Names(k, l) {
      CaveatsOfChain(s, ids, k);
      var j :| 0 <= j < |ids| && ids[j] == id;
      assert k in Contents(s, ids)[j].caveats;
      assert k in all && Names(k, l) && CaveatPermits(k, d) == true;
    }
  }

  // ---- What the store keeps ----

  /** An issue refuses a quarantined subject; any other capability is stored, found and listed, and nothing else moves. */
  lemma IssueMeans(env: Env, s: Store, c: Capability, quarantined: AgentId -> bool)
    ensures var (t, r) := Issue(env, s, c, quarantined);
      var id := env.addr(c.content);
      && (quarantined(c.content.subject) ==> t == s && r == Err(SubjectQuarantined(c.content.subject)))
      && (!quarantined(c.content.subject) ==> r == Ok(id) && Held(t, id, c))
      && (forall other :: other != id ==> Lookup(t, other) == Lookup(s, other))
  {
  }

  /** The capability is stored, and found and listed unless it is revoked. */
  predicate Held(t: Store, id: Hash, c: Capability) {
    && id in t.byId && t.byId[id] == c
    && (id !in t.revoked ==> Lookup(t, id) == Some(c) && id in Listed(t, c.content.subject))
  }

  /** A listing is what can be looked up of one subject. */
  lemma ListedMeans(s: Store, agent: AgentId, id: Hash)
    ensures id in Listed(s, agent) <==> Lookup(s, id).Some? && Lookup(s, id).value.content.subject == agent
    ensures Lookup(s, id).Some? <==> id in s.byId && id !in s.revoked
    ensures Lookup(s, id).Some? ==> Lookup(s, id).value == s.byId[id]
  {
  }

  /** Intersecting with the parent's scope leaves this one as it is. */
  predicate Narrows(env: Env, s: Store, c: Content)
    requires c.parent.Some? && c.parent.value in s.byId
  {
    Intersect(env.parse, s.byId[c.parent.value].content.scope, c.scope) == c.scope
  }

  /**
   An attenuation is accepted exactly for an unquarantined subject, a stored parent, revoked or not, and a scope that
   intersecting with the parent's leaves as it is; it then does what an issue does. Otherwise nothing changes.
   */
  lemma AttenuateMeans(env: Env, s: Store, c: Capability, quarantined: AgentId -> bool)
    ensures var (t, r) := Attenuate(env, s, c, quarantined);
      var parent := c.content.parent;
      && (r.Ok? <==> !quarantined(c.content.subject) && parent.Some? && parent.value in s.byId && Narrows(env, s, c.content))
      && (r.Ok? ==> (t, r) == Issue(env, s, c, quarantined))
      && (r.Err? ==> t == s)
      && (r == Err(SubjectQuarantined(c.content.subject)) <==> quarantined(c.content.subject))
      && (r == Err(MissingParent) <==> !quarantined(c.content.subject) && parent.None?)
      && (parent.Some? ==> (r == Err(ParentNotFound(parent.value)) <==>
            !quarantined(c.content.subject) && parent.value !in s.byId))
  {
    hide Intersect;
  }

  /** A revocation is accepted exactly for a stored capability, which is then no longer found; no other one moves. */
  lemma RevokeMeans(s: Store, id: Hash, reason: string)
    ensures var (t, r) := Revoke(s, id, reason);
      && (r.Ok? <==> id in s.byId) && (r.Err? ==> t == s && r.error == NotFound(id))
      && (r.Ok? ==> Lookup(t, id).None? && t.byId == s.byId)
      && (forall other :: other != id ==> Lookup(t, other) == Lookup(s, other))
  {
  }

  // ---- What a scope refuses ----

  /** Why a scope refuses a descriptor: an unlisted action, tag, recipient or memory scope, or a number above its bound. */
  lemma RefusalMeans(parse: Parser, s: Scope, d: Descriptor)
    ensures !Permits(parse, s, d) <==>
      || (s.permittedActions != [] && d.actionKind !in s.permittedActions)
      || (s.resourceTags != [] && exists t :: t in d.resourceTags && t !in s.resourceTags)
      || (exists k :: k in d.numericValues && k in s.bounds && !AtMost(parse, d.numericValues[k], s.bounds[k]))
      || (d.recipient.Some? && s.permittedRecipients != [] && d.recipient.value !in s.permittedRecipients)
      || (d.memoryScope.Some? && s.memoryScopes != [] && d.memoryScope.value !in s.memoryScopes)
  {
    forall v, b
      ensures DecimalLe(parse, v, b) <==> AtMost(parse, v, b)
    {
    }
    hide DecimalLe, AtMost;
  }

  /**
   A number is at most a bound if both read as numbers in that order, if it reads as minus infinity or the bound as plus
   infinity. Text that reads as nothing is too large as a number and too small as a bound; NaN is neither.
   */
  predicate AtMost(parse: Parser, v: string, b: string) {
    match parse(b)
    case None => parse(v) == Some(NegInf)
    case Some(NaN) => false
    case Some(PosInf) => parse(v) != Some(NaN)
    case Some(NegInf) => parse(v) == Some(NegInf)
    case Some(Finite(y)) => parse(v) == Some(NegInf) || (parse(v).Some? && parse(v).value.Finite? && parse(v).value.v <= y)
  }
}
