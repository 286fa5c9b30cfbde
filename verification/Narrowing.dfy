/** Which child scopes an attenuation takes, list by list and bound by bound. */
module Narrowing {
  import opened Wrappers
  import opened Scope
  import opened Capabilities
  import opened CheckMeaning

  /** `kept` stands at these places of `list`, in their order, and they are all the places at which a wanted value stands. */
  ghost predicate StandsAt(list: seq<string>, wanted: seq<string>, kept: seq<string>, places: seq<nat>) {
    InOrder(list, kept, places) && AllPlaces(list, wanted, places)
  }

  predicate InOrder(list: seq<string>, kept: seq<string>, places: seq<nat>) {
    && |places| == |kept|
    && (forall i :: 0 <= i < |places| ==> places[i] < |list| && list[places[i]] == kept[i])
    && (forall i, j :: 0 <= i < j < |places| ==> places[i] < places[j])
  }

  predicate AllPlaces(list: seq<string>, wanted: seq<string>, places: seq<nat>) {
    forall k :: 0 <= k < |list| ==> (list[k] in wanted <==> k in places)
  }

  lemma {:induction false} CommonOneMore(list: seq<string>, x: string, wanted: seq<string>)
    ensures Common(list + [x], wanted) == Common(list, wanted) + if x in wanted then [x] else []
  {
    if list == [] {
      assert [] + [x] == [x] && Common([x][1..], wanted) == [];
    } else {
      CommonOneMore(list[1..], x, wanted);
      assert (list + [x])[1..] == list[1..] + [x];
    }
  }

  lemma {:induction false} CommonStands(list: seq<string>, wanted: seq<string>) returns (places: seq<nat>)
    ensures StandsAt(list, wanted, Common(list, wanted), places)
  {
    if list == [] {
      return [];
    }
    var init, x := list[..|list| - 1], list[|list| - 1];
    var before := CommonStands(init, wanted);
    assert list == init + [x];
    CommonOneMore(init, x, wanted);
    places := if x in wanted then before + [|init|] else before;
    OneMoreStands(init, x, wanted, Common(init, wanted), before);
    hide StandsAt;
  }

  lemma OneMoreStands(init: seq<string>, x: string, wanted: seq<string>, kept: seq<string>, places: seq<nat>)
    requires StandsAt(init, wanted, kept, places)
    ensures x in wanted ==> StandsAt(init + [x], wanted, kept + [x], places + [|init|])
    ensures x !in wanted ==> StandsAt(init + [x], wanted, kept + [], places)
  {
    assert kept + [] == kept;
    OneMoreInOrder(init, x, kept, places);
    AllBelow(places, |init|);
    hide InOrder;
    assert AllPlaces(init + [x], wanted, if x in wanted then places + [|init|] else places);
  }

  lemma OneMoreInOrder(init: seq<string>, x: string, kept: seq<string>, places: seq<nat>)
    requires InOrder(init, kept, places)
    ensures InOrder(init + [x], kept + [x], places + [|init|]) && InOrder(init + [x], kept, places)
    ensures forall i :: 0 <= i < |places| ==> places[i] < |init|
  {
  }

  lemma AllBelow(places: seq<nat>, n: nat)
    requires forall i :: 0 <= i < |places| ==> places[i] < n
    ensures n !in places
  {
  }

  /** Of a value that is wanted the place comes last, and of one that is not there is none. */
  lemma LastStands(init: seq<string>, x: string, wanted: seq<string>, kept: seq<string>, places: seq<nat>)
    requires StandsAt(init + [x], wanted, kept, places)
    ensures x in wanted ==>
      places != [] && kept[|kept| - 1] == x && StandsAt(init, wanted, kept[..|kept| - 1], places[..|places| - 1])
    ensures x !in wanted ==> StandsAt(init, wanted, kept, places)
  {
    var list := init + [x];
    assert list[|init|] == x;
    assert x in wanted <==> |init| in places;
    assert forall k :: 0 <= k < |init| ==> list[k] == init[k];
    if x in wanted {
      var m := |places| - 1;
      var i :| 0 <= i <= m && places[i] == |init|;
      assert i == m by {
        assert places[m] <= |init|;
      }
      forall k | 0 <= k < |init|
        ensures init[k] in wanted <==> k in places[..m]
      {
        assert list[k] in wanted <==> k in places;
        assert places == places[..m] + [|init|];
      }
    } else {
      forall i | 0 <= i < |places|
        ensures places[i] < |init|
      {
        assert places[i] in places;
      }
      forall k | 0 <= k < |init|
        ensures init[k] in wanted <==> k in places
      {
        assert list[k] in wanted <==> k in places;
      }
    }
  }

  lemma {:induction false} StandsIsCommon(list: seq<string>, wanted: seq<string>, kept: seq<string>, places: seq<nat>)
    requires StandsAt(list, wanted, kept, places)
    ensures kept == Common(list, wanted)
  {
    if list != [] {
      var init, x := list[..|list| - 1], list[|list| - 1];
      assert list == init + [x];
      CommonOneMore(init, x, wanted);
      LastStands(init, x, wanted, kept, places);
      hide StandsAt, Common;
      if x in wanted {
        StandsIsCommon(init, wanted, kept[..|kept| - 1], places[..|places| - 1]);
      } else {
        StandsIsCommon(init, wanted, kept, places);
      }
    } else {
      NothingStands(wanted, kept, places);
    }
  }

  lemma NothingStands(wanted: seq<string>, kept: seq<string>, places: seq<nat>)
    requires StandsAt([], wanted, kept, places)
    ensures kept == []
  {
    NoneBelowZero(places);
  }

  lemma NoneBelowZero(places: seq<nat>)
    ensures (forall i :: 0 <= i < |places| ==> places[i] < 0) ==> places == []
  {
    if places != [] {
      var first := places[0];
    }
  }

  /** An unrestricted list takes any other; a restricted one takes what is left of it when some values are deleted. */
  ghost predicate ListTakes(parent: seq<string>, child: seq<string>) {
    parent == [] || (child != [] && exists places :: StandsAt(parent, child, child, places))
  }

  lemma ListExactly(parent: seq<string>, child: seq<string>)
    ensures IntersectOrTakeOne(parent, child) == child <==> ListTakes(parent, child)
  {
    if parent != [] && child != [] {
      if Common(parent, child) == child {
        var places := CommonStands(parent, child);
      }
      if places :| StandsAt(parent, child, child, places) {
        StandsIsCommon(parent, child, child, places);
      }
    }
  }

  lemma BoundsExactly(parse: Parser, parent: map<string, string>, child: map<string, string>)
    ensures MeetBounds(parse, parent, child) == child
      <==> forall k :: k in parent ==> k in child && (child[k] == parent[k] || AtMost(parse, child[k], parent[k]))
  {
    var meet := MeetBounds(parse, parent, child);
    forall v, b
      ensures DecimalLe(parse, v, b) <==> AtMost(parse, v, b)
    {
    }
    hide DecimalLe, AtMost;
    if meet == child {
      forall k | k in parent
        ensures k in child && (child[k] == parent[k] || AtMost(parse, child[k], parent[k]))
      {
        assert k in meet && meet[k] == child[k];
      }
    }
    if forall k :: k in parent ==> k in child && (child[k] == parent[k] || AtMost(parse, child[k], parent[k])) {
      assert meet.Keys == child.Keys;
    }
  }

  /**
   A child's scope is taken exactly when each of its lists is its parent's with some values deleted, in the parent's
   order, and it keeps every bound of the parent's, with the same text or a number that is at most as large.
   */
  lemma NarrowsExactly(env: Env, s: Store, c: Content)
    requires c.parent.Some? && c.parent.value in s.byId
    ensures var parent := s.byId[c.parent.value].content.scope;
      Narrows(env, s, c) <==>
        && ListTakes(parent.permittedActions, c.scope.permittedActions)
        && ListTakes(parent.resourceTags, c.scope.resourceTags)
        && ListTakes(parent.permittedRecipients, c.scope.permittedRecipients)
        && ListTakes(parent.memoryScopes, c.scope.memoryScopes)
        && forall k :: k in parent.bounds ==>
             k in c.scope.bounds
             && (c.scope.bounds[k] == parent.bounds[k] || AtMost(env.parse, c.scope.bounds[k], parent.bounds[k]))
  {
    hide ListTakes, IntersectOrTakeOne, MeetBounds, AtMost;
    var parent := s.byId[c.parent.value].content.scope;
    ListExactly(parent.permittedActions, c.scope.permittedActions);
    ListExactly(parent.resourceTags, c.scope.resourceTags);
    ListExactly(parent.permittedRecipients, c.scope.permittedRecipients);
    ListExactly(parent.memoryScopes, c.scope.memoryScopes);
    BoundsExactly(env.parse, parent.bounds, c.scope.bounds);
  }

  /** A child that lists its parent's two actions the other way round permits the same and is refused for broadening. */
  lemma ReorderIsRefused(env: Env, s: Store, c: Capability, x: string, y: string, quarantined: AgentId -> bool)
    requires c.content.parent.Some? && c.content.parent.value in s.byId && !quarantined(c.content.subject) && x != y
    requires s.byId[c.content.parent.value].content.scope == EMPTY.(permittedActions := [x, y])
    requires c.content.scope == EMPTY.(permittedActions := [y, x])
    ensures Attenuate(env, s, c, quarantined) == (s, Err(AttenuationBroadens))
    ensures forall d ::
      Permits(env.parse, c.content.scope, d) <==> Permits(env.parse, s.byId[c.content.parent.value].content.scope, d)
  {
    assert Common([y], [y, x]) == [y] && Common([x, y], [y, x]) == [x] + Common([y], [y, x]);
    assert Intersect(env.parse, EMPTY.(permittedActions := [x, y]), c.content.scope).permittedActions[0] == x;
  }
}
