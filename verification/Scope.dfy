/** Capability scopes: five dimensions, where an empty list permits everything. */
module Scope {
  import opened Wrappers

  // ---------------------------------------------------------------- numbers

  /** An f64 with rounding set aside. */
  datatype Float = NegInf | Finite(v: real) | PosInf | NaN

  /** How bound text becomes a number; absent when it does not parse. */
  type Parser = string -> Option<Float>

  predicate FloatLe(a: Float, b: Float) {
    if a.NaN? || b.NaN? then false
    else a.NegInf? || b.PosInf? || (a.Finite? && b.Finite? && a.v <= b.v)
  }

  /** Unparsable text counts as infinitely large on the left of a comparison. */
  function OnLeft(parse: Parser, s: string): Float {
    match parse(s)
    case Some(f) => f
    case None => PosInf
  }

  /** And as infinitely small on the right. */
  function OnRight(parse: Parser, s: string): Float {
    match parse(s)
    case Some(f) => f
    case None => NegInf
  }

  predicate DecimalLe(parse: Parser, a: string, b: string) {
    FloatLe(OnLeft(parse, a), OnRight(parse, b))
  }

  // ----------------------------------------------------------------- scopes

  datatype Scope = Scope(
    permittedActions: seq<string>,
    resourceTags: seq<string>,
    bounds: map<string, string>,
    permittedRecipients: seq<string>,
    memoryScopes: seq<string>)

  const EMPTY := Scope([], [], map[], [], [])

  datatype Descriptor = Descriptor(
    actionKind: string,
    resourceTags: seq<string>,
    numericValues: map<string, string>,
    recipient: Option<string>,
    memoryScope: Option<string>)

  /** The elements of `lhs` that `rhs` has too, in the order of `lhs`. */
  function Common(lhs: seq<string>, rhs: seq<string>): (c: seq<string>)
    ensures forall x :: x in c <==> x in lhs && x in rhs
  {
    if lhs == [] then []
    else if lhs[0] in rhs then [lhs[0]] + Common(lhs[1..], rhs)
    else Common(lhs[1..], rhs)
  }

  function IntersectOrTakeOne(lhs: seq<string>, rhs: seq<string>): seq<string> {
    if lhs == [] then rhs else if rhs == [] then lhs else Common(lhs, rhs)
  }

  predicate EmptyOrContains(dim: seq<string>, needle: string) {
    dim == [] || needle in dim
  }

  function SmallerBound(parse: Parser, lhs: string, rhs: string): string {
    if DecimalLe(parse, rhs, lhs) then rhs else lhs
  }

  function MeetBounds(parse: Parser, lhs: map<string, string>, rhs: map<string, string>): map<string, string> {
    map k | k in lhs.Keys + rhs.Keys ::
      if k !in rhs then lhs[k] else if k !in lhs then rhs[k] else SmallerBound(parse, lhs[k], rhs[k])
  }

  function Intersect(parse: Parser, a: Scope, b: Scope): Scope {
    Scope(
      IntersectOrTakeOne(a.permittedActions, b.permittedActions),
      IntersectOrTakeOne(a.resourceTags, b.resourceTags),
      MeetBounds(parse, a.bounds, b.bounds),
      IntersectOrTakeOne(a.permittedRecipients, b.permittedRecipients),
      IntersectOrTakeOne(a.memoryScopes, b.memoryScopes))
  }

  predicate TagsPermitted(dim: seq<string>, tags: seq<string>) {
    dim == [] || forall t :: t in tags ==> t in dim
  }

  predicate NumbersPermitted(parse: Parser, bounds: map<string, string>, values: map<string, string>) {
    forall k :: k in values && k in bounds ==> DecimalLe(parse, values[k], bounds[k])
  }

  predicate OptionalPermitted(dim: seq<string>, needle: Option<string>) {
    needle.Some? ==> EmptyOrContains(dim, needle.value)
  }

  predicate Permits(parse: Parser, s: Scope, d: Descriptor) {
    && EmptyOrContains(s.permittedActions, d.actionKind)
    && TagsPermitted(s.resourceTags, d.resourceTags)
    && NumbersPermitted(parse, s.bounds, d.numericValues)
    && OptionalPermitted(s.permittedRecipients, d.recipient)
    && OptionalPermitted(s.memoryScopes, d.memoryScope)
  }

  /** Fill the bounds of an intersection: shared keys first, then the keys only `rhs` has. */
  method IntersectBounds(parse: Parser, lhs: map<string, string>, rhs: map<string, string>)
    returns (out: map<string, string>)
    ensures out == MeetBounds(parse, lhs, rhs)
  {
    out := map[];
    var todo := lhs.Keys;
    while todo != {}
      invariant todo <= lhs.Keys
      invariant out.Keys == lhs.Keys - todo
      invariant forall k :: k in out ==>
        out[k] == if k in rhs then SmallerBound(parse, lhs[k], rhs[k]) else lhs[k]
      decreases todo
    {
      var k :| k in todo;
      if k in rhs && DecimalLe(parse, rhs[k], lhs[k]) {
        out := out[k := rhs[k]];
      } else {
        out := out[k := lhs[k]];
      }
      todo := todo - {k};
    }
    todo := rhs.Keys;
    while todo != {}
      invariant todo <= rhs.Keys
      invariant out.Keys == lhs.Keys + (rhs.Keys - todo)
      invariant forall k :: k in out ==>
        out[k] == if k !in rhs then lhs[k] else if k !in lhs then rhs[k] else SmallerBound(parse, lhs[k], rhs[k])
      decreases todo
    {
      var k :| k in todo;
      if k !in out {
        out := out[k := rhs[k]];
      }
      todo := todo - {k};
    }
  }

  /** Test every dimension, returning at the first that fails. */
  method CheckPermits(parse: Parser, s: Scope, d: Descriptor) returns (ok: bool)
    ensures ok == Permits(parse, s, d)
  {
    if !EmptyOrContains(s.permittedActions, d.actionKind) {
      return false;
    }
    if s.resourceTags != [] {
      for i := 0 to |d.resourceTags|
        invariant forall j :: 0 <= j < i ==> d.resourceTags[j] in s.resourceTags
      {
        if d.resourceTags[i] !in s.resourceTags {
          return false;
        }
      }
    }
    var todo := d.numericValues.Keys;
    while todo != {}
      invariant todo <= d.numericValues.Keys
      invariant forall k :: k in d.numericValues && k !in todo && k in s.bounds ==>
        DecimalLe(parse, d.numericValues[k], s.bounds[k])
      decreases todo
    {
      var k :| k in todo;
      if k in s.bounds && !DecimalLe(parse, d.numericValues[k], s.bounds[k]) {
        return false;
      }
      todo := todo - {k};
    }
    if d.recipient.Some? && !EmptyOrContains(s.permittedRecipients, d.recipient.value) {
      return false;
    }
    ok := d.memoryScope.None? || EmptyOrContains(s.memoryScopes, d.memoryScope.value);
  }

  // ------------------------------------------------------------------- laws

  lemma LeThrough(parse: Parser, v: string, b: string, a: string)
    requires DecimalLe(parse, v, b) && DecimalLe(parse, b, a)
    ensures DecimalLe(parse, v, a)
  {
  }

  /** A scope that its intersection with another leaves unchanged permits nothing the other does not, unparsable bounds included. */
  lemma SubsetPermitsLess(parse: Parser, a: Scope, b: Scope, d: Descriptor)
    requires Intersect(parse, a, b) == b && Permits(parse, b, d)
    ensures Permits(parse, a, d)
  {
    ListSubset(a.permittedActions, b.permittedActions);
    ListSubset(a.resourceTags, b.resourceTags);
    ListSubset(a.permittedRecipients, b.permittedRecipients);
    ListSubset(a.memoryScopes, b.memoryScopes);
    forall k | k in d.numericValues && k in a.bounds
      ensures DecimalLe(parse, d.numericValues[k], a.bounds[k])
    {
      assert k in MeetBounds(parse, a.bounds, b.bounds);
      assert b.bounds[k] == SmallerBound(parse, a.bounds[k], b.bounds[k]);
      if DecimalLe(parse, b.bounds[k], a.bounds[k]) {
        LeThrough(parse, d.numericValues[k], b.bounds[k], a.bounds[k]);
      }
    }
  }

  lemma ListSubset(a: seq<string>, b: seq<string>)
    requires IntersectOrTakeOne(a, b) == b
    ensures a != [] ==> b != [] && forall x :: x in b ==> x in a
  {
  }

  /** The intersection always permits what both permit. */
  lemma IntersectKeepsCommon(parse: Parser, a: Scope, b: Scope, d: Descriptor)
    requires Permits(parse, a, d) && Permits(parse, b, d)
    ensures Permits(parse, Intersect(parse, a, b), d)
  {
  }

  /** Two non-empty lists with nothing in common. */
  predicate Disjoint(a: seq<string>, b: seq<string>) {
    a != [] && b != [] && forall x :: x in a ==> x !in b
  }

  /** The right-hand bound is an ordinary number, or the left one makes its oddity harmless. */
  predicate BoundOrdered(parse: Parser, lhs: string, rhs: string) {
    || (parse(rhs).Some? && !parse(rhs).value.NaN?)
    || OnRight(parse, lhs).NaN?
    || (parse(rhs).None? && !OnRight(parse, lhs).Finite?)
  }

  predicate Compatible(parse: Parser, a: Scope, b: Scope) {
    && !Disjoint(a.permittedActions, b.permittedActions)
    && !Disjoint(a.resourceTags, b.resourceTags)
    && !Disjoint(a.permittedRecipients, b.permittedRecipients)
    && !Disjoint(a.memoryScopes, b.memoryScopes)
    && (forall k :: k in a.bounds && k in b.bounds ==> BoundOrdered(parse, a.bounds[k], b.bounds[k]))
  }

  /** The intersection permits a descriptor exactly when both scopes do. */
  ghost predicate IntersectIsBoth(parse: Parser, a: Scope, b: Scope) {
    forall d :: Permits(parse, Intersect(parse, a, b), d) <==> Permits(parse, a, d) && Permits(parse, b, d)
  }

  lemma BoundIsBoth(parse: Parser, lhs: string, rhs: string, v: string)
    requires BoundOrdered(parse, lhs, rhs) && DecimalLe(parse, v, SmallerBound(parse, lhs, rhs))
    ensures DecimalLe(parse, v, lhs) && DecimalLe(parse, v, rhs)
  {
  }

  lemma CompatibleIsBoth(parse: Parser, a: Scope, b: Scope, d: Descriptor)
    requires Compatible(parse, a, b) && Permits(parse, Intersect(parse, a, b), d)
    ensures Permits(parse, a, d) && Permits(parse, b, d)
  {
    ListIsBoth(a.permittedActions, b.permittedActions);
    ListIsBoth(a.resourceTags, b.resourceTags);
    ListIsBoth(a.permittedRecipients, b.permittedRecipients);
    ListIsBoth(a.memoryScopes, b.memoryScopes);
    var meet := MeetBounds(parse, a.bounds, b.bounds);
    forall k | k in d.numericValues
      ensures k in a.bounds ==> DecimalLe(parse, d.numericValues[k], a.bounds[k])
      ensures k in b.bounds ==> DecimalLe(parse, d.numericValues[k], b.bounds[k])
    {
      if k in a.bounds && k in b.bounds {
        assert DecimalLe(parse, d.numericValues[k], meet[k]);
        BoundIsBoth(parse, a.bounds[k], b.bounds[k], d.numericValues[k]);
      } else if k in a.bounds || k in b.bounds {
        assert DecimalLe(parse, d.numericValues[k], meet[k]);
      }
    }
  }

  lemma ListIsBoth(a: seq<string>, b: seq<string>)
    requires !Disjoint(a, b)
    ensures var c := IntersectOrTakeOne(a, b);
      (c == [] <==> a == [] && b == []) && forall x :: x in c ==> EmptyOrContains(a, x) && EmptyOrContains(b, x)
  {
    if a != [] && b != [] {
      var x :| x in a && x in b;
      assert x in Common(a, b);
    }
  }

  /** A descriptor that asks for one action and nothing else. */
  function Asking(action: string): Descriptor {
    Descriptor(action, [], map[], None, None)
  }

  function SomeAction(s: Scope): (action: string)
    ensures EmptyOrContains(s.permittedActions, action)
  {
    if s.permittedActions == [] then "" else s.permittedActions[0]
  }

  /** When the scopes are not compatible, a descriptor that only the intersection permits. */
  lemma IncompatibleWidens(parse: Parser, a: Scope, b: Scope) returns (d: Descriptor)
    requires parse("-inf") == Some(NegInf) && !Compatible(parse, a, b)
    ensures Permits(parse, Intersect(parse, a, b), d) && !(Permits(parse, a, d) && Permits(parse, b, d))
  {
    var meet := Intersect(parse, a, b);
    var plain := Asking(SomeAction(meet));
    if Disjoint(a.permittedActions, b.permittedActions) {
      DisjointIsAll(a.permittedActions, b.permittedActions);
      d := Asking(a.permittedActions[0]);
    } else if Disjoint(a.resourceTags, b.resourceTags) {
      DisjointIsAll(a.resourceTags, b.resourceTags);
      d := plain.(resourceTags := [a.resourceTags[0]]);
      assert a.resourceTags[0] in d.resourceTags;
    } else if Disjoint(a.permittedRecipients, b.permittedRecipients) {
      DisjointIsAll(a.permittedRecipients, b.permittedRecipients);
      d := plain.(recipient := Some(a.permittedRecipients[0]));
    } else if Disjoint(a.memoryScopes, b.memoryScopes) {
      DisjointIsAll(a.memoryScopes, b.memoryScopes);
      d := plain.(memoryScope := Some(a.memoryScopes[0]));
    } else {
      var k :| k in a.bounds && k in b.bounds && !BoundOrdered(parse, a.bounds[k], b.bounds[k]);
      var v := if parse(b.bounds[k]).None? then a.bounds[k] else "-inf";
      d := plain.(numericValues := map[k := v]);
      assert meet.bounds[k] == a.bounds[k];
      assert k in d.numericValues && !DecimalLe(parse, d.numericValues[k], b.bounds[k]);
    }
  }

  lemma DisjointIsAll(a: seq<string>, b: seq<string>)
    requires Disjoint(a, b)
    ensures IntersectOrTakeOne(a, b) == [] && a[0] !in b
  {
    var c := Common(a, b);
    HasFirst(c);
    HasFirst(a);
  }

  lemma HasFirst(s: seq<string>)
    ensures s != [] ==> s[0] in s
  {
  }

  /** Exactly the compatible pairs intersect to what both permit. */
  lemma IntersectIsBothExactly(parse: Parser, a: Scope, b: Scope)
    requires parse("-inf") == Some(NegInf)
    ensures IntersectIsBoth(parse, a, b) <==> Compatible(parse, a, b)
  {
    if Compatible(parse, a, b) {
      forall d
        ensures Permits(parse, Intersect(parse, a, b), d) <==> Permits(parse, a, d) && Permits(parse, b, d)
      {
        if Permits(parse, Intersect(parse, a, b), d) {
          CompatibleIsBoth(parse, a, b, d);
        } else if Permits(parse, a, d) && Permits(parse, b, d) {
          IntersectKeepsCommon(parse, a, b, d);
        }
      }
    } else {
      var d := IncompatibleWidens(parse, a, b);
      assert !IntersectIsBoth(parse, a, b);
    }
  }
}
