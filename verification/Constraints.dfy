/**
 The constraints of endpoints, under all commands.

 Set commands refuse what breaks a constraint, but a new endpoint holds zero or nothing, and so it stays
 if its own default is refused.  Every other endpoint meets its constraint, always.
 */
module Constraints {
  import opened Paths
  import opened Values
  import opened Forest
  import opened Naming
  import opened Connections
  import opened Activation
  import opened Relocation

  /** Endpoints whose defaults can be set hold nothing that breaks their constraints. */
  ghost predicate AllMeet(values: Valuation) {
    forall e :: e in values && values[e].Some? && e.definition.HasFittingDefault() ==> e.definition.Allows(values[e].value)
  }

  lemma MetAt(values: Valuation, e: NodeEndpoint)
    requires AllMeet(values) && e in values && values[e].Some? && e.definition.HasFittingDefault()
    ensures e.definition.Allows(values[e].value)
  {
  }

  lemma SwitchAllows(w: World, e: NodeEndpoint)
    requires w.Valid() && WellTyped(w.live, w.eps) && e in w.eps && e.name == ACTIVE
    ensures e.definition.Allows(IntegerValue(0)) && e.definition.Allows(IntegerValue(1))
  {
    assert w.EndpointsOwned() && e.node in w.live && e.node.endpoints[e.name] == e;
    assert e.node.iface.Valid() && e.node.HasDeclaredEndpoints();
    hide EndpointDefinition.Allows, World.Valid, WellTyped;
    var i :| 0 <= i < |e.node.iface.endpoints| && e.node.iface.endpoints[i] == e.definition;
    assert e.node.iface.endpoints[i].name == ACTIVE;
  }

  /** Rewritten texts have passed the test; a refused one leaves what was there. */
  lemma MetAfterRewriting(now: Valuation, before: Valuation, scopes: map<NodeEndpoint, Path>, eps: set<NodeEndpoint>, p: Path, edit: Edit)
    requires scopes.Keys == eps && Rewritten(now, before, scopes, EndsAbove(eps, scopes, p), edit)
    requires EndsAreTexts(before) && AllMeet(before)
    ensures AllMeet(now)
  {
    hide EndpointDefinition.Allows, EndpointDefinition.HasFittingDefault, Edit.Rewrite;
  }

  /** Switches can be set to off and on. */
  lemma MetAfterActivating(w: World, now: Valuation, before: Valuation, S: set<Node>, root: Path, on: bool)
    requires w.Valid() && WellTyped(w.live, w.eps) && now.Keys == w.eps
    requires Activated(now, before, w.Paths(), Switches(w.live), S, root, on) && AllMeet(before)
    ensures AllMeet(now)
  {
    hide World.Valid, WellTyped, EndpointDefinition.Allows, EndpointDefinition.HasFittingDefault, LitFrom;
    forall e | e in now && now[e].Some? && e.definition.HasFittingDefault() ensures e.definition.Allows(now[e].value) {
      if e.node in w.Paths() && Switched(Switches(w.live), S, e) {
        EndpointOf(w, e.node, ACTIVE);
        SwitchAllows(w, e);
      } else {
        assert now[e] == before[e];
      }
    }
  }

  lemma MetAfterSetting(before: Valuation, e: NodeEndpoint, v: Value)
    requires AllMeet(before) && e.definition.Allows(v)
    ensures AllMeet(before[e := Some(v)])
  {
    hide EndpointDefinition.Allows;
  }

  /** What an endpoint of a new node starts with meets the constraint if the default does. */
  lemma InitialIsMet(w: World, e: NodeEndpoint, above: bool)
    requires w.Valid() && WellTyped(w.live, w.eps) && e in w.eps && e.definition.HasFittingDefault()
    ensures InitialValue(e, above).Some? && e.definition.Allows(InitialValue(e, above).value)
  {
    hide World.Valid, WellTyped;
    if e.name == ACTIVE {
      SwitchAllows(w, e);
    }
  }

  /** A new node, whose endpoints have been initialised, beside others that are as they were. */
  lemma MetWithNew(w: World, now: Valuation, before: Valuation, above: bool)
    requires w.Valid() && WellTyped(w.live, w.eps) && now.Keys == w.eps && AllMeet(before)
    requires forall e :: e in now && e in before ==> now[e] == before[e]
    requires forall e :: e in now && e !in before && e.definition.initial.Some? ==> now[e] == InitialValue(e, above)
    ensures AllMeet(now)
  {
    hide World.Valid, WellTyped, EndpointDefinition.Allows, InitialValue;
    forall e | e in now && now[e].Some? && e.definition.HasFittingDefault() ensures e.definition.Allows(now[e].value) {
      if e !in before {
        InitialIsMet(w, e, above);
      }
    }
  }

  lemma MetOfFewer(now: Valuation, before: Valuation)
    requires AllMeet(before) && forall e :: e in now ==> e in before && now[e] == before[e]
    ensures AllMeet(now)
  {
    hide EndpointDefinition.Allows, EndpointDefinition.HasFittingDefault;
  }
}
