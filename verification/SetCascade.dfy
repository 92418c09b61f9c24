/**
 Set commands and what they set off.

 A set command stores a value and lets connections and the node's logic react; reactions are set
 commands again, so a connection graph with cycles could go on for ever.  The reentrance checker stops
 it.  What a cascade comes to is said first by functions that hand down the set of the endpoints being
 set; that they are well defined is why every cascade ends.  Of these it is proved that no endpoint is
 left with a value that breaks its constraint unless it held such a value before and has not been set
 since, that the notifications account for every change, that no endpoint is set while it is being set,
 and that no connection is passed over.  Then the commands, with the stack and the map of the checker,
 are proved to do just that and to leave the checker as they found it.  New endpoints hold values that
 may break their constraints; once their defaults have been set, none does.
 */
module SetCascade {
  import opened Paths
  import opened Values

  type EndpointId = nat

  datatype Source = SYSTEM | CONNECTION | SCRIPT | INITIALIZATION | LOAD | PUBLIC_API | MODULE_IMPLEMENTATION

  datatype SetError = SUCCESS | PATH_ERROR | TYPE_ERROR | CONSTRAINT_ERROR | REENTRANCE_ERROR

  /** `switch` is the active endpoint of the node that the endpoint belongs to, if the node has one. */
  datatype Control = Stream | Bang | Stateful(info: StateInfo)
  datatype Definition = Definition(control: Control, canBeSource: bool, canBeTarget: bool, switch: Option<EndpointId>)

  // ---------------------------------------------------------------- types and constraints

  /** Of the types only numbers go for one another. */
  predicate TypeFits(v: Value, t: ValueType) {
    v.Type() == t || (!v.StringValue? && t != STRING)
  }

  method TestConstraint(info: StateInfo, value: Value, texts: Texts) returns (ok: bool)
    requires info.Valid()
    ensures ok <==> info.Satisfied(Converted(value, info.valueType, texts))
    ensures value.Type() == info.valueType && info.constraint.Allowed? ==> (ok <==> value in info.constraint.states)
    ensures info.valueType == STRING && value.StringValue? && info.constraint.Range? ==>
              (ok <==> info.constraint.minimum.i <= |value.s| <= info.constraint.maximum.i)
    ensures info.valueType == INTEGER && value.IntegerValue? && info.constraint.Range? ==>
              (ok <==> info.constraint.minimum.i <= value.i <= info.constraint.maximum.i)
    ensures info.valueType == FLOAT && value.FloatValue? && info.constraint.Range? ==>
              (ok <==> info.constraint.minimum.r <= value.r <= info.constraint.maximum.r)
    ensures info.valueType == FLOAT && value.IntegerValue? && info.constraint.Range? ==>
              (ok <==> info.constraint.minimum.r <= value.i as real <= info.constraint.maximum.r)
    ensures info.valueType == INTEGER && value.FloatValue? && info.constraint.Range? ==>
              (ok <==> var (least, most) := (info.constraint.minimum.i as real, info.constraint.maximum.i as real);
                       if value.r >= 0.0 then least <= value.r < most + 1.0 else least - 1.0 < value.r <= most)
  {
    var v := if value.Type() != info.valueType then Converted(value, info.valueType, texts) else value;
    match info.constraint
    case Range(minimum, maximum) =>
      match v {
        case StringValue(s) => ok := !(|s| < minimum.i) && !(|s| > maximum.i);
        case IntegerValue(i) => ok := !(i < minimum.i) && !(i > maximum.i);
        case FloatValue(r) => ok := !(r < minimum.r) && !(r > maximum.r);
      }
    case Allowed(states) =>
      for i := 0 to |states|
        invariant v !in states[..i]
      {
        if v == states[i] {
          return true;
        }
      }
      assert states[..|states|] == states;
      ok := false;
  }

  // ---------------------------------------------------------------- the reentrance checker

  /** The sources whose set commands may set off others for ever. */
  predicate CaresAboutSource(source: Source) {
    source == SYSTEM || source == CONNECTION || source == SCRIPT
  }

  /** The endpoints entered as being set from a guarded source. */
  function Guarded(sources: map<EndpointId, Source>): set<EndpointId> {
    set e | e in sources && CaresAboutSource(sources[e])
  }

  /** The endpoints on the stack that were pushed from a guarded source. */
  ghost function GuardedOn(stack: seq<EndpointId>, pushed: seq<Source>): set<EndpointId>
    requires |pushed| == |stack|
  {
    set i | 0 <= i < |stack| && CaresAboutSource(pushed[i]) :: stack[i]
  }

  lemma GuardedOnSnoc(stack: seq<EndpointId>, pushed: seq<Source>, e: EndpointId, source: Source)
    requires |pushed| == |stack|
    ensures GuardedOn(stack + [e], pushed + [source]) == GuardedOn(stack, pushed) + if CaresAboutSource(source) then {e} else {}
  {
    var s, p := stack + [e], pushed + [source];
    assert s[|stack|] == e && p[|stack|] == source;
    forall x | x in GuardedOn(stack, pushed) ensures x in GuardedOn(s, p) {
      var i :| 0 <= i < |stack| && CaresAboutSource(pushed[i]) && stack[i] == x;
      assert s[i] == x && p[i] == pushed[i];
    }
  }

  class ReentranceChecker {
    var stack: seq<EndpointId>
    var sourceOf: map<EndpointId, Source>
    /** The source each stack position was pushed with. */
    ghost var pushed: seq<Source>

    /** Only the bottom of the stack may have come from an unguarded source; no endpoint is on the stack
        twice from guarded sources; and the guarded entries of the map are those on the stack. */
    ghost predicate Valid()
      reads this
    {
      && |pushed| == |stack|
      && (forall i :: 0 < i < |pushed| ==> CaresAboutSource(pushed[i]))
      && (forall i, j :: 0 <= i < j < |stack| && CaresAboutSource(pushed[i]) ==> stack[i] != stack[j])
      && Guarded(sourceOf) == GuardedOn(stack, pushed)
    }

    constructor ()
      ensures Valid() && stack == [] && Guarded(sourceOf) == {}
    {
      stack, sourceOf, pushed := [], map[], [];
    }

    /** Enters a set command, unless it would enter the endpoint a second time from a guarded source. */
    method Push(e: EndpointId, source: Source) returns (reentered: bool)
      requires Valid() && (CaresAboutSource(source) || stack == [])
      modifies this
      ensures Valid()
      ensures reentered <==> CaresAboutSource(source) && e in old(Guarded(sourceOf))
      ensures reentered ==> stack == old(stack) && sourceOf == old(sourceOf) && pushed == old(pushed)
      ensures !reentered ==> stack == old(stack) + [e] && pushed == old(pushed) + [source]
      ensures !reentered ==> Guarded(sourceOf) == old(Guarded(sourceOf)) + if CaresAboutSource(source) then {e} else {}
    {
      if CaresAboutSource(source) {
        if e in sourceOf {
          if CaresAboutSource(sourceOf[e]) {
            return true;
          }
        }
      }
      GuardedOnSnoc(stack, pushed, e, source);
      sourceOf := sourceOf[e := source];
      stack := stack + [e];
      pushed := pushed + [source];
      reentered := false;
    }

    /** Leaves a set command.  The map's entry goes even if the endpoint is on the stack once more. */
    method Pop()
      requires Valid() && stack != []
      modifies this
      ensures Valid()
      ensures stack == old(stack)[..|old(stack)| - 1] && pushed == old(pushed)[..|old(stack)| - 1]
      ensures Guarded(sourceOf) == old(Guarded(sourceOf)) - {old(stack)[|old(stack)| - 1]}
    {
      PopKeeps();
      sourceOf := sourceOf - {stack[|stack| - 1]};
      stack := stack[..|stack| - 1];
      pushed := pushed[..|pushed| - 1];
    }

    /** What is known without the top of the stack. */
    lemma PopKeeps()
      requires Valid() && stack != []
      ensures var top := |stack| - 1;
              && |pushed| == |stack|
              && (forall i :: 0 < i < top ==> CaresAboutSource(pushed[..top][i]))
              && (forall i, j :: 0 <= i < j < top && CaresAboutSource(pushed[..top][i]) ==> stack[..top][i] != stack[..top][j])
              && GuardedOn(stack[..top], pushed[..top]) == Guarded(sourceOf) - {stack[top]}
      ensures Guarded(sourceOf - {stack[|stack| - 1]}) == Guarded(sourceOf) - {stack[|stack| - 1]}
    {
      var top := |stack| - 1;
      GuardedOnSnoc(stack[..top], pushed[..top], stack[top], pushed[top]);
      assert stack == stack[..top] + [stack[top]] && pushed == pushed[..top] + [pushed[top]];
      TopIsAlone();
    }

    lemma TopIsAlone()
      requires Valid() && stack != []
      ensures stack[|stack| - 1] !in GuardedOn(stack[..|stack| - 1], pushed[..|stack| - 1])
      ensures |stack| == 1 ==> GuardedOn(stack[..0], pushed[..0]) == {}
      ensures |stack| > 1 ==> CaresAboutSource(pushed[|stack| - 1])
    {
    }

    lemma EmptyIsUnguarded()
      requires Valid()
      ensures stack == [] ==> Guarded(sourceOf) == {}
    {
    }

    /** The stack never holds more than every endpoint once from a guarded source, and one from another. */
    lemma DepthBound(all: set<EndpointId>)
      requires Valid() && forall i :: 0 <= i < |stack| ==> stack[i] in all
      ensures |stack| <= |all| + 1
    {
      if |stack| > 0 {
        var rest := stack[1..];
        Distinct(rest, all);
      }
    }
  }

  /** A list without repetitions is no longer than a set it is drawn from. */
  lemma {:induction false} Distinct(s: seq<EndpointId>, all: set<EndpointId>)
    requires forall i :: 0 <= i < |s| ==> s[i] in all
    requires forall i, j :: 0 <= i < j < |s| ==> s[i] != s[j]
    ensures |s| <= |all|
  {
    if s != [] {
      var rest := all - {s[0]};
      assert |rest| == |all| - 1;
      Distinct(s[1..], rest);
    }
  }

  // ---------------------------------------------------------------- set commands

  /** A connection node: the endpoints that hold its two texts, and its switch. */
  datatype Connection = Connection(source: EndpointId, target: EndpointId, switch: Option<EndpointId>)

  /** A set command that some node's logic issues. */
  datatype Reaction = Reaction(target: EndpointId, value: Option<Value>, byScript: bool)

  /** What the notification sink is told: who was set, from where, and what it holds then. */
  datatype Notification = Notification(endpoint: EndpointId, source: Source, value: Option<Value>)

  type State = map<EndpointId, Value>

  /** What a sink knows that keeps the last value it was told of each endpoint. */
  function Replayed(values: State, heard: seq<Notification>): State {
    if heard == [] then values
    else
      var before := Replayed(values, heard[..|heard| - 1]);
      var last := heard[|heard| - 1];
      if last.value.Some? then before[last.endpoint := last.value.value] else before
  }

  lemma {:induction false} ReplayedConcat(values: State, a: seq<Notification>, b: seq<Notification>)
    ensures Replayed(values, a + b) == Replayed(Replayed(values, a), b)
  {
    if b == [] {
      assert a + b == a;
    } else {
      var init := b[..|b| - 1];
      assert (a + b)[..|a + b| - 1] == a + init;
      ReplayedConcat(values, a, init);
    }
  }

  /** An endpoint that the sink has not heard of holds what it held. */
  lemma {:induction false} UnheardIsKept(values: State, heard: seq<Notification>, e: EndpointId)
    requires forall i :: 0 <= i < |heard| ==> heard[i].endpoint != e
    ensures e in Replayed(values, heard) <==> e in values
    ensures e in values ==> Replayed(values, heard)[e] == values[e]
  {
    if heard != [] {
      UnheardIsKept(values, heard[..|heard| - 1], e);
    }
  }

  /** What a stretch of a cascade comes to: the values it leaves, and what the sink has heard. */
  datatype Outcome = Outcome(values: State, heard: seq<Notification>)
  {
    function Then(next: Outcome): Outcome {
      Outcome(next.values, heard + next.heard)
    }
  }

  lemma ThenIs(o: Outcome, next: Outcome)
    ensures o.Then(next).heard == o.heard + next.heard && o.Then(next).values == next.values
  {
  }

  /** The sink has heard of every change since `before`, and only of guarded sets, of endpoints that are
      not in `guarded`. */
  ghost predicate Follows(o: Outcome, before: State, guarded: set<EndpointId>) {
    && o.values == Replayed(before, o.heard)
    && forall i :: 0 <= i < |o.heard| ==> CaresAboutSource(o.heard[i].source) && o.heard[i].endpoint !in guarded
  }

  lemma NothingFollows(before: State, guarded: set<EndpointId>)
    ensures Follows(Outcome(before, []), before, guarded)
  {
  }

  lemma ThenFollows(o: Outcome, next: Outcome, before: State, guarded: set<EndpointId>)
    requires Follows(o, before, guarded) && Follows(next, o.values, guarded)
    ensures Follows(o.Then(next), before, guarded)
  {
    ReplayedConcat(before, o.heard, next.heard);
  }

  /** A first notification, and then what follows while more is guarded. */
  lemma FollowsFirst(o: Outcome, before: State, mid: State, guarded: set<EndpointId>, more: set<EndpointId>)
    requires o.heard != [] && guarded <= more && Follows(Outcome(o.values, o.heard[1..]), mid, more)
    requires mid == (if o.heard[0].value.Some? then before[o.heard[0].endpoint := o.heard[0].value.value] else before)
    ensures o.values == Replayed(before, o.heard)
    ensures CaresAboutSource(o.heard[0].source) && o.heard[0].endpoint !in guarded ==> Follows(o, before, guarded)
  {
    var first := o.heard[..1];
    assert first[..0] == [];
    assert Replayed(before, first) == mid;
    assert o.heard == first + o.heard[1..];
    ReplayedConcat(before, first, o.heard[1..]);
    forall i | 0 < i < |o.heard| ensures CaresAboutSource(o.heard[i].source) && o.heard[i].endpoint !in more {
      assert o.heard[i] == o.heard[1..][i - 1];
    }
  }

  /** The guarded endpoints while `e` is being set. */
  ghost function WithSource(guarded: set<EndpointId>, e: EndpointId, source: Source): set<EndpointId> {
    if CaresAboutSource(source) then guarded + {e} else guarded
  }

  lemma WithSourceIs(guarded: set<EndpointId>, e: EndpointId, source: Source)
    ensures WithSource(guarded, e, source) == guarded + if CaresAboutSource(source) then {e} else {}
    ensures (CaresAboutSource(source) && e !in guarded) || (!CaresAboutSource(source) && guarded == {}) ==>
              WithSource(guarded, e, source) - {e} == guarded
  {
  }

  /** What logic and connections set comes from guarded sources. */
  lemma ReactionsAreGuarded()
    ensures CaresAboutSource(SYSTEM) && CaresAboutSource(SCRIPT) && CaresAboutSource(CONNECTION)
  {
  }

  lemma FewerLeft(all: set<EndpointId>, guarded: set<EndpointId>, e: EndpointId, source: Source)
    requires e in all && (CaresAboutSource(source) ==> e !in guarded)
    ensures CaresAboutSource(source) ==> all - WithSource(guarded, e, source) < all - guarded
    ensures !CaresAboutSource(source) ==> WithSource(guarded, e, source) == guarded
  {
    assert CaresAboutSource(source) ==> e in all - guarded;
  }

  /** What a cascade changes, as it is at a moment. */
  datatype Moment = Moment(stack: seq<EndpointId>, pushed: seq<Source>, guarded: set<EndpointId>, values: State, notifications: seq<Notification>)
  {
    /** What has been done since comes to `o`, and the checker is as it was. */
    predicate Since(before: Moment, o: Outcome) {
      && stack == before.stack && pushed == before.pushed && guarded == before.guarded
      && values == o.values && notifications == before.notifications + o.heard
    }
  }

  lemma NothingSince(now: Moment)
    ensures now.Since(now, Outcome(now.values, []))
  {
  }

  lemma SinceParts(now: Moment, before: Moment, o: Outcome)
    requires now.Since(before, o)
    ensures now.stack == before.stack && now.pushed == before.pushed && now.guarded == before.guarded
    ensures now.values == o.values && now.notifications == before.notifications + o.heard
  {
  }

  lemma MakeSince(now: Moment, before: Moment, o: Outcome)
    requires now.stack == before.stack && now.pushed == before.pushed && now.guarded == before.guarded
    requires now.values == o.values && now.notifications == before.notifications + o.heard
    ensures now.Since(before, o)
  {
  }

  lemma SinceThen(now: Moment, mid: Moment, before: Moment, o: Outcome, next: Outcome)
    requires mid.Since(before, o) && now.Since(mid, next)
    ensures now.Since(before, o.Then(next))
  {
  }

  /** What some logic does when an endpoint has been set: step by step, looking at the values of the
      moment, it may issue a set command. */
  type Logic = (EndpointId, Source, nat, State) -> Option<Reaction>

  /** The tree as set commands see it, which does not change while a cascade runs: the endpoints, the
      connection nodes among the children of each node (of none, at the top), and for each endpoint the
      steps that any node's logic takes before connections are looked at, and those of its own behind. */
  datatype Net = Net(
    definitions: map<EndpointId, Definition>, paths: map<EndpointId, Path>, byPath: map<string, EndpointId>,
    connectionsAt: map<Path, seq<Connection>>,
    baseSteps: EndpointId -> nat, baseLogic: Logic, steps: EndpointId -> nat, logic: Logic, texts: Texts)
  {
    predicate IsStateful(e: EndpointId) {
      e in definitions && definitions[e].control.Stateful?
    }

    ghost predicate HoldsType(e: EndpointId, t: ValueType) {
      IsStateful(e) && definitions[e].control.info.valueType == t
    }

    /** Interfaces make sense: switches are integers, and the texts of connections are texts. */
    ghost predicate Wired() {
      && (forall e :: IsStateful(e) ==> definitions[e].control.info.Valid())
      && (forall e :: e in definitions && definitions[e].switch.Some? ==> HoldsType(definitions[e].switch.value, INTEGER))
      && (forall e :: e in definitions ==> e in paths && |paths[e]| > 1)
      && (forall scope, i :: scope in connectionsAt && 0 <= i < |connectionsAt[scope]| ==>
            && HoldsType(connectionsAt[scope][i].source, STRING) && HoldsType(connectionsAt[scope][i].target, STRING)
            && (connectionsAt[scope][i].switch.Some? ==> HoldsType(connectionsAt[scope][i].switch.value, INTEGER)))
      && (forall k :: k in byPath ==> byPath[k] in definitions)
    }

    /** The connections among the siblings of the node at `q`. */
    function SiblingsAt(q: Path): seq<Connection>
      requires q != []
    {
      if Init(q) in connectionsAt then connectionsAt[Init(q)] else []
    }

    /** Every stateful endpoint holds a value of its type. */
    ghost predicate Typed(v: State)
      requires Wired()
    {
      && (forall e :: e in v <==> IsStateful(e))
      && (forall e :: e in v ==> v[e].Type() == definitions[e].control.info.valueType)
    }

    /** The endpoints that hold a value that breaks their constraint. */
    ghost function Unsafe(v: State): set<EndpointId>
      requires Wired() && Typed(v)
    {
      set e | e in v && !definitions[e].control.info.Satisfied(v[e])
    }

    predicate Accepts(d: Definition, value: Option<Value>) {
      match d.control
      case Stream => false
      case Bang => value.None?
      case Stateful(info) => value.Some? && TypeFits(value.value, info.valueType)
    }

    predicate IsActive(switch: Option<EndpointId>, v: State) {
      switch.Some? && switch.value in v && v[switch.value].IntegerValue? ==> v[switch.value].i != 0
    }

    /** Sets from the module host to inactive nodes are ignored. */
    predicate Ignored(v: State, e: EndpointId, source: Source)
      requires e in definitions
    {
      source == MODULE_IMPLEMENTATION && !IsActive(definitions[e].switch, v)
    }

    /** The value an accepted set command stores. */
    function Stored(e: EndpointId, value: Option<Value>): Option<Value>
      requires e in definitions && Accepts(definitions[e], value)
    {
      if value.None? then None else Some(Converted(value.value, definitions[e].control.info.valueType, texts))
    }

    predicate BreaksConstraint(e: EndpointId, value: Option<Value>)
      requires Wired() && e in definitions && Accepts(definitions[e], value)
    {
      value.Some? && !definitions[e].control.info.Satisfied(Stored(e, value).value)
    }

    /** The endpoint that the connection `c` at `scope` leads to from `e`, if it is on, starts at `e`, and may. */
    function Destination(v: State, e: EndpointId, scope: Path, c: Connection): (d: Option<EndpointId>)
      requires Wired() && Typed(v) && e in definitions && |scope| <= |paths[e]|
      requires HoldsType(c.source, STRING) && HoldsType(c.target, STRING)
      ensures d.Some? ==> d.value in definitions
    {
      if !IsActive(c.switch, v) || v[c.source] != StringValue(Join(paths[e][|scope|..])) || !definitions[e].canBeSource then None
      else
        var key := LookupKey(scope, Parse(v[c.target].s));
        if key !in byPath then None
        else
          var d := byPath[key];
          if definitions[d].control.Stream? || !definitions[d].canBeTarget then None else Some(d)
    }

    /** What goes along a connection from `e` to `d`; from a bang, what `d` holds anyway. */
    function Carried(v: State, e: EndpointId, d: EndpointId): Option<Value>
      requires Wired() && Typed(v) && e in definitions && d in definitions
    {
      if !definitions[d].control.Stateful? then None
      else if e in v then Some(Converted(v[e], v[d].Type(), texts))
      else Some(v[d])
    }

    // -------------------------------------------------------------- what a cascade comes to
    //
    // Said with a set of guarded endpoints that is handed down, in place of a stack and a map that are
    // pushed and popped.

    /** How a set command ends, while the endpoints in `guarded` are being set. */
    ghost function Verdict(guarded: set<EndpointId>, v: State, e: EndpointId, value: Option<Value>, source: Source): SetError
      requires Wired()
    {
      if e !in definitions then PATH_ERROR
      else if !Accepts(definitions[e], value) then TYPE_ERROR
      else if Ignored(v, e, source) then SUCCESS
      else if BreaksConstraint(e, value) then CONSTRAINT_ERROR
      else if CaresAboutSource(source) && e in guarded then REENTRANCE_ERROR
      else SUCCESS
    }

    ghost predicate Goes(guarded: set<EndpointId>, v: State, e: EndpointId, value: Option<Value>, source: Source)
      requires Wired()
    {
      Verdict(guarded, v, e, value, source) == SUCCESS && !Ignored(v, e, source)
    }

    ghost function After(v: State, e: EndpointId, value: Option<Value>): (w: State)
      requires Wired() && Typed(v) && e in definitions && Accepts(definitions[e], value) && !BreaksConstraint(e, value)
      ensures Typed(w) && Unsafe(w) == Unsafe(v) - {e}
    {
      if value.Some? then v[e := Stored(e, value).value] else v
    }

    /** A set command and all that it sets off. */
    ghost function SetTo(guarded: set<EndpointId>, v: State, e: EndpointId, value: Option<Value>, source: Source): (o: Outcome)
      requires Wired() && Typed(v) && (CaresAboutSource(source) || guarded == {})
      ensures Typed(o.values) && Unsafe(o.values) <= Unsafe(v) && o.values == Replayed(v, o.heard)
      ensures Goes(guarded, v, e, value, source) ==> e !in Unsafe(o.values)
      ensures CaresAboutSource(source) ==> Follows(o, v, guarded)
      ensures Goes(guarded, v, e, value, source) ==> o.heard != [] && o.heard[0] == Notification(e, source, Stored(e, value))
      ensures !Goes(guarded, v, e, value, source) ==> o == Outcome(v, [])
      decreases definitions.Keys - guarded, if CaresAboutSource(source) then 0 else 2, 0, 0, 0
    {
      if !Goes(guarded, v, e, value, source) then Outcome(v, [])
      else
        FewerLeft(definitions.Keys, guarded, e, source);
        var o := Performed(WithSource(guarded, e, source), v, e, value, source);
        FollowsFirst(o, v, After(v, e, value), guarded, WithSource(guarded, e, source));
        o
    }

    /** Storing the value, telling the sink, and what the logic makes of it. */
    ghost function Performed(guarded: set<EndpointId>, v: State, e: EndpointId, value: Option<Value>, source: Source): (o: Outcome)
      requires Wired() && Typed(v) && e in definitions && Accepts(definitions[e], value) && !BreaksConstraint(e, value)
      ensures Typed(o.values) && Unsafe(o.values) <= Unsafe(v) - {e}
      ensures o.heard != [] && o.heard[0] == Notification(e, source, Stored(e, value))
      ensures Follows(Outcome(o.values, o.heard[1..]), After(v, e, value), guarded)
      decreases definitions.Keys - guarded, 1, 2, 0, 0
    {
      Outcome(After(v, e, value), [Notification(e, source, Stored(e, value))])
      .Then(Reacted(guarded, After(v, e, value), e, source, steps(e)))
    }

    /** The first `n` steps that any node's logic takes before connections are looked at. */
    ghost function Prepared(guarded: set<EndpointId>, v: State, e: EndpointId, source: Source, n: nat): (o: Outcome)
      requires Wired() && Typed(v) && e in definitions
      ensures Typed(o.values) && Unsafe(o.values) <= Unsafe(v) && Follows(o, v, guarded)
      decreases definitions.Keys - guarded, 1, 0, 0, n
    {
      NothingFollows(v, guarded);
      if n == 0 then Outcome(v, [])
      else
        var o := Prepared(guarded, v, e, source, n - 1);
        match baseLogic(e, source, n - 1, o.values)
        case None => o
        case Some(r) =>
          var next := SetTo(guarded, o.values, r.target, r.value, if r.byScript then SCRIPT else SYSTEM);
          ThenFollows(o, next, v, guarded);
          o.Then(next)
    }

    /** Those steps, what goes along the connections, and then the first `n` steps of the node's own logic. */
    ghost function Reacted(guarded: set<EndpointId>, v: State, e: EndpointId, source: Source, n: nat): (o: Outcome)
      requires Wired() && Typed(v) && e in definitions
      ensures Typed(o.values) && Unsafe(o.values) <= Unsafe(v) && Follows(o, v, guarded)
      decreases definitions.Keys - guarded, 1, 1, 0, n
    {
      if n == 0 then
        var o := Prepared(guarded, v, e, source, baseSteps(e));
        if source == INITIALIZATION || source == LOAD then o
        else
          var next := Sent(guarded, o.values, e, Init(paths[e]), |SiblingsAt(Init(paths[e]))|);
          ThenFollows(o, next, v, guarded);
          o.Then(next)
      else
        var o := Reacted(guarded, v, e, source, n - 1);
        match logic(e, source, n - 1, o.values)
        case None => o
        case Some(r) =>
          var next := SetTo(guarded, o.values, r.target, r.value, if r.byScript then SCRIPT else SYSTEM);
          ThenFollows(o, next, v, guarded);
          o.Then(next)
    }

    /** What goes along the connections of the scopes above that of the node at `q`, the outermost first,
        and then along the first `n` among its siblings. */
    ghost function Sent(guarded: set<EndpointId>, v: State, e: EndpointId, q: Path, n: nat): (o: Outcome)
      requires Wired() && Typed(v) && e in definitions && q != [] && q < paths[e] && n <= |SiblingsAt(q)|
      ensures Typed(o.values) && Unsafe(o.values) <= Unsafe(v) && Follows(o, v, guarded)
      decreases definitions.Keys - guarded, 1, 0, |q|, n
    {
      NothingFollows(v, guarded);
      if n == 0 then
        if |q| == 1 then Outcome(v, []) else Sent(guarded, v, e, Init(q), |SiblingsAt(Init(q))|)
      else
        var o := Sent(guarded, v, e, q, n - 1);
        match Destination(o.values, e, Init(q), SiblingsAt(q)[n - 1])
        case None => o
        case Some(d) =>
          var next := SetTo(guarded, o.values, d, Carried(o.values, e, d), CONNECTION);
          ThenFollows(o, next, v, guarded);
          o.Then(next)
    }

    // -------------------------------------------------------------- the parts of these

    lemma WiredAt(e: EndpointId)
      requires Wired() && e in definitions
      ensures e in paths && |paths[e]| > 1 && Init(paths[e]) != [] && Init(paths[e]) < paths[e]
    {
    }

    lemma SiblingsHold(q: Path, i: nat)
      requires Wired() && q != [] && i < |SiblingsAt(q)|
      ensures HoldsType(SiblingsAt(q)[i].source, STRING) && HoldsType(SiblingsAt(q)[i].target, STRING)
    {
    }

    lemma SettledIs(guarded: set<EndpointId>, v: State, e: EndpointId, value: Option<Value>, source: Source)
      requires Wired() && Typed(v) && (CaresAboutSource(source) || guarded == {})
      ensures Verdict(guarded, v, e, value, source) != SUCCESS || (e in definitions && Ignored(v, e, source)) ==>
                SetTo(guarded, v, e, value, source) == Outcome(v, [])
    {
    }

    lemma EnteredIs(guarded: set<EndpointId>, v: State, e: EndpointId, value: Option<Value>, source: Source)
      requires Wired() && Typed(v) && (CaresAboutSource(source) || guarded == {})
      requires e in definitions && Accepts(definitions[e], value) && !BreaksConstraint(e, value) && !Ignored(v, e, source)
      ensures Verdict(guarded, v, e, value, source) == if CaresAboutSource(source) && e in guarded then REENTRANCE_ERROR else SUCCESS
      ensures SetTo(guarded, v, e, value, source) ==
              if CaresAboutSource(source) && e in guarded then Outcome(v, []) else Performed(WithSource(guarded, e, source), v, e, value, source)
    {
    }

    lemma PerformedIs(guarded: set<EndpointId>, v: State, e: EndpointId, value: Option<Value>, source: Source)
      requires Wired() && Typed(v) && e in definitions && Accepts(definitions[e], value) && !BreaksConstraint(e, value)
      ensures value.Some? ==> e in v && After(v, e, value) == v[e := Converted(value.value, v[e].Type(), texts)]
      ensures value.None? ==> After(v, e, value) == v
      ensures Performed(guarded, v, e, value, source) ==
              Outcome(After(v, e, value), [Notification(e, source, Stored(e, value))])
              .Then(Reacted(guarded, After(v, e, value), e, source, steps(e)))
    {
    }

    lemma PreparedNext(guarded: set<EndpointId>, v: State, e: EndpointId, source: Source, n: nat, o: Outcome)
      requires Wired() && Typed(v) && e in definitions && o == Prepared(guarded, v, e, source, n)
      ensures Prepared(guarded, v, e, source, 0) == Outcome(v, [])
      ensures Prepared(guarded, v, e, source, n + 1) ==
              match baseLogic(e, source, n, o.values)
              case None => o
              case Some(r) => o.Then(SetTo(guarded, o.values, r.target, r.value, if r.byScript then SCRIPT else SYSTEM))
    {
    }

    lemma ReactedFirst(guarded: set<EndpointId>, v: State, e: EndpointId, source: Source)
      requires Wired() && Typed(v) && e in definitions
      requires e in paths && |paths[e]| > 1 && Init(paths[e]) != [] && Init(paths[e]) < paths[e]
      ensures var o := Prepared(guarded, v, e, source, baseSteps(e));
              Reacted(guarded, v, e, source, 0) ==
              if source == INITIALIZATION || source == LOAD then o
              else o.Then(Sent(guarded, o.values, e, Init(paths[e]), |SiblingsAt(Init(paths[e]))|))
    {
    }

    lemma ReactedNext(guarded: set<EndpointId>, v: State, e: EndpointId, source: Source, n: nat, o: Outcome)
      requires Wired() && Typed(v) && e in definitions && o == Reacted(guarded, v, e, source, n)
      ensures Reacted(guarded, v, e, source, n + 1) ==
              match logic(e, source, n, o.values)
              case None => o
              case Some(r) => o.Then(SetTo(guarded, o.values, r.target, r.value, if r.byScript then SCRIPT else SYSTEM))
    {
    }

    lemma SentFirst(guarded: set<EndpointId>, v: State, e: EndpointId, q: Path)
      requires Wired() && Typed(v) && e in definitions && e in paths && q != [] && q < paths[e]
      ensures |q| > 1 ==> Init(q) != [] && Init(q) < paths[e]
      ensures Sent(guarded, v, e, q, 0) ==
              if |q| == 1 then Outcome(v, []) else Sent(guarded, v, e, Init(q), |SiblingsAt(Init(q))|)
    {
    }

    lemma SentNext(guarded: set<EndpointId>, v: State, e: EndpointId, q: Path, n: nat, o: Outcome)
      requires Wired() && Typed(v) && e in definitions && e in paths && q != [] && q < paths[e] && n < |SiblingsAt(q)|
      requires HoldsType(SiblingsAt(q)[n].source, STRING) && HoldsType(SiblingsAt(q)[n].target, STRING)
      requires o == Sent(guarded, v, e, q, n)
      ensures Sent(guarded, v, e, q, n + 1) ==
              match Destination(o.values, e, Init(q), SiblingsAt(q)[n])
              case None => o
              case Some(d) => o.Then(SetTo(guarded, o.values, d, Carried(o.values, e, d), CONNECTION))
    {
    }

    // -------------------------------------------------------------- connections

    /** What goes along a connection is of the destination's type, so that only its constraint or a
        reentry can keep it out; and what a bang sends a stateful endpoint breaks the constraint only
        if what that holds does. */
    lemma CarriedIsAccepted(guarded: set<EndpointId>, v: State, e: EndpointId, scope: Path, c: Connection)
      requires Wired() && Typed(v) && e in definitions && |scope| <= |paths[e]|
      requires HoldsType(c.source, STRING) && HoldsType(c.target, STRING)
      requires Destination(v, e, scope, c).Some?
      ensures var d := Destination(v, e, scope, c).value;
              && Accepts(definitions[d], Carried(v, e, d))
              && (e !in v ==> (BreaksConstraint(d, Carried(v, e, d)) <==> d in Unsafe(v)))
              && Verdict(guarded, v, d, Carried(v, e, d), CONNECTION) ==
                   if BreaksConstraint(d, Carried(v, e, d)) then CONSTRAINT_ERROR
                   else if d in guarded then REENTRANCE_ERROR
                   else SUCCESS
    {
    }

    /** One connection more: nothing has been forgotten, and if it leads on, its set command comes next. */
    lemma SentStep(guarded: set<EndpointId>, v: State, e: EndpointId, q: Path, i: nat)
      requires Wired() && Typed(v) && e in definitions && e in paths && q != [] && q < paths[e] && i < |SiblingsAt(q)|
      requires HoldsType(SiblingsAt(q)[i].source, STRING) && HoldsType(SiblingsAt(q)[i].target, STRING)
      ensures Sent(guarded, v, e, q, i).heard <= Sent(guarded, v, e, q, i + 1).heard
      ensures var mid := Sent(guarded, v, e, q, i);
              var d := Destination(mid.values, e, Init(q), SiblingsAt(q)[i]);
              d.Some? ==>
                Sent(guarded, v, e, q, i + 1).heard ==
                mid.heard + SetTo(guarded, mid.values, d.value, Carried(mid.values, e, d.value), CONNECTION).heard
    {
      hide *;
      ReactionsAreGuarded();
      InitIsShorter(q);
      var mid := Sent(guarded, v, e, q, i);
      SentNext(guarded, v, e, q, i, mid);
      var destination := Destination(mid.values, e, Init(q), SiblingsAt(q)[i]);
      if destination.Some? {
        var next := SetTo(guarded, mid.values, destination.value, Carried(mid.values, e, destination.value), CONNECTION);
        ThenIs(mid, next);
      }
    }

    lemma {:induction false} SentGrows(guarded: set<EndpointId>, v: State, e: EndpointId, q: Path, i: nat, n: nat)
      requires Wired() && Typed(v) && e in definitions && e in paths && q != [] && q < paths[e] && i <= n <= |SiblingsAt(q)|
      ensures Sent(guarded, v, e, q, i).heard <= Sent(guarded, v, e, q, n).heard
      decreases n
    {
      hide *;
      if i < n {
        SentGrows(guarded, v, e, q, i, n - 1);
        SiblingsHold(q, n - 1);
        SentStep(guarded, v, e, q, n - 1);
      }
    }

    /** What has been heard at the scope of a node is heard before what goes on below. */
    lemma {:induction false} SentAbove(guarded: set<EndpointId>, v: State, e: EndpointId, q: Path, r: Path)
      requires Wired() && Typed(v) && e in definitions && e in paths && q != [] && q <= r < paths[e]
      ensures Sent(guarded, v, e, q, |SiblingsAt(q)|).heard <= Sent(guarded, v, e, r, |SiblingsAt(r)|).heard
      decreases |r|
    {
      hide *;
      if q < r {
        InitBetween(q, r);
        SentFirst(guarded, v, e, r);
        SentAbove(guarded, v, e, q, Init(r));
        SentGrows(guarded, v, e, r, 0, |SiblingsAt(r)|);
      } else {
        assert q == r;
      }
    }

    lemma DestinationIsSet(guarded: set<EndpointId>, v: State, e: EndpointId, q: Path, i: nat)
      requires Wired() && Typed(v) && e in definitions && e in paths && q != [] && q <= Init(paths[e]) && i < |SiblingsAt(q)|
      requires |paths[e]| > 1 && Init(paths[e]) != [] && Init(paths[e]) < paths[e]
      requires HoldsType(SiblingsAt(q)[i].source, STRING) && HoldsType(SiblingsAt(q)[i].target, STRING)
      ensures var mid := Sent(guarded, v, e, q, i);
              var heard := Sent(guarded, v, e, Init(paths[e]), |SiblingsAt(Init(paths[e]))|).heard;
              var d := Destination(mid.values, e, Init(q), SiblingsAt(q)[i]);
              d.Some? && d.value !in guarded && Accepts(definitions[d.value], Carried(mid.values, e, d.value))
                && !BreaksConstraint(d.value, Carried(mid.values, e, d.value)) ==>
                |mid.heard| < |heard|
                && heard[|mid.heard|] == Notification(d.value, CONNECTION, Stored(d.value, Carried(mid.values, e, d.value)))
    {
      hide *;
      ReactionsAreGuarded();
      InitIsShorter(q);
      SentStep(guarded, v, e, q, i);
      SentGrows(guarded, v, e, q, i + 1, |SiblingsAt(q)|);
      SentAbove(guarded, v, e, q, Init(paths[e]));
      var mid := Sent(guarded, v, e, q, i);
      var destination := Destination(mid.values, e, Init(q), SiblingsAt(q)[i]);
      if destination.Some? {
        var d := destination.value;
        if d !in guarded && Accepts(definitions[d], Carried(mid.values, e, d)) && !BreaksConstraint(d, Carried(mid.values, e, d)) {
          SetGoes(guarded, mid.values, d, Carried(mid.values, e, d), CONNECTION);
        }
      }
    }

    // -------------------------------------------------------------- what that means, case by case

    /** A connection leads from `e` to `d` exactly if its switch, if it has one, is not off, its source is
        the relative path of `e`, which may be a source, and its target is found and may be a target. */
    lemma DestinationMeans(v: State, e: EndpointId, scope: Path, c: Connection, d: EndpointId)
      requires Wired() && Typed(v) && e in definitions && |scope| <= |paths[e]|
      requires HoldsType(c.source, STRING) && HoldsType(c.target, STRING) && (c.switch.Some? ==> HoldsType(c.switch.value, INTEGER))
      ensures Destination(v, e, scope, c) == Some(d) <==>
                && (c.switch.Some? ==> v[c.switch.value] != IntegerValue(0))
                && v[c.source] == StringValue(Join(paths[e][|scope|..])) && definitions[e].canBeSource
                && LookupKey(scope, Parse(v[c.target].s)) in byPath && byPath[LookupKey(scope, Parse(v[c.target].s))] == d
                && !definitions[d].control.Stream? && definitions[d].canBeTarget
    {
    }

    /** The connection `c` at `scope` is on, starts at `e`, which may be a source, and ends at `d`, which may
        be a target. */
    ghost predicate Joins(now: State, e: EndpointId, scope: Path, c: Connection, d: EndpointId)
      requires Wired() && Typed(now) && e in definitions && |scope| <= |paths[e]|
      requires HoldsType(c.source, STRING) && HoldsType(c.target, STRING) && (c.switch.Some? ==> HoldsType(c.switch.value, INTEGER))
    {
      && (c.switch.Some? ==> now[c.switch.value] != IntegerValue(0))
      && now[c.source] == StringValue(Join(paths[e][|scope|..])) && definitions[e].canBeSource
      && LookupKey(scope, Parse(now[c.target].s)) in byPath && byPath[LookupKey(scope, Parse(now[c.target].s))] == d
      && !definitions[d].control.Stream? && definitions[d].canBeTarget
    }

    /** What is to arrive at `d` is `y`, which its constraint lets be: nothing at a bang; of a stateful endpoint
        `e` what it holds, as a number of the type of `d` or as its text; and of a bang what `d` holds. */
    ghost predicate Brings(now: State, e: EndpointId, d: EndpointId, y: Option<Value>)
      requires Wired() && Typed(now) && e in definitions && d in definitions
    {
      match definitions[d].control
      case Stream => false
      case Bang => y == None
      case Stateful(info) =>
        && y.Some? && y.value.Type() == info.valueType && Permits(d, y.value)
        && if e in now then Arrives(now[e], info.valueType, y.value) else y.value == now[d]
    }

    /** What goes along it: nothing to a bang, what a stateful destination holds from a bang, and else what
        `e` holds, as a number of the destination's type or as its text. */
    lemma CarriedMeans(v: State, e: EndpointId, d: EndpointId)
      requires Wired() && Typed(v) && e in definitions && d in definitions
      ensures !definitions[d].control.Stateful? ==> Carried(v, e, d) == None
      ensures definitions[d].control.Stateful? && e !in v ==> Carried(v, e, d) == Some(v[d])
      ensures definitions[d].control.Stateful? && e in v ==>
                Carried(v, e, d).Some? && Arrives(v[e], definitions[d].control.info.valueType, Carried(v, e, d).value)
    {
      if definitions[d].control.Stateful? && e in v {
        ConversionMeans(v[e], definitions[d].control.info.valueType, texts);
      }
    }

    /** `y` is what arrives of `x` where values are of the type `t`. */
    ghost predicate Arrives(x: Value, t: ValueType, y: Value) {
      y.Type() == t &&
      match x
      case IntegerValue(i) => (t == INTEGER ==> y.i == i) && (t == FLOAT ==> y.r == i as real) && (t == STRING ==> y.s == texts.printInteger(i))
      case FloatValue(r) =>
        && (t == FLOAT ==> y.r == r) && (t == STRING ==> y.s == texts.printFloat(r))
        && (t == INTEGER ==> if r >= 0.0 then y.i as real <= r < y.i as real + 1.0 else y.i as real - 1.0 < r <= y.i as real)
      case StringValue(s) => (t == STRING ==> y.s == s) && (t == INTEGER ==> y.i == texts.readInteger(s)) && (t == FLOAT ==> y.r == texts.readFloat(s))
    }

    lemma OneArrives(x: Value, t: ValueType, y: Value, z: Value)
      requires Arrives(x, t, y) && Arrives(x, t, z)
      ensures y == z
    {
    }

    /** The constraint of the stateful endpoint `d` lets `y` be. */
    ghost predicate Permits(d: EndpointId, y: Value)
      requires Wired() && IsStateful(d) && y.Type() == definitions[d].control.info.valueType
    {
      match definitions[d].control.info.constraint
      case Allowed(states) => y in states
      case Range(minimum, maximum) =>
        match y
        case StringValue(s) => minimum.i <= |s| <= maximum.i
        case IntegerValue(i) => minimum.i <= i <= maximum.i
        case FloatValue(r) => minimum.r <= r <= maximum.r
    }

    /** The value is of a kind that the endpoint takes: a stream takes nothing, a bang nothing else, and a
        stateful endpoint numbers for numbers and texts for texts. */
    ghost predicate Takes(d: Definition, value: Option<Value>) {
      match d.control
      case Stream => false
      case Bang => value.None?
      case Stateful(info) => value.Some? && if info.valueType == STRING then value.value.StringValue? else !value.value.StringValue?
    }

    lemma AcceptsMeans(v: State, e: EndpointId, value: Option<Value>, source: Source)
      requires Wired() && Typed(v) && e in definitions
      ensures Accepts(definitions[e], value) <==> Takes(definitions[e], value)
      ensures Ignored(v, e, source) <==>
                source == MODULE_IMPLEMENTATION && definitions[e].switch.Some? && v[definitions[e].switch.value] == IntegerValue(0)
    {
    }

    lemma BreakingMeans(e: EndpointId, value: Option<Value>, y: Value)
      requires Wired() && e in definitions && Accepts(definitions[e], value) && value.Some?
      requires definitions[e].control.Stateful? && Arrives(value.value, definitions[e].control.info.valueType, y)
      ensures Stored(e, value) == Some(y) && (BreaksConstraint(e, value) <==> !Permits(e, y))
    {
      var t := definitions[e].control.info.valueType;
      ConversionMeans(value.value, t, texts);
      OneArrives(value.value, t, y, Converted(value.value, t, texts));
      SatisfiedMeans(definitions[e].control.info, y);
    }

    /** How a set command ends: the endpoint must be there and take the value; what a module sends to a node
        that is off is ignored; the constraint must let be what arrives, `y`; and system, connections and
        scripts must not set what is being set by them. */
    lemma VerdictMeans(guarded: set<EndpointId>, v: State, e: EndpointId, value: Option<Value>, source: Source, y: Value)
      requires Wired() && Typed(v)
      requires e in definitions && definitions[e].control.Stateful? && value.Some? ==>
                 Arrives(value.value, definitions[e].control.info.valueType, y)
      ensures Verdict(guarded, v, e, value, source) ==
                if e !in definitions then PATH_ERROR
                else if !Takes(definitions[e], value) then TYPE_ERROR
                else if source == MODULE_IMPLEMENTATION && definitions[e].switch.Some? && v[definitions[e].switch.value] == IntegerValue(0) then SUCCESS
                else if value.Some? && !Permits(e, y) then CONSTRAINT_ERROR
                else if (source == SYSTEM || source == CONNECTION || source == SCRIPT) && e in guarded then REENTRANCE_ERROR
                else SUCCESS
    {
      if e in definitions {
        AcceptsMeans(v, e, value, source);
        if Accepts(definitions[e], value) && value.Some? {
          BreakingMeans(e, value, y);
        }
      }
      hide Permits, Arrives, Accepts, Takes, Ignored, BreaksConstraint;
    }

    // -------------------------------------------------------------- whole cascades

    /** How much has been heard of the cascade when the connection at `i` at the scope of `q` gets its turn. */
    ghost function TurnOf(guarded: set<EndpointId>, v: State, e: EndpointId, value: Option<Value>, source: Source, q: Path, i: nat): nat
      requires Wired() && Typed(v) && (CaresAboutSource(source) || guarded == {}) && Goes(guarded, v, e, value, source)
      requires q != [] && q <= Init(paths[e]) && i <= |SiblingsAt(q)|
    {
      WiredAt(e);
      var g, a := WithSource(guarded, e, source), After(v, e, value);
      var p := Prepared(g, a, e, source, baseSteps(e));
      1 + |p.heard| + |Sent(g, p.values, e, q, i).heard|
    }

    lemma {:induction false} ReactedGrows(guarded: set<EndpointId>, v: State, e: EndpointId, source: Source, i: nat, n: nat)
      requires Wired() && Typed(v) && e in definitions && i <= n
      ensures Reacted(guarded, v, e, source, i).heard <= Reacted(guarded, v, e, source, n).heard
      decreases n
    {
      hide *;
      ReactionsAreGuarded();
      if i < n {
        ReactedGrows(guarded, v, e, source, i, n - 1);
        var o := Reacted(guarded, v, e, source, n - 1);
        ReactedNext(guarded, v, e, source, n - 1, o);
        var step := logic(e, source, n - 1, o.values);
        if step.Some? {
          var r := step.value;
          ThenIs(o, SetTo(guarded, o.values, r.target, r.value, if r.byScript then SCRIPT else SYSTEM));
        }
      }
    }

    lemma FollowsIs(o: Outcome, before: State, guarded: set<EndpointId>)
      requires Follows(o, before, guarded)
      ensures o.values == Replayed(before, o.heard)
    {
    }

    /** A cascade begins with its own notification, and what its first steps and its connections do. */
    lemma CascadeBegins(guarded: set<EndpointId>, v: State, e: EndpointId, value: Option<Value>, source: Source)
      requires Wired() && Typed(v) && (CaresAboutSource(source) || guarded == {}) && Goes(guarded, v, e, value, source)
      requires source != INITIALIZATION && source != LOAD && e in paths && |paths[e]| > 1 && Init(paths[e]) != [] && Init(paths[e]) < paths[e]
      ensures var g, a := WithSource(guarded, e, source), After(v, e, value);
              var p := Prepared(g, a, e, source, baseSteps(e));
              var first := [Notification(e, source, Stored(e, value))];
              && first + p.heard + Sent(g, p.values, e, Init(paths[e]), |SiblingsAt(Init(paths[e]))|).heard
                   <= SetTo(guarded, v, e, value, source).heard
              && p.values == Replayed(v, first + p.heard)
    {
      hide *;
      GoesIs(guarded, v, e, value, source);
      var g, a := WithSource(guarded, e, source), After(v, e, value);
      var p := Prepared(g, a, e, source, baseSteps(e));
      var first := [Notification(e, source, Stored(e, value))];
      EnteredIs(guarded, v, e, value, source);
      PerformedIs(g, v, e, value, source);
      ThenIs(Outcome(a, first), Reacted(g, a, e, source, steps(e)));
      ReactedGrows(g, a, e, source, 0, steps(e));
      ReactedFirst(g, a, e, source);
      ThenIs(p, Sent(g, p.values, e, Init(paths[e]), |SiblingsAt(Init(paths[e]))|));
      FollowsIs(p, a, g);
      FirstReplayed(v, e, value, source);
      ReplayedConcat(v, first, p.heard);
      Regrouped(first, p.heard, Sent(g, p.values, e, Init(paths[e]), |SiblingsAt(Init(paths[e]))|).heard);
      PrefixBehind(first, Reacted(g, a, e, source, 0).heard, Reacted(g, a, e, source, steps(e)).heard);
    }

    lemma GoesIs(guarded: set<EndpointId>, v: State, e: EndpointId, value: Option<Value>, source: Source)
      requires Wired() && Goes(guarded, v, e, value, source)
      ensures e in definitions && Accepts(definitions[e], value) && !BreaksConstraint(e, value) && !Ignored(v, e, source)
      ensures !(CaresAboutSource(source) && e in guarded)
    {
    }

    lemma FirstReplayed(v: State, e: EndpointId, value: Option<Value>, source: Source)
      requires Wired() && Typed(v) && e in definitions && Accepts(definitions[e], value) && !BreaksConstraint(e, value)
      ensures Replayed(v, [Notification(e, source, Stored(e, value))]) == After(v, e, value)
    {
      var first := [Notification(e, source, Stored(e, value))];
      assert first[..0] == [];
    }

    /** A set command hands its value on.  When the connection at `i` gets its turn, and, as things stand
        then, leads to `d`, which is not being set, and what is to arrive there is `y`, which the constraint
        of `d` lets be, the next thing heard is that `d` was set to just that. */
    lemma ConnectionIsHeard(guarded: set<EndpointId>, v: State, e: EndpointId, value: Option<Value>, source: Source,
                            q: Path, i: nat, d: EndpointId, y: Option<Value>)
      requires Wired() && Typed(v) && (CaresAboutSource(source) || guarded == {}) && Goes(guarded, v, e, value, source)
      requires source != INITIALIZATION && source != LOAD
      requires HoldsAt(q, i) && q != [] && q <= Init(paths[e])
      ensures var heard, k := SetTo(guarded, v, e, value, source).heard, TurnOf(guarded, v, e, value, source, q, i);
              && k <= |heard| && Typed(Replayed(v, heard[..k]))
              && (Joins(Replayed(v, heard[..k]), e, Init(q), connectionsAt[Init(q)][i], d)
                  && d !in guarded && (d == e ==> source != SYSTEM && source != CONNECTION && source != SCRIPT)
                  && Brings(Replayed(v, heard[..k]), e, d, y)
                  ==> k < |heard| && heard[k] == Notification(d, CONNECTION, y))
    {
      hide *;
      GoesIs(guarded, v, e, value, source);
      WiredAt(e);
      InitIsShorter(q);
      HoldsAtIs(q, i);
      AtTurn(guarded, v, e, value, source, q, i);
      WithSourceIs(guarded, e, source);
      GuardedSources(source);
      var g, a := WithSource(guarded, e, source), After(v, e, value);
      var p := Prepared(g, a, e, source, baseSteps(e));
      ConnectionFires(g, p.values, e, q, i, d, y);
    }

    /** The connections at the scope of `q` hold what connections do. */
    ghost predicate HoldsAt(q: Path, i: nat) {
      && q != [] && Init(q) in connectionsAt && i < |connectionsAt[Init(q)]|
      && var c := connectionsAt[Init(q)][i];
         HoldsType(c.source, STRING) && HoldsType(c.target, STRING) && (c.switch.Some? ==> HoldsType(c.switch.value, INTEGER))
    }

    lemma HoldsAtIs(q: Path, i: nat)
      requires HoldsAt(q, i)
      ensures q != [] && Init(q) in connectionsAt && i < |connectionsAt[Init(q)]| && SiblingsAt(q) == connectionsAt[Init(q)]
      ensures HoldsType(connectionsAt[Init(q)][i].source, STRING) && HoldsType(connectionsAt[Init(q)][i].target, STRING)
      ensures connectionsAt[Init(q)][i].switch.Some? ==> HoldsType(connectionsAt[Init(q)][i].switch.value, INTEGER)
    {
    }

    /** Every connection does. */
    lemma AllHold(q: Path, i: nat)
      requires Wired()
      ensures HoldsAt(q, i) <==> q != [] && Init(q) in connectionsAt && i < |connectionsAt[Init(q)]|
    {
    }

    /** No connection is passed over, at any scope around the endpoint: one that joins it to an endpoint that
        is not being set, and brings a value that the constraint lets be, sets it to that, which is heard
        right after what the connections before it did. */
    lemma ConnectionFires(guarded: set<EndpointId>, v: State, e: EndpointId, q: Path, i: nat, d: EndpointId, y: Option<Value>)
      requires Wired() && Typed(v) && e in definitions && e in paths && q != [] && q <= Init(paths[e]) && HoldsAt(q, i)
      requires |paths[e]| > 1 && Init(paths[e]) != [] && Init(paths[e]) < paths[e] && i < |SiblingsAt(q)|
      ensures var mid, all := Sent(guarded, v, e, q, i), Sent(guarded, v, e, Init(paths[e]), |SiblingsAt(Init(paths[e]))|);
              Joins(mid.values, e, Init(q), connectionsAt[Init(q)][i], d) && Brings(mid.values, e, d, y) && d !in guarded ==>
                |mid.heard| < |all.heard| && all.heard[|mid.heard|] == Notification(d, CONNECTION, y)
    {
      hide *;
      InitIsShorter(q);
      HoldsAtIs(q, i);
      DestinationIsSet(guarded, v, e, q, i);
      var mid := Sent(guarded, v, e, q, i);
      if Joins(mid.values, e, Init(q), connectionsAt[Init(q)][i], d) {
        JoinsIs(mid.values, e, Init(q), connectionsAt[Init(q)][i], d);
        if Brings(mid.values, e, d, y) {
          ArrivalGoes(mid.values, e, d, y);
        }
      }
    }

    lemma JoinsIs(now: State, e: EndpointId, scope: Path, c: Connection, d: EndpointId)
      requires Wired() && Typed(now) && e in definitions && |scope| <= |paths[e]|
      requires HoldsType(c.source, STRING) && HoldsType(c.target, STRING) && (c.switch.Some? ==> HoldsType(c.switch.value, INTEGER))
      ensures Joins(now, e, scope, c, d) <==> Destination(now, e, scope, c) == Some(d)
      ensures Joins(now, e, scope, c, d) ==> d in definitions
    {
      DestinationMeans(now, e, scope, c, d);
    }

    /** How things stand when a connection gets its turn, and what is heard next. */
    lemma AtTurn(guarded: set<EndpointId>, v: State, e: EndpointId, value: Option<Value>, source: Source, q: Path, i: nat)
      requires Wired() && Typed(v) && (CaresAboutSource(source) || guarded == {}) && Goes(guarded, v, e, value, source)
      requires source != INITIALIZATION && source != LOAD && e in paths && |paths[e]| > 1 && Init(paths[e]) < paths[e] && Init(paths[e]) != []
      requires q != [] && q <= Init(paths[e]) && i <= |SiblingsAt(q)|
      ensures var heard, k := SetTo(guarded, v, e, value, source).heard, TurnOf(guarded, v, e, value, source, q, i);
              var g, a := WithSource(guarded, e, source), After(v, e, value);
              var p := Prepared(g, a, e, source, baseSteps(e));
              var mid, all := Sent(g, p.values, e, q, i), Sent(g, p.values, e, Init(paths[e]), |SiblingsAt(Init(paths[e]))|);
              && k <= |heard| && Replayed(v, heard[..k]) == mid.values
              && (|mid.heard| < |all.heard| ==> k < |heard| && heard[k] == all.heard[|mid.heard|])
    {
      hide *;
      GoesIs(guarded, v, e, value, source);
      CascadeBegins(guarded, v, e, value, source);
      var g, a := WithSource(guarded, e, source), After(v, e, value);
      var p := Prepared(g, a, e, source, baseSteps(e));
      var first := [Notification(e, source, Stored(e, value))];
      var all, mid := Sent(g, p.values, e, Init(paths[e]), |SiblingsAt(Init(paths[e]))|), Sent(g, p.values, e, q, i);
      TurnIs(guarded, v, e, value, source, q, i);
      SentGrows(g, p.values, e, q, i, |SiblingsAt(q)|);
      SentAbove(g, p.values, e, q, Init(paths[e]));
      FollowsIs(mid, p.values, g);
      ReplayedSoFar(v, first, p, mid, all, SetTo(guarded, v, e, value, source).heard);
    }

    lemma TurnIs(guarded: set<EndpointId>, v: State, e: EndpointId, value: Option<Value>, source: Source, q: Path, i: nat)
      requires Wired() && Typed(v) && (CaresAboutSource(source) || guarded == {}) && Goes(guarded, v, e, value, source)
      requires q != [] && q <= Init(paths[e]) && i <= |SiblingsAt(q)| && q < paths[e]
      ensures var g, a := WithSource(guarded, e, source), After(v, e, value);
              var p := Prepared(g, a, e, source, baseSteps(e));
              TurnOf(guarded, v, e, value, source, q, i) == 1 + |p.heard| + |Sent(g, p.values, e, q, i).heard|
    {
    }

    /** What arrives is taken: it is of the right type, and what is stored is what arrived. */
    lemma ArrivalGoes(v: State, e: EndpointId, d: EndpointId, y: Option<Value>)
      requires Wired() && Typed(v) && e in definitions && d in definitions && Brings(v, e, d, y)
      ensures Carried(v, e, d) == y && Accepts(definitions[d], y) && Stored(d, y) == y && !BreaksConstraint(d, y)
    {
      CarriedMeans(v, e, d);
      if definitions[d].control.Stateful? {
        if e in v {
          OneArrives(v[e], definitions[d].control.info.valueType, y.value, Carried(v, e, d).value);
        }
        SatisfiedMeans(definitions[d].control.info, y.value);
      }
    }

    /** Outer scopes have their turns first, and at a scope the connections in order. */
    lemma TurnsInOrder(guarded: set<EndpointId>, v: State, e: EndpointId, value: Option<Value>, source: Source,
                       q: Path, i: nat, r: Path, j: nat)
      requires Wired() && Typed(v) && (CaresAboutSource(source) || guarded == {}) && Goes(guarded, v, e, value, source)
      requires q != [] && q <= r <= Init(paths[e]) && i <= |SiblingsAt(q)| && j <= |SiblingsAt(r)| && (q == r ==> i <= j)
      ensures TurnOf(guarded, v, e, value, source, q, i) <= TurnOf(guarded, v, e, value, source, r, j)
    {
      hide *;
      GoesIs(guarded, v, e, value, source);
      WiredAt(e);
      TurnIs(guarded, v, e, value, source, q, i);
      TurnIs(guarded, v, e, value, source, r, j);
      var g, a := WithSource(guarded, e, source), After(v, e, value);
      var p := Prepared(g, a, e, source, baseSteps(e));
      if q == r {
        SentGrows(g, p.values, e, q, i, j);
      } else {
        InitBetween(q, r);
        SentGrows(g, p.values, e, q, i, |SiblingsAt(q)|);
        SentAbove(g, p.values, e, q, Init(r));
        SentFirst(g, p.values, e, r);
        InitIsShorter(r);
        SentGrows(g, p.values, e, r, 0, j);
      }
    }

    /** A connection that leads nowhere does nothing. */
    lemma NothingFires(guarded: set<EndpointId>, v: State, e: EndpointId, value: Option<Value>, source: Source, q: Path, i: nat)
      requires Wired() && Typed(v) && (CaresAboutSource(source) || guarded == {}) && Goes(guarded, v, e, value, source)
      requires source != INITIALIZATION && source != LOAD
      requires HoldsAt(q, i) && q != [] && q <= Init(paths[e])
      ensures var heard, k := SetTo(guarded, v, e, value, source).heard, TurnOf(guarded, v, e, value, source, q, i);
              && k <= |heard| && Typed(Replayed(v, heard[..k]))
              && ((forall d :: !Joins(Replayed(v, heard[..k]), e, Init(q), connectionsAt[Init(q)][i], d))
                  ==> TurnOf(guarded, v, e, value, source, q, i + 1) == k)
    {
      hide *;
      GoesIs(guarded, v, e, value, source);
      WiredAt(e);
      InitIsShorter(q);
      HoldsAtIs(q, i);
      AtTurn(guarded, v, e, value, source, q, i);
      var g, a := WithSource(guarded, e, source), After(v, e, value);
      var p := Prepared(g, a, e, source, baseSteps(e));
      var mid, c := Sent(g, p.values, e, q, i), connectionsAt[Init(q)][i];
      TurnIs(guarded, v, e, value, source, q, i);
      TurnIs(guarded, v, e, value, source, q, i + 1);
      SentNext(g, p.values, e, q, i, mid);
      var destination := Destination(mid.values, e, Init(q), c);
      if destination.Some? {
        JoinsIs(mid.values, e, Init(q), c, destination.value);
      }
    }

    /** How much has been heard when the node's own logic takes its step `i`. */
    ghost function StepTurn(guarded: set<EndpointId>, v: State, e: EndpointId, value: Option<Value>, source: Source, i: nat): nat
      requires Wired() && Typed(v) && (CaresAboutSource(source) || guarded == {}) && Goes(guarded, v, e, value, source)
    {
      1 + |Reacted(WithSource(guarded, e, source), After(v, e, value), e, source, i).heard|
    }

    /** No step of the node's own logic is passed over either: what it issues, as things stand at its turn, is
        performed next, if it goes, and otherwise nothing is heard. */
    lemma StepIsHeard(guarded: set<EndpointId>, v: State, e: EndpointId, value: Option<Value>, source: Source, i: nat)
      requires Wired() && Typed(v) && (CaresAboutSource(source) || guarded == {}) && Goes(guarded, v, e, value, source) && i < steps(e)
      ensures var heard, k := SetTo(guarded, v, e, value, source).heard, StepTurn(guarded, v, e, value, source, i);
              k <= |heard| && Typed(Replayed(v, heard[..k])) &&
              var g, step := WithSource(guarded, e, source), logic(e, source, i, Replayed(v, heard[..k]));
              && (step.None? ==> StepTurn(guarded, v, e, value, source, i + 1) == k)
              && (step.Some? ==>
                    var r, from := step.value, if step.value.byScript then SCRIPT else SYSTEM;
                    && (Verdict(g, Replayed(v, heard[..k]), r.target, r.value, from) == SUCCESS ==>
                          r.target in definitions && Accepts(definitions[r.target], r.value)
                          && k < |heard| && heard[k] == Notification(r.target, from, Stored(r.target, r.value)))
                    && (Verdict(g, Replayed(v, heard[..k]), r.target, r.value, from) != SUCCESS ==>
                          StepTurn(guarded, v, e, value, source, i + 1) == k))
    {
      hide *;
      GoesIs(guarded, v, e, value, source);
      ReactionsAreGuarded();
      var g, a := WithSource(guarded, e, source), After(v, e, value);
      var first := [Notification(e, source, Stored(e, value))];
      var mid, next, all := Reacted(g, a, e, source, i), Reacted(g, a, e, source, i + 1), Reacted(g, a, e, source, steps(e));
      EnteredIs(guarded, v, e, value, source);
      PerformedIs(g, v, e, value, source);
      ThenIs(Outcome(a, first), all);
      ReactedGrows(g, a, e, source, i, i + 1);
      ReactedGrows(g, a, e, source, i + 1, steps(e));
      FirstReplayed(v, e, value, source);
      FollowsIs(mid, a, g);
      StepTurnIs(guarded, v, e, value, source, i);
      StepTurnIs(guarded, v, e, value, source, i + 1);
      NothingHeard(v, first, a, mid, all);
      ReactedNext(g, a, e, source, i, mid);
      var step := logic(e, source, i, mid.values);
      if step.Some? {
        var r, from := step.value, if step.value.byScript then SCRIPT else SYSTEM;
        var o := SetTo(g, mid.values, r.target, r.value, from);
        ThenIs(mid, o);
        ReactionGoes(g, mid.values, r.target, r.value, from);
        if o.heard != [] {
          FirstOfNext(mid.heard, o.heard, all.heard);
        }
      }
    }

    lemma StepTurnIs(guarded: set<EndpointId>, v: State, e: EndpointId, value: Option<Value>, source: Source, i: nat)
      requires Wired() && Typed(v) && (CaresAboutSource(source) || guarded == {}) && Goes(guarded, v, e, value, source)
      requires e in definitions && Accepts(definitions[e], value) && !BreaksConstraint(e, value)
      ensures StepTurn(guarded, v, e, value, source, i) == 1 + |Reacted(WithSource(guarded, e, source), After(v, e, value), e, source, i).heard|
    {
    }

    lemma ReactionGoes(guarded: set<EndpointId>, v: State, e: EndpointId, value: Option<Value>, source: Source)
      requires Wired() && Typed(v) && CaresAboutSource(source)
      ensures var o := SetTo(guarded, v, e, value, source);
              && (Verdict(guarded, v, e, value, source) == SUCCESS ==>
                    && e in definitions && Accepts(definitions[e], value)
                    && o.heard != [] && o.heard[0] == Notification(e, source, Stored(e, value)))
              && (Verdict(guarded, v, e, value, source) != SUCCESS ==> o == Outcome(v, []))
    {
      assert !Goes(guarded, v, e, value, source) ==> Verdict(guarded, v, e, value, source) != SUCCESS;
    }

    lemma {:induction false} PreparedGrows(guarded: set<EndpointId>, v: State, e: EndpointId, source: Source, i: nat, n: nat)
      requires Wired() && Typed(v) && e in definitions && i <= n
      ensures Prepared(guarded, v, e, source, i).heard <= Prepared(guarded, v, e, source, n).heard
      decreases n
    {
      hide *;
      ReactionsAreGuarded();
      if i < n {
        PreparedGrows(guarded, v, e, source, i, n - 1);
        var o := Prepared(guarded, v, e, source, n - 1);
        PreparedNext(guarded, v, e, source, n - 1, o);
        var step := baseLogic(e, source, n - 1, o.values);
        if step.Some? {
          var r := step.value;
          ThenIs(o, SetTo(guarded, o.values, r.target, r.value, if r.byScript then SCRIPT else SYSTEM));
        }
      }
    }

    /** How much has been heard when any node's logic takes its step `i`. */
    ghost function BaseTurn(guarded: set<EndpointId>, v: State, e: EndpointId, value: Option<Value>, source: Source, i: nat): nat
      requires Wired() && Typed(v) && (CaresAboutSource(source) || guarded == {}) && Goes(guarded, v, e, value, source)
    {
      1 + |Prepared(WithSource(guarded, e, source), After(v, e, value), e, source, i).heard|
    }

    /** The same for the steps that any node's logic takes first. */
    lemma BaseStepIsHeard(guarded: set<EndpointId>, v: State, e: EndpointId, value: Option<Value>, source: Source, i: nat)
      requires Wired() && Typed(v) && (CaresAboutSource(source) || guarded == {}) && Goes(guarded, v, e, value, source) && i < baseSteps(e)
      ensures var heard, k := SetTo(guarded, v, e, value, source).heard, BaseTurn(guarded, v, e, value, source, i);
              k <= |heard| && Typed(Replayed(v, heard[..k])) &&
              var g, step := WithSource(guarded, e, source), baseLogic(e, source, i, Replayed(v, heard[..k]));
              && (step.None? ==> BaseTurn(guarded, v, e, value, source, i + 1) == k)
              && (step.Some? ==>
                    var r, from := step.value, if step.value.byScript then SCRIPT else SYSTEM;
                    && (Verdict(g, Replayed(v, heard[..k]), r.target, r.value, from) == SUCCESS ==>
                          r.target in definitions && Accepts(definitions[r.target], r.value)
                          && k < |heard| && heard[k] == Notification(r.target, from, Stored(r.target, r.value)))
                    && (Verdict(g, Replayed(v, heard[..k]), r.target, r.value, from) != SUCCESS ==>
                          BaseTurn(guarded, v, e, value, source, i + 1) == k))
    {
      hide *;
      GoesIs(guarded, v, e, value, source);
      WiredAt(e);
      ReactionsAreGuarded();
      var g, a := WithSource(guarded, e, source), After(v, e, value);
      var first := [Notification(e, source, Stored(e, value))];
      var mid, next, all := Prepared(g, a, e, source, i), Prepared(g, a, e, source, i + 1), Reacted(g, a, e, source, steps(e));
      EnteredIs(guarded, v, e, value, source);
      PerformedIs(g, v, e, value, source);
      ThenIs(Outcome(a, first), all);
      PreparedGrows(g, a, e, source, i, i + 1);
      PreparedGrows(g, a, e, source, i + 1, baseSteps(e));
      PreparedComesFirst(g, a, e, source);
      FirstReplayed(v, e, value, source);
      FollowsIs(mid, a, g);
      BaseTurnIs(guarded, v, e, value, source, i);
      BaseTurnIs(guarded, v, e, value, source, i + 1);
      NothingHeard(v, first, a, mid, all);
      PreparedNext(g, a, e, source, i, mid);
      var step := baseLogic(e, source, i, mid.values);
      if step.Some? {
        var r, from := step.value, if step.value.byScript then SCRIPT else SYSTEM;
        var o := SetTo(g, mid.values, r.target, r.value, from);
        ThenIs(mid, o);
        ReactionGoes(g, mid.values, r.target, r.value, from);
        if o.heard != [] {
          FirstOfNext(mid.heard, o.heard, all.heard);
        }
      }
    }

    lemma BaseTurnIs(guarded: set<EndpointId>, v: State, e: EndpointId, value: Option<Value>, source: Source, i: nat)
      requires Wired() && Typed(v) && (CaresAboutSource(source) || guarded == {}) && Goes(guarded, v, e, value, source)
      requires e in definitions && Accepts(definitions[e], value) && !BreaksConstraint(e, value)
      ensures BaseTurn(guarded, v, e, value, source, i) == 1 + |Prepared(WithSource(guarded, e, source), After(v, e, value), e, source, i).heard|
    {
    }

    lemma PreparedComesFirst(guarded: set<EndpointId>, v: State, e: EndpointId, source: Source)
      requires Wired() && Typed(v) && e in definitions
      requires e in paths && |paths[e]| > 1 && Init(paths[e]) != [] && Init(paths[e]) < paths[e]
      ensures Prepared(guarded, v, e, source, baseSteps(e)).heard <= Reacted(guarded, v, e, source, steps(e)).heard
    {
      hide *;
      var p := Prepared(guarded, v, e, source, baseSteps(e));
      ReactedFirst(guarded, v, e, source);
      ReactedGrows(guarded, v, e, source, 0, steps(e));
      if source != INITIALIZATION && source != LOAD {
        ThenIs(p, Sent(guarded, p.values, e, Init(paths[e]), |SiblingsAt(Init(paths[e]))|));
      }
    }

    /** Connections have their turns between the two. */
    lemma ConnectionsFirst(guarded: set<EndpointId>, v: State, e: EndpointId, value: Option<Value>, source: Source, q: Path, i: nat, j: nat)
      requires Wired() && Typed(v) && (CaresAboutSource(source) || guarded == {}) && Goes(guarded, v, e, value, source)
      requires source != INITIALIZATION && source != LOAD
      requires q != [] && q <= Init(paths[e]) && i <= |SiblingsAt(q)|
      ensures BaseTurn(guarded, v, e, value, source, baseSteps(e)) <= TurnOf(guarded, v, e, value, source, q, i)
      ensures TurnOf(guarded, v, e, value, source, q, i) <= StepTurn(guarded, v, e, value, source, j)
    {
      hide *;
      GoesIs(guarded, v, e, value, source);
      WiredAt(e);
      var g, a := WithSource(guarded, e, source), After(v, e, value);
      var p := Prepared(g, a, e, source, baseSteps(e));
      TurnIs(guarded, v, e, value, source, q, i);
      StepTurnIs(guarded, v, e, value, source, j);
      BaseTurnIs(guarded, v, e, value, source, baseSteps(e));
      SentGrows(g, p.values, e, q, i, |SiblingsAt(q)|);
      SentAbove(g, p.values, e, q, Init(paths[e]));
      ReactedFirst(g, a, e, source);
      ThenIs(p, Sent(g, p.values, e, Init(paths[e]), |SiblingsAt(Init(paths[e]))|));
      ReactedGrows(g, a, e, source, 0, j);
    }

    lemma SetGoes(guarded: set<EndpointId>, v: State, e: EndpointId, value: Option<Value>, source: Source)
      requires Wired() && Typed(v) && CaresAboutSource(source) && e !in guarded
      requires e in definitions && Accepts(definitions[e], value) && !BreaksConstraint(e, value)
      ensures source == CONNECTION ==>
                var o := SetTo(guarded, v, e, value, source);
                o.heard != [] && o.heard[0] == Notification(e, source, Stored(e, value))
    {
      assert source == CONNECTION ==> Goes(guarded, v, e, value, source);
    }

    // -------------------------------------------------------------- new endpoints

    /** The default of a stateful endpoint meets its constraint. */
    ghost predicate DefaultFits(e: EndpointId)
      requires Wired() && IsStateful(e)
    {
      definitions[e].control.info.Satisfied(definitions[e].control.info.initial)
    }

    /** Setting a stateful endpoint to its default goes exactly if the default meets the constraint. */
    lemma DefaultGoes(v: State, e: EndpointId)
      requires Wired() && Typed(v) && IsStateful(e)
      ensures var value := Some(definitions[e].control.info.initial);
              && (Verdict({}, v, e, value, INITIALIZATION) == SUCCESS <==> DefaultFits(e))
              && (DefaultFits(e) ==> Unsafe(SetTo({}, v, e, value, INITIALIZATION).values) <= Unsafe(v) - {e})
              && (!DefaultFits(e) ==> SetTo({}, v, e, value, INITIALIZATION) == Outcome(v, []))
    {
      var value := Some(definitions[e].control.info.initial);
      assert Accepts(definitions[e], value) && Stored(e, value) == value;
      assert Goes({}, v, e, value, INITIALIZATION) <==> DefaultFits(e);
    }

    lemma UnsafeAreStateful(v: State)
      requires Wired() && Typed(v)
      ensures forall e :: e in Unsafe(v) ==> IsStateful(e)
    {
    }

    /** The definitions of what is in both nets are the same. */
    ghost predicate Agrees(other: Net) {
      forall e :: e in definitions && e in other.definitions ==> definitions[e] == other.definitions[e]
    }

    /** The values in this net, of the endpoints of another one: what is new holds nothing yet. */
    function Carry(v: State): State {
      map e | e in definitions && definitions[e].control.Stateful? ::
        if e in v then v[e] else Zero(definitions[e].control.info.valueType)
    }

    /** What was there keeps its value, and what is new holds zero or nothing. */
    lemma CarryMeans(v: State, e: EndpointId)
      ensures e in Carry(v) <==> e in definitions && definitions[e].control.Stateful?
      ensures e in Carry(v) && e in v ==> Carry(v)[e] == v[e]
      ensures e in Carry(v) && e !in v ==>
                match definitions[e].control.info.valueType
                case INTEGER => Carry(v)[e] == IntegerValue(0)
                case FLOAT => Carry(v)[e] == FloatValue(0.0)
                case STRING => Carry(v)[e] == StringValue("")
    {
    }

    lemma CarriedOver(before: Net, v: State)
      requires Wired() && before.Wired() && before.Agrees(this) && before.Typed(v)
      ensures Typed(Carry(v))
      ensures Unsafe(Carry(v)) <= before.Unsafe(v) + (definitions.Keys - before.definitions.Keys)
    {
    }
  }

  lemma GuardedSources(source: Source)
    ensures CaresAboutSource(source) <==> source == SYSTEM || source == CONNECTION || source == SCRIPT
  {
  }

  lemma Regrouped(a: seq<Notification>, b: seq<Notification>, c: seq<Notification>)
    ensures a + (b + c) == a + b + c
  {
  }

  lemma PrefixBehind(a: seq<Notification>, b: seq<Notification>, c: seq<Notification>)
    requires b <= c
    ensures a + b <= a + c
  {
  }

  /** What has been heard up to a point in the middle. */
  lemma HeardSoFar(first: seq<Notification>, p: seq<Notification>, mid: seq<Notification>, all: seq<Notification>, heard: seq<Notification>)
    requires |first| == 1 && mid <= all && first + p + all <= heard
    ensures 1 + |p| + |mid| <= |heard| && heard[..1 + |p| + |mid|] == first + p + mid
    ensures |mid| < |all| ==> 1 + |p| + |mid| < |heard| && heard[1 + |p| + |mid|] == all[|mid|]
  {
    var k := 1 + |p| + |mid|;
    assert (first + p + all)[..k] == first + p + mid;
    assert heard[..k] == (first + p + all)[..k];
  }

  lemma NothingHeard(v: State, first: seq<Notification>, a: State, mid: Outcome, all: Outcome)
    requires |first| == 1 && Replayed(v, first) == a && mid.values == Replayed(a, mid.heard) && mid.heard <= all.heard
    ensures var heard, k := first + all.heard, 1 + |mid.heard|;
            && k <= |heard| && Replayed(v, heard[..k]) == mid.values
            && (|mid.heard| < |all.heard| ==> k < |heard| && heard[k] == all.heard[|mid.heard|])
  {
    ReplayedConcat(v, first, mid.heard);
    assert (first + all.heard)[..1 + |mid.heard|] == first + mid.heard;
  }

  lemma FirstOfNext(mid: seq<Notification>, next: seq<Notification>, all: seq<Notification>)
    requires mid + next <= all && next != []
    ensures |mid| < |all| && all[|mid|] == next[0]
  {
    assert (mid + next)[|mid|] == next[0];
  }

  lemma ReplayedSoFar(v: State, first: seq<Notification>, p: Outcome, mid: Outcome, all: Outcome, heard: seq<Notification>)
    requires |first| == 1 && mid.heard <= all.heard && first + p.heard + all.heard <= heard
    requires p.values == Replayed(v, first + p.heard) && mid.values == Replayed(p.values, mid.heard)
    ensures var k := 1 + |p.heard| + |mid.heard|;
            && k <= |heard| && Replayed(v, heard[..k]) == mid.values
            && (|mid.heard| < |all.heard| ==> k < |heard| && heard[k] == all.heard[|mid.heard|])
  {
    hide *;
    HeardSoFar(first, p.heard, mid.heard, all.heard, heard);
    ReplayedConcat(v, first + p.heard, mid.heard);
  }

  lemma InitIsShorter(q: Path)
    requires q != []
    ensures |Init(q)| == |q| - 1
  {
  }

  lemma InitBetween(q: Path, r: Path)
    requires q != [] && q < r
    ensures Init(r) != [] && q <= Init(r) < r
  {
  }

  class Engine {
    var net: Net
    const checker: ReentranceChecker
    var values: State
    var notifications: seq<Notification>

    constructor (net: Net)
      requires net.Wired() && net.definitions == map[]
      ensures this.net == net && Valid() && values == map[] && notifications == [] && fresh(checker) && checker.stack == []
    {
      this.net, values, notifications := net, map[], [];
      checker := new ReentranceChecker();
    }

    ghost predicate Valid()
      reads this, checker
    {
      && net.Wired() && net.Typed(values) && checker.Valid()
      && (forall i :: 0 <= i < |checker.stack| ==> checker.stack[i] in net.definitions)
      && |checker.stack| <= |net.definitions| + 1
    }

    /** Every stateful endpoint holds a value that satisfies its constraint. */
    ghost predicate Safe()
      requires Valid()
      reads this, checker
    {
      net.Unsafe(values) == {}
    }

    /** What is left to be set from guarded sources. */
    ghost function Free(): set<EndpointId>
      reads `net, checker
    {
      net.definitions.Keys - Guarded(checker.sourceOf)
    }

    ghost function Now(): Moment
      reads this, checker
    {
      Moment(checker.stack, checker.pushed, Guarded(checker.sourceOf), values, notifications)
    }

    lemma NowIs()
      ensures Now() == Moment(checker.stack, checker.pushed, Guarded(checker.sourceOf), values, notifications)
      ensures Free() == net.definitions.Keys - Guarded(checker.sourceOf)
    {
    }

    lemma ValidIs()
      ensures Valid() <==>
                && net.Wired() && net.Typed(values) && checker.Valid()
                && forall i :: 0 <= i < |checker.stack| ==> checker.stack[i] in net.definitions
    {
      if checker.Valid() && forall i :: 0 <= i < |checker.stack| ==> checker.stack[i] in net.definitions {
        checker.DepthBound(net.definitions.Keys);
      }
    }

    method CheckType(d: Definition, value: Option<Value>) returns (ok: bool)
      ensures ok <==> net.Accepts(d, value)
    {
      match d.control
      case Stream =>
        ok := false;
      case Stateful(info) =>
        if value.None? {
          return false;
        }
        if value.value.Type() != info.valueType {
          if (value.value.Type() != INTEGER && value.value.Type() != FLOAT)
             || (info.valueType != INTEGER && info.valueType != FLOAT) {
            return false;
          }
        }
        ok := true;
      case Bang =>
        ok := value.None?;
    }

    /** The tests before a set command touches anything; they may settle it already. */
    method Check(e: EndpointId, value: Option<Value>, source: Source) returns (error: SetError, done: bool)
      requires Valid()
      ensures done ==>
                && error == net.Verdict(Guarded(checker.sourceOf), values, e, value, source)
                && (error == SUCCESS ==> e in net.definitions && net.Ignored(values, e, source))
      ensures !done ==>
                && e in net.definitions && net.Accepts(net.definitions[e], value)
                && !net.BreaksConstraint(e, value) && !net.Ignored(values, e, source)
    {
      if e !in net.definitions {
        return PATH_ERROR, true;
      }
      var d := net.definitions[e];
      var fits := CheckType(d, value);
      if !fits {
        return TYPE_ERROR, true;
      }
      if source == MODULE_IMPLEMENTATION && !net.IsActive(d.switch, values) {
        return SUCCESS, true;
      }
      if value.Some? {
        var ok := TestConstraint(d.control.info, value.value, net.texts);
        if !ok {
          return CONSTRAINT_ERROR, true;
        }
      }
      error, done := SUCCESS, false;
    }

    method Set(e: EndpointId, value: Option<Value>, source: Source) returns (error: SetError)
      requires Valid() && (CaresAboutSource(source) || checker.stack == [])
      modifies `values, `notifications, checker
      ensures Valid()
      ensures old(Guarded(checker.sourceOf) == {}) || CaresAboutSource(source)
      ensures Now().Since(old(Now()), old(net.SetTo(Guarded(checker.sourceOf), values, e, value, source)))
      ensures error == old(net.Verdict(Guarded(checker.sourceOf), values, e, value, source))
      decreases Free(), if CaresAboutSource(source) then 0 else 2, 1, 0
    {
      hide *;
      ValidIs();
      checker.EmptyIsUnguarded();
      NowIs();
      NothingSince(Now());
      net.SettledIs(Guarded(checker.sourceOf), values, e, value, source);
      var done;
      error, done := Check(e, value, source);
      if !done {
        error := Enter(e, value, source);
      }
    }

    /** Performs an acceptable set command, unless that would be a reentry. */
    method Enter(e: EndpointId, value: Option<Value>, source: Source) returns (error: SetError)
      requires Valid() && (CaresAboutSource(source) || checker.stack == [])
      requires e in net.definitions && net.Accepts(net.definitions[e], value)
      requires !net.BreaksConstraint(e, value) && !net.Ignored(values, e, source)
      modifies `values, `notifications, checker
      ensures Valid()
      ensures old(Guarded(checker.sourceOf) == {}) || CaresAboutSource(source)
      ensures Now().Since(old(Now()), old(net.SetTo(Guarded(checker.sourceOf), values, e, value, source)))
      ensures error == old(net.Verdict(Guarded(checker.sourceOf), values, e, value, source))
      decreases Free(), if CaresAboutSource(source) then 0 else 2, 0, 0
    {
      hide *;
      ValidIs();
      checker.EmptyIsUnguarded();
      NowIs();
      NothingSince(Now());
      ghost var before := Now();
      net.EnteredIs(before.guarded, values, e, value, source);
      var reentered := checker.Push(e, source);
      if reentered {
        ValidIs();
        NowIs();
        return REENTRANCE_ERROR;
      }
      FewerLeft(net.definitions.Keys, before.guarded, e, source);
      WithSourceIs(before.guarded, e, source);
      ValidIs();
      NowIs();
      ghost var inside := Now();
      Perform(e, value, source);
      ValidIs();
      NowIs();
      ghost var mid := Now();
      SinceParts(mid, inside, net.Performed(inside.guarded, before.values, e, value, source));
      checker.Pop();
      ValidIs();
      NowIs();
      MakeSince(Now(), before, net.Performed(inside.guarded, before.values, e, value, source));
      error := SUCCESS;
    }

    /** Stores an accepted value, tells the sink, and lets the logic react. */
    method Perform(e: EndpointId, value: Option<Value>, source: Source)
      requires Valid() && e in net.definitions && net.Accepts(net.definitions[e], value) && !net.BreaksConstraint(e, value)
      requires checker.stack != []
      modifies `values, `notifications, checker
      ensures Valid()
      ensures Now().Since(old(Now()), old(net.Performed(Guarded(checker.sourceOf), values, e, value, source)))
      decreases Free(), 1, 3, 0
    {
      hide *;
      ValidIs();
      NowIs();
      ghost var before, first := Now(), Notification(e, source, net.Stored(e, value));
      ghost var after := net.After(values, e, value);
      net.PerformedIs(before.guarded, values, e, value, source);
      if value.Some? {
        values := values[e := Converted(value.value, values[e].Type(), net.texts)];
      }
      notifications := notifications + [Notification(e, source, net.Stored(e, value))];
      ValidIs();
      NowIs();
      ghost var mid := Now();
      MakeSince(mid, before, Outcome(after, [first]));
      HandleSet(e, source);
      SinceThen(Now(), mid, before, Outcome(after, [first]), net.Reacted(before.guarded, after, e, source, net.steps(e)));
    }

    /** What any node's logic does first. */
    method Prepare(e: EndpointId, source: Source)
      requires Valid() && e in net.definitions && checker.stack != []
      modifies `values, `notifications, checker
      ensures Valid()
      ensures Now().Since(old(Now()), old(net.Prepared(Guarded(checker.sourceOf), values, e, source, net.baseSteps(e))))
      decreases Free(), 1, 1, 0
    {
      hide *;
      ValidIs();
      NowIs();
      NothingSince(Now());
      ReactionsAreGuarded();
      ghost var before := Now();
      net.PreparedNext(before.guarded, values, e, source, 0, net.Prepared(before.guarded, values, e, source, 0));
      for i := 0 to net.baseSteps(e)
        invariant Valid() && Now().Since(before, net.Prepared(before.guarded, before.values, e, source, i))
      {
        ValidIs();
        NowIs();
        ghost var mid, o := Now(), net.Prepared(before.guarded, before.values, e, source, i);
        SinceParts(mid, before, o);
        net.PreparedNext(before.guarded, before.values, e, source, i, o);
        var reaction := net.baseLogic(e, source, i, values);
        if reaction.Some? {
          var r := reaction.value;
          var error := Set(r.target, r.value, if r.byScript then SCRIPT else SYSTEM);
          SinceThen(Now(), mid, before, o, net.SetTo(mid.guarded, mid.values, r.target, r.value, if r.byScript then SCRIPT else SYSTEM));
        }
      }
    }

    /** What any node's logic does first, and what goes along the connections. */
    method HandleBase(e: EndpointId, source: Source)
      requires Valid() && e in net.definitions && checker.stack != []
      modifies `values, `notifications, checker
      ensures Valid()
      ensures Now().Since(old(Now()), old(net.Reacted(Guarded(checker.sourceOf), values, e, source, 0)))
      decreases Free(), 1, 1, 1
    {
      hide *;
      ValidIs();
      NowIs();
      net.WiredAt(e);
      ghost var before, o := Now(), net.Prepared(Guarded(checker.sourceOf), values, e, source, net.baseSteps(e));
      net.ReactedFirst(before.guarded, values, e, source);
      Prepare(e, source);
      ValidIs();
      NowIs();
      ghost var mid := Now();
      SinceParts(mid, before, o);
      if source != INITIALIZATION && source != LOAD {
        HandleConnections(e, Init(net.paths[e]));
        SinceThen(Now(), mid, before, o, net.Sent(mid.guarded, mid.values, e, Init(net.paths[e]), |net.SiblingsAt(Init(net.paths[e]))|));
      }
    }

    method HandleSet(e: EndpointId, source: Source)
      requires Valid() && e in net.definitions && checker.stack != []
      modifies `values, `notifications, checker
      ensures Valid()
      ensures Now().Since(old(Now()), old(net.Reacted(Guarded(checker.sourceOf), values, e, source, net.steps(e))))
      decreases Free(), 1, 2, 0
    {
      hide *;
      ValidIs();
      NowIs();
      ReactionsAreGuarded();
      ghost var before := Now();
      HandleBase(e, source);
      for i := 0 to net.steps(e)
        invariant Valid() && Now().Since(before, net.Reacted(before.guarded, before.values, e, source, i))
      {
        ValidIs();
        NowIs();
        ghost var mid, o := Now(), net.Reacted(before.guarded, before.values, e, source, i);
        SinceParts(mid, before, o);
        net.ReactedNext(before.guarded, before.values, e, source, i, o);
        var reaction := net.logic(e, source, i, values);
        if reaction.Some? {
          var r := reaction.value;
          var error := Set(r.target, r.value, if r.byScript then SCRIPT else SYSTEM);
          SinceThen(Now(), mid, before, o, net.SetTo(mid.guarded, mid.values, r.target, r.value, if r.byScript then SCRIPT else SYSTEM));
        }
      }
    }

    /** Sends what `e` holds along the connections that name it: those above the node at `q` first, then
        those among its siblings. */
    method HandleConnections(e: EndpointId, q: Path)
      requires Valid() && e in net.definitions && checker.stack != []
      requires e in net.paths && q != [] && q < net.paths[e]
      modifies `values, `notifications, checker
      ensures Valid()
      ensures Now().Since(old(Now()), old(net.Sent(Guarded(checker.sourceOf), values, e, q, |net.SiblingsAt(q)|)))
      decreases Free(), 1, 0, |q|
    {
      hide *;
      ValidIs();
      NowIs();
      NothingSince(Now());
      ReactionsAreGuarded();
      ghost var before := Now();
      InitIsShorter(q);
      net.SentFirst(before.guarded, values, e, q);
      if |q| > 1 {
        HandleConnections(e, Init(q));
      }
      var siblings := net.SiblingsAt(q);
      for i := 0 to |siblings|
        invariant Valid() && Now().Since(before, net.Sent(before.guarded, before.values, e, q, i))
      {
        ValidIs();
        NowIs();
        ghost var mid, o := Now(), net.Sent(before.guarded, before.values, e, q, i);
        SinceParts(mid, before, o);
        net.SiblingsHold(q, i);
        net.SentNext(before.guarded, before.values, e, q, i, o);
        var destination := net.Destination(values, e, Init(q), siblings[i]);
        if destination.Some? {
          var d := destination.value;
          var error := Set(d, net.Carried(values, e, d), CONNECTION);
          SinceThen(Now(), mid, before, o, net.SetTo(mid.guarded, mid.values, d, net.Carried(mid.values, e, d), CONNECTION));
        }
      }
    }

    // -------------------------------------------------------------- new endpoints

    /** The tree has changed: endpoints may be gone, new ones hold zero or nothing. */
    method Rewire(net': Net)
      requires Valid() && checker.stack == [] && net'.Wired() && net.Agrees(net')
      modifies `net, `values
      ensures Valid() && net == net' && values == net'.Carry(old(values))
      ensures net.Unsafe(values) <= old(net.Unsafe(values)) + (net.definitions.Keys - old(net.definitions.Keys))
    {
      net'.CarriedOver(net, values);
      values := net'.Carry(values);
      net := net';
    }

    /** Sets the stateful ones of some endpoints to their defaults, whatever that sets off. */
    method SetDefaults(es: seq<EndpointId>) returns (ok: bool)
      requires Valid() && checker.stack == [] && forall i :: 0 <= i < |es| ==> es[i] in net.definitions
      modifies `values, `notifications, checker
      ensures Valid() && checker.stack == []
      ensures ok <==> forall i :: 0 <= i < |es| && net.IsStateful(es[i]) ==> net.DefaultFits(es[i])
      ensures net.Unsafe(values) <= old(net.Unsafe(values))
      ensures forall i :: 0 <= i < |es| && net.IsStateful(es[i]) && net.DefaultFits(es[i]) ==> es[i] !in net.Unsafe(values)
    {
      hide *;
      ok := true;
      ValidIs();
      for i := 0 to |es|
        invariant Valid() && checker.stack == [] && net.Wired() && net.Typed(values)
        invariant ok <==> forall j :: 0 <= j < i && net.IsStateful(es[j]) ==> net.DefaultFits(es[j])
        invariant net.Unsafe(values) <= old(net.Unsafe(values))
        invariant forall j :: 0 <= j < i && net.IsStateful(es[j]) && net.DefaultFits(es[j]) ==> es[j] !in net.Unsafe(values)
      {
        StatefulIs(es[i]);
        if net.definitions[es[i]].control.Stateful? {
          NowIs();
          ValidIs();
          checker.EmptyIsUnguarded();
          InitializationIsUnguarded();
          ghost var before := Now();
          net.DefaultGoes(values, es[i]);
          var error := Set(es[i], Some(net.definitions[es[i]].control.info.initial), INITIALIZATION);
          SinceParts(Now(), before, net.SetTo({}, before.values, es[i], Some(net.definitions[es[i]].control.info.initial), INITIALIZATION));
          NowIs();
          ValidIs();
          if error != SUCCESS {
            ok := false;
          }
        }
      }
    }

    lemma StatefulIs(e: EndpointId)
      requires e in net.definitions
      ensures net.IsStateful(e) <==> net.definitions[e].control.Stateful?
    {
    }

    /** Creates the endpoints of a new node, which hold nothing yet, and sets them to their defaults.  When
        all defaults meet their constraints, constraints hold again once that is done. */
    method Create(net': Net, es: seq<EndpointId>) returns (ok: bool)
      requires Valid() && checker.stack == [] && net'.Wired() && net.Agrees(net')
      requires forall e :: e in net'.definitions && e !in net.definitions ==> e in es
      requires forall i :: 0 <= i < |es| ==> es[i] in net'.definitions
      modifies `net, `values, `notifications, checker
      ensures Valid() && checker.stack == [] && net == net'
      ensures ok <==> forall i :: 0 <= i < |es| && net.IsStateful(es[i]) ==> net.DefaultFits(es[i])
      ensures forall e :: e in net.Unsafe(values) ==>
                e in old(net.Unsafe(values)) || (e in es && net.IsStateful(e) && !net.DefaultFits(e))
      ensures ok && old(Safe()) ==> Safe()
    {
      hide *;
      SafeIs();
      ghost var unsafe, known := net.Unsafe(values), net.definitions.Keys;
      ghost var wasSafe := Safe();
      Rewire(net');
      ok := SetDefaults(es);
      ValidIs();
      net.UnsafeAreStateful(values);
      SafeIs();
      assert forall e :: e in net.Unsafe(values) && e !in unsafe ==> e in es;
    }

    lemma SafeIs()
      requires Valid()
      ensures net.Wired() && net.Typed(values)
      ensures Safe() <==> net.Unsafe(values) == {}
    {
    }
  }

  // ---------------------------------------------------------------- runs

  /** What happens to the endpoints: a set command from outside, or a change of the tree, which may make
      the endpoints `es` and set them to their defaults. */
  datatype Operation =
    | SetFrom(e: EndpointId, value: Option<Value>, source: Source)
    | Change(net: Net, es: seq<EndpointId>)

  ghost predicate Fits(net: Net, o: Operation) {
    o.Change? ==>
      && o.net.Wired() && net.Agrees(o.net)
      && (forall e :: e in o.net.definitions && e !in net.definitions ==> e in o.es)
      && (forall i :: 0 <= i < |o.es| ==> o.es[i] in o.net.definitions)
  }

  ghost predicate Legal(net: Net, operations: seq<Operation>)
    decreases |operations|
  {
    operations != [] ==>
      Fits(net, operations[0]) && Legal(if operations[0].Change? then operations[0].net else net, operations[1..])
  }

  /** Only endpoints whose own defaults break their constraints hold values that do. */
  ghost predicate OnlyUnfit(net: Net, v: State)
    requires net.Wired() && net.Typed(v)
  {
    forall e :: e in net.Unsafe(v) ==> net.IsStateful(e) && !net.DefaultFits(e)
  }

  lemma OnlyUnfitOfFewer(net: Net, v: State, before: State)
    requires net.Wired() && net.Typed(v) && net.Typed(before) && net.Unsafe(v) <= net.Unsafe(before) && OnlyUnfit(net, before)
    ensures OnlyUnfit(net, v)
  {
    hide Net.Unsafe, Net.DefaultFits, Net.IsStateful;
  }

  lemma OnlyUnfitWithNew(net: Net, v: State, former: Net, before: State, es: seq<EndpointId>)
    requires net.Wired() && net.Typed(v) && former.Wired() && former.Typed(before) && former.Agrees(net) && OnlyUnfit(former, before)
    requires forall e :: e in net.Unsafe(v) ==>
               e in former.Unsafe(before) || (e in es && net.IsStateful(e) && !net.DefaultFits(e))
    ensures OnlyUnfit(net, v)
  {
    net.UnsafeAreStateful(v);
    forall e | e in net.Unsafe(v) ensures net.IsStateful(e) && !net.DefaultFits(e) {
      if e in former.Unsafe(before) {
        assert former.IsStateful(e) && net.definitions[e] == former.definitions[e];
      }
    }
  }

  lemma LegalNext(net: Net, operations: seq<Operation>)
    requires Legal(net, operations) && operations != []
    ensures Fits(net, operations[0]) && Legal(if operations[0].Change? then operations[0].net else net, operations[1..])
  {
  }

  lemma FitsIs(net: Net, o: Operation)
    requires Fits(net, o) && o.Change?
    ensures o.net.Wired() && net.Agrees(o.net)
    ensures forall e :: e in o.net.definitions && e !in net.definitions ==> e in o.es
    ensures forall i :: 0 <= i < |o.es| ==> o.es[i] in o.net.definitions
  {
  }

  method Perform(engine: Engine, o: Operation)
    requires engine.Valid() && engine.checker.stack == [] && Fits(engine.net, o) && OnlyUnfit(engine.net, engine.values)
    modifies engine, engine.checker
    ensures engine.Valid() && engine.checker.stack == [] && OnlyUnfit(engine.net, engine.values)
    ensures engine.net == if o.Change? then o.net else old(engine.net)
  {
    hide *;
    engine.SafeIs();
    ghost var net, before := engine.net, engine.values;
    match o
    case SetFrom(e, value, source) =>
      engine.ValidIs();
      engine.checker.EmptyIsUnguarded();
      engine.NowIs();
      ghost var now := engine.Now();
      var error := engine.Set(e, value, source);
      SinceParts(engine.Now(), now, net.SetTo({}, before, e, value, source));
      engine.NowIs();
      engine.SafeIs();
      OnlyUnfitOfFewer(net, engine.values, before);
    case Change(next, es) =>
      FitsIs(net, o);
      var ok := engine.Create(next, es);
      engine.SafeIs();
      OnlyUnfitWithNew(next, engine.values, net, before, es);
  }

  /** Whatever is set, created and removed, in whatever order: the values are of the right types, the
      checker is empty, and every stateful endpoint whose default meets its constraint meets it. */
  method Run(net: Net, operations: seq<Operation>) returns (engine: Engine)
    requires net.Wired() && net.definitions == map[] && Legal(net, operations)
    ensures fresh(engine) && engine.Valid() && engine.checker.stack == [] && OnlyUnfit(engine.net, engine.values)
    ensures (forall e :: engine.net.IsStateful(e) ==> engine.net.DefaultFits(e)) ==> engine.Safe()
  {
    hide *;
    engine := new Engine(net);
    NothingUnfit(engine);
    engine.SafeIs();
    assert operations[0..] == operations;
    for i := 0 to |operations|
      invariant fresh(engine) && fresh(engine.checker) && engine.Valid() && engine.checker.stack == []
      invariant engine.net.Wired() && engine.net.Typed(engine.values)
      invariant OnlyUnfit(engine.net, engine.values) && Legal(engine.net, operations[i..])
    {
      LegalNext(engine.net, operations[i..]);
      assert operations[i..][0] == operations[i] && operations[i..][1..] == operations[i + 1..];
      Perform(engine, operations[i]);
      engine.SafeIs();
    }
    SafeIfAllFit(engine);
  }

  lemma NothingUnfit(engine: Engine)
    requires engine.Valid() && engine.values == map[]
    ensures OnlyUnfit(engine.net, engine.values)
  {
  }

  lemma SafeIfAllFit(engine: Engine)
    requires engine.Valid() && OnlyUnfit(engine.net, engine.values)
    ensures (forall e :: engine.net.IsStateful(e) ==> engine.net.DefaultFits(e)) ==> engine.Safe()
  {
    engine.SafeIs();
    hide Net.Unsafe, Net.DefaultFits, Net.IsStateful, Net.Wired, Engine.Valid;
  }

  lemma InitializationIsUnguarded()
    ensures !CaresAboutSource(INITIALIZATION)
  {
  }
}
