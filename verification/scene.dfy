/** The scene bookkeeping: components on entities (src/ec/Component.ts,
    src/ec/Entity.ts), the entity pool of a state (src/core/State.ts) and the state
    switch of the game (src/core/Game.ts). */
module Scene {
  import opened Js
  import opened Geometry

  /** A component's class, standing in for `instanceof`: every component class
      derives directly from `Component`, whose own tag is `ComponentKind`. */
  type Kind = nat

  const ComponentKind: Kind := 0

  /** `comp instanceof c` for a component of class `k`. */
  predicate IsA(k: Kind, c: Kind)
  {
    c == ComponentKind || k == c
  }

  /** Whether some component of `cs` is an instance of `c`. */
  predicate HasKind(cs: seq<Component>, c: Kind)
  {
    exists k :: 0 <= k < |cs| && IsA(cs[k].kind, c)
  }

  /** One call of a lifecycle hook. What an overriding hook does is not modelled;
      the base hooks do nothing. */
  datatype Hook =
    | Started(c: Component)
    | Updated(c: Component, dt: real)
    | Rendered(c: Component)
    | Destroyed(c: Component)

  /** The hook calls made so far, oldest first. */
  class Hooks {
    var log: seq<Hook>

    constructor ()
      ensures log == []
    {
      log := [];
    }

    method Call(h: Hook)
      modifies this
      ensures log == old(log) + [h]
    {
      log := log + [h];
    }
  }

  /** The components in `cs`. */
  function Members(cs: seq<Component>): set<Component>
  {
    set c | c in cs
  }

  /** The components among `cs` that have started. */
  function StartedIn(cs: seq<Component>): set<Component>
    reads set c | c in cs
  {
    set c | c in cs && c.started
  }

  /** The `onStart` calls of a pass over `cs` from `i` on that starts every component
      not yet started, where `s` holds the ones already started. */
  function StartEventsFrom(cs: seq<Component>, i: nat, s: set<Component>): seq<Hook>
    decreases |cs| - i
  {
    if i >= |cs| then []
    else if cs[i] in s then StartEventsFrom(cs, i + 1, s)
    else [Started(cs[i])] + StartEventsFrom(cs, i + 1, s + {cs[i]})
  }

  /** The calls of an update pass over `cs` from `i` on: a component not yet started
      is started first, then every component is updated. */
  function UpdateEventsFrom(cs: seq<Component>, i: nat, s: set<Component>, dt: real): seq<Hook>
    decreases |cs| - i
  {
    if i >= |cs| then []
    else if cs[i] in s then [Updated(cs[i], dt)] + UpdateEventsFrom(cs, i + 1, s, dt)
    else [Started(cs[i]), Updated(cs[i], dt)] + UpdateEventsFrom(cs, i + 1, s + {cs[i]}, dt)
  }

  /** One `onRender` call per component from `i` on. */
  function RenderEventsFrom(cs: seq<Component>, i: nat): seq<Hook>
    decreases |cs| - i
  {
    if i >= |cs| then [] else [Rendered(cs[i])] + RenderEventsFrom(cs, i + 1)
  }

  /** One `onDestroy` call per component from `i` on. */
  function DestroyEventsFrom(cs: seq<Component>, i: nat): seq<Hook>
    decreases |cs| - i
  {
    if i >= |cs| then [] else [Destroyed(cs[i])] + DestroyEventsFrom(cs, i + 1)
  }

  /** A start pass calls `onStart` exactly on the components not yet started, once
      each. */
  lemma {:induction false} StartEventsExactlyOnce(cs: seq<Component>, i: nat, s: set<Component>, c: Component)
    requires i <= |cs|
    ensures Started(c) in StartEventsFrom(cs, i, s) <==> c in cs[i..] && c !in s
    ensures multiset(StartEventsFrom(cs, i, s))[Started(c)] <= 1
    decreases |cs| - i
  {
    if i < |cs| {
      StartEventsExactlyOnce(cs, i + 1, if cs[i] in s then s else s + {cs[i]}, c);
      assert cs[i..] == [cs[i]] + cs[i + 1..];
      if cs[i] !in s && cs[i] == c {
        StartEventsSkip(cs, i + 1, s + {c}, c);
      }
    }
  }

  lemma {:induction false} StartEventsSkip(cs: seq<Component>, i: nat, s: set<Component>, c: Component)
    requires c in s
    ensures Started(c) !in StartEventsFrom(cs, i, s)
    decreases |cs| - i
  {
    if i < |cs| {
      StartEventsSkip(cs, i + 1, if cs[i] in s then s else s + {cs[i]}, c);
    }
  }

  /** Only the started components among `cs` matter to a pass over them. */
  lemma {:induction false} StartEventsLocal(cs: seq<Component>, i: nat, s: set<Component>, t: set<Component>)
    requires forall c :: c in cs ==> (c in s <==> c in t)
    ensures StartEventsFrom(cs, i, s) == StartEventsFrom(cs, i, t)
    decreases |cs| - i
  {
    if i < |cs| {
      if cs[i] in s {
        StartEventsLocal(cs, i + 1, s, t);
      } else {
        StartEventsLocal(cs, i + 1, s + {cs[i]}, t + {cs[i]});
      }
    }
  }

  lemma {:induction false} UpdateEventsLocal(cs: seq<Component>, i: nat, s: set<Component>, t: set<Component>, dt: real)
    requires forall c :: c in cs ==> (c in s <==> c in t)
    ensures UpdateEventsFrom(cs, i, s, dt) == UpdateEventsFrom(cs, i, t, dt)
    decreases |cs| - i
  {
    if i < |cs| {
      if cs[i] in s {
        UpdateEventsLocal(cs, i + 1, s, t, dt);
      } else {
        UpdateEventsLocal(cs, i + 1, s + {cs[i]}, t + {cs[i]}, dt);
      }
    }
  }

  /** The components whose `onUpdate` a log calls, in order. */
  function UpdatesIn(log: seq<Hook>): seq<Component>
  {
    if log == [] then [] else (if log[0].Updated? then [log[0].c] else []) + UpdatesIn(log[1..])
  }

  lemma {:induction false} UpdatesInAppend(a: seq<Hook>, b: seq<Hook>)
    ensures UpdatesIn(a + b) == UpdatesIn(a) + UpdatesIn(b)
    decreases |a|
  {
    if a != [] {
      UpdatesInCons(a[0], a[1..] + b);
      assert a + b == [a[0]] + (a[1..] + b);
      UpdatesInAppend(a[1..], b);
      UpdatesInCons(a[0], a[1..]);
      assert a == [a[0]] + a[1..];
      AppendAssoc(if a[0].Updated? then [a[0].c] else [], UpdatesIn(a[1..]), UpdatesIn(b));
    } else {
      assert a + b == b;
    }
  }

  /** An update pass calls `onUpdate` on every component, once each and in order. */
  lemma {:induction false} UpdateEventsUpdateAll(cs: seq<Component>, i: nat, s: set<Component>, dt: real)
    requires i <= |cs|
    ensures UpdatesIn(UpdateEventsFrom(cs, i, s, dt)) == cs[i..]
    decreases |cs| - i
  {
    if i < |cs| {
      var s' := if cs[i] in s then s else s + {cs[i]};
      var rest := UpdateEventsFrom(cs, i + 1, s', dt);
      UpdateEventsUpdateAll(cs, i + 1, s', dt);
      UpdatesInCons(Updated(cs[i], dt), rest);
      if cs[i] !in s {
        UpdatesInCons(Started(cs[i]), [Updated(cs[i], dt)] + rest);
        assert [Started(cs[i]), Updated(cs[i], dt)] + rest == [Started(cs[i])] + ([Updated(cs[i], dt)] + rest);
      }
      assert cs[i..] == [cs[i]] + cs[i + 1..];
    } else {
      assert cs[i..] == [];
    }
  }

  lemma UpdatesInCons(h: Hook, log: seq<Hook>)
    ensures UpdatesIn([h] + log) == (if h.Updated? then [h.c] else []) + UpdatesIn(log)
  {
    assert ([h] + log)[1..] == log;
  }

  /** An update pass calls `onStart` only on components of the pass not yet started. */
  lemma {:induction false} UpdateEventsStartUnstarted(cs: seq<Component>, i: nat, s: set<Component>, dt: real, c: Component)
    requires i <= |cs|
    ensures Started(c) in UpdateEventsFrom(cs, i, s, dt) ==> c in cs[i..] && c !in s
    decreases |cs| - i
  {
    if i < |cs| {
      var s' := if cs[i] in s then s else s + {cs[i]};
      UpdateEventsStartUnstarted(cs, i + 1, s', dt, c);
      assert cs[i..] == [cs[i]] + cs[i + 1..];
    }
  }

  /** `ec.Component`. */
  class Component {
    const kind: Kind
    var enabled: bool
    var started: bool
    var owner: Entity?

    /** A new component is enabled, not started and has no owner. */
    constructor (kind: Kind)
      ensures this.kind == kind && enabled && !started && owner == null
    {
      this.kind := kind;
      enabled := true;
      started := false;
      owner := null;
    }

    method OnStart(hooks: Hooks)
      modifies hooks
      ensures hooks.log == old(hooks.log) + [Started(this)]
    {
      hooks.Call(Started(this));
    }

    method OnUpdate(dt: real, hooks: Hooks)
      modifies hooks
      ensures hooks.log == old(hooks.log) + [Updated(this, dt)]
    {
      hooks.Call(Updated(this, dt));
    }

    method OnRender(hooks: Hooks)
      modifies hooks
      ensures hooks.log == old(hooks.log) + [Rendered(this)]
    {
      hooks.Call(Rendered(this));
    }

    method OnDestroy(hooks: Hooks)
      modifies hooks
      ensures hooks.log == old(hooks.log) + [Destroyed(this)]
    {
      hooks.Call(Destroyed(this));
    }

    /** `clone`: a new base component with this one's `enabled`, not started and
        without an owner. */
    method Clone() returns (cpy: Component)
      ensures fresh(cpy) && cpy.kind == ComponentKind && cpy.enabled == enabled
      ensures !cpy.started && cpy.owner == null
    {
      cpy := new Component(ComponentKind);
      cpy.enabled := enabled;
    }
  }

  /** `c` is a clone of `m` added to `owner`. */
  predicate ClonedFrom(c: Component, m: Component, owner: Entity)
    reads c, m
  {
    c.kind == ComponentKind && c.enabled == m.enabled && !c.started && c.owner == owner
  }

  /** `ec.Entity`. */
  class Entity {
    var position: Vec3
    var rotation: real
    var scale: Vec2
    var tag: string
    var components: seq<Component>
    var state: State

    /** The fields `reset` gives an entity without a model. */
    predicate IsFresh(st: State)
      reads this
    {
      position == Vec3(0.0, 0.0, 0.0) && rotation == 0.0 && scale == Vec2(1.0, 1.0) && tag == ""
      && components == [] && state == st
    }

    /** `new Entity(state)`: `reset(state)`. */
    constructor (state: State)
      ensures IsFresh(state)
    {
      this.state := state;
      new;
      Reset(state, null);
    }

    /** `reset(state, model)`. Without a model: the defaults, no components, and the
        given state. With one: its position, rotation, scale and tag, clones of its
        components appended to the ones already here, and the given state. */
    method Reset(state: State, model: Entity?)
      requires model == null || model != this || model.components == []
      modifies this
      ensures model == null ==> IsFresh(state)
      ensures model != null ==>
                position == old(model.position) && rotation == old(model.rotation) && scale == old(model.scale)
                && tag == old(model.tag) && this.state == state
                && |components| == |old(components)| + |old(model.components)|
                && components[..|old(components)|] == old(components)
      ensures model != null ==>
                forall k :: |old(components)| <= k < |components| ==>
                  fresh(components[k]) && ClonedFrom(components[k], old(model.components)[k - |old(components)|], this)
    {
      if model != null {
        position := model.position;
        rotation := model.rotation;
        scale := model.scale;
        tag := model.tag;
        var source := model.components;
        ghost var base := components;
        var i := 0;
        while i < |source|
          invariant 0 <= i <= |source| && |components| == |base| + i && components[..|base|] == base
          invariant forall k :: |base| <= k < |components| ==>
                      fresh(components[k]) && ClonedFrom(components[k], source[k - |base|], this)
          invariant position == old(model.position) && rotation == old(model.rotation)
          invariant scale == old(model.scale) && tag == old(model.tag)
        {
          var c := source[i].Clone();
          var _ := Add(c);
          i := i + 1;
        }
        this.state := state;
      } else {
        position := Vec3(0.0, 0.0, 0.0);
        rotation := 0.0;
        scale := Vec2(1.0, 1.0);
        tag := "";
        components := [];
        this.state := state;
      }
    }

    /** `add`: makes this entity the component's owner and appends it. */
    method Add(comp: Component) returns (self: Entity)
      modifies this`components, comp`owner
      ensures components == old(components) + [comp] && comp.owner == this && self == this
    {
      comp.owner := this;
      components := components + [comp];
      self := this;
    }

    /** `get`: the first component that is an instance of `c`, or null. */
    method Get(c: Kind) returns (r: Component?)
      ensures r == null <==> !HasKind(components, c)
      ensures r != null ==>
                exists k :: 0 <= k < |components| && components[k] == r && IsA(r.kind, c)
                            && forall j :: 0 <= j < k ==> !IsA(components[j].kind, c)
    {
      var i := 0;
      while i < |components|
        invariant 0 <= i <= |components|
        invariant forall j :: 0 <= j < i ==> !IsA(components[j].kind, c)
      {
        if IsA(components[i].kind, c) {
          return components[i];
        }
        i := i + 1;
      }
      return null;
    }

    /** `has`: `get` finds one. */
    method Has(c: Kind) returns (b: bool)
      ensures b <==> HasKind(components, c)
    {
      var r := Get(c);
      b := r != null;
    }

    /** `onStart`: starts every component not yet started, in order. */
    method OnStart(hooks: Hooks)
      modifies components, hooks
      ensures forall c :: c in components ==> c.started
      ensures hooks.log == old(hooks.log) + StartEventsFrom(components, 0, old(StartedIn(components)))
      ensures forall c :: c in components ==> c.enabled == old(c.enabled) && c.owner == old(c.owner)
    {
      var cs := components;
      ghost var s0 := StartedIn(cs);
      ghost var s := s0;
      var i := 0;
      while i < |cs|
        invariant 0 <= i <= |cs|
        invariant forall c :: c in cs ==> (c.started <==> c in s)
        invariant forall k :: 0 <= k < i ==> cs[k] in s
        invariant hooks.log + StartEventsFrom(cs, i, s) == old(hooks.log) + StartEventsFrom(cs, 0, s0)
        invariant forall c :: c in cs ==> c.enabled == old(c.enabled) && c.owner == old(c.owner)
      {
        var comp := cs[i];
        if !comp.started {
          AppendAssoc(hooks.log, [Started(comp)], StartEventsFrom(cs, i + 1, s + {comp}));
          comp.OnStart(hooks);
          comp.started := true;
          s := s + {comp};
        }
        i := i + 1;
      }
    }

    /** `onUpdate`: updates every component in order, starting it first when it has
        not started. */
    method OnUpdate(dt: real, hooks: Hooks)
      modifies components, hooks
      ensures forall c :: c in components ==> c.started
      ensures hooks.log == old(hooks.log) + UpdateEventsFrom(components, 0, old(StartedIn(components)), dt)
      ensures forall c :: c in components ==> c.enabled == old(c.enabled) && c.owner == old(c.owner)
    {
      var cs := components;
      ghost var s0 := StartedIn(cs);
      ghost var s := s0;
      var i := 0;
      while i < |cs|
        invariant 0 <= i <= |cs|
        invariant forall c :: c in cs ==> (c.started <==> c in s)
        invariant forall k :: 0 <= k < i ==> cs[k] in s
        invariant hooks.log + UpdateEventsFrom(cs, i, s, dt) == old(hooks.log) + UpdateEventsFrom(cs, 0, s0, dt)
        invariant forall c :: c in cs ==> c.enabled == old(c.enabled) && c.owner == old(c.owner)
      {
        var comp := cs[i];
        ghost var s' := if comp in s then s else s + {comp};
        AppendAssoc(hooks.log, UpdateEventsFrom([comp], 0, s, dt), UpdateEventsFrom(cs, i + 1, s', dt));
        StartAndUpdate(comp, dt, hooks);
        s := s';
        i := i + 1;
      }
    }

    method OnRender(hooks: Hooks)
      modifies hooks
      ensures hooks.log == old(hooks.log) + RenderEventsFrom(components, 0)
    {
      var i := 0;
      while i < |components|
        invariant 0 <= i <= |components|
        invariant hooks.log + RenderEventsFrom(components, i) == old(hooks.log) + RenderEventsFrom(components, 0)
      {
        AppendAssoc(hooks.log, [Rendered(components[i])], RenderEventsFrom(components, i + 1));
        components[i].OnRender(hooks);
        i := i + 1;
      }
    }

    /** `destroy(timeout)`: asks its own state to destroy it after `timeout`. */
    method Destroy(timeout: real)
      modifies state`pending
      ensures state.pending == AfterDestroy(old(state.pending), this, true, timeout)
    {
      state.Destroy(this, timeout);
    }

    /** `clone`: a new entity in the same state, with clones of the components in
        order and this entity's position, rotation, scale and tag. */
    method Clone() returns (cpy: Entity)
      ensures fresh(cpy) && cpy.state == state
      ensures cpy.position == position && cpy.rotation == rotation && cpy.scale == scale && cpy.tag == tag
      ensures |cpy.components| == |components|
      ensures forall k :: 0 <= k < |components| ==>
                fresh(cpy.components[k]) && ClonedFrom(cpy.components[k], components[k], cpy)
    {
      cpy := new Entity(state);
      var i := 0;
      while i < |components|
        invariant 0 <= i <= |components| && |cpy.components| == i && cpy.state == state
        invariant forall k :: 0 <= k < i ==> fresh(cpy.components[k]) && ClonedFrom(cpy.components[k], components[k], cpy)
      {
        var c := components[i].Clone();
        var _ := cpy.Add(c);
        i := i + 1;
      }
      cpy.position := position;
      cpy.rotation := rotation;
      cpy.scale := scale;
      cpy.tag := tag;
    }
  }

  /** One step of an entity's update pass: starts `comp` first when it has not
      started, then updates it. */
  method StartAndUpdate(comp: Component, dt: real, hooks: Hooks)
    modifies comp`started, hooks
    ensures comp.started
    ensures hooks.log == old(hooks.log) + UpdateEventsFrom([comp], 0, if old(comp.started) then {comp} else {}, dt)
  {
    if !comp.started {
      comp.OnStart(hooks);
      comp.started := true;
    }
    comp.OnUpdate(dt, hooks);
  }

  /** Every component of the entities in `es`. */
  function ComponentsOf(es: seq<Entity>): set<Component>
    reads set e | e in es
  {
    set e, c | e in es && c in e.components :: c
  }

  /** The started components of the entities in `es`. */
  function StartedAmong(es: seq<Entity>): set<Component>
    reads (set e | e in es), ComponentsOf(es)
  {
    set c | c in ComponentsOf(es) && c.started
  }

  /** The component lists of `es`, in order. */
  function ListsOf(es: seq<Entity>): (r: seq<seq<Component>>)
    reads set e | e in es
    ensures |r| == |es| && forall k :: 0 <= k < |es| ==> r[k] == es[k].components
  {
    seq(|es|, k requires 0 <= k < |es| reads set e | e in es => es[k].components)
  }

  /** The calls of a start pass over the entities whose component lists are `ls`,
      from the `i`th on, where `s` holds the components already started. */
  function StartLog(ls: seq<seq<Component>>, i: nat, s: set<Component>): seq<Hook>
    decreases |ls| - i
  {
    if i >= |ls| then []
    else StartEventsFrom(ls[i], 0, s) + StartLog(ls, i + 1, s + Members(ls[i]))
  }

  /** Adding the `i`th list's components to a set holding those of the lists
      before it gives a set holding those of the lists up to the `i`th. */
  lemma CoverStep(ls: seq<seq<Component>>, i: nat, s: set<Component>)
    requires i < |ls|
    requires forall k, c :: 0 <= k < i && c in ls[k] ==> c in s
    ensures forall k, c :: 0 <= k <= i && c in ls[k] ==> c in s + Members(ls[i])
  {
  }

  /** The calls of an update pass over the entities from the `i`th on. */
  function UpdateLog(ls: seq<seq<Component>>, i: nat, s: set<Component>, dt: real): seq<Hook>
    decreases |ls| - i
  {
    if i >= |ls| then []
    else UpdateEventsFrom(ls[i], 0, s, dt) + UpdateLog(ls, i + 1, s + Members(ls[i]), dt)
  }

  /** The components of the lists from the `i`th on, in order. */
  function Concat(ls: seq<seq<Component>>, i: nat): seq<Component>
    decreases |ls| - i
  {
    if i >= |ls| then [] else ls[i] + Concat(ls, i + 1)
  }

  /** An update pass over the entities calls `onUpdate` on each of their components,
      entity by entity and in order. */
  lemma {:induction false} UpdateLogUpdatesAll(ls: seq<seq<Component>>, i: nat, s: set<Component>, dt: real)
    ensures UpdatesIn(UpdateLog(ls, i, s, dt)) == Concat(ls, i)
    decreases |ls| - i
  {
    if i < |ls| {
      UpdateEventsUpdateAll(ls[i], 0, s, dt);
      UpdateLogUpdatesAll(ls, i + 1, s + Members(ls[i]), dt);
      UpdatesInAppend(UpdateEventsFrom(ls[i], 0, s, dt), UpdateLog(ls, i + 1, s + Members(ls[i]), dt));
      assert ls[i][0..] == ls[i];
    }
  }

  /** The calls of a render pass over the entities from the `i`th on. */
  function RenderLog(ls: seq<seq<Component>>, i: nat): seq<Hook>
    decreases |ls| - i
  {
    if i >= |ls| then [] else RenderEventsFrom(ls[i], 0) + RenderLog(ls, i + 1)
  }

  /** The `onDestroy` calls for the entities from the `i`th on. */
  function DestroyLog(ls: seq<seq<Component>>, i: nat): seq<Hook>
    decreases |ls| - i
  {
    if i >= |ls| then [] else DestroyEventsFrom(ls[i], 0) + DestroyLog(ls, i + 1)
  }

  lemma {:induction false} DestroyLogSnoc(ls: seq<seq<Component>>, i: nat, cs: seq<Component>)
    requires i <= |ls|
    ensures DestroyLog(ls + [cs], i) == DestroyLog(ls, i) + DestroyEventsFrom(cs, 0)
    decreases |ls| - i
  {
    if i < |ls| {
      DestroyLogSnoc(ls, i + 1, cs);
      assert (ls + [cs])[i] == ls[i];
      AppendAssoc(DestroyEventsFrom(ls[i], 0), DestroyLog(ls, i + 1), DestroyEventsFrom(cs, 0));
    } else {
      assert (ls + [cs])[i] == cs;
    }
  }

  /** Calls `onDestroy` on each of `cs` in order. */
  method DestroyComponents(cs: seq<Component>, hooks: Hooks)
    modifies hooks
    ensures hooks.log == old(hooks.log) + DestroyEventsFrom(cs, 0)
  {
    var i := 0;
    while i < |cs|
      invariant 0 <= i <= |cs|
      invariant hooks.log + DestroyEventsFrom(cs, i) == old(hooks.log) + DestroyEventsFrom(cs, 0)
    {
      AppendAssoc(hooks.log, [Destroyed(cs[i])], DestroyEventsFrom(cs, i + 1));
      cs[i].OnDestroy(hooks);
      i := i + 1;
    }
  }

  /** An entity queued for destruction, with the time left before it goes. */
  datatype TimedDestructor = TimedDestructor(entity: Entity, time: real)

  /** Whether `e` is queued in `ps`. */
  predicate Queued(ps: seq<TimedDestructor>, e: Entity)
  {
    exists k :: 0 <= k < |ps| && ps[k].entity == e
  }

  /** No entity is queued twice. */
  predicate Distinct(ps: seq<TimedDestructor>)
  {
    forall i, j :: 0 <= i < j < |ps| ==> ps[i].entity != ps[j].entity
  }

  /** The queue after `destroy(e, timeout)` on a state that `e` belongs to exactly
      when `ours` holds: unchanged when `e` is already queued or foreign, else `e`
      appended with its timeout. */
  function AfterDestroy(ps: seq<TimedDestructor>, e: Entity, ours: bool, timeout: real): seq<TimedDestructor>
  {
    if Queued(ps, e) || !ours then ps else ps + [TimedDestructor(e, timeout)]
  }

  /** `destroy` never queues an entity twice, and a second call changes nothing. */
  lemma AfterDestroyKeepsDistinct(ps: seq<TimedDestructor>, e: Entity, ours: bool, timeout: real, later: real)
    requires Distinct(ps)
    ensures Distinct(AfterDestroy(ps, e, ours, timeout))
    ensures ours ==> Queued(AfterDestroy(ps, e, ours, timeout), e)
    ensures AfterDestroy(AfterDestroy(ps, e, ours, timeout), e, ours, later) == AfterDestroy(ps, e, ours, timeout)
  {
    if !Queued(ps, e) && ours {
      assert (ps + [TimedDestructor(e, timeout)])[|ps|].entity == e;
    }
  }

  /** The three lists of a state. */
  datatype Pool = Pool(entities: seq<Entity>, inactive: seq<Entity>, pending: seq<TimedDestructor>)

  /** One step of the destruction sweep at the start of `onUpdate`, on queue entry
      `i`. An entry with time left has `dt` taken off; an expired one moves its
      entity from the active list to the inactive one and leaves the queue. */
  function SweepStep(p: Pool, i: nat, dt: real): (q: Pool)
    requires i < |p.pending|
    ensures |q.pending| <= |p.pending|
  {
    var t := p.pending[i];
    if t.time > 0.0 then
      p.(pending := p.pending[i := t.(time := t.time - dt)])
    else
      Pool(SpliceOne(p.entities, IndexOf(p.entities, t.entity)), p.inactive + [t.entity],
           SpliceOne(p.pending, IndexOf(p.pending, t)))
  }

  /** The destruction sweep from queue index `i` on. The sweep walks the queue by
      index while removing from it, so the entry after a removed one is passed over
      until the next update. */
  function SweepFrom(p: Pool, i: nat, dt: real): Pool
    decreases |p.pending| - i
  {
    if i >= |p.pending| then p else SweepFrom(SweepStep(p, i, dt), i + 1, dt)
  }

  /** The sweep only removes active entities and only appends inactive ones. */
  lemma {:induction false} SweepKeepsEntities(p: Pool, i: nat, dt: real)
    ensures forall e :: e in SweepFrom(p, i, dt).entities ==> e in p.entities
    ensures |p.inactive| <= |SweepFrom(p, i, dt).inactive|
    ensures SweepFrom(p, i, dt).inactive[..|p.inactive|] == p.inactive
    decreases |p.pending| - i
  {
    if i < |p.pending| {
      var q := SweepStep(p, i, dt);
      SweepKeepsEntities(q, i + 1, dt);
      assert q.inactive[..|p.inactive|] == p.inactive;
    }
  }

  /** Removing one entry keeps a queue free of duplicates. */
  lemma DistinctSplice(ps: seq<TimedDestructor>, j: int)
    requires Distinct(ps)
    ensures Distinct(SpliceOne(ps, j))
  {
    var r := SpliceOne(ps, j);
    if 0 <= j < |ps| {
      forall a, b | 0 <= a < b < |r|
        ensures r[a].entity != r[b].entity
      {
        var a' := if a < j then a else a + 1;
        var b' := if b < j then b else b + 1;
        assert r[a] == ps[a'] && r[b] == ps[b'];
      }
    } else if j == -1 && |ps| > 0 {
      assert r == ps[..|ps| - 1];
    }
  }

  /** The sweep keeps the queue free of duplicates. */
  lemma {:induction false} SweepKeepsDistinct(p: Pool, i: nat, dt: real)
    requires Distinct(p.pending)
    ensures Distinct(SweepFrom(p, i, dt).pending)
    decreases |p.pending| - i
  {
    if i < |p.pending| {
      var t := p.pending[i];
      if !(t.time > 0.0) {
        DistinctSplice(p.pending, IndexOf(p.pending, t));
      }
      SweepKeepsDistinct(SweepStep(p, i, dt), i + 1, dt);
    }
  }

  /** When every entry still has time left, the sweep only counts them down. */
  lemma {:induction false} SweepCountsDown(p: Pool, i: nat, dt: real)
    requires i <= |p.pending|
    requires forall k :: i <= k < |p.pending| ==> p.pending[k].time > 0.0
    ensures SweepFrom(p, i, dt).entities == p.entities && SweepFrom(p, i, dt).inactive == p.inactive
    ensures |SweepFrom(p, i, dt).pending| == |p.pending|
    ensures forall k :: 0 <= k < i ==> SweepFrom(p, i, dt).pending[k] == p.pending[k]
    ensures forall k :: i <= k < |p.pending| ==>
              SweepFrom(p, i, dt).pending[k] == TimedDestructor(p.pending[k].entity, p.pending[k].time - dt)
    decreases |p.pending| - i
  {
    if i < |p.pending| {
      SweepCountsDown(SweepStep(p, i, dt), i + 1, dt);
    }
  }

  /** Two expired entries in a row: the sweep removes the first and passes over the
      second, which stays queued until the next update. */
  lemma SweepSkipsNext(p: Pool, dt: real)
    requires |p.pending| == 2 && p.pending[0].entity != p.pending[1].entity
    requires p.pending[0].time <= 0.0 && p.pending[1].time <= 0.0
    ensures SweepFrom(p, 0, dt).pending == [p.pending[1]]
    ensures SweepFrom(p, 0, dt).inactive == p.inactive + [p.pending[0].entity]
  {
    var q := SweepStep(p, 0, dt);
    assert IndexOf(p.pending, p.pending[0]) == 0;
    assert q.pending == [p.pending[1]];
  }

  /** An expired entry whose entity is not active, as after destroying an entity a
      second time once it has gone: the sweep removes the last active entity instead
      and lists the entity as inactive a second time. */
  lemma SweepStaleRemovesLast(p: Pool, dt: real)
    requires |p.pending| == 1 && p.pending[0].time <= 0.0
    requires p.pending[0].entity !in p.entities && p.entities != []
    ensures SweepFrom(p, 0, dt).entities == p.entities[..|p.entities| - 1]
    ensures SweepFrom(p, 0, dt).inactive == p.inactive + [p.pending[0].entity]
    ensures SweepFrom(p, 0, dt).pending == []
  {
    IndexOfAbsent(p.entities, p.pending[0].entity);
    IndexOfAbsent(p.pending, p.pending[0]);
  }

  /** `ec.Entity`'s pool owner, `core.State`. */
  class State {
    var entities: seq<Entity>
    var inactive: seq<Entity>
    var pending: seq<TimedDestructor>

    constructor ()
      ensures entities == [] && inactive == [] && pending == []
    {
      entities := [];
      inactive := [];
      pending := [];
    }

    /** `create`: reuses the first inactive entity, reset to the defaults, or makes a
        new one, and appends it to the active list. */
    method Create() returns (e: Entity)
      modifies this`entities, this`inactive, if inactive == [] then {} else {inactive[0]}
      ensures old(inactive) == [] ==> fresh(e) && inactive == []
      ensures old(inactive) != [] ==> e == old(inactive[0]) && inactive == old(inactive[1..])
      ensures entities == old(entities) + [e] && e.IsFresh(this)
    {
      if |inactive| == 0 {
        e := new Entity(this);
      } else {
        e := inactive[0];
        e.Reset(this, null);
        inactive := inactive[1..];
      }
      entities := entities + [e];
    }

    /** `spawn(model)`: reuses the first inactive entity, reset from the model (its
        old components stay, the clones are appended), or clones the model, which
        keeps the model's state; the entity is appended to the active list. */
    method Spawn(model: Entity) returns (e: Entity)
      requires inactive == [] || inactive[0] != model || model.components == []
      modifies this`entities, this`inactive, if inactive == [] then {} else {inactive[0]}
      ensures entities == old(entities) + [e]
      ensures e.position == old(model.position) && e.rotation == old(model.rotation)
      ensures e.scale == old(model.scale) && e.tag == old(model.tag)
      ensures old(inactive) == [] ==>
                fresh(e) && inactive == [] && e.state == model.state
                && |e.components| == |model.components|
                && forall k :: 0 <= k < |e.components| ==>
                     fresh(e.components[k]) && ClonedFrom(e.components[k], model.components[k], e)
      ensures old(inactive) != [] ==>
                e == old(inactive[0]) && inactive == old(inactive[1..]) && e.state == this
                && |e.components| == |old(e.components)| + |old(model.components)|
                && e.components[..|old(e.components)|] == old(e.components)
                && forall k :: |old(e.components)| <= k < |e.components| ==>
                     fresh(e.components[k])
                     && ClonedFrom(e.components[k], old(model.components)[k - |old(e.components)|], e)
    {
      if |inactive| == 0 {
        e := model.Clone();
      } else {
        e := inactive[0];
        e.Reset(this, model);
        inactive := inactive[1..];
      }
      entities := entities + [e];
    }

    /** `destroy(entity, timeout)`: queues the entity unless it is queued already or
        belongs to another state. */
    method Destroy(entity: Entity, timeout: real)
      modifies this`pending
      ensures pending == AfterDestroy(old(pending), entity, entity.state == this, timeout)
    {
      var i := 0;
      while i < |pending|
        invariant 0 <= i <= |pending|
        invariant forall k :: 0 <= k < i ==> pending[k].entity != entity
      {
        if pending[i].entity == entity {
          return;
        }
        i := i + 1;
      }
      if entity.state != this {
        return;
      }
      pending := pending + [TimedDestructor(entity, timeout)];
    }

    /** `get`: the first active entity with a component that is an instance of
        `c`, or null. */
    method Get(c: Kind) returns (r: Entity?)
      ensures r == null <==> forall k :: 0 <= k < |entities| ==> !HasKind(entities[k].components, c)
      ensures r != null ==>
                exists k :: 0 <= k < |entities| && entities[k] == r && HasKind(r.components, c)
                            && forall j :: 0 <= j < k ==> !HasKind(entities[j].components, c)
    {
      var i := 0;
      while i < |entities|
        invariant 0 <= i <= |entities|
        invariant forall j :: 0 <= j < i ==> !HasKind(entities[j].components, c)
      {
        var e := entities[i];
        var found := e.Has(c);
        if found {
          return e;
        }
        i := i + 1;
      }
      return null;
    }

    /** `onStart`: starts the entities in order. */
    method OnStart(hooks: Hooks)
      modifies ComponentsOf(entities), hooks
      ensures forall k, c :: 0 <= k < |entities| && c in entities[k].components ==> c.started
      ensures hooks.log == old(hooks.log) + StartLog(ListsOf(entities), 0, old(StartedAmong(entities)))
      ensures forall k, c :: 0 <= k < |entities| && c in entities[k].components ==>
                c.enabled == old(c.enabled) && c.owner == old(c.owner)
    {
      ghost var ls := ListsOf(entities);
      ghost var all := ComponentsOf(entities);
      ghost var s0 := StartedAmong(entities);
      ghost var s := s0;
      var i := 0;
      while i < |entities|
        invariant 0 <= i <= |entities|
        invariant forall c :: c in all ==> (c.started <==> c in s)
        invariant forall k, c: Component :: 0 <= k < i && c in ls[k] ==> c in s
        invariant hooks.log + StartLog(ls, i, s) == old(hooks.log) + StartLog(ls, 0, s0)
        invariant forall c :: c in all ==> c.enabled == old(c.enabled) && c.owner == old(c.owner)
      {
        var e := entities[i];
        assert e.components == ls[i];
        assert Members(ls[i]) <= all;
        StartEventsLocal(ls[i], 0, StartedIn(ls[i]), s);
        AppendAssoc(hooks.log, StartEventsFrom(ls[i], 0, s), StartLog(ls, i + 1, s + Members(ls[i])));
        e.OnStart(hooks);
        CoverStep(ls, i, s);
        s := s + Members(ls[i]);
        i := i + 1;
      }
      forall k, c | 0 <= k < |entities| && c in entities[k].components
        ensures c.started
      {
        assert c in ls[k];
      }
    }

    /** `onRender`: renders the entities in order. */
    method OnRender(hooks: Hooks)
      modifies hooks
      ensures hooks.log == old(hooks.log) + RenderLog(ListsOf(entities), 0)
    {
      ghost var ls := ListsOf(entities);
      var i := 0;
      while i < |entities|
        invariant 0 <= i <= |entities|
        invariant hooks.log + RenderLog(ls, i) == old(hooks.log) + RenderLog(ls, 0)
      {
        AppendAssoc(hooks.log, RenderEventsFrom(ls[i], 0), RenderLog(ls, i + 1));
        entities[i].OnRender(hooks);
        i := i + 1;
      }
    }

    /** `onUpdate`: the destruction sweep, then an update pass over the entities
        left active. */
    method OnUpdate(dt: real, hooks: Hooks)
      modifies this`entities, this`inactive, this`pending, hooks, ComponentsOf(entities)
      ensures Pool(entities, inactive, pending) == SweepFrom(old(Pool(entities, inactive, pending)), 0, dt)
      ensures |old(inactive)| <= |inactive|
      ensures hooks.log == old(hooks.log) + DestroyLog(ListsOf(inactive[|old(inactive)|..]), 0)
                           + UpdateLog(ListsOf(entities), 0, old(StartedAmong(entities)), dt)
    {
      ghost var s0 := StartedAmong(entities);
      ghost var all := ComponentsOf(entities);
      ghost var es0 := entities;
      label Before:
      Sweep(dt, hooks);
      SweepKeepsEntities(old(Pool(entities, inactive, pending)), 0, dt);
      forall k, c | 0 <= k < |entities| && c in entities[k].components
        ensures c.started <==> c in s0
      {
        assert entities[k] in es0;
        assert c in all;
        assert c.started == old@Before(c.started);
      }
      assert ComponentsOf(entities) <= all;
      UpdateEntities(dt, hooks, s0);
    }

    /** The update pass of `onUpdate`: updates the entities in order; `s0` holds the
        components already started. */
    method UpdateEntities(dt: real, hooks: Hooks, ghost s0: set<Component>)
      requires forall k, c :: 0 <= k < |entities| && c in entities[k].components ==> (c.started <==> c in s0)
      modifies ComponentsOf(entities), hooks
      ensures forall k, c :: 0 <= k < |entities| && c in entities[k].components ==> c.started
      ensures hooks.log == old(hooks.log) + UpdateLog(ListsOf(entities), 0, s0, dt)
      ensures forall k, c :: 0 <= k < |entities| && c in entities[k].components ==>
                c.enabled == old(c.enabled) && c.owner == old(c.owner)
    {
      ghost var ls := ListsOf(entities);
      ghost var all := ComponentsOf(entities);
      ghost var s := s0;
      var i := 0;
      while i < |entities|
        invariant 0 <= i <= |entities|
        invariant forall c :: c in all ==> (c.started <==> c in s)
        invariant forall k, c: Component :: 0 <= k < i && c in ls[k] ==> c in s
        invariant hooks.log + UpdateLog(ls, i, s, dt) == old(hooks.log) + UpdateLog(ls, 0, s0, dt)
        invariant forall c :: c in all ==> c.enabled == old(c.enabled) && c.owner == old(c.owner)
      {
        var e := entities[i];
        assert e.components == ls[i];
        assert Members(ls[i]) <= all;
        UpdateEventsLocal(ls[i], 0, StartedIn(ls[i]), s, dt);
        AppendAssoc(hooks.log, UpdateEventsFrom(ls[i], 0, s, dt), UpdateLog(ls, i + 1, s + Members(ls[i]), dt));
        e.OnUpdate(dt, hooks);
        CoverStep(ls, i, s);
        s := s + Members(ls[i]);
        i := i + 1;
      }
      forall k, c | 0 <= k < |entities| && c in entities[k].components
        ensures c.started
      {
        assert c in ls[k];
      }
    }

    /** The destruction sweep of `onUpdate`: walks the queue by index, counting down
        the entries with time left and, for an expired one, calling `onDestroy` on
        its components, moving its entity to the inactive list and dropping it from
        the active list and the queue. */
    method Sweep(dt: real, hooks: Hooks)
      modifies this`entities, this`inactive, this`pending, hooks
      ensures Pool(entities, inactive, pending) == SweepFrom(old(Pool(entities, inactive, pending)), 0, dt)
      ensures |old(inactive)| <= |inactive|
      ensures hooks.log == old(hooks.log) + DestroyLog(ListsOf(inactive[|old(inactive)|..]), 0)
    {
      var pool := Pool(entities, inactive, pending);
      ghost var p0 := pool;
      ghost var removed: seq<Entity> := [];
      ghost var gone: seq<seq<Component>> := [];
      var i := 0;
      while i < |pool.pending|
        invariant SweepFrom(pool, i, dt) == SweepFrom(p0, 0, dt)
        invariant pool.inactive == p0.inactive + removed
        invariant |gone| == |removed| && forall k :: 0 <= k < |removed| ==> removed[k].components == gone[k]
        invariant hooks.log == old(hooks.log) + DestroyLog(gone, 0)
        decreases |pool.pending| - i
      {
        ghost var t := pool.pending[i];
        pool := SweepEntry(pool, i, dt, hooks);
        if t.time <= 0.0 {
          DestroyLogSnoc(gone, 0, t.entity.components);
          AppendAssoc(old(hooks.log), DestroyLog(gone, 0), DestroyEventsFrom(t.entity.components, 0));
          removed := removed + [t.entity];
          gone := gone + [t.entity.components];
        }
        i := i + 1;
      }
      entities, inactive, pending := pool.entities, pool.inactive, pool.pending;
      assert inactive[|old(inactive)|..] == removed;
      assert ListsOf(removed) == gone;
    }

    /** The sweep's work on queue entry `i`: the countdown of an entry with time
        left, or the destruction of an expired one. */
    method SweepEntry(p: Pool, i: nat, dt: real, hooks: Hooks) returns (q: Pool)
      requires i < |p.pending|
      modifies hooks
      ensures q == SweepStep(p, i, dt)
      ensures p.pending[i].time > 0.0 ==> hooks.log == old(hooks.log)
      ensures p.pending[i].time <= 0.0 ==>
                hooks.log == old(hooks.log) + DestroyEventsFrom(p.pending[i].entity.components, 0)
    {
      var t := p.pending[i];
      if t.time > 0.0 {
        q := p.(pending := p.pending[i := t.(time := t.time - dt)]);
      } else {
        DestroyComponents(t.entity.components, hooks);
        q := Pool(SpliceOne(p.entities, IndexOf(p.entities, t.entity)), p.inactive + [t.entity],
                  SpliceOne(p.pending, IndexOf(p.pending, t)));
      }
    }
  }

  /** `core.Game`: the registered states and the switch between them. The field
      `current` stands for the global `XD.currentState`. */
  class Game {
    var states: map<string, State>
    var switching: bool
    var nextState: string
    var currentState: string
    var current: State?

    constructor ()
      ensures states == map[] && currentState == "" && nextState == "" && !switching && current == null
    {
      states := map[];
      currentState := "";
      nextState := "";
      switching := false;
      current := null;
    }

    /** `registerState`: the state registered under `name`, registering a new empty
        one first when there is none. */
    method RegisterState(name: string) returns (s: State)
      modifies this`states
      ensures name in old(states) ==> s == old(states[name]) && states == old(states)
      ensures name !in old(states) ==>
                fresh(s) && s.entities == [] && s.inactive == [] && s.pending == []
                && states == old(states)[name := s]
    {
      if name !in states {
        s := new State();
        states := states[name := s];
        return;
      }
      s := states[name];
    }

    /** `setState`: asks for a switch to `name` unless it is already the state
        asked for. */
    method SetState(name: string)
      modifies this`switching, this`nextState
      ensures nextState == name
      ensures switching == (old(switching) || old(nextState) != name)
    {
      if nextState != name {
        switching := true;
        nextState := name;
      }
    }

    /** Whether the next update switches states. */
    predicate Switches()
      reads this
    {
      switching && |nextState| > 0
    }

    /** The name of the state the next update runs. */
    function Target(): string
      reads this
    {
      if Switches() then nextState else currentState
    }

    /** What the next update may change: that state and its entities' components. */
    function Scope(): set<object>
      reads this, if Target() in states then {states[Target()]} else {}
      reads if Target() in states then (set e | e in states[Target()].entities) else {}
    {
      if Target() in states then {states[Target()] as object} + ComponentsOf(states[Target()].entities) else {}
    }

    /** `onUpdate`. On a pending switch to a non-empty name: makes it current, points
        `current` at its state and starts it, ending the switch; an unregistered
        name leaves `current` undefined and fails. Otherwise updates the current
        state, if there is one; an unregistered current name fails. */
    method OnUpdate(dt: real, hooks: Hooks) returns (crashed: bool)
      modifies this`currentState, this`current, this`switching, hooks, Scope()
      ensures states == old(states) && nextState == old(nextState)
      ensures old(Switches()) ==>
                currentState == old(nextState) && (crashed <==> currentState !in states)
      ensures old(Switches()) && crashed ==> current == null && switching && hooks.log == old(hooks.log)
      ensures old(Switches()) && !crashed ==>
                var c := states[currentState];
                current == c && !switching
                && hooks.log == old(hooks.log) + StartLog(old(ListsOf(c.entities)), 0, old(StartedAmong(c.entities)))
      ensures !old(Switches()) ==>
                currentState == old(currentState) && current == old(current) && switching == old(switching)
                && (crashed <==> |currentState| > 0 && currentState !in states)
      ensures !old(Switches()) && (|currentState| == 0 || crashed) ==> hooks.log == old(hooks.log)
      ensures !old(Switches()) && |currentState| > 0 && !crashed ==>
                var c := states[currentState];
                Pool(c.entities, c.inactive, c.pending) == SweepFrom(old(Pool(c.entities, c.inactive, c.pending)), 0, dt)
                && |old(c.inactive)| <= |c.inactive|
                && hooks.log == old(hooks.log) + DestroyLog(ListsOf(c.inactive[|old(c.inactive)|..]), 0)
                                + UpdateLog(ListsOf(c.entities), 0, old(StartedAmong(c.entities)), dt)
    {
      if switching && |nextState| > 0 {
        crashed := Switch(hooks);
      } else {
        crashed := Tick(dt, hooks);
      }
    }

    /** The switching branch of `onUpdate`. */
    method Switch(hooks: Hooks) returns (crashed: bool)
      requires Switches()
      modifies this`currentState, this`current, this`switching, hooks
      modifies if nextState in states then ComponentsOf(states[nextState].entities) else {}
      ensures states == old(states) && nextState == old(nextState)
      ensures currentState == nextState && (crashed <==> currentState !in states)
      ensures crashed ==> current == null && switching && hooks.log == old(hooks.log)
      ensures !crashed ==>
                var c := states[currentState];
                current == c && !switching
                && hooks.log == old(hooks.log) + StartLog(old(ListsOf(c.entities)), 0, old(StartedAmong(c.entities)))
    {
      var name := nextState;
      if name !in states {
        currentState := name;
        current := null;
        return true;
      }
      var c := states[name];
      // `onStart` is called before the fields are written: nothing the hook log
      // records can observe the order.
      c.OnStart(hooks);
      currentState := name;
      current := c;
      switching := false;
      crashed := false;
    }

    /** The other branch of `onUpdate`: updates the current state, if any. */
    method Tick(dt: real, hooks: Hooks) returns (crashed: bool)
      modifies hooks, if currentState in states then {states[currentState] as object} + ComponentsOf(states[currentState].entities) else {}
      ensures crashed <==> |currentState| > 0 && currentState !in states
      ensures |currentState| == 0 || crashed ==> hooks.log == old(hooks.log)
      ensures |currentState| > 0 && !crashed ==>
                var c := states[currentState];
                Pool(c.entities, c.inactive, c.pending) == SweepFrom(old(Pool(c.entities, c.inactive, c.pending)), 0, dt)
                && |old(c.inactive)| <= |c.inactive|
                && hooks.log == old(hooks.log) + DestroyLog(ListsOf(c.inactive[|old(c.inactive)|..]), 0)
                                + UpdateLog(ListsOf(c.entities), 0, old(StartedAmong(c.entities)), dt)
    {
      crashed := false;
      if |currentState| > 0 {
        if currentState !in states {
          return true;
        }
        var c := states[currentState];
        c.OnUpdate(dt, hooks);
      }
    }

    /** `onRender`: renders the current state unless a switch is pending or there is
        none; an unregistered current name fails. */
    method OnRender(hooks: Hooks) returns (crashed: bool)
      modifies hooks
      ensures crashed <==> !switching && |currentState| > 0 && currentState !in states
      ensures !crashed && !switching && |currentState| > 0 ==>
                hooks.log == old(hooks.log) + RenderLog(ListsOf(states[currentState].entities), 0)
      ensures crashed || switching || |currentState| == 0 ==> hooks.log == old(hooks.log)
    {
      crashed := false;
      if !switching && |currentState| > 0 {
        if currentState !in states {
          return true;
        }
        var c := states[currentState];
        c.OnRender(hooks);
      }
    }
  }
}
