/** ES decorators: the per-class array of initializer slots, `__decorateElement` and
    `__runInitializers`. */
module Decorators {
  import Bits
  import opened Wrappers

  /** A function, known by its identity. */
  type Fn = nat

  datatype Slot = Hole | Fns(fns: seq<Fn>) | Metadata(id: nat)

  datatype Kind = Class | Method | Getter | Setter | Accessor | Field

  /** What is decorated: the class or function itself, or an accessor's pair. */
  datatype Element = Element(value: Fn, getter: Fn, setter: Fn)

  /** A value that should be a function or undefined. */
  datatype MaybeFn = Undefined | Func(fn: Fn) | Other

  /** What a decorator returns. */
  datatype Outcome =
    | Nothing
    | Function(fn: Fn)
    | Object(getter: MaybeFn, setter: MaybeFn, init: MaybeFn)
    | NotAllowed
    | Throws

  /** A call of some `addInitializer`: this decorator's own, or one kept from a decorator that has
      returned. A decorator that does not catch the call's error ends in `Throws`. */
  datatype Add = Add(stale: bool, arg: MaybeFn)

  datatype Decorator = Decorator(id: nat, adds: seq<Add>, outcome: Outcome)

  datatype Received = Value(fn: Fn) | Pair(getter: Fn, setter: Fn) | NoValue

  datatype Error = FunctionExpected | ObjectExpected | AlreadyInitialized | DecoratorThrew

  predicate OwnsSlots(kind: Kind) {
    kind.Accessor? || kind.Field?
  }

  /** The array index of an element's extra initializers. */
  function ExtraSlot(kind: Kind, isStatic: bool, length: nat): nat {
    if OwnsSlots(kind) then length + 1 else if kind.Class? then 0 else if isStatic then 1 else 2
  }

  function FnsAt(slots: seq<Slot>, j: nat): seq<Fn> {
    if j < |slots| && slots[j].Fns? then slots[j].fns else []
  }

  // ----- What one decorator does -----

  datatype State = State(element: Element, initializers: seq<Fn>, extras: seq<Fn>, calls: seq<(nat, Received)>)

  function Given(kind: Kind, element: Element): Received {
    match kind
    case Field => NoValue
    case Accessor => Pair(element.getter, element.setter)
    case _ => Value(element.value)
  }

  /** The initializers a decorator manages to add. */
  function Added(adds: seq<Add>): seq<Fn> {
    if adds == [] then []
    else (if !adds[0].stale && adds[0].arg.Func? then [adds[0].arg.fn] else []) + Added(adds[1..])
  }

  function Rejected(kind: Kind, outcome: Outcome): Option<Error> {
    match outcome
    case Throws => Some(DecoratorThrew)
    case Nothing => None
    case Function(_) => if kind.Accessor? then Some(ObjectExpected) else None
    case NotAllowed => Some(if kind.Accessor? then ObjectExpected else FunctionExpected)
    case Object(getter, setter, init) =>
      if !kind.Accessor? || getter.Other? || setter.Other? || init.Other? then Some(FunctionExpected) else None
  }

  /** The initializer a decorator contributes. */
  function Initializer(kind: Kind, outcome: Outcome): seq<Fn> {
    match outcome
    case Function(fn) => if kind.Field? then [fn] else []
    case Object(_, _, init) => if init.Func? then [init.fn] else []
    case _ => []
  }

  function Replaced(kind: Kind, element: Element, outcome: Outcome): Element {
    match outcome
    case Function(fn) => if kind.Field? then element else element.(value := fn)
    case Object(getter, setter, _) =>
      element.(getter := if getter.Func? then getter.fn else element.getter,
               setter := if setter.Func? then setter.fn else element.setter)
    case _ => element
  }

  function ApplyOne(kind: Kind, d: Decorator, st: State): (State, Option<Error>) {
    var called := st.(extras := st.extras + Added(d.adds), calls := st.calls + [(d.id, Given(kind, st.element))]);
    var error := Rejected(kind, d.outcome);
    if error.Some? then (called, error)
    else (called.(element := Replaced(kind, st.element, d.outcome),
                  initializers := Initializer(kind, d.outcome) + st.initializers), None)
  }

  /** The decorators from the last to the first, until one is rejected. */
  function ApplyAll(kind: Kind, ds: seq<Decorator>, st: State): (State, Option<Error>) {
    if ds == [] then (st, None)
    else
      var (next, error) := ApplyOne(kind, ds[|ds| - 1], st);
      if error.Some? then (next, error) else ApplyAll(kind, ds[..|ds| - 1], next)
  }

  /** The array once an element's slots are there. */
  function Allocated(slots: seq<Slot>, kind: Kind, isStatic: bool): seq<Slot>
    requires |slots| >= 4
  {
    if OwnsSlots(kind) then slots + [Fns([]), Fns([])]
    else
      var j := ExtraSlot(kind, isStatic, |slots|);
      slots[j := Fns(FnsAt(slots, j))]
  }

  /** The array holding an element's initializers and extra initializers. */
  function Filled(base: seq<Slot>, kind: Kind, j: nat, initializers: seq<Fn>, extras: seq<Fn>): (r: seq<Slot>)
    requires j < |base| && (OwnsSlots(kind) ==> j > 0)
    ensures |r| == |base| && FnsAt(r, j) == extras && (OwnsSlots(kind) ==> FnsAt(r, j - 1) == initializers)
  {
    var filled := base[j := Fns(extras)];
    if OwnsSlots(kind) then filled[j - 1 := Fns(initializers)] else filled
  }

  /** More functions pushed onto a slot. */
  function Pushed(slots: seq<Slot>, j: nat, fns: seq<Fn>): (r: seq<Slot>)
    requires j < |slots|
    ensures |r| == |slots| && FnsAt(r, j) == FnsAt(slots, j) + fns
  {
    slots[j := Fns(FnsAt(slots, j) + fns)]
  }

  lemma PushedTwice(slots: seq<Slot>, j: nat, a: seq<Fn>, b: seq<Fn>)
    requires j < |slots|
    ensures Pushed(Pushed(slots, j, a), j, b) == Pushed(slots, j, a + b)
  {
    assert FnsAt(slots, j) + a + b == FnsAt(slots, j) + (a + b);
  }

  lemma PushNothing(slots: seq<Slot>, j: nat)
    requires j < |slots| && slots[j].Fns?
    ensures Pushed(slots, j, []) == slots
  {
    assert FnsAt(slots, j) + [] == FnsAt(slots, j);
  }

  /** A whole `__decorateElement` call: the array after it, and the decorators' work. */
  function Decorate(slots: seq<Slot>, kind: Kind, isStatic: bool, ds: seq<Decorator>, element: Element)
    : (seq<Slot>, State, Option<Error>)
    requires |slots| >= 4
  {
    var j := ExtraSlot(kind, isStatic, |slots|);
    var (st, error) := ApplyAll(kind, ds, State(element, [], FnsAt(slots, j), []));
    (Filled(Allocated(slots, kind, isStatic), kind, j, st.initializers, st.extras), st, error)
  }

  // ----- The helpers over their shared array -----

  class DecoratorArray {
    var slots: seq<Slot>

    /** `[, , , metadata]`. */
    constructor (metadata: nat)
      ensures slots == [Hole, Hole, Hole, Metadata(metadata)]
    {
      slots := [Hole, Hole, Hole, Metadata(metadata)];
    }

    /** `array[j - 1] = []` for a field or accessor, and `array[j] || (array[j] = [])`. */
    method Allocate(kind: Kind, isStatic: bool) returns (j: nat)
      requires |slots| >= 4
      modifies this
      ensures j == ExtraSlot(kind, isStatic, |old(slots)|)
      ensures slots == Filled(Allocated(old(slots), kind, isStatic), kind, j, [], FnsAt(old(slots), j))
      ensures slots[j].Fns?
    {
      j := ExtraSlot(kind, isStatic, |slots|);
      if OwnsSlots(kind) {
        slots := slots + [Fns([])];
      }
      if j == |slots| {
        slots := slots + [Fns([])];
      } else if !slots[j].Fns? {
        slots := slots[j := Fns([])];
      }
    }

    /** One decorator: its context lives while it runs, and its result takes effect after. */
    method RunDecorator(kind: Kind, j: nat, d: Decorator, current: Element)
      returns (rejected: Option<Error>, next: Element)
      requires j < |slots| && slots[j].Fns? && (OwnsSlots(kind) ==> j > 0)
      modifies this
      ensures rejected == Rejected(kind, d.outcome)
      ensures rejected.None? ==> next == Replaced(kind, current, d.outcome)
      ensures var pushed := Pushed(old(slots), j, Added(d.adds));
        slots == if rejected.None? && OwnsSlots(kind)
                 then pushed[j - 1 := Fns(Initializer(kind, d.outcome) + FnsAt(pushed, j - 1))]
                 else pushed
    {
      var context := new Context(this, j);
      context.RunAdds(d.adds);
      context.Finish();
      rejected, next := Rejected(kind, d.outcome), current;
      if rejected.None? {
        if OwnsSlots(kind) {
          slots := slots[j - 1 := Fns(Initializer(kind, d.outcome) + FnsAt(slots, j - 1))];
        }
        next := Replaced(kind, current, d.outcome);
      }
    }

    method DecorateElement(kind: Kind, isStatic: bool, decorators: seq<Decorator>, element: Element)
      returns (r: Result<Element, Error>, calls: seq<(nat, Received)>)
      requires |slots| >= 4
      modifies this
      ensures var (after, st, error) := Decorate(old(slots), kind, isStatic, decorators, element);
        slots == after && calls == st.calls && r == if error.Some? then Err(error.value) else Ok(st.element)
      ensures DecoratedAs(kind, decorators, element, r, calls)
    {
      hide Added, Rejected, Replaced, Initializer, Pushed, Filled, DecoratedAs;
      DecorateMeans(slots, kind, isStatic, decorators, element);
      var j := Allocate(kind, isStatic);
      ghost var base := Allocated(old(slots), kind, isStatic);
      ghost var start := State(element, [], FnsAt(old(slots), j), []);
      var current := element;
      calls := [];
      var i := |decorators| - 1;
      ghost var st := start;
      assert decorators[..|decorators|] == decorators;
      while i >= 0
        invariant -1 <= i < |decorators|
        invariant st.element == current && st.calls == calls
        invariant slots == Filled(base, kind, j, st.initializers, st.extras) && slots[j].Fns?
        invariant ApplyAll(kind, decorators[..i + 1], st) == ApplyAll(kind, decorators, start)
      {
        var d := decorators[i];
        assert decorators[..i + 1][..i] == decorators[..i];
        calls := calls + [(d.id, Given(kind, current))];
        FilledStep(base, kind, j, st, d);
        st := ApplyOne(kind, d, st).0;
        var rejected, next := RunDecorator(kind, j, d, current);
        if rejected.Some? {
          return Err(rejected.value), calls;
        }
        current := next;
        i := i - 1;
      }
      return Ok(current), calls;
    }
  }

  /** A decorator's pushes and unshift, as the array's next state. */
  lemma FilledStep(base: seq<Slot>, kind: Kind, j: nat, st: State, d: Decorator)
    requires j < |base| && (OwnsSlots(kind) ==> j > 0)
    ensures var pushed := Pushed(Filled(base, kind, j, st.initializers, st.extras), j, Added(d.adds));
      var (next, error) := ApplyOne(kind, d, st);
      && pushed[j].Fns?
      && Filled(base, kind, j, next.initializers, next.extras)
         == if error.None? && OwnsSlots(kind)
            then pushed[j - 1 := Fns(Initializer(kind, d.outcome) + FnsAt(pushed, j - 1))]
            else pushed
  {
    hide Added, Rejected, Replaced, Initializer;
  }

  /** A decorator's context, whose `addInitializer` works until the decorator returns. */
  class Context {
    const owner: DecoratorArray
    const slot: nat
    var done: bool

    constructor (owner: DecoratorArray, slot: nat)
      ensures this.owner == owner && this.slot == slot && !done
    {
      this.owner, this.slot, done := owner, slot, false;
    }

    method Finish()
      modifies this
      ensures done
    {
      done := true;
    }

    /** Nothing is added once the decorator has returned, nor for what is not a function. */
    method AddInitializer(arg: MaybeFn) returns (r: Result<(), Error>)
      requires slot < |owner.slots|
      modifies owner
      ensures r == if done then Err(AlreadyInitialized) else if arg.Func? then Ok(()) else Err(FunctionExpected)
      ensures owner.slots == if r.Ok? then Pushed(old(owner.slots), slot, [arg.fn]) else old(owner.slots)
    {
      if done {
        return Err(AlreadyInitialized);
      }
      if !arg.Func? {
        return Err(FunctionExpected);
      }
      owner.slots := owner.slots[slot := Fns(FnsAt(owner.slots, slot) + [arg.fn])];
      return Ok(());
    }

    /** A decorator's calls while it runs; the stale ones go to a context that is done. */
    method RunAdds(adds: seq<Add>)
      requires !done && slot < |owner.slots| && owner.slots[slot].Fns?
      modifies owner
      ensures owner.slots == Pushed(old(owner.slots), slot, Added(adds))
    {
      hide Pushed, Added, FnsAt;
      NoneAdded();
      var stale := new Context(owner, slot);
      stale.Finish();
      PushNothing(owner.slots, slot);
      for n := 0 to |adds|
        invariant |owner.slots| == |old(owner.slots)| && !done && stale.done
        invariant owner.slots == Pushed(old(owner.slots), slot, Added(adds[..n]))
      {
        AddedOne(adds, n);
        assert Added(adds[..n]) + [] == Added(adds[..n]);
        if adds[n].arg.Func? {
          PushedTwice(old(owner.slots), slot, Added(adds[..n]), [adds[n].arg.fn]);
        }
        if adds[n].stale {
          var _ := stale.AddInitializer(adds[n].arg);
        } else {
          var _ := AddInitializer(adds[n].arg);
        }
      }
      assert adds[..|adds|] == adds;
    }
  }

  lemma NoneAdded()
    ensures Added([]) == []
  {
  }

  lemma {:induction false} AddedConcat(a: seq<Add>, b: seq<Add>)
    ensures Added(a + b) == Added(a) + Added(b)
  {
    if a == [] {
      assert a + b == b;
    } else {
      assert (a + b)[1..] == a[1..] + b;
      AddedConcat(a[1..], b);
    }
  }

  lemma AddedOne(adds: seq<Add>, n: nat)
    requires n < |adds|
    ensures Added(adds[..n + 1])
         == Added(adds[..n]) + if !adds[n].stale && adds[n].arg.Func? then [adds[n].arg.fn] else []
  {
    assert adds[..n + 1] == adds[..n] + [adds[n]];
    AddedConcat(adds[..n], [adds[n]]);
  }

  /** `__runInitializers`: flag bit 0 clear threads the value through the functions of the slot in
      the higher bits; with it set, they are called for effect. */
  method RunInitializers<V>(slots: seq<Slot>, flags: nat, apply: (Fn, V) -> V, initial: V)
    returns (value: V, called: seq<Fn>)
    ensures called == FnsAt(slots, flags / 2)
    ensures value == if flags % 2 == 1 then initial else Folded(apply, FnsAt(slots, flags / 2), initial)
  {
    FlagBits(flags);
    value, called := initial, [];
    var fns := FnsAt(slots, Bits.Shr(flags, 1));
    for i := 0 to |fns|
      invariant called == fns[..i]
      invariant flags % 2 == 1 ==> value == initial
      invariant flags % 2 == 0 ==> Folded(apply, fns[i..], value) == Folded(apply, fns, initial)
    {
      called := called + [fns[i]];
      if Bits.And(flags, 1) == 0 {
        value := apply(fns[i], value);
      }
    }
  }

  lemma FlagBits(flags: nat)
    ensures Bits.Shr(flags, 1) == flags / 2 && Bits.And(flags, 1) == flags % 2
  {
    hide Bits.And;
    Bits.Pow2Values();
    Bits.AndMask(flags, 1);
    Bits.Width1(flags);
  }

  function Folded<V>(apply: (Fn, V) -> V, fns: seq<Fn>, value: V): V
    decreases |fns|
  {
    if fns == [] then value else Folded(apply, fns[1..], apply(fns[0], value))
  }

  /** Each function gets what the one before it returned. */
  lemma {:induction false} FoldedInTurn<V>(apply: (Fn, V) -> V, fns: seq<Fn>, value: V, k: nat)
    requires k < |fns|
    ensures Folded(apply, fns[..k + 1], value) == apply(fns[k], Folded(apply, fns[..k], value))
    ensures Folded(apply, [], value) == value
    decreases k
  {
    if k > 0 {
      assert fns[..k + 1][1..] == fns[1..][..k] && fns[..k][1..] == fns[1..][..k - 1];
      FoldedInTurn(apply, fns[1..], apply(fns[0], value), k - 1);
    } else {
      assert fns[..1][1..] == [] && fns[..0] == [];
    }
  }

  // ----- What is left of the element -----

  /** The function a decorator gives for one part of the element, if it gives one. */
  datatype Part = ValuePart | GetterPart | SetterPart

  function Gift(part: Part, outcome: Outcome): Option<Fn> {
    match part
    case ValuePart => if outcome.Function? then Some(outcome.fn) else None
    case GetterPart => if outcome.Object? && outcome.getter.Func? then Some(outcome.getter.fn) else None
    case SetterPart => if outcome.Object? && outcome.setter.Func? then Some(outcome.setter.fn) else None
  }

  /** What the first of the decorators in source order that gives the part gives for it, or what it was
      when none does. */
  function LeftBy(part: Part, ds: seq<Decorator>, original: Fn): Fn {
    if ds == [] then original
    else if Gift(part, ds[0].outcome).Some? then Gift(part, ds[0].outcome).value
    else LeftBy(part, ds[1..], original)
  }

  /** What accepted decorators leave: a field as it was; of an accessor a getter and a setter, and of
      anything else a value, each from the first decorator in source order that gave one. */
  ghost predicate ElementLeft(kind: Kind, ds: seq<Decorator>, original: Element, left: Element) {
    match kind
    case Field => left == original
    case Accessor =>
      && left.value == original.value
      && left.getter == LeftBy(GetterPart, ds, original.getter)
      && left.setter == LeftBy(SetterPart, ds, original.setter)
    case _ =>
      && left.getter == original.getter && left.setter == original.setter
      && left.value == LeftBy(ValuePart, ds, original.value)
  }

  /** What a decorator is called with: nothing for a field, the pair for an accessor, otherwise the value. */
  ghost predicate Receives(kind: Kind, current: Element, received: Received) {
    match received
    case NoValue => kind.Field?
    case Pair(getter, setter) => kind.Accessor? && getter == current.getter && setter == current.setter
    case Value(fn) => !kind.Field? && !kind.Accessor? && fn == current.value
  }

  /** What a decorator may return: nothing; a function, except for an accessor; for an accessor an object
      whose `get`, `set` and `init` are functions or undefined. */
  predicate Allowed(kind: Kind, outcome: Outcome) {
    || outcome.Nothing?
    || (outcome.Function? && !kind.Accessor?)
    || (outcome.Object? && kind.Accessor? && !outcome.getter.Other? && !outcome.setter.Other? && !outcome.init.Other?)
  }

  /** The error otherwise: the decorator's own; for an accessor's result that is no object, that an object
      was expected; and that a function was in all other cases. */
  ghost predicate FailsWith(kind: Kind, outcome: Outcome, error: Error) {
    match error
    case DecoratorThrew => outcome.Throws?
    case ObjectExpected => kind.Accessor? && (outcome.Function? || outcome.NotAllowed?)
    case FunctionExpected => outcome.Object? || (outcome.NotAllowed? && !kind.Accessor?)
    case AlreadyInitialized => false
  }

  lemma RejectedExactly(kind: Kind, outcome: Outcome)
    ensures Rejected(kind, outcome).None? <==> Allowed(kind, outcome)
    ensures Rejected(kind, outcome).Some? ==> FailsWith(kind, outcome, Rejected(kind, outcome).value)
  {
  }

  lemma GivenIsReceived(kind: Kind, element: Element)
    ensures Receives(kind, element, Given(kind, element))
  {
  }

  lemma LeftByFirst(part: Part, d: Decorator, later: seq<Decorator>, original: Fn)
    ensures var gift := Gift(part, d.outcome);
      LeftBy(part, [d] + later, original) == if gift.Some? then gift.value else LeftBy(part, later, original)
  {
    assert ([d] + later)[1..] == later;
  }

  /** One more decorator in front of those that have run. */
  lemma OneLeaves(kind: Kind, d: Decorator, later: seq<Decorator>, original: Element, before: Element)
    requires Rejected(kind, d.outcome).None? && ElementLeft(kind, later, original, before)
    ensures ElementLeft(kind, [d] + later, original, Replaced(kind, before, d.outcome))
  {
    hide LeftBy;
    LeftByFirst(GetterPart, d, later, original.getter);
    LeftByFirst(SetterPart, d, later, original.setter);
    LeftByFirst(ValuePart, d, later, original.value);
  }

  lemma NothingLeaves(kind: Kind, element: Element)
    ensures ElementLeft(kind, [], element, element)
  {
  }

  /** The calls so far: of the decorators from the last one on, each with the element its later ones left. */
  ghost predicate CallsRight(
    kind: Kind, ds: seq<Decorator>, original: Element, calls: seq<(nat, Received)>)
  {
    && |calls| <= |ds|
    && forall c :: 0 <= c < |calls| ==> CallRight(kind, ds, original, |ds| - 1 - c, calls[c])
  }

  ghost predicate CallRight(kind: Kind, ds: seq<Decorator>, original: Element, k: nat, call: (nat, Received))
    requires k < |ds|
  {
    && call.0 == ds[k].id
    && exists current :: ElementLeft(kind, ds[k + 1..], original, current) && Receives(kind, current, call.1)
  }

  /** What `__decorateElement` comes to, from the decorators' outcomes alone. */
  ghost predicate DecoratedAs(
    kind: Kind, ds: seq<Decorator>, element: Element, r: Result<Element, Error>, calls: seq<(nat, Received)>)
  {
    && CallsRight(kind, ds, element, calls)
    && match r
       case Ok(left) =>
         |calls| == |ds| && (forall k :: 0 <= k < |ds| ==> Allowed(kind, ds[k].outcome))
         && ElementLeft(kind, ds, element, left)
       case Err(error) =>
         calls != [] && var k := |ds| - |calls|;
         && !Allowed(kind, ds[k].outcome) && FailsWith(kind, ds[k].outcome, error)
         && forall j :: k < j < |ds| ==> Allowed(kind, ds[j].outcome)
  }

  /** From the state before decorator `n - 1`, the decorators from `n` on having run. */
  lemma {:induction false} DecoratesFrom(kind: Kind, ds: seq<Decorator>, n: nat, element: Element, st: State)
    requires n <= |ds| && ElementLeft(kind, ds[n..], element, st.element)
    requires |st.calls| == |ds| - n && CallsRight(kind, ds, element, st.calls)
    requires forall j :: n <= j < |ds| ==> Allowed(kind, ds[j].outcome)
    ensures var (end, error) := ApplyAll(kind, ds[..n], st);
      DecoratedAs(kind, ds, element, if error.Some? then Err(error.value) else Ok(end.element), end.calls)
    decreases n
  {
    hide ElementLeft, CallRight, Allowed, FailsWith, Rejected, Replaced, Given, Added, Initializer, Receives;
    if n == 0 {
      assert ds[0..] == ds;
    } else {
      var d, k := ds[n - 1], n - 1;
      assert ds[..n][..k] == ds[..k] && ds[..n][k] == d;
      var call := (d.id, Given(kind, st.element));
      GivenIsReceived(kind, st.element);
      CallIsRight(kind, ds, element, k, st.element, call);
      RejectedExactly(kind, d.outcome);
      var (next, error) := ApplyOne(kind, d, st);
      assert next.calls == st.calls + [call];
      if error.None? {
        assert [d] + ds[n..] == ds[k..];
        OneLeaves(kind, d, ds[n..], element, st.element);
        DecoratesFrom(kind, ds, k, element, next);
      }
    }
  }

  lemma CallIsRight(
    kind: Kind, ds: seq<Decorator>, original: Element, k: nat, current: Element, call: (nat, Received))
    requires k < |ds| && ElementLeft(kind, ds[k + 1..], original, current)
    requires call.0 == ds[k].id && Receives(kind, current, call.1)
    ensures CallRight(kind, ds, original, k, call)
  {
  }

  /** The element, the calls and the error of a whole call, by its decorators' outcomes alone. */
  lemma DecorateMeans(slots: seq<Slot>, kind: Kind, isStatic: bool, ds: seq<Decorator>, element: Element)
    requires |slots| >= 4
    ensures var (_, st, error) := Decorate(slots, kind, isStatic, ds, element);
      DecoratedAs(kind, ds, element, if error.Some? then Err(error.value) else Ok(st.element), st.calls)
  {
    hide ElementLeft, DecoratedAs, ApplyAll;
    var start := State(element, [], FnsAt(slots, ExtraSlot(kind, isStatic, |slots|)), []);
    assert ds[|ds|..] == [] && ds[..|ds|] == ds;
    NothingLeaves(kind, element);
    DecoratesFrom(kind, ds, |ds|, element, start);
  }

  // ----- The order of decorators and of their initializers -----

  /** The initializers the decorators contribute, in source order. */
  function InSourceOrder(kind: Kind, ds: seq<Decorator>): seq<Fn> {
    if ds == [] then [] else Contributed(kind, ds[0].outcome) + InSourceOrder(kind, ds[1..])
  }

  /** A field's decorator contributes the function it returns, an accessor's the `init` of its object. */
  function Contributed(kind: Kind, outcome: Outcome): seq<Fn> {
    if kind.Field? && outcome.Function? then [outcome.fn]
    else if kind.Accessor? && outcome.Object? && outcome.init.Func? then [outcome.init.fn]
    else []
  }

  lemma AcceptedContributes(kind: Kind, outcome: Outcome)
    requires Rejected(kind, outcome) == None
    ensures Initializer(kind, outcome) == Contributed(kind, outcome)
  {
  }

  /** The decorators' identities, latest first. */
  function LastToFirst(ds: seq<Decorator>): seq<nat> {
    if ds == [] then [] else LastToFirst(ds[1..]) + [ds[0].id]
  }

  /** What `addInitializer` collects, the last decorator's first. */
  function ExtrasLastToFirst(ds: seq<Decorator>): seq<Fn> {
    if ds == [] then [] else ExtrasLastToFirst(ds[1..]) + Added(ds[0].adds)
  }

  function Ids(calls: seq<(nat, Received)>): (ids: seq<nat>)
    ensures |ids| == |calls|
  {
    seq<nat>(|calls|, k requires 0 <= k < |calls| => calls[k].0)
  }

  lemma {:induction false} PeelLast(kind: Kind, ds: seq<Decorator>, last: Decorator)
    ensures InSourceOrder(kind, ds + [last]) == InSourceOrder(kind, ds) + Contributed(kind, last.outcome)
    ensures LastToFirst(ds + [last]) == [last.id] + LastToFirst(ds)
    ensures ExtrasLastToFirst(ds + [last]) == Added(last.adds) + ExtrasLastToFirst(ds)
  {
    hide Contributed, Added;
    var all := ds + [last];
    if ds == [] {
      assert all == [last] && all[1..] == [];
    } else {
      assert all[0] == ds[0] && all[1..] == ds[1..] + [last];
      PeelLast(kind, ds[1..], last);
    }
  }

  /** Decorators are called last to first, yet their initializers end up in source order. */
  lemma {:induction false} ApplyAllOrder(kind: Kind, ds: seq<Decorator>, st: State)
    requires ApplyAll(kind, ds, st).1.None?
    ensures var end := ApplyAll(kind, ds, st).0;
      && end.initializers == InSourceOrder(kind, ds) + st.initializers
      && end.extras == st.extras + ExtrasLastToFirst(ds)
      && Ids(end.calls) == Ids(st.calls) + LastToFirst(ds)
  {
    hide Initializer, Contributed, Added, Replaced, Rejected;
    if ds != [] {
      var front, last := ds[..|ds| - 1], ds[|ds| - 1];
      assert ds == front + [last];
      PeelLast(kind, front, last);
      AcceptedContributes(kind, last.outcome);
      var next := ApplyOne(kind, last, st).0;
      ApplyAllOrder(kind, front, next);
      assert Ids(next.calls) == Ids(st.calls) + [last.id];
    }
  }

  /** A call that throws keeps what was added up to and by decorator `k`, the one it stopped at, and the
      initializers of those after it. */
  lemma {:induction false} StoppedOrder(kind: Kind, ds: seq<Decorator>, st: State) returns (k: nat)
    requires ApplyAll(kind, ds, st).1.Some?
    ensures k < |ds| && ApplyAll(kind, ds, st).1 == Rejected(kind, ds[k].outcome)
    ensures var end := ApplyAll(kind, ds, st).0;
      && end.initializers == InSourceOrder(kind, ds[k + 1..]) + st.initializers
      && end.extras == st.extras + ExtrasLastToFirst(ds[k..])
  {
    hide Initializer, Contributed, Added, Replaced, Rejected, Given, InSourceOrder, ExtrasLastToFirst;
    k := |ds| - 1;
    var front, last := ds[..k], ds[k];
    var (next, error) := ApplyOne(kind, last, st);
    if error.Some? {
      assert ds[k..] == [last] && ds[k + 1..] == [];
      LastAlone(kind, last);
      assert [] + st.initializers == st.initializers;
    } else {
      AcceptedContributes(kind, last.outcome);
      k := StoppedOrder(kind, front, next);
      assert ds[k..] == front[k..] + [last] && ds[k + 1..] == front[k + 1..] + [last];
      PeelLast(kind, front[k..], last);
      PeelLast(kind, front[k + 1..], last);
      Reassociate(InSourceOrder(kind, front[k + 1..]), Contributed(kind, last.outcome), st.initializers);
      Reassociate(st.extras, Added(last.adds), ExtrasLastToFirst(front[k..]));
    }
  }

  lemma LastAlone(kind: Kind, last: Decorator)
    ensures InSourceOrder(kind, []) == [] && ExtrasLastToFirst([last]) == Added(last.adds)
  {
    assert [last][1..] == [];
    assert ExtrasLastToFirst([]) == [];
  }

  lemma Reassociate(a: seq<Fn>, b: seq<Fn>, c: seq<Fn>)
    ensures a + b + c == a + (b + c)
  {
  }

  // ----- Whole classes -----

  datatype Item = Item(kind: Kind, isStatic: bool, decorators: seq<Decorator>, element: Element)

  /** The array after decorating a class's items in turn, or `None` when one of them throws. */
  function DecorateAll(slots: seq<Slot>, items: seq<Item>): (r: Option<seq<Slot>>)
    requires |slots| >= 4
    ensures r.Some? ==> |r.value| >= 4
  {
    if items == [] then Some(slots)
    else
      var last := items[|items| - 1];
      match DecorateAll(slots, items[..|items| - 1])
      case None => None
      case Some(before) =>
        var (after, _, error) := Decorate(before, last.kind, last.isStatic, last.decorators, last.element);
        if error.Some? then None else Some(after)
  }

  /** How many of the items are fields or accessors. */
  function Owners(items: seq<Item>): nat {
    if items == [] then 0
    else Owners(items[..|items| - 1]) + if OwnsSlots(items[|items| - 1].kind) then 1 else 0
  }

  /** The extra initializers of the items that share slot `j`, in the items' order. */
  function SharedExtras(items: seq<Item>, j: nat): seq<Fn> {
    if items == [] then []
    else
      var last := items[|items| - 1];
      SharedExtras(items[..|items| - 1], j)
        + if SharesSlot(last, j) then ExtrasLastToFirst(last.decorators) else []
  }

  /** Slot 0 is the class's own, 1 its static methods', getters' and setters', 2 those of instances. */
  predicate SharesSlot(it: Item, j: nat) {
    match it.kind
    case Class => j == 0
    case Field => false
    case Accessor => false
    case _ => j == if it.isStatic then 1 else 2
  }

  function Start(metadata: nat): seq<Slot> {
    [Hole, Hole, Hole, Metadata(metadata)]
  }

  /** Item `i`, a field or accessor, owns slots 4 + 2n and 5 + 2n, n being its place among them. */
  ghost predicate HasOwnSlots(slots: seq<Slot>, items: seq<Item>, i: nat) {
    i < |items| && OwnsSlots(items[i].kind) ==>
      var n := Owners(items[..i]);
      && 5 + 2 * n < |slots|
      && slots[4 + 2 * n] == Fns(InSourceOrder(items[i].kind, items[i].decorators))
      && slots[5 + 2 * n] == Fns(ExtrasLastToFirst(items[i].decorators))
  }

  ghost predicate SlotsRight(slots: seq<Slot>, items: seq<Item>, metadata: nat) {
    && |slots| == 4 + 2 * Owners(items) && slots[3] == Metadata(metadata)
    && (forall j :: 0 <= j < 3 ==> FnsAt(slots, j) == SharedExtras(items, j))
    && forall i: nat :: HasOwnSlots(slots, items, i)
  }

  /** Over any sequence of decorated items, each field or accessor keeps its own two slots, the class,
      static and instance extras gather in slots 0, 1 and 2, and slot 3 stays the metadata. */
  lemma {:induction false} SlotAllocation(items: seq<Item>, metadata: nat)
    requires DecorateAll(Start(metadata), items).Some?
    ensures SlotsRight(DecorateAll(Start(metadata), items).value, items, metadata)
  {
    hide Decorate, SlotsRight;
    if items == [] {
      StartRight(metadata);
    } else {
      var front, last := items[..|items| - 1], items[|items| - 1];
      assert items == front + [last];
      SlotAllocation(front, metadata);
      DecorateKeepsSlots(DecorateAll(Start(metadata), front).value, front, last, metadata);
    }
  }

  lemma StartRight(metadata: nat)
    ensures SlotsRight(Start(metadata), [], metadata)
  {
  }

  /** What a successful call leaves in the array. */
  lemma Decorated(slots: seq<Slot>, it: Item)
    requires |slots| >= 4 && Decorate(slots, it.kind, it.isStatic, it.decorators, it.element).2.None?
    ensures var after := Decorate(slots, it.kind, it.isStatic, it.decorators, it.element).0;
      var j := ExtraSlot(it.kind, it.isStatic, 4);
      after == if OwnsSlots(it.kind)
               then slots + [Fns(InSourceOrder(it.kind, it.decorators)), Fns(ExtrasLastToFirst(it.decorators))]
               else Pushed(slots, j, ExtrasLastToFirst(it.decorators))
  {
    hide ApplyAll, InSourceOrder, ExtrasLastToFirst;
    var j := ExtraSlot(it.kind, it.isStatic, |slots|);
    var start := State(it.element, [], FnsAt(slots, j), []);
    ApplyAllOrder(it.kind, it.decorators, start);
    var end := ApplyAll(it.kind, it.decorators, start).0;
    var inits, extras := InSourceOrder(it.kind, it.decorators), ExtrasLastToFirst(it.decorators);
    assert end.initializers == inits;
    if OwnsSlots(it.kind) {
      assert end.extras == extras;
    }
  }

  lemma OwnersAppend(front: seq<Item>, last: Item)
    ensures Owners(front + [last]) == Owners(front) + if OwnsSlots(last.kind) then 1 else 0
  {
    assert (front + [last])[..|front|] == front;
  }

  lemma SharedAppend(front: seq<Item>, last: Item, j: nat)
    ensures SharedExtras(front + [last], j)
         == SharedExtras(front, j)
            + if SharesSlot(last, j) then ExtrasLastToFirst(last.decorators) else []
  {
    hide ExtrasLastToFirst;
    assert (front + [last])[..|front|] == front;
  }

  /** An array that agrees past slot 3 keeps an earlier item's own slots. */
  lemma KeepsOwn(slots: seq<Slot>, after: seq<Slot>, front: seq<Item>, last: Item, i: nat)
    requires HasOwnSlots(slots, front, i) && i < |front| && |slots| <= |after|
    requires forall j :: 4 <= j < |slots| ==> after[j] == slots[j]
    ensures HasOwnSlots(after, front + [last], i)
  {
    hide InSourceOrder, ExtrasLastToFirst, Owners;
    assert (front + [last])[..i] == front[..i];
  }

  lemma GainsOwn(slots: seq<Slot>, front: seq<Item>, last: Item)
    requires |slots| == 4 + 2 * Owners(front)
    ensures var own := [Fns(InSourceOrder(last.kind, last.decorators)), Fns(ExtrasLastToFirst(last.decorators))];
      HasOwnSlots(slots + own, front + [last], |front|)
  {
    hide InSourceOrder, ExtrasLastToFirst, Owners;
    assert (front + [last])[..|front|] == front;
  }

  lemma DecorateKeepsSlots(slots: seq<Slot>, front: seq<Item>, last: Item, metadata: nat)
    requires |slots| >= 4 && SlotsRight(slots, front, metadata)
    requires Decorate(slots, last.kind, last.isStatic, last.decorators, last.element).2.None?
    ensures SlotsRight(Decorate(slots, last.kind, last.isStatic, last.decorators, last.element).0,
                       front + [last], metadata)
  {
    hide Decorate, InSourceOrder, ExtrasLastToFirst, Owners, SharedExtras, HasOwnSlots;
    var items := front + [last];
    Decorated(slots, last);
    OwnersAppend(front, last);
    var after := Decorate(slots, last.kind, last.isStatic, last.decorators, last.element).0;
    forall i: nat
      ensures HasOwnSlots(after, items, i)
    {
      if i < |front| {
        KeepsOwn(slots, after, front, last, i);
      } else if i == |front| && OwnsSlots(last.kind) {
        GainsOwn(slots, front, last);
      } else {
        OwnsNothing(after, items, i);
      }
    }
    forall j | 0 <= j < 3
      ensures FnsAt(after, j) == SharedExtras(items, j)
    {
      SharedAppend(front, last, j);
      assert SharedExtras(front, j) + [] == SharedExtras(front, j);
    }
  }

  lemma OwnsNothing(slots: seq<Slot>, items: seq<Item>, i: nat)
    requires i >= |items| || !OwnsSlots(items[i].kind)
    ensures HasOwnSlots(slots, items, i)
  {
  }

  lemma DecoratedPrefix(items: seq<Item>, metadata: nat, n: nat)
    requires n < |items|
    ensures var before := DecorateAll(Start(metadata), items[..n]);
      DecorateAll(Start(metadata), items[..n + 1]) ==
        if before.None? then None
        else
          var (after, _, error) :=
            Decorate(before.value, items[n].kind, items[n].isStatic, items[n].decorators, items[n].element);
          if error.Some? then None else Some(after)
  {
    hide Decorate;
    assert items[..n + 1][..n] == items[..n];
  }

  lemma {:induction false} FailsForGood(slots: seq<Slot>, items: seq<Item>, n: nat)
    requires |slots| >= 4 && n <= |items| && DecorateAll(slots, items[..n]).None?
    ensures DecorateAll(slots, items).None?
    decreases |items|
  {
    hide Decorate;
    if n < |items| {
      assert items[..|items| - 1][..n] == items[..n];
      FailsForGood(slots, items[..|items| - 1], n);
    } else {
      assert items[..n] == items;
    }
  }

  /** Decorates a class's items in turn, until one throws. */
  method DecorateClass(items: seq<Item>, metadata: nat) returns (decorated: DecoratorArray, error: Option<Error>)
    ensures fresh(decorated)
    ensures error.None? <==> DecorateAll(Start(metadata), items).Some?
    ensures error.None? ==> decorated.slots == DecorateAll(Start(metadata), items).value
  {
    hide Decorate;
    decorated := new DecoratorArray(metadata);
    for n := 0 to |items|
      invariant DecorateAll(Start(metadata), items[..n]) == Some(decorated.slots)
      invariant |decorated.slots| >= 4
    {
      DecoratedPrefix(items, metadata, n);
      var r, _ := decorated.DecorateElement(
        items[n].kind, items[n].isStatic, items[n].decorators, items[n].element);
      if r.Err? {
        FailsForGood(Start(metadata), items, n + 1);
        return decorated, Some(r.error);
      }
    }
    assert items[..|items|] == items;
    error := None;
  }

  /** Initializes field or accessor `i` of a decorated class with the flags its place gives: the value
      goes through its initializers in source order, then the extra ones are called for effect, the last
      decorator's first. There is no value when decorating the class throws. */
  method InitializeField<V>(items: seq<Item>, metadata: nat, i: nat, apply: (Fn, V) -> V, initial: V)
    returns (value: Option<V>, called: seq<Fn>, extras: seq<Fn>)
    requires i < |items| && OwnsSlots(items[i].kind)
    ensures value.Some? <==> DecorateAll(Start(metadata), items).Some?
    ensures value.Some? ==>
      && called == InSourceOrder(items[i].kind, items[i].decorators)
      && extras == ExtrasLastToFirst(items[i].decorators)
      && value == Some(Folded(apply, called, initial))
  {
    hide DecorateAll, Folded, InSourceOrder, ExtrasLastToFirst, Owners;
    var decorated, error := DecorateClass(items, metadata);
    if error.Some? {
      return None, [], [];
    }
    SlotAllocation(items, metadata);
    assert HasOwnSlots(decorated.slots, items, i);
    var n := Owners(items[..i]);
    var initialized;
    initialized, called := RunInitializers(decorated.slots, 2 * (4 + 2 * n), apply, initial);
    var done;
    done, extras := RunInitializers(decorated.slots, 2 * (5 + 2 * n) + 1, apply, initialized);
    value := Some(done);
  }
}
