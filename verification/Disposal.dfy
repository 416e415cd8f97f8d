/** `using` declarations: `__using` registers resources, `__callDispose` disposes of them, waiting
    for the async ones and chaining the errors. */
module Disposal {
  import opened Wrappers

  datatype Error = Thrown(id: nat) | TypeError(cause: UsingError) | SuppressedError(error: Error, suppressed: Error)

  /** How the value a dispose call returns settles once awaited. */
  datatype Settlement = Fulfils | Rejects(e: nat)

  /** What calling a dispose method does. */
  datatype Behaviour = Throws(e: nat) | Returns(settlement: Settlement)

  /** What `value[Symbol.dispose]` holds. */
  datatype Property = Absent | NotCallable | Method(behaviour: Behaviour)

  datatype Value =
    | Nullish
    | Primitive
    | Object(id: nat, asyncDispose: Property, dispose: Property)

  datatype UsingError = ObjectExpected | NotDisposable

  /** `[async, dispose, value]`; for a nullish `await using` value, `[async]` alone. */
  datatype Entry = Entry(async: bool, dispose: Option<Behaviour>, value: Value)

  function DisposeMethod(value: Value, async: bool): Property
    requires value.Object?
  {
    if async && value.asyncDispose != Absent then value.asyncDispose else value.dispose
  }

  function Using(stack: seq<Entry>, value: Value, async: bool): Result<seq<Entry>, UsingError> {
    match value
    case Nullish => Ok(if async then stack + [Entry(true, None, Nullish)] else stack)
    case Primitive => Err(ObjectExpected)
    case Object(_, _, _) =>
      match DisposeMethod(value, async)
      case Method(behaviour) => Ok(stack + [Entry(async, Some(behaviour), value)])
      case _ => Err(NotDisposable)
  }

  /** What a value's two properties give it to be disposed of with: the async method in an `await using`
      of a value that has one, otherwise the sync method. */
  predicate Picks(value: Value, async: bool, behaviour: Behaviour) {
    && value.Object?
    && (|| (async && value.asyncDispose == Method(behaviour))
        || ((async ==> value.asyncDispose == Absent) && value.dispose == Method(behaviour)))
  }

  /** No object, or one whose properties give nothing that can be called. */
  ghost predicate Refuses(value: Value, async: bool, error: UsingError) {
    match error
    case ObjectExpected => value.Primitive?
    case NotDisposable => value.Object? && forall b :: !Picks(value, async, b)
  }

  /** A block's stack of resources. */
  class Scope {
    var stack: seq<Entry>

    constructor ()
      ensures stack == []
    {
      stack := [];
    }

    /** `__using`: an entry for the value, with the method its properties give; a nullish value leaves one
        only in an `await using`. */
    method Use(value: Value, async: bool) returns (r: Result<Value, UsingError>)
      modifies this
      ensures r.Ok? ==> r.value == value
      ensures value.Nullish? ==>
        r.Ok? && stack == if async then old(stack) + [Entry(true, None, Nullish)] else old(stack)
      ensures value.Primitive? ==> r == Err(ObjectExpected)
      ensures value.Object? && async && value.asyncDispose.Method? ==>
        r.Ok? && stack == old(stack) + [Entry(true, Some(value.asyncDispose.behaviour), value)]
      ensures value.Object? && async && value.asyncDispose.NotCallable? ==> r == Err(NotDisposable)
      ensures value.Object? && (async ==> value.asyncDispose.Absent?) ==>
        if value.dispose.Method?
        then r.Ok? && stack == old(stack) + [Entry(async, Some(value.dispose.behaviour), value)]
        else r == Err(NotDisposable)
      ensures r.Err? ==> stack == old(stack)
      ensures Using(old(stack), value, async) == if r.Ok? then Ok(stack) else Err(r.error)
    {
      if value.Nullish? {
        if async {
          stack := stack + [Entry(true, None, value)];
        }
        return Ok(value);
      }
      if value.Primitive? {
        return Err(ObjectExpected);
      }
      var dispose := Absent;
      if async {
        dispose := value.asyncDispose;
      }
      if dispose.Absent? {
        dispose := value.dispose;
      }
      if !dispose.Method? {
        return Err(NotDisposable);
      }
      stack := stack + [Entry(async, Some(dispose.behaviour), value)];
      return Ok(value);
    }
  }

  /** What registering a value comes to, by its properties. */
  lemma UsingPicks(stack: seq<Entry>, value: Value, async: bool)
    ensures match Using(stack, value, async)
      case Ok(next) =>
        || (value.Nullish? && next == if async then stack + [Entry(true, None, Nullish)] else stack)
        || (exists b :: Picks(value, async, b) && next == stack + [Entry(async, Some(b), value)])
      case Err(error) => Refuses(value, async, error)
    ensures Using(stack, value, async).Ok? <==> forall error :: !Refuses(value, async, error)
  {
    var r := Using(stack, value, async);
    if r.Ok? && value.Object? {
      assert Picks(value, async, DisposeMethod(value, async).behaviour);
    } else if r.Err? {
      assert Refuses(value, async, r.error);
    }
  }

  // ----- What disposing of a stack amounts to, last entry first -----

  /** The dispose calls made. */
  function Calls(stack: seq<Entry>): seq<Value> {
    if stack == [] then []
    else
      var it := stack[|stack| - 1];
      (if it.dispose.Some? then [it.value] else []) + Calls(stack[..|stack| - 1])
  }

  predicate Awaited(it: Entry) {
    it.async && (it.dispose.Some? ==> it.dispose.value.Returns?)
  }

  /** The async entries whose call did not throw. */
  function Awaits(stack: seq<Entry>): seq<Entry> {
    if stack == [] then []
    else
      var it := stack[|stack| - 1];
      (if Awaited(it) then [it] else []) + Awaits(stack[..|stack| - 1])
  }

  /** A call that throws fails at once, and an awaited one when its result rejects. */
  function Failure(it: Entry): Option<nat> {
    match it.dispose
    case None => None
    case Some(Throws(e)) => Some(e)
    case Some(Returns(Fulfils)) => None
    case Some(Returns(Rejects(e))) => if it.async then Some(e) else None
  }

  function Failures(stack: seq<Entry>): seq<nat> {
    if stack == [] then []
    else
      var it := stack[|stack| - 1];
      (if Failure(it).Some? then [Failure(it).value] else []) + Failures(stack[..|stack| - 1])
  }

  /** Each later error suppresses what went before. */
  function Chain(error: Option<Error>, failures: seq<nat>): Option<Error>
    decreases |failures|
  {
    if failures == [] then error
    else
      var e := Thrown(failures[0]);
      Chain(Some(if error.Some? then SuppressedError(e, error.value) else e), failures[1..])
  }

  // ----- The disposal state machine -----

  datatype Outcome = Completed | Threw(error: Error)

  /** What a run of `next` comes to. */
  datatype Step = Awaiting(settlement: Settlement) | Ended(outcome: Outcome)

  class Disposer {
    var stack: seq<Entry>
    var error: Error
    var hasError: bool
    var calls: seq<Value>
    var awaits: seq<Entry>

    ghost function Pending(): Option<Error>
      reads this
    {
      if hasError then Some(error) else None
    }

    constructor (stack: seq<Entry>, error: Error, hasError: bool)
      ensures this.stack == stack && this.error == error && this.hasError == hasError
      ensures calls == [] && awaits == []
    {
      this.stack, this.error, this.hasError := stack, error, hasError;
      calls, awaits := [], [];
    }

    method Fail(e: nat)
      modifies this`error, this`hasError
      ensures Pending() == Chain(old(Pending()), [e])
    {
      if hasError {
        error := SuppressedError(Thrown(e), error);
      } else {
        hasError := true;
        error := Thrown(e);
      }
    }

    /** What is still to come, on top of what has happened, never changes. */
    ghost predicate SameRun(calls0: seq<Value>, awaits0: seq<Entry>, error0: Option<Error>)
      reads this
    {
      && calls + Calls(stack) == calls0
      && awaits + Awaits(stack) == awaits0
      && Chain(Pending(), Failures(stack)) == error0
    }

    /** Pops entries until one must be awaited or none is left. */
    method Next() returns (step: Step)
      modifies this
      ensures var calls0, awaits0, failures0 :=
                old(calls + Calls(stack)), old(awaits + Awaits(stack)), old(Chain(Pending(), Failures(stack)));
        match step
        case Awaiting(s) =>
          && |stack| < |old(stack)| && |awaits| == |old(awaits)| + 1
          && calls + Calls(stack) == calls0 && awaits + Awaits(stack) == awaits0
          && failures0 == Chain(if s.Rejects? then Chain(Pending(), [s.e]) else Pending(), Failures(stack))
        case Ended(outcome) =>
          && |stack| <= |old(stack)| && awaits == old(awaits)
          && calls == calls0 && awaits == awaits0
          && failures0 == if outcome.Threw? then Some(outcome.error) else None
    {
      hide Chain, Calls, Awaits, Failures;
      ghost var calls0, awaits0, failures0 :=
        calls + Calls(stack), awaits + Awaits(stack), Chain(Pending(), Failures(stack));
      while stack != []
        invariant |stack| <= |old(stack)| && awaits == old(awaits)
        invariant SameRun(calls0, awaits0, failures0)
      {
        var it := stack[|stack| - 1];
        ghost var was := Pending();
        PopEntry(stack);
        stack := stack[..|stack| - 1];
        ChainSplit(was, Failure(it), Failures(stack));
        var threw := false;
        var result := Fulfils;
        if it.dispose.Some? {
          calls := calls + [it.value];
          match it.dispose.value {
            case Throws(e) =>
              threw := true;
              Fail(e);
            case Returns(settlement) =>
              result := settlement;
          }
        }
        if it.async && !threw {
          awaits := awaits + [it];
          return Awaiting(result);
        }
      }
      ChainEnd(Pending());
      NoEntries();
      assert calls + [] == calls && awaits + [] == awaits;
      if hasError {
        return Ended(Threw(error));
      }
      return Ended(Completed);
    }
  }

  lemma NoEntries()
    ensures Calls([]) == [] && Awaits([]) == [] && Failures([]) == []
  {
  }

  lemma PopEntry(stack: seq<Entry>)
    requires stack != []
    ensures var it, rest := stack[|stack| - 1], stack[..|stack| - 1];
      && Calls(stack) == (if it.dispose.Some? then [it.value] else []) + Calls(rest)
      && Awaits(stack) == (if Awaited(it) then [it] else []) + Awaits(rest)
      && Failures(stack) == (if Failure(it).Some? then [Failure(it).value] else []) + Failures(rest)
  {
  }

  lemma ChainEnd(error: Option<Error>)
    ensures Chain(error, []) == error
  {
  }

  lemma ChainSplit(error: Option<Error>, first: Option<nat>, rest: seq<nat>)
    ensures Chain(error, (if first.Some? then [first.value] else []) + rest)
         == Chain(if first.Some? then Chain(error, [first.value]) else error, rest)
  {
    if first.Some? {
      var all := [first.value] + rest;
      assert all[1..] == rest && [first.value][1..] == [];
    } else {
      assert [] + rest == rest;
    }
  }

  /** Disposes of a whole stack, resuming after each await as the event loop would. Every entry with
      a dispose method is called once, last first; the async ones that did not throw are awaited;
      the errors chain up from the body's. The first run returns a promise exactly when something is
      awaited. */
  method CallDispose(stack: seq<Entry>, error: Error, hasError: bool)
    returns (outcome: Outcome, calls: seq<Value>, awaits: seq<Entry>, viaPromise: bool)
    ensures calls == Calls(stack) && awaits == Awaits(stack)
    ensures viaPromise <==> Awaits(stack) != []
    ensures outcome == match Chain(if hasError then Some(error) else None, Failures(stack))
      case Some(e) => Threw(e)
      case None => Completed
  {
    var d := new Disposer(stack, error, hasError);
    viaPromise := false;
    var step := d.Next();
    while step.Awaiting?
      invariant fresh(d)
      invariant match step
        case Awaiting(s) =>
          && d.calls + Calls(d.stack) == Calls(stack) && d.awaits + Awaits(d.stack) == Awaits(stack)
          && d.awaits != []
          && Chain(if s.Rejects? then Chain(d.Pending(), [s.e]) else d.Pending(), Failures(d.stack))
             == Chain(if hasError then Some(error) else None, Failures(stack))
        case Ended(o) =>
          && d.calls == Calls(stack) && d.awaits == Awaits(stack)
          && Chain(if hasError then Some(error) else None, Failures(stack))
             == if o.Threw? then Some(o.error) else None
      invariant viaPromise ==> d.awaits != []
      invariant step.Ended? ==> viaPromise == (d.awaits != [])
      decreases |d.stack|, step.Awaiting?
    {
      viaPromise := true;
      if step.settlement.Rejects? {
        d.Fail(step.settlement.e);
      }
      step := d.Next();
    }
    return step.outcome, d.calls, d.awaits, viaPromise;
  }

  // ----- No error is lost -----

  /** The errors a chained error holds, oldest first. */
  function Held(e: Error): seq<Error> {
    match e
    case SuppressedError(error, suppressed) => Held(suppressed) + Held(error)
    case _ => [e]
  }

  function HeldBy(error: Option<Error>): seq<Error> {
    if error.None? then [] else Held(error.value)
  }

  function AsThrown(failures: seq<nat>): (r: seq<Error>)
    ensures |r| == |failures| && forall k :: 0 <= k < |r| ==> r[k] == Thrown(failures[k])
  {
    seq(|failures|, k requires 0 <= k < |failures| => Thrown(failures[k]))
  }

  lemma {:induction false} ChainHoldsAll(error: Option<Error>, failures: seq<nat>)
    ensures HeldBy(Chain(error, failures)) == HeldBy(error) + AsThrown(failures)
    decreases |failures|
  {
    hide HeldBy, AsThrown;
    if failures == [] {
      NothingThrown();
      NothingMore(HeldBy(error));
    } else {
      var e := Thrown(failures[0]);
      var next := if error.Some? then SuppressedError(e, error.value) else e;
      ChainHoldsAll(Some(next), failures[1..]);
      OneMoreHeld(error, failures[0]);
      FirstThrown(failures);
      Reassociate(HeldBy(error), [e], AsThrown(failures[1..]));
    }
  }

  lemma NothingThrown()
    ensures AsThrown([]) == []
  {
  }

  lemma FirstThrown(failures: seq<nat>)
    requires failures != []
    ensures AsThrown(failures) == [Thrown(failures[0])] + AsThrown(failures[1..])
  {
  }

  lemma OneMoreHeld(error: Option<Error>, e: nat)
    ensures HeldBy(Some(if error.Some? then SuppressedError(Thrown(e), error.value) else Thrown(e)))
         == HeldBy(error) + [Thrown(e)]
  {
    assert Held(Thrown(e)) == [Thrown(e)];
  }

  /** Each error suppresses the one before it, so the chain hangs together the same way throughout. */
  lemma ChainLast(error: Option<Error>, failures: seq<nat>, last: nat)
    ensures var before := Chain(error, failures);
      Chain(error, failures + [last])
        == Some(if before.None? then Thrown(last) else SuppressedError(Thrown(last), before.value))
    decreases |failures|
  {
    if failures != [] {
      var e := Thrown(failures[0]);
      assert (failures + [last])[1..] == failures[1..] + [last];
      ChainLast(Some(if error.Some? then SuppressedError(e, error.value) else e), failures[1..], last);
    }
  }

  // ----- Whole blocks -----

  datatype Declaration = Declaration(value: Value, async: bool)

  /** The stack after a block's declarations, or the error of the first one refused. */
  function Declare(stack: seq<Entry>, ds: seq<Declaration>): Result<seq<Entry>, UsingError>
    decreases |ds|
  {
    if ds == [] then Ok(stack)
    else
      var next :- Using(stack, ds[0].value, ds[0].async);
      Declare(next, ds[1..])
  }

  /** The resources among the declarations, latest first. */
  function Resources(ds: seq<Declaration>): seq<Value> {
    if ds == [] then [] else Resources(ds[1..]) + if ds[0].value.Object? then [ds[0].value] else []
  }

  /** An `await using` of a nullish value, or of a resource whose method returns. */
  ghost predicate WillAwait(d: Declaration) {
    d.async && (d.value.Nullish? || exists s :: Picks(d.value, true, Returns(s)))
  }

  /** The values awaited, latest first. */
  ghost function WaitedFor(ds: seq<Declaration>): seq<Value> {
    if ds == [] then [] else WaitedFor(ds[1..]) + if WillAwait(ds[0]) then [ds[0].value] else []
  }

  /** The method throws, or what it returns is awaited and rejects. */
  predicate FailsWith(d: Declaration, e: nat) {
    Picks(d.value, d.async, Throws(e)) || (d.async && Picks(d.value, true, Returns(Rejects(e))))
  }

  ghost function FailureOf(d: Declaration): (r: Option<nat>)
    ensures r.Some? ==> FailsWith(d, r.value)
    ensures r.None? ==> forall e: nat :: !FailsWith(d, e)
  {
    if exists e: nat :: FailsWith(d, e) then
      var e: nat :| FailsWith(d, e);
      Some(e)
    else None
  }

  /** The errors of the resources' own methods, latest first. */
  ghost function OwnFailures(ds: seq<Declaration>): seq<nat> {
    if ds == [] then []
    else OwnFailures(ds[1..]) + if FailureOf(ds[0]).Some? then [FailureOf(ds[0]).value] else []
  }

  function Values(entries: seq<Entry>): (r: seq<Value>)
    ensures |r| == |entries| && forall k :: 0 <= k < |r| ==> r[k] == entries[k].value
  {
    seq(|entries|, k requires 0 <= k < |entries| => entries[k].value)
  }

  /** One more entry on the stack is what its declaration says. */
  lemma UsedEntry(stack: seq<Entry>, d: Declaration)
    requires Using(stack, d.value, d.async).Ok?
    ensures var next := Using(stack, d.value, d.async).value;
      && Calls(next) == (if d.value.Object? then [d.value] else []) + Calls(stack)
      && Values(Awaits(next)) == (if WillAwait(d) then [d.value] else []) + Values(Awaits(stack))
      && Failures(next) == (if FailureOf(d).Some? then [FailureOf(d).value] else []) + Failures(stack)
  {
    var next := Using(stack, d.value, d.async).value;
    UsingPicks(stack, d.value, d.async);
    if d.value.Nullish? && !d.async {
      assert forall e: nat :: !FailsWith(d, e);
      assert [] + Values(Awaits(stack)) == Values(Awaits(stack)) && [] + Calls(stack) == Calls(stack);
      assert [] + Failures(stack) == Failures(stack);
    } else {
      var it := next[|next| - 1];
      assert next[..|next| - 1] == stack;
      PopEntry(next);
      if d.value.Object? {
        OnePick(d.value, d.async, it.dispose.value);
        assert Awaited(it) <==> WillAwait(d);
        assert Failure(it) == FailureOf(d) by {
          assert forall e: nat :: FailsWith(d, e) <==> Failure(it) == Some(e);
        }
      }
    }
  }

  lemma OnePick(value: Value, async: bool, behaviour: Behaviour)
    requires Picks(value, async, behaviour)
    ensures forall b :: Picks(value, async, b) ==> b == behaviour
  {
  }

  lemma Reassociate<T>(a: seq<T>, b: seq<T>, c: seq<T>)
    ensures a + b + c == a + (b + c)
  {
  }

  /** Every declared resource is disposed of exactly once, in reverse order; what is awaited and what fails
      are the declarations', in the same order. */
  lemma {:induction false} DeclaredAreDisposed(stack: seq<Entry>, ds: seq<Declaration>)
    requires Declare(stack, ds).Ok?
    ensures var next := Declare(stack, ds).value;
      && Calls(next) == Resources(ds) + Calls(stack)
      && Values(Awaits(next)) == WaitedFor(ds) + Values(Awaits(stack))
      && Failures(next) == OwnFailures(ds) + Failures(stack)
    decreases |ds|
  {
    hide Using, WillAwait, FailureOf, Calls, Awaits, Failures, Values;
    if ds != [] {
      var d := ds[0];
      var next := Using(stack, d.value, d.async).value;
      UsedEntry(stack, d);
      DeclaredAreDisposed(next, ds[1..]);
      Reassociate(Resources(ds[1..]), if d.value.Object? then [d.value] else [], Calls(stack));
      Reassociate(WaitedFor(ds[1..]), if WillAwait(d) then [d.value] else [], Values(Awaits(stack)));
      Reassociate(OwnFailures(ds[1..]), if FailureOf(d).Some? then [FailureOf(d).value] else [], Failures(stack));
    } else {
      assert [] + Values(Awaits(stack)) == Values(Awaits(stack));
    }
  }

  lemma {:induction false} DeclareOneMore(stack: seq<Entry>, ds: seq<Declaration>, n: nat)
    requires n < |ds| && Declare(stack, ds[..n]).Ok?
    ensures Declare(stack, ds[..n + 1]) == Using(Declare(stack, ds[..n]).value, ds[n].value, ds[n].async)
    decreases n
  {
    hide Using;
    if n > 0 {
      var next := Using(stack, ds[0].value, ds[0].async).value;
      assert ds[..n][1..] == ds[1..][..n - 1] && ds[..n + 1][1..] == ds[1..][..n];
      DeclareOneMore(next, ds[1..], n - 1);
    } else {
      assert ds[..1][1..] == [];
    }
  }

  ghost predicate Refused(d: Declaration) {
    exists error :: Refuses(d.value, d.async, error)
  }

  /** The error a block is left with before its resources are disposed of: that of the declaration `done`
      if it was refused, otherwise the body's. */
  ghost predicate LeftWith(ds: seq<Declaration>, done: nat, body: Option<nat>, errors: seq<Error>) {
    if done < |ds| then
      exists error :: Refuses(ds[done].value, ds[done].async, error) && errors == [TypeError(error)]
    else errors == if body.Some? then [Thrown(body.value)] else []
  }

  /** A block from its declarations to its end: they run up to the first refused one, and the body only if
      there is none; then the resources are disposed of. Every error is in the one thrown. */
  method RunBlock(ds: seq<Declaration>, body: Option<nat>)
    returns (outcome: Outcome, calls: seq<Value>, awaits: seq<Value>, viaPromise: bool, done: nat)
    ensures done <= |ds| && (forall k :: 0 <= k < done ==> !Refused(ds[k])) && (done < |ds| ==> Refused(ds[done]))
    ensures calls == Resources(ds[..done]) && awaits == WaitedFor(ds[..done])
    ensures viaPromise <==> WaitedFor(ds[..done]) != []
    ensures exists errors ::
      && LeftWith(ds, done, body, errors)
      && HeldBy(if outcome.Threw? then Some(outcome.error) else None) == errors + AsThrown(OwnFailures(ds[..done]))
  {
    hide Using, Resources, WaitedFor, OwnFailures, Refuses, Chain, Held, Calls, Awaits, Failures, Declare;
    var scope := new Scope();
    var error := None;
    done := 0;
    DeclareNothing(ds);
    while done < |ds|
      invariant done <= |ds| && error == None && Declare([], ds[..done]) == Ok(scope.stack)
      invariant forall k :: 0 <= k < done ==> !Refused(ds[k])
    {
      ghost var before := scope.stack;
      DeclareOneMore([], ds, done);
      UsingPicks(before, ds[done].value, ds[done].async);
      var used := scope.Use(ds[done].value, ds[done].async);
      if used.Err? {
        error := Some(TypeError(used.error));
        break;
      }
      done := done + 1;
    }
    if done == |ds| && body.Some? {
      error := Some(Thrown(body.value));
    }
    var entries;
    outcome, calls, entries, viaPromise :=
      CallDispose(scope.stack, if error.Some? then error.value else Thrown(0), error.Some?);
    awaits := Values(entries);
    DeclaredAreDisposed([], ds[..done]);
    NoEntries();
    ChainHoldsAll(error, Failures(scope.stack));
    NothingMore(Resources(ds[..done]));
    NothingMore(WaitedFor(ds[..done]));
    NothingMore(OwnFailures(ds[..done]));
    HeldOnce(error);
    assert LeftWith(ds, done, body, HeldBy(error));
  }

  lemma DeclareNothing(ds: seq<Declaration>)
    ensures Declare([], ds[..0]) == Ok([])
  {
  }

  lemma NothingMore<T>(s: seq<T>)
    ensures s + [] == s
  {
  }

  lemma HeldOnce(error: Option<Error>)
    requires error.Some? ==> !error.value.SuppressedError?
    ensures HeldBy(error) == if error.Some? then [error.value] else []
  {
  }
}
