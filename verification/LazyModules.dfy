/** The run-once wrappers around module bodies: `__esm` and `__commonJS` over any import graph. */
module LazyModules {
  import opened Wrappers
  import opened Sets

  type Id = nat

  datatype Kind = Esm | CommonJs

  /** What a module body does next: run some code, assign `module.exports`, call another module's
      wrapper, or throw. The assignment means something in a CommonJS body only. */
  datatype Action = Work | Assign | Import(dep: Id) | Throw

  datatype Module = Module(kind: Kind, body: seq<Action>)

  type Graph = seq<Module>

  /** What calling a wrapper returns. A CommonJS module has the object it was given, or what some step
      of its body assigned instead, from the start; an ES body's result is there once it has returned. */
  datatype Value = Undefined | ResultOf(id: Id) | ExportsOf(id: Id, replacement: Option<nat>)

  datatype Event =
    | Started(id: Id)
    | Worked(id: Id, step: nat)
    | Assigned(id: Id, step: nat)
    | Imported(id: Id, step: nat, dep: Id, value: Value)
    | Finished(id: Id)

  datatype State = State(pending: set<Id>, trace: seq<Event>)

  ghost predicate Closed(g: Graph) {
    forall m, k :: 0 <= m < |g| && 0 <= k < |g[m].body| && g[m].body[k].Import? ==> g[m].body[k].dep < |g|
  }

  predicate Imports(g: Graph, m: Id, d: Id) {
    m < |g| && Import(d) in g[m].body
  }

  /** The step whose assignment `module.exports` holds; `None` for the object it was given. */
  function LastExports(trace: seq<Event>, m: Id): Option<nat> {
    if trace == [] then None
    else
      var last := trace[|trace| - 1];
      if last.Assigned? && last.id == m then Some(last.step) else LastExports(trace[..|trace| - 1], m)
  }

  /** The last assignment among a body's first `k` steps. */
  function LastAssign(body: seq<Action>, k: nat): Option<nat>
    requires k <= |body|
  {
    if k == 0 then None else if body[k - 1].Assign? then Some(k - 1) else LastAssign(body, k - 1)
  }

  /** What a module comes to once its body has run to its end. */
  function FinalValue(g: Graph, m: Id): Value
    requires m < |g|
  {
    if g[m].kind.CommonJs? then ExportsOf(m, LastAssign(g[m].body, |g[m].body|)) else ResultOf(m)
  }

  function Ran(action: Action, m: Id, k: nat): (e: Event)
    ensures !e.Started? && !e.Finished? && !e.Imported? && e.id == m && e.step == k
  {
    if action.Assign? then Assigned(m, k) else Worked(m, k)
  }

  function Returned(g: Graph, trace: seq<Event>, m: Id): Value
    requires m < |g|
  {
    if g[m].kind.CommonJs? then ExportsOf(m, LastExports(trace, m))
    else if Finished(m) in trace then ResultOf(m)
    else Undefined
  }

  /** Calling a wrapper: the body runs only if it is still pending, and stops being pending before
      it runs. The second component is `None` when the call throws. */
  ghost function Call(g: Graph, st: State, m: Id): (r: (State, Option<Value>))
    requires Closed(g) && m < |g|
    ensures r.0.pending <= st.pending
    decreases |st.pending|, 0
  {
    if m !in st.pending then (st, Some(Returned(g, st.trace, m)))
    else
      var (after, ok) := Body(g, State(st.pending - {m}, st.trace + [Started(m)]), m, 0);
      if !ok then (after, None)
      else
        var done := after.(trace := after.trace + [Finished(m)]);
        (done, Some(Returned(g, done.trace, m)))
  }

  /** A body from its k-th step on; false when it throws. */
  ghost function Body(g: Graph, st: State, m: Id, k: nat): (r: (State, bool))
    requires Closed(g) && m < |g| && k <= |g[m].body|
    ensures r.0.pending <= st.pending
    decreases |st.pending|, 1 + |g[m].body| - k
  {
    if k == |g[m].body| then (st, true)
    else match g[m].body[k]
      case Throw => (st, false)
      case Import(d) =>
        var (after, value) := Call(g, st, d);
        if value.None? then (after, false)
        else
          SubsetSize(after.pending, st.pending);
          Body(g, after.(trace := after.trace + [Imported(m, k, d, value.value)]), m, k + 1)
      case action => Body(g, st.(trace := st.trace + [Ran(action, m, k)]), m, k + 1)
  }

  /** The module ids below `n`. */
  function Ids(n: nat): (s: set<Id>)
    ensures forall m: Id :: m in s <==> m < n
  {
    if n == 0 then {} else Ids(n - 1) + {n - 1}
  }

  ghost function Unstarted(g: Graph): State {
    State(Ids(|g|), [])
  }

  // ----- The wrappers as closures over their captured variables -----

  class Runtime {
    const g: Graph
    /** ES modules whose `fn` is still set. */
    var fn: set<Id>
    /** ES modules whose `res` has been assigned. */
    var res: set<Id>
    /** The `exports` of the CommonJS modules whose `mod` has been created. */
    var mod: map<Id, Option<nat>>
    ghost var trace: seq<Event>

    ghost predicate Valid()
      reads this
    {
      && Closed(g)
      && (forall m :: m in fn ==> m < |g|)
      && (forall m: Id :: m in res <==> m < |g| && g[m].kind.Esm? && Finished(m) in trace)
      && forall m: Id :: m < |g| && g[m].kind.CommonJs? ==> LastExports(trace, m) == if m in mod then mod[m] else None
    }

    ghost function View(): State
      reads this
    {
      State((set m: Id | m in Ids(|g|) && (if g[m].kind.Esm? then m in fn else m !in mod)), trace)
    }

    constructor (g: Graph)
      requires Closed(g)
      ensures Valid() && this.g == g && View() == Unstarted(g)
    {
      this.g := g;
      fn := Ids(|g|);
      res, mod, trace := {}, map[], [];
    }

    /** Calling a module's wrapper. */
    method Invoke(m: Id) returns (r: Option<Value>)
      requires Valid() && m < |g|
      modifies this
      ensures Valid() && (View(), r) == Call(g, old(View()), m) && old(mod).Keys <= mod.Keys
      decreases |View().pending|, 1
    {
      hide Call;
      if g[m].kind.Esm? {
        r := InvokeEsm(m);
      } else {
        r := InvokeCommonJs(m);
      }
    }

    /** `__esm`: runs the function while it is set, clearing it first, keeps what it returns and hands
        that over. */
    method InvokeEsm(m: Id) returns (r: Option<Value>)
      requires Valid() && m < |g| && g[m].kind.Esm?
      modifies this
      ensures Valid() && (View(), r) == Call(g, old(View()), m) && old(mod).Keys <= mod.Keys
      decreases |View().pending|, 0
    {
      hide LastExports;
      if m in fn {
        ClearFunction(m);
        var ok := RunBody(m, 0);
        if !ok {
          return None;
        }
        KeepResult(m);
      }
      return Some(if m in res then ResultOf(m) else Undefined);
    }

    method ClearFunction(m: Id)
      requires Valid() && m < |g| && g[m].kind.Esm? && m in fn
      modifies this`fn, this`trace
      ensures Valid() && m in old(View()).pending
      ensures View() == State(old(View()).pending - {m}, old(View()).trace + [Started(m)])
    {
      hide LastExports;
      fn := fn - {m};
      ExportsAppend(trace, Started(m));
      trace := trace + [Started(m)];
      assert View().pending == old(View()).pending - {m};
    }

    method KeepResult(m: Id)
      requires Valid() && m < |g| && g[m].kind.Esm?
      modifies this`res, this`trace
      ensures Valid() && View() == old(View()).(trace := old(View()).trace + [Finished(m)])
    {
      hide LastExports;
      res := res + {m};
      ExportsAppend(trace, Finished(m));
      trace := trace + [Finished(m)];
      assert View().pending == old(View()).pending;
    }

    /** `__commonJS`: runs the callback while there is no module object, making one first, and hands
        over the object's exports. */
    method InvokeCommonJs(m: Id) returns (r: Option<Value>)
      requires Valid() && m < |g| && g[m].kind.CommonJs?
      modifies this
      ensures Valid() && (View(), r) == Call(g, old(View()), m) && old(mod).Keys <= mod.Keys
      decreases |View().pending|, 0
    {
      hide LastExports;
      if m !in mod {
        MakeModule(m);
        var ok := RunBody(m, 0);
        if !ok {
          return None;
        }
        Log(Finished(m));
      }
      return Some(ExportsOf(m, mod[m]));
    }

    method MakeModule(m: Id)
      requires Valid() && m < |g| && g[m].kind.CommonJs? && m !in mod
      modifies this`mod, this`trace
      ensures Valid() && m in old(View()).pending && mod == old(mod)[m := None]
      ensures View() == State(old(View()).pending - {m}, old(View()).trace + [Started(m)])
    {
      hide LastExports;
      mod := mod[m := None];
      ExportsAppend(trace, Started(m));
      trace := trace + [Started(m)];
      assert View().pending == old(View()).pending - {m};
    }

    method RunBody(m: Id, k: nat) returns (ok: bool)
      requires Valid() && m < |g| && k <= |g[m].body| && (g[m].kind.CommonJs? ==> m in mod)
      modifies this
      ensures Valid() && (View(), ok) == Body(g, old(View()), m, k) && old(mod).Keys <= mod.Keys
      decreases |View().pending|, 2 + |g[m].body| - k
    {
      hide LastExports, Call;
      if k == |g[m].body| {
        return true;
      }
      match g[m].body[k] {
        case Throw =>
          return false;
        case Import(d) =>
          var value := Invoke(d);
          if value.None? {
            return false;
          }
          SubsetSize(View().pending, old(View()).pending);
          Log(Imported(m, k, d, value.value));
          ok := RunBody(m, k + 1);
        case _ =>
          RunStep(m, k);
          ok := RunBody(m, k + 1);
      }
    }

    /** A step that neither imports nor throws. */
    method RunStep(m: Id, k: nat)
      requires Valid() && m < |g| && k < |g[m].body| && (g[m].kind.CommonJs? ==> m in mod)
      modifies this`mod, this`trace
      ensures Valid() && View() == old(View()).(trace := old(View()).trace + [Ran(g[m].body[k], m, k)])
      ensures mod.Keys == old(mod).Keys
    {
      hide LastExports;
      var action := g[m].body[k];
      ExportsAppend(trace, Ran(action, m, k));
      if action.Assign? && g[m].kind.CommonJs? {
        mod := mod[m := Some(k)];
      }
      trace := trace + [Ran(action, m, k)];
      assert View().pending == old(View()).pending;
    }

    ghost method Log(e: Event)
      requires Valid() && !e.Assigned? && (e.Finished? ==> e.id < |g| && g[e.id].kind.CommonJs?)
      modifies this`trace
      ensures Valid() && View() == old(View()).(trace := old(View()).trace + [e])
    {
      hide LastExports;
      ExportsAppend(trace, e);
      trace := trace + [e];
      assert View().pending == old(View()).pending;
    }
  }

  lemma ExportsAppend(trace: seq<Event>, e: Event)
    ensures forall m :: LastExports(trace + [e], m)
                        == if e.Assigned? && e.id == m then Some(e.step) else LastExports(trace, m)
  {
    assert (trace + [e])[..|trace|] == trace;
  }

  // ----- Import paths -----

  /** A walk along imports. */
  ghost predicate Path(g: Graph, p: seq<Id>) {
    p != [] && forall i :: 0 <= i < |p| - 1 ==> Imports(g, p[i], p[i + 1])
  }

  ghost predicate Connects(g: Graph, p: seq<Id>, a: Id, b: Id) {
    Path(g, p) && p[0] == a && p[|p| - 1] == b
  }

  ghost predicate Reachable(g: Graph, a: Id, b: Id) {
    exists p :: Connects(g, p, a, b)
  }

  /** Following imports from `m` can come back to it. */
  ghost predicate OnCycle(g: Graph, m: Id) {
    exists d :: Imports(g, m, d) && Reachable(g, d, m)
  }

  lemma ReachesItself(g: Graph, a: Id)
    ensures Reachable(g, a, a)
  {
    assert Connects(g, [a], a, a);
  }

  lemma ReachThroughImport(g: Graph, a: Id, d: Id, b: Id)
    requires Imports(g, a, d) && Reachable(g, d, b)
    ensures Reachable(g, a, b)
  {
    var p :| Connects(g, p, d, b);
    assert Connects(g, [a] + p, a, b);
  }

  // ----- Every graph: bodies start at most once, and only when reachable -----

  ghost predicate StartedOnce(g: Graph, st: State) {
    && (forall m: Id :: m in st.pending ==> m < |g| && Started(m) !in st.trace)
    && (forall m: Id :: m < |g| && m !in st.pending ==> Started(m) in st.trace)
    && (forall i, j :: 0 <= i < j < |st.trace| && st.trace[i].Started? ==> st.trace[i] != st.trace[j])
  }

  ghost predicate OnlyReaches(g: Graph, m: Id, before: seq<Event>, after: seq<Event>) {
    && before <= after
    && forall x :: Started(x) in after ==> Started(x) in before || Reachable(g, m, x)
  }

  lemma LogKeepsOnce(g: Graph, st: State, e: Event)
    requires StartedOnce(g, st) && !e.Started?
    ensures StartedOnce(g, st.(trace := st.trace + [e]))
  {
    var after := st.trace + [e];
    assert forall m :: Started(m) in after <==> Started(m) in st.trace;
  }

  lemma StartKeepsOnce(g: Graph, st: State, m: Id)
    requires StartedOnce(g, st) && m in st.pending
    ensures StartedOnce(g, State(st.pending - {m}, st.trace + [Started(m)]))
    ensures OnlyReaches(g, m, st.trace, st.trace + [Started(m)])
  {
    var after := st.trace + [Started(m)];
    assert forall x :: Started(x) in after <==> x == m || Started(x) in st.trace;
    ReachesItself(g, m);
  }

  lemma OnlyReachesChain(g: Graph, m: Id, d: Id, a: seq<Event>, b: seq<Event>, c: seq<Event>)
    requires OnlyReaches(g, m, a, b) && OnlyReaches(g, d, b, c) && (m == d || Imports(g, m, d))
    ensures OnlyReaches(g, m, a, c)
  {
    forall x | Started(x) in c
      ensures Started(x) in a || Reachable(g, m, x)
    {
      if Started(x) !in b && m != d {
        ReachThroughImport(g, m, d, x);
      }
    }
  }

  lemma LogReaches(g: Graph, m: Id, trace: seq<Event>, e: Event)
    requires !e.Started?
    ensures OnlyReaches(g, m, trace, trace + [e])
  {
  }

  lemma {:induction false} CallOnce(g: Graph, st: State, m: Id)
    requires Closed(g) && m < |g| && StartedOnce(g, st)
    ensures StartedOnce(g, Call(g, st, m).0)
    ensures OnlyReaches(g, m, st.trace, Call(g, st, m).0.trace)
    decreases |st.pending|, 0
  {
    hide StartedOnce, OnlyReaches;
    if m in st.pending {
      var begun := State(st.pending - {m}, st.trace + [Started(m)]);
      StartKeepsOnce(g, st, m);
      BodyOnce(g, begun, m, 0);
      var (after, ok) := Body(g, begun, m, 0);
      OnlyReachesChain(g, m, m, st.trace, begun.trace, after.trace);
      if ok {
        LogKeepsOnce(g, after, Finished(m));
        LogReaches(g, m, after.trace, Finished(m));
        OnlyReachesChain(g, m, m, st.trace, after.trace, after.trace + [Finished(m)]);
      }
    } else {
      Unchanged(g, m, st.trace);
    }
  }

  lemma Unchanged(g: Graph, m: Id, trace: seq<Event>)
    ensures OnlyReaches(g, m, trace, trace)
  {
  }

  lemma {:induction false} BodyOnce(g: Graph, st: State, m: Id, k: nat)
    requires Closed(g) && m < |g| && k <= |g[m].body| && StartedOnce(g, st)
    ensures StartedOnce(g, Body(g, st, m, k).0)
    ensures OnlyReaches(g, m, st.trace, Body(g, st, m, k).0.trace)
    decreases |st.pending|, 1 + |g[m].body| - k
  {
    hide StartedOnce, OnlyReaches;
    Unchanged(g, m, st.trace);
    if k < |g[m].body| {
      match g[m].body[k] {
        case Throw =>
        case Import(d) =>
          assert Imports(g, m, d);
          CallOnce(g, st, d);
          var (after, value) := Call(g, st, d);
          OnlyReachesChain(g, m, d, st.trace, st.trace, after.trace);
          if value.Some? {
            SubsetSize(after.pending, st.pending);
            var next := after.(trace := after.trace + [Imported(m, k, d, value.value)]);
            LogKeepsOnce(g, after, Imported(m, k, d, value.value));
            LogReaches(g, m, after.trace, Imported(m, k, d, value.value));
            OnlyReachesChain(g, m, m, st.trace, after.trace, next.trace);
            BodyOnce(g, next, m, k + 1);
            OnlyReachesChain(g, m, m, st.trace, next.trace, Body(g, next, m, k + 1).0.trace);
          }
        case action =>
          var e := Ran(action, m, k);
          var next := st.(trace := st.trace + [e]);
          LogKeepsOnce(g, st, e);
          LogReaches(g, m, st.trace, e);
          BodyOnce(g, next, m, k + 1);
          OnlyReachesChain(g, m, m, st.trace, next.trace, Body(g, next, m, k + 1).0.trace);
      }
    }
  }

  // ----- Every graph: what has run, and in which order -----

  /** Dependency `d` of `m` has finished by then, unless it is waiting for `m` around a cycle. */
  ghost predicate Ready(g: Graph, prior: seq<Event>, m: Id, d: Id) {
    Finished(d) in prior || Reachable(g, d, m)
  }

  /** The body of `m` has begun, and the imports among its first `k` steps were ready. */
  ghost predicate ReadyUpTo(g: Graph, prior: seq<Event>, m: Id, k: nat) {
    m < |g| && Started(m) in prior && forall j :: 0 <= j < k && j < |g[m].body| && g[m].body[j].Import? ==>
      Ready(g, prior, m, g[m].body[j].dep)
  }

  /** `module.exports` holds the last assignment of the first `k` steps of `m`. */
  ghost predicate ExportsUpTo(g: Graph, prior: seq<Event>, m: Id, k: nat) {
    m < |g| && k <= |g[m].body| && LastExports(prior, m) == LastAssign(g[m].body, k)
  }

  /** What an event says about the events before it. */
  ghost predicate Justified(g: Graph, prior: seq<Event>, e: Event) {
    match e
    case Started(_) => true
    case Worked(m, k) => ReadyUpTo(g, prior, m, k)
    case Assigned(m, k) => ReadyUpTo(g, prior, m, k) && Finished(m) !in prior
    case Imported(m, k, d, value) =>
      && ReadyUpTo(g, prior, m, k) && d < |g| && Imports(g, m, d) && Ready(g, prior, m, d)
      && value == Returned(g, prior, d)
    case Finished(m) =>
      m < |g| && Throw !in g[m].body && ReadyUpTo(g, prior, m, |g[m].body|) && ExportsUpTo(g, prior, m, |g[m].body|)
  }

  ghost predicate AllJustified(g: Graph, trace: seq<Event>) {
    forall i :: 0 <= i < |trace| ==> Justified(g, trace[..i], trace[i])
  }

  /** The modules begun but not finished are those on the call stack, each importing the next. */
  ghost predicate OnStack(g: Graph, st: State, stack: seq<Id>) {
    && (stack == [] || Path(g, stack))
    && (forall i, j :: 0 <= i < j < |stack| ==> stack[i] != stack[j])
    && (forall m: Id :: m in stack ==> m < |g| && m !in st.pending && Finished(m) !in st.trace)
    && (forall m: Id :: m in st.pending ==> LastExports(st.trace, m) == None)
    && (forall m: Id :: m < |g| && m !in st.pending ==> m in stack || Finished(m) in st.trace)
    && (forall m: Id :: Finished(m) in st.trace ==> m !in st.pending)
    && (forall m: Id, d: Id :: Finished(m) in st.trace && Imports(g, m, d) ==> d !in st.pending)
  }

  ghost predicate Orderly(g: Graph, st: State, stack: seq<Id>) {
    OnStack(g, st, stack) && AllJustified(g, st.trace)
  }

  /** None of the first `k` steps throws, and none of their imports is pending any more. */
  ghost predicate CalledUpTo(g: Graph, st: State, m: Id, k: nat)
    requires m < |g| && k <= |g[m].body|
  {
    && (forall j :: 0 <= j < k ==> g[m].body[j] != Throw)
    && forall j :: 0 <= j < k && g[m].body[j].Import? ==> g[m].body[j].dep !in st.pending
  }

  lemma ReadyLater(g: Graph, a: seq<Event>, b: seq<Event>, m: Id, k: nat)
    requires ReadyUpTo(g, a, m, k) && a <= b
    ensures ReadyUpTo(g, b, m, k)
  {
    assert forall e :: e in a ==> e in b;
  }

  lemma JustifiedAppend(g: Graph, trace: seq<Event>, e: Event)
    requires AllJustified(g, trace) && Justified(g, trace, e)
    ensures AllJustified(g, trace + [e])
  {
    hide Justified;
    var after := trace + [e];
    forall i | 0 <= i < |after|
      ensures Justified(g, after[..i], after[i])
    {
      assert after[..i] == trace[..i];
      assert trace[..|trace|] == trace;
    }
  }

  lemma LogKeepsOrder(g: Graph, st: State, stack: seq<Id>, e: Event)
    requires Orderly(g, st, stack) && !e.Finished? && Justified(g, st.trace, e)
    requires e.Assigned? ==> e.id in stack
    ensures Orderly(g, st.(trace := st.trace + [e]), stack)
  {
    hide Justified, AllJustified, Path, LastExports;
    JustifiedAppend(g, st.trace, e);
    ExportsAppend(st.trace, e);
    var after := st.trace + [e];
    assert forall m :: Finished(m) in after <==> Finished(m) in st.trace;
  }

  lemma Push(g: Graph, st: State, stack: seq<Id>, m: Id)
    requires Orderly(g, st, stack) && m in st.pending && m < |g|
    requires stack != [] ==> Imports(g, stack[|stack| - 1], m)
    ensures Orderly(g, State(st.pending - {m}, st.trace + [Started(m)]), stack + [m])
  {
    hide AllJustified, LastExports;
    JustifiedAppend(g, st.trace, Started(m));
    ExportsAppend(st.trace, Started(m));
    var after := st.trace + [Started(m)];
    assert forall x :: Finished(x) in after <==> Finished(x) in st.trace;
    assert forall x :: x in stack + [m] <==> x in stack || x == m;
    assert Path(g, stack + [m]);
  }

  lemma Pop(g: Graph, st: State, stack: seq<Id>, m: Id)
    requires m < |g| && Orderly(g, st, stack + [m])
    requires CalledUpTo(g, st, m, |g[m].body|) && ReadyUpTo(g, st.trace, m, |g[m].body|)
    requires ExportsUpTo(g, st.trace, m, |g[m].body|)
    ensures Orderly(g, st.(trace := st.trace + [Finished(m)]), stack)
  {
    hide AllJustified, LastExports, ReadyUpTo;
    JustifiedAppend(g, st.trace, Finished(m));
    ExportsAppend(st.trace, Finished(m));
    assert (stack + [m])[|stack|] == m;
    assert forall i :: 0 <= i < |stack| ==> (stack + [m])[i] == stack[i];
    var after := st.trace + [Finished(m)];
    assert forall x :: Finished(x) in after <==> x == m || Finished(x) in st.trace;
    assert forall x :: x in stack + [m] <==> x in stack || x == m;
    forall d: Id | Imports(g, m, d)
      ensures d !in st.pending
    {
      var j :| 0 <= j < |g[m].body| && g[m].body[j] == Import(d);
    }
    if stack != [] {
      forall i | 0 <= i < |stack| - 1
        ensures Imports(g, stack[i], stack[i + 1])
      {
        assert Imports(g, (stack + [m])[i], (stack + [m])[i + 1]);
      }
    }
  }

  /** Whoever is on the stack leads to its top. */
  lemma StackReaches(g: Graph, stack: seq<Id>, d: Id)
    requires Path(g, stack) && d in stack
    ensures Reachable(g, d, stack[|stack| - 1])
  {
    var i :| 0 <= i < |stack| && stack[i] == d;
    assert Connects(g, stack[i..], d, stack[|stack| - 1]);
  }

  /** A call, whether it throws or not, runs code only where it is justified. One that returns leaves
      its module called and the stack as it was. */
  lemma {:induction false} CallOrderly(g: Graph, st: State, stack: seq<Id>, m: Id)
    requires Closed(g) && m < |g| && Orderly(g, st, stack)
    requires stack != [] ==> Imports(g, stack[|stack| - 1], m)
    ensures var (after, value) := Call(g, st, m);
      && AllJustified(g, after.trace)
      && (value.Some? ==>
            && value == Some(Returned(g, after.trace, m)) && Orderly(g, after, stack)
            && m !in after.pending && st.trace <= after.trace
            && forall x :: x !in st.pending ==> LastExports(after.trace, x) == LastExports(st.trace, x))
    decreases |st.pending|, 0
  {
    hide OnStack, AllJustified, ReadyUpTo, CalledUpTo, ExportsUpTo, LastExports;
    if m in st.pending {
      var begun := State(st.pending - {m}, st.trace + [Started(m)]);
      Push(g, st, stack, m);
      ExportsAppend(st.trace, Started(m));
      NothingYet(g, st, begun, stack, m);
      BodyOrderly(g, begun, stack + [m], m, 0);
      var (after, ok) := Body(g, begun, m, 0);
      if ok {
        Pop(g, after, stack, m);
        ExportsAppend(after.trace, Finished(m));
      }
    }
  }

  lemma NothingYet(g: Graph, st: State, begun: State, stack: seq<Id>, m: Id)
    requires m < |g| && Orderly(g, st, stack) && m in st.pending && begun.trace == st.trace + [Started(m)]
    ensures CalledUpTo(g, begun, m, 0) && ReadyUpTo(g, begun.trace, m, 0) && ExportsUpTo(g, begun.trace, m, 0)
  {
    hide LastExports;
    ExportsAppend(st.trace, Started(m));
  }

  lemma {:induction false} BodyOrderly(g: Graph, st: State, stack: seq<Id>, m: Id, k: nat)
    requires Closed(g) && m < |g| && k <= |g[m].body|
    requires Orderly(g, st, stack) && stack != [] && stack[|stack| - 1] == m
    requires CalledUpTo(g, st, m, k) && ReadyUpTo(g, st.trace, m, k) && ExportsUpTo(g, st.trace, m, k)
    ensures var (after, ok) := Body(g, st, m, k);
      && AllJustified(g, after.trace)
      && (ok ==>
            && Orderly(g, after, stack) && st.trace <= after.trace
            && CalledUpTo(g, after, m, |g[m].body|) && ReadyUpTo(g, after.trace, m, |g[m].body|)
            && ExportsUpTo(g, after.trace, m, |g[m].body|)
            && forall x :: x !in st.pending && x != m ==> LastExports(after.trace, x) == LastExports(st.trace, x))
    decreases |st.pending|, 1 + |g[m].body| - k
  {
    hide OnStack, AllJustified, ReadyUpTo, CalledUpTo, ExportsUpTo, LastExports, Reachable;
    if k < |g[m].body| {
      match g[m].body[k] {
        case Throw =>
        case Import(d) =>
          assert Imports(g, m, d);
          RunningNotPending(g, st, stack, m);
          CallOrderly(g, st, stack, d);
          var (after, value) := Call(g, st, d);
          if value.Some? {
            SubsetSize(after.pending, st.pending);
            CalledIsReady(g, after, stack, d);
            ReadyLater(g, st.trace, after.trace, m, k);
            var e := Imported(m, k, d, value.value);
            LogKeepsOrder(g, after, stack, e);
            var next := after.(trace := after.trace + [e]);
            ExportsAppend(after.trace, e);
            ReadyLater(g, st.trace, next.trace, m, k);
            NextStep(g, st, next, m, k);
            NextExports(g, st.trace, next.trace, m, k);
            BodyOrderly(g, next, stack, m, k + 1);
          }
        case action =>
          var e := Ran(action, m, k);
          RunningNotPending(g, st, stack, m);
          LogKeepsOrder(g, st, stack, e);
          var next := st.(trace := st.trace + [e]);
          ExportsAppend(st.trace, e);
          ReadyLater(g, st.trace, next.trace, m, k);
          NextStep(g, st, next, m, k);
          NextExports(g, st.trace, next.trace, m, k);
          BodyOrderly(g, next, stack, m, k + 1);
      }
    }
  }

  lemma RunningNotPending(g: Graph, st: State, stack: seq<Id>, m: Id)
    requires Orderly(g, st, stack) && m in stack
    ensures m !in st.pending && Finished(m) !in st.trace
  {
  }

  lemma NextExports(g: Graph, trace: seq<Event>, next: seq<Event>, m: Id, k: nat)
    requires ExportsUpTo(g, trace, m, k) && m < |g| && k < |g[m].body|
    requires LastExports(next, m) == if g[m].body[k].Assign? then Some(k) else LastExports(trace, m)
    ensures ExportsUpTo(g, next, m, k + 1)
  {
  }

  /** After a call, the dependency has finished or is below us on the stack. */
  lemma CalledIsReady(g: Graph, st: State, stack: seq<Id>, d: Id)
    requires Orderly(g, st, stack) && stack != [] && d < |g| && d !in st.pending
    ensures Ready(g, st.trace, stack[|stack| - 1], d)
  {
    if d in stack {
      StackReaches(g, stack, d);
    }
  }

  lemma NextStep(g: Graph, st: State, next: State, m: Id, k: nat)
    requires m < |g| && k < |g[m].body| && next.pending <= st.pending && g[m].body[k] != Throw
    requires CalledUpTo(g, st, m, k) && ReadyUpTo(g, next.trace, m, k)
    requires g[m].body[k].Import? ==>
      g[m].body[k].dep !in next.pending && Ready(g, next.trace, m, g[m].body[k].dep)
    ensures CalledUpTo(g, next, m, k + 1) && ReadyUpTo(g, next.trace, m, k + 1)
  {
  }

  // ----- Whole runs -----

  lemma Begin(g: Graph)
    ensures StartedOnce(g, Unstarted(g)) && Orderly(g, Unstarted(g), [])
  {
  }

  /** Any graph: one call from the start runs only bodies reachable from the root, none twice. */
  lemma RunsAtMostOnce(g: Graph, root: Id)
    requires Closed(g) && root < |g|
    ensures var trace := Call(g, Unstarted(g), root).0.trace;
      && (forall i, j :: 0 <= i < j < |trace| && trace[i].Started? ==> trace[i] != trace[j])
      && forall m :: Started(m) in trace ==> Reachable(g, root, m)
  {
    Begin(g);
    CallOnce(g, Unstarted(g), root);
  }

  /** Any graph, and whether or not the first call threw: calling a wrapper again runs nothing and
      does not throw. */
  lemma SecondCallDoesNothing(g: Graph, st: State, m: Id)
    requires Closed(g) && m < |g|
    ensures var (after, _) := Call(g, st, m);
      Call(g, after, m) == (after, Some(Returned(g, after.trace, m)))
  {
    if m in st.pending {
      var (after, ok) := Body(g, State(st.pending - {m}, st.trace + [Started(m)]), m, 0);
      assert m !in after.pending;
    }
  }

  // ----- What a module hands over before its body has ended -----

  /** How many of its steps a module's body has run: each leaves one event. */
  function StepsRun(trace: seq<Event>, m: Id): nat {
    if trace == [] then 0
    else
      var last := trace[|trace| - 1];
      StepsRun(trace[..|trace| - 1], m) + if IsStepOf(last, m) then 1 else 0
  }

  predicate IsStepOf(e: Event, m: Id) {
    e.id == m && (e.Worked? || e.Assigned? || e.Imported?)
  }

  lemma StepsAppend(trace: seq<Event>, e: Event)
    ensures forall m :: StepsRun(trace + [e], m) == StepsRun(trace, m) + if IsStepOf(e, m) then 1 else 0
  {
    assert (trace + [e])[..|trace|] == trace;
  }

  /** Steps run in turn, each one once, from the body's first to its last before it has ended. */
  ghost predicate InTurn(g: Graph, prior: seq<Event>, e: Event) {
    e.id < |g| && var body, k := g[e.id].body, StepsRun(prior, e.id);
    match e
    case Started(_) => k == 0
    case Worked(_, step) => step == k < |body| && body[k].Work?
    case Assigned(_, step) => step == k < |body| && body[k].Assign?
    case Imported(_, step, dep, _) => step == k < |body| && body[k] == Import(dep)
    case Finished(_) => k == |body|
  }

  /** `module.exports` holds the last assignment among the steps run. */
  ghost predicate ExportsRight(g: Graph, trace: seq<Event>, m: Id) {
    m < |g| ==> StepsRun(trace, m) <= |g[m].body| && LastExports(trace, m) == LastAssign(g[m].body, StepsRun(trace, m))
  }

  /** So it does at every moment of the trace, for every module; and all its events are in turn. */
  ghost predicate ExportsAlwaysRight(g: Graph, trace: seq<Event>) {
    && (forall i, m: Id :: 0 <= i <= |trace| ==> ExportsRight(g, trace[..i], m))
    && forall i :: 0 <= i < |trace| ==> InTurn(g, trace[..i], trace[i])
  }

  lemma AlwaysRightNow(g: Graph, trace: seq<Event>, m: Id)
    requires ExportsAlwaysRight(g, trace)
    ensures ExportsRight(g, trace, m)
  {
    assert trace[..|trace|] == trace;
  }

  lemma LogKeepsExports(g: Graph, trace: seq<Event>, e: Event)
    requires ExportsAlwaysRight(g, trace) && InTurn(g, trace, e)
    ensures ExportsAlwaysRight(g, trace + [e])
  {
    hide ExportsRight, InTurn;
    var more := trace + [e];
    forall i, m: Id | 0 <= i <= |more|
      ensures ExportsRight(g, more[..i], m)
    {
      if i <= |trace| {
        assert more[..i] == trace[..i];
      } else {
        assert more[..i] == more;
        AlwaysRightNow(g, trace, m);
        EventKeepsExports(g, trace, e, m);
      }
    }
    forall i | 0 <= i < |more|
      ensures InTurn(g, more[..i], more[i])
    {
      assert more[..i] == trace[..i];
      assert trace[..|trace|] == trace;
    }
  }

  lemma EventKeepsExports(g: Graph, trace: seq<Event>, e: Event, m: Id)
    requires ExportsRight(g, trace, m) && InTurn(g, trace, e)
    ensures ExportsRight(g, trace + [e], m)
  {
    hide StepsRun, LastExports;
    StepsAppend(trace, e);
    ExportsAppend(trace, e);
  }

  /** Modules that have not begun have run no step. */
  ghost predicate NoneRun(st: State) {
    forall m: Id :: m in st.pending ==> StepsRun(st.trace, m) == 0
  }

  /** A call, whether it throws or not, runs a body's steps in turn, and no step of a module under way. */
  lemma {:induction false} CallSteps(g: Graph, st: State, m: Id)
    requires Closed(g) && m < |g| && ExportsAlwaysRight(g, st.trace) && NoneRun(st)
    ensures var after := Call(g, st, m).0;
      && ExportsAlwaysRight(g, after.trace) && NoneRun(after)
      && forall x: Id :: x !in st.pending ==> StepsRun(after.trace, x) == StepsRun(st.trace, x)
    decreases |st.pending|, 0
  {
    hide ExportsAlwaysRight, StepsRun;
    if m in st.pending {
      var begun := State(st.pending - {m}, st.trace + [Started(m)]);
      StepsAppend(st.trace, Started(m));
      LogKeepsExports(g, st.trace, Started(m));
      BodySteps(g, begun, m, 0);
      var (after, ok) := Body(g, begun, m, 0);
      if ok {
        StepsAppend(after.trace, Finished(m));
        LogKeepsExports(g, after.trace, Finished(m));
      }
    }
  }

  lemma {:induction false} BodySteps(g: Graph, st: State, m: Id, k: nat)
    requires Closed(g) && m < |g| && k <= |g[m].body| && m !in st.pending && StepsRun(st.trace, m) == k
    requires ExportsAlwaysRight(g, st.trace) && NoneRun(st)
    ensures var after := Body(g, st, m, k).0;
      && ExportsAlwaysRight(g, after.trace) && NoneRun(after)
      && (Body(g, st, m, k).1 ==> StepsRun(after.trace, m) == |g[m].body|)
      && forall x: Id :: x !in st.pending && x != m ==> StepsRun(after.trace, x) == StepsRun(st.trace, x)
    decreases |st.pending|, 1 + |g[m].body| - k
  {
    hide ExportsAlwaysRight, StepsRun;
    if k < |g[m].body| {
      match g[m].body[k] {
        case Throw =>
        case Import(d) =>
          CallSteps(g, st, d);
          var (after, value) := Call(g, st, d);
          if value.Some? {
            SubsetSize(after.pending, st.pending);
            var e := Imported(m, k, d, value.value);
            StepsAppend(after.trace, e);
            LogKeepsExports(g, after.trace, e);
            BodySteps(g, after.(trace := after.trace + [e]), m, k + 1);
          }
        case action =>
          var e := Ran(action, m, k);
          StepsAppend(st.trace, e);
          LogKeepsExports(g, st.trace, e);
          BodySteps(g, st.(trace := st.trace + [e]), m, k + 1);
      }
    }
  }

  /** Every graph: at every moment of a call from the start, throwing or not, what a CommonJS module hands
      over is the last assignment among the steps its body has run so far; an import around a cycle and a
      call after a throw get just that. */
  lemma HandsOverLastAssigned(g: Graph, root: Id, i: nat)
    requires Closed(g) && root < |g| && i <= |Call(g, Unstarted(g), root).0.trace|
    ensures var prior := Call(g, Unstarted(g), root).0.trace[..i];
      forall m: Id :: m < |g| && g[m].kind.CommonJs? ==>
        && StepsRun(prior, m) <= |g[m].body|
        && Returned(g, prior, m) == ExportsOf(m, LastAssign(g[m].body, StepsRun(prior, m)))
    ensures var trace := Call(g, Unstarted(g), root).0.trace; i < |trace| ==> InTurn(g, trace[..i], trace[i])
    ensures var trace := Call(g, Unstarted(g), root).0.trace;
      i < |trace| && trace[i].Imported? ==>
        trace[i].dep < |g| && trace[i].value == Returned(g, trace[..i], trace[i].dep)
  {
    hide StepsRun, LastExports, LastAssign, Call, InTurn;
    NothingRun(g);
    CallSteps(g, Unstarted(g), root);
    RunsEveryReachable(g, root);
    var trace := Call(g, Unstarted(g), root).0.trace;
    var prior := trace[..i];
    forall m: Id | m < |g| && g[m].kind.CommonJs?
      ensures StepsRun(prior, m) <= |g[m].body|
      ensures Returned(g, prior, m) == ExportsOf(m, LastAssign(g[m].body, StepsRun(prior, m)))
    {
      assert ExportsRight(g, prior, m);
    }
    if i < |trace| {
      assert Justified(g, trace[..i], trace[i]);
    }
  }

  lemma NothingRun(g: Graph)
    ensures ExportsAlwaysRight(g, Unstarted(g).trace) && NoneRun(Unstarted(g))
  {
  }

  // ----- When a call from the start returns -----

  /** A module whose body throws can be reached. */
  ghost predicate MeetsThrow(g: Graph, root: Id) {
    exists m: Id :: m < |g| && Throw in g[m].body && Reachable(g, root, m)
  }

  lemma MeetsThrowThroughImport(g: Graph, m: Id, d: Id)
    requires Imports(g, m, d) && MeetsThrow(g, d)
    ensures MeetsThrow(g, m)
  {
    var x: Id :| x < |g| && Throw in g[x].body && Reachable(g, d, x);
    ReachThroughImport(g, m, d, x);
  }

  lemma MeetsOwnThrow(g: Graph, m: Id)
    requires m < |g| && Throw in g[m].body
    ensures MeetsThrow(g, m)
  {
    ReachesItself(g, m);
  }

  /** A call that throws met a throw. */
  lemma {:induction false} ThrowWasMet(g: Graph, st: State, m: Id)
    requires Closed(g) && m < |g| && Call(g, st, m).1.None?
    ensures MeetsThrow(g, m)
    decreases |st.pending|, 0
  {
    hide MeetsThrow;
    BodyThrowWasMet(g, State(st.pending - {m}, st.trace + [Started(m)]), m, 0);
  }

  lemma {:induction false} BodyThrowWasMet(g: Graph, st: State, m: Id, k: nat)
    requires Closed(g) && m < |g| && k <= |g[m].body| && !Body(g, st, m, k).1
    ensures MeetsThrow(g, m)
    decreases |st.pending|, 1 + |g[m].body| - k
  {
    hide MeetsThrow;
    match g[m].body[k] {
      case Throw =>
        MeetsOwnThrow(g, m);
      case Import(d) =>
        var (after, value) := Call(g, st, d);
        if value.None? {
          ThrowWasMet(g, st, d);
          MeetsThrowThroughImport(g, m, d);
        } else {
          SubsetSize(after.pending, st.pending);
          BodyThrowWasMet(g, after.(trace := after.trace + [Imported(m, k, d, value.value)]), m, k + 1);
        }
      case action =>
        BodyThrowWasMet(g, st.(trace := st.trace + [Ran(action, m, k)]), m, k + 1);
    }
  }

  /** Only a module that was pending can finish during a call. */
  lemma {:induction false} FinishedWasPending(g: Graph, st: State, m: Id, x: Id)
    requires Closed(g) && m < |g| && Finished(x) in Call(g, st, m).0.trace
    ensures Finished(x) in st.trace || x in st.pending
    decreases |st.pending|, 0
  {
    if m in st.pending {
      var begun := State(st.pending - {m}, st.trace + [Started(m)]);
      if Finished(x) in Body(g, begun, m, 0).0.trace {
        BodyFinishedWasPending(g, begun, m, 0, x);
      }
    }
  }

  lemma {:induction false} BodyFinishedWasPending(g: Graph, st: State, m: Id, k: nat, x: Id)
    requires Closed(g) && m < |g| && k <= |g[m].body| && Finished(x) in Body(g, st, m, k).0.trace
    ensures Finished(x) in st.trace || x in st.pending
    decreases |st.pending|, 1 + |g[m].body| - k
  {
    if k < |g[m].body| {
      match g[m].body[k] {
        case Throw =>
        case Import(d) =>
          var (after, value) := Call(g, st, d);
          if value.Some? {
            SubsetSize(after.pending, st.pending);
            BodyFinishedWasPending(g, after.(trace := after.trace + [Imported(m, k, d, value.value)]), m, k + 1, x);
          }
          if Finished(x) in after.trace {
            FinishedWasPending(g, st, d, x);
          }
        case action =>
          BodyFinishedWasPending(g, st.(trace := st.trace + [Ran(action, m, k)]), m, k + 1, x);
      }
    }
  }

  /** After a call that returned, following imports from a called module leads to finished ones, none
      of which throws. */
  lemma {:induction false} PathFinished(g: Graph, st: State, p: seq<Id>)
    requires Closed(g) && Orderly(g, st, []) && Path(g, p) && p[0] < |g| && p[0] !in st.pending
    ensures var m := p[|p| - 1]; m < |g| && Finished(m) in st.trace && Throw !in g[m].body
    decreases |p|
  {
    hide ReadyUpTo, ExportsUpTo;
    assert Finished(p[0]) in st.trace;
    if |p| > 1 {
      assert Imports(g, p[0], p[1]);
      PathFinished(g, st, p[1..]);
    } else {
      var i :| 0 <= i < |st.trace| && st.trace[i] == Finished(p[0]);
      assert Justified(g, st.trace[..i], st.trace[i]);
    }
  }

  lemma ReachedFinished(g: Graph, st: State, root: Id, m: Id)
    requires Closed(g) && root < |g| && Orderly(g, st, []) && root !in st.pending && Reachable(g, root, m)
    ensures m < |g| && Finished(m) in st.trace && Throw !in g[m].body
  {
    hide Orderly;
    var p :| Connects(g, p, root, m);
    PathFinished(g, st, p);
  }

  lemma MeetsNoThrow(g: Graph, st: State, root: Id)
    requires Closed(g) && root < |g| && Orderly(g, st, []) && root !in st.pending
    ensures !MeetsThrow(g, root) && Finished(root) in st.trace
  {
    hide Orderly;
    ReachesItself(g, root);
    ReachedFinished(g, st, root, root);
    if m: Id :| m < |g| && Throw in g[m].body && Reachable(g, root, m) {
      ReachedFinished(g, st, root, m);
    }
  }

  /** For every graph: a call from the start throws exactly when a throwing body can be reached, and
      exactly then its module's own body does not end. */
  lemma ThrowsExactly(g: Graph, root: Id)
    requires Closed(g) && root < |g|
    ensures var (after, value) := Call(g, Unstarted(g), root);
      && (value.None? <==> MeetsThrow(g, root))
      && (Finished(root) in after.trace <==> !MeetsThrow(g, root))
  {
    hide Orderly, MeetsThrow, Body;
    Begin(g);
    CallOrderly(g, Unstarted(g), [], root);
    var (after, value) := Call(g, Unstarted(g), root);
    if value.Some? {
      MeetsNoThrow(g, after, root);
    } else {
      ThrowWasMet(g, Unstarted(g), root);
      var begun := State(Unstarted(g).pending - {root}, [Started(root)]);
      assert Unstarted(g).trace + [Started(root)] == [Started(root)];
      if Finished(root) in after.trace {
        BodyFinishedWasPending(g, begun, root, 0, root);
      }
    }
  }

  /** When calling a wrapper a second time means something: it always returns, but it is the value of
      a body that has ended, for an ES module, exactly when no throwing body can be reached. A module
      that met a throw looks loaded and hands over `undefined`. */
  lemma SecondCallExactly(g: Graph, root: Id)
    requires Closed(g) && root < |g|
    ensures var after := Call(g, Unstarted(g), root).0;
      var again := Call(g, after, root).1;
      && again.Some?
      && (MeetsThrow(g, root) <==> Finished(root) !in after.trace)
      && (g[root].kind.Esm? ==> again == Some(if MeetsThrow(g, root) then Undefined else FinalValue(g, root)))
      && (!MeetsThrow(g, root) ==> again == Some(FinalValue(g, root)))
  {
    hide MeetsThrow, Call, AllJustified;
    ThrowsExactly(g, root);
    SecondCallDoesNothing(g, Unstarted(g), root);
    Begin(g);
    CallOrderly(g, Unstarted(g), [], root);
    var after := Call(g, Unstarted(g), root).0;
    if Finished(root) in after.trace {
      FinishedIsFinal(g, after.trace, root);
    }
  }

  /** Calling the same wrapper twice on a fresh runtime. */
  method InvokeTwice(g: Graph, root: Id) returns (first: Option<Value>, second: Option<Value>)
    requires Closed(g) && root < |g|
    ensures first == if MeetsThrow(g, root) then None else Some(FinalValue(g, root))
    ensures second.Some? && (first.Some? ==> second == first)
    ensures g[root].kind.Esm? && first.None? ==> second == Some(Undefined)
  {
    hide Call, MeetsThrow, FinalValue;
    var runtime := new Runtime(g);
    first := runtime.Invoke(root);
    second := runtime.Invoke(root);
    ThrowsExactly(g, root);
    SecondCallExactly(g, root);
    if !MeetsThrow(g, root) {
      RunsEveryReachable(g, root);
    }
  }

  /** A module that imports one that throws: calling either again returns `undefined`, as if it were
      a loaded module without a result. */
  lemma ThrowLooksLoaded()
    ensures var g := [Module(Esm, [Import(1)]), Module(Esm, [Throw])];
      var (after, first) := Call(g, Unstarted(g), 0);
      && first == None && Call(g, after, 0).1 == Call(g, after, 1).1 == Some(Undefined)
      && Finished(0) !in after.trace && Finished(1) !in after.trace
  {
    var g := [Module(Esm, [Import(1)]), Module(Esm, [Throw])];
    assert Ids(2) == {0, 1};
    var one := State({1}, [Started(0)]);
    var both := State({}, [Started(0), Started(1)]);
    assert Body(g, both, 1, 0) == (both, false);
    assert State(one.pending - {1}, one.trace + [Started(1)]) == both;
    assert Call(g, one, 1) == (both, None);
    assert Body(g, one, 0, 0) == (both, false);
    assert State(Unstarted(g).pending - {0}, [] + [Started(0)]) == one;
    assert Call(g, Unstarted(g), 0) == (both, None);
  }

  // ----- What a call from the start runs -----

  /** Every graph: a call from the start runs code only after the imports above it, whose modules have
      finished unless they wait on a cycle. If no throwing body can be reached it runs every
      reachable body to its end, and hands over the root's final value. */
  lemma RunsEveryReachable(g: Graph, root: Id)
    requires Closed(g) && root < |g|
    ensures var (st, value) := Call(g, Unstarted(g), root);
      && AllJustified(g, st.trace)
      && (!MeetsThrow(g, root) ==>
            && value == Some(FinalValue(g, root))
            && (forall m :: Reachable(g, root, m) <==> Started(m) in st.trace)
            && (forall m :: Reachable(g, root, m) <==> Finished(m) in st.trace))
  {
    hide MeetsThrow, Call, Orderly, AllJustified;
    Begin(g);
    RunsAtMostOnce(g, root);
    CallOrderly(g, Unstarted(g), [], root);
    var (st, value) := Call(g, Unstarted(g), root);
    ThrowsExactly(g, root);
    if value.Some? {
      forall m | Reachable(g, root, m)
        ensures Finished(m) in st.trace
      {
        ReachedFinished(g, st, root, m);
      }
      forall m | Finished(m) in st.trace
        ensures Started(m) in st.trace
      {
        FinishedWasCalled(g, st.trace, m);
      }
      FinishedIsFinal(g, st.trace, root);
    }
  }

  /** Once its body has ended, a module keeps its final value. */
  lemma {:induction false} FinishedIsFinal(g: Graph, trace: seq<Event>, m: Id)
    requires AllJustified(g, trace) && Finished(m) in trace
    ensures m < |g| && Returned(g, trace, m) == FinalValue(g, m)
  {
    hide ReadyUpTo, LastExports, LastAssign, AllJustified, Ready;
    var front, e := trace[..|trace| - 1], trace[|trace| - 1];
    assert trace == front + [e];
    JustifiedBefore(g, trace, |front|);
    ExportsAppend(front, e);
    if Finished(m) in front {
      FinishedIsFinal(g, front, m);
    }
  }

  lemma JustifiedBefore(g: Graph, trace: seq<Event>, n: nat)
    requires AllJustified(g, trace) && n < |trace|
    ensures AllJustified(g, trace[..n]) && Justified(g, trace[..n], trace[n])
  {
    hide Justified;
    forall i | 0 <= i < n
      ensures Justified(g, trace[..n][..i], trace[..n][i])
    {
      assert trace[..n][..i] == trace[..i];
    }
  }

  lemma FinishedWasCalled(g: Graph, trace: seq<Event>, m: Id)
    requires AllJustified(g, trace) && Finished(m) in trace
    ensures Started(m) in trace
  {
    var i :| 0 <= i < |trace| && trace[i] == Finished(m);
    assert Justified(g, trace[..i], trace[i]);
  }

  /** No module that can be reached is on an import cycle. */
  ghost predicate AcyclicFrom(g: Graph, root: Id) {
    forall m :: Reachable(g, root, m) ==> !OnCycle(g, m)
  }

  /** Without import cycles, code never runs before a module it imported above has finished, and every
      import hands over the finished module's value, up to a throw if there is one. */
  lemma AcyclicRunsInOrder(g: Graph, root: Id, i: nat, d: Id)
    requires Closed(g) && root < |g| && AcyclicFrom(g, root)
    requires var trace := Call(g, Unstarted(g), root).0.trace;
      i < |trace| && match trace[i]
        case Started(_) => false
        case Worked(m, k) => m < |g| && k <= |g[m].body| && Import(d) in g[m].body[..k]
        case Assigned(m, k) => m < |g| && k <= |g[m].body| && Import(d) in g[m].body[..k]
        case Imported(_, _, dep, _) => dep == d
        case Finished(m) => Imports(g, m, d)
    ensures var trace := Call(g, Unstarted(g), root).0.trace; Finished(d) in trace[..i]
    ensures var trace := Call(g, Unstarted(g), root).0.trace;
      trace[i].Imported? ==> d < |g| && trace[i].value == FinalValue(g, d)
  {
    RunsEveryReachable(g, root);
    RunsAtMostOnce(g, root);
    var trace := Call(g, Unstarted(g), root).0.trace;
    JustifiedBefore(g, trace, i);
    var m := trace[i].id;
    assert Started(m) in trace;
    assert Ready(g, trace[..i], m, d) by {
      if !trace[i].Imported? {
        var j :| 0 <= j < |g[m].body| && g[m].body[j] == Import(d) && (!trace[i].Finished? ==> j < trace[i].step);
      }
    }
    assert !OnCycle(g, m);
    FinishedIsFinal(g, trace[..i], d);
  }
}
