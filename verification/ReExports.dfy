/** `export *` forwarding: properties that read through getters bound to another module. */
module ReExports {
  import opened Wrappers
  import opened Sets

  type ObjId = nat
  type Key = string

  /** An own property: a value cell, or `__accessProp` bound to another object and the same key. */
  datatype Prop<+V> = Cell(value: V) | Getter(source: ObjId)

  /** The own properties of every module object. */
  type Heap<V> = map<(ObjId, Key), Prop<V>>

  /** A `__reExport(target, mod, secondTarget)` call, or a module giving one of its own exports a
      value, which a forwarded name's non-configurable getter refuses. */
  datatype Op<+V> =
    | Star(target: ObjId, source: ObjId, second: Option<ObjId>)
    | Define(owner: ObjId, key: Key, value: V)

  /** The heap after the loop over `source`'s names. */
  function Forwarded<V>(h: Heap<V>, target: ObjId, source: ObjId, names: set<Key>): (r: Heap<V>) {
    h + map key | key in names && (target, key) !in h && key != "default" :: (target, key) := Getter(source)
  }

  function Names<V>(h: Heap<V>, o: ObjId): (names: set<Key>)
    ensures forall key :: key in names <==> (o, key) in h
  {
    set p | p in h && p.0 == o :: p.1
  }

  /** The names are taken once, before the first target is filled. */
  function Apply<V>(h: Heap<V>, op: Op<V>): Heap<V> {
    match op
    case Star(target, source, second) =>
      var names := Names(h, source);
      var first := Forwarded(h, target, source, names);
      if second.Some? then Forwarded(first, second.value, source, names) else first
    case Define(owner, key, value) =>
      if (owner, key) in h && h[(owner, key)].Getter? then h else h[(owner, key) := Cell(value)]
  }

  function Run<V>(h: Heap<V>, ops: seq<Op<V>>): Heap<V> {
    if ops == [] then h else Apply(Run(h, ops[..|ops| - 1]), ops[|ops| - 1])
  }

  lemma ForwardedAt<V>(h: Heap<V>, target: ObjId, source: ObjId, names: set<Key>, o: ObjId, key: Key)
    ensures var r := Forwarded(h, target, source, names);
      && ((o, key) in r <==> (o, key) in h || (o == target && key in names && key != "default"))
      && ((o, key) in h ==> r[(o, key)] == h[(o, key)])
      && ((o, key) in r && (o, key) !in h ==> r[(o, key)] == Getter(source))
  {
  }

  lemma ForwardNone<V>(h: Heap<V>, target: ObjId, source: ObjId)
    ensures Forwarded(h, target, source, {}) == h
  {
  }

  lemma ForwardOne<V>(h: Heap<V>, target: ObjId, source: ObjId, names: set<Key>, key: Key)
    ensures var r := Forwarded(h, target, source, names);
      Forwarded(h, target, source, names + {key})
        == if (target, key) !in r && key != "default" then r[(target, key) := Getter(source)] else r
  {
    hide Forwarded;
    var r, s := Forwarded(h, target, source, names), Forwarded(h, target, source, names + {key});
    var t := if (target, key) !in r && key != "default" then r[(target, key) := Getter(source)] else r;
    forall p: (ObjId, Key)
      ensures (p in s <==> p in t) && (p in s ==> s[p] == t[p])
    {
      ForwardedAt(h, target, source, names, p.0, p.1);
      ForwardedAt(h, target, source, names + {key}, p.0, p.1);
      ForwardedAt(h, target, source, names, target, key);
    }
    assert s == t;
  }

  // ----- The loops over the names -----

  class Exports<V> {
    var props: Heap<V>

    constructor (props: Heap<V>)
      ensures this.props == props
    {
      this.props := props;
    }

    /** One `for (let key of keys)` loop, in whatever order the names come. */
    method Forward(target: ObjId, source: ObjId, keys: set<Key>)
      modifies this
      ensures props == Forwarded(old(props), target, source, keys)
    {
      hide Forwarded;
      var rest := keys;
      ForwardNone(props, target, source);
      assert keys - rest == {};
      while rest != {}
        invariant rest <= keys
        invariant props == Forwarded(old(props), target, source, keys - rest)
      {
        var key :| key in rest;
        ForwardOne(old(props), target, source, keys - rest, key);
        if (target, key) !in props && key != "default" {
          props := props[(target, key) := Getter(source)];
        }
        assert keys - (rest - {key}) == keys - rest + {key};
        rest := rest - {key};
      }
      assert keys - rest == keys;
    }

    method ReExport(target: ObjId, source: ObjId, secondTarget: Option<ObjId>)
      modifies this
      ensures props == Apply(old(props), Star(target, source, secondTarget))
    {
      var keys := Names(props, source);
      Forward(target, source, keys);
      if secondTarget.Some? {
        Forward(secondTarget.value, source, keys);
      }
    }
  }

  // ----- What one operation binds -----

  /** `op` offers the name `p.1` to the object `p.0`. */
  predicate Offers<V>(h: Heap<V>, op: Op<V>, p: (ObjId, Key)) {
    op.Star? && (op.target == p.0 || op.second == Some(p.0)) && (op.source, p.1) in h && p.1 != "default"
  }

  predicate Defines<V>(op: Op<V>, p: (ObjId, Key)) {
    op.Define? && (op.owner, op.key) == p
  }

  /** Getters are never rebound, and a new property is the offered or defined one. */
  lemma ApplyAt<V>(h: Heap<V>, op: Op<V>, p: (ObjId, Key))
    ensures var r := Apply(h, op);
      && (p in r <==> p in h || Offers(h, op, p) || Defines(op, p))
      && (p in h && (h[p].Getter? || op.Star?) ==> r[p] == h[p])
      && (p in r && p !in h ==> r[p] == if op.Star? then Getter(op.source) else Cell(op.value))
      && (p in h && h[p].Cell? ==> r[p].Cell?)
  {
    if op.Star? {
      hide Forwarded;
      var names := Names(h, op.source);
      var first := Forwarded(h, op.target, op.source, names);
      ForwardedAt(h, op.target, op.source, names, p.0, p.1);
      if op.second.Some? {
        ForwardedAt(first, op.second.value, op.source, names, p.0, p.1);
      }
    }
  }

  // ----- Getter chains end -----

  /** Every getter reads an own property of lower rank. */
  ghost predicate Ranked<V>(h: Heap<V>, rank: map<(ObjId, Key), nat>) {
    forall p :: p in h ==> p in rank && (h[p].Getter? ==>
      var q := (h[p].source, p.1); q in h && q in rank && rank[q] < rank[p])
  }

  ghost predicate WellFounded<V>(h: Heap<V>) {
    exists rank :: Ranked(h, rank)
  }

  /** Ranks for the properties an operation leaves: a forwarded name ranks above what it reads. */
  ghost function NextRank<V>(
    h: Heap<V>, op: Op<V>, rank: map<(ObjId, Key), nat>, p: (ObjId, Key)): nat
  {
    if p in h && p in rank then rank[p]
    else if op.Star? && (op.source, p.1) in rank then rank[(op.source, p.1)] + 1
    else 0
  }

  lemma RankStep<V>(h: Heap<V>, op: Op<V>, rank: map<(ObjId, Key), nat>, p: (ObjId, Key))
    requires Ranked(h, rank) && p in Apply(h, op) && Apply(h, op)[p].Getter?
    ensures var r := Apply(h, op); var q := (r[p].source, p.1);
      q in r && NextRank(h, op, rank, q) < NextRank(h, op, rank, p)
  {
    hide Apply;
    ApplyAt(h, op, p);
    if p in h {
      ApplyAt(h, op, (h[p].source, p.1));
    } else {
      ApplyAt(h, op, (op.source, p.1));
    }
  }

  lemma ApplyKeepsWellFounded<V>(h: Heap<V>, op: Op<V>)
    requires WellFounded(h)
    ensures WellFounded(Apply(h, op))
  {
    hide Apply, NextRank;
    var rank :| Ranked(h, rank);
    var r := Apply(h, op);
    var rank' := map p | p in r :: NextRank(h, op, rank, p);
    forall p | p in r && r[p].Getter?
      ensures var q := (r[p].source, p.1); q in r && rank'[q] < rank'[p]
    {
      RankStep(h, op, rank, p);
    }
    assert Ranked(r, rank');
  }

  lemma {:induction false} RunKeepsWellFounded<V>(h: Heap<V>, ops: seq<Op<V>>)
    requires WellFounded(h)
    ensures WellFounded(Run(h, ops))
  {
    if ops != [] {
      RunKeepsWellFounded(h, ops[..|ops| - 1]);
      ApplyKeepsWellFounded(Run(h, ops[..|ops| - 1]), ops[|ops| - 1]);
    }
  }

  ghost predicate OnlyCells<V>(h: Heap<V>) {
    forall p :: p in h ==> h[p].Cell?
  }

  lemma CellsWellFounded<V>(h: Heap<V>)
    requires OnlyCells(h)
    ensures WellFounded(h)
  {
    assert Ranked(h, map p | p in h :: 0);
  }

  /** The object whose own cell a read ends at, within `depth` getter calls. */
  function Origin<V>(h: Heap<V>, o: ObjId, key: Key, depth: nat): Option<ObjId>
    decreases depth
  {
    if (o, key) !in h then None
    else match h[(o, key)]
      case Cell(_) => Some(o)
      case Getter(source) => if depth == 0 then None else Origin(h, source, key, depth - 1)
  }

  ghost function Below<V>(h: Heap<V>, rank: map<(ObjId, Key), nat>, n: nat): set<(ObjId, Key)>
    requires Ranked(h, rank)
  {
    set p | p in h && rank[p] < n
  }

  /** A read's chain visits properties of falling rank, so it ends at a cell within as many
      getter calls as there are properties. */
  lemma {:induction false} ChainEnds<V>(
    h: Heap<V>, rank: map<(ObjId, Key), nat>, o: ObjId, key: Key, depth: nat)
    requires Ranked(h, rank) && (o, key) in h && |Below(h, rank, rank[(o, key)])| <= depth
    ensures var a := Origin(h, o, key, depth);
      a.Some? && (a.value, key) in h && h[(a.value, key)].Cell?
    decreases depth
  {
    var p := (o, key);
    if h[p].Getter? {
      var q := (h[p].source, key);
      var lower, here := Below(h, rank, rank[q]), Below(h, rank, rank[p]);
      assert q in here && q !in lower && lower <= here;
      assert |lower| < |here| by {
        assert here == lower + (here - lower) && q in here - lower;
      }
      ChainEnds(h, rank, q.0, key, depth - 1);
    }
  }

  /** What `object[key]` evaluates to. */
  function Read<V>(h: Heap<V>, o: ObjId, key: Key): Option<V> {
    match Origin(h, o, key, |h|)
    case Some(a) => if (a, key) in h && h[(a, key)].Cell? then Some(h[(a, key)].value) else None
    case None => None
  }

  /** Every read of an own name ends at an original export. */
  lemma ReadsEnd<V>(h: Heap<V>, o: ObjId, key: Key)
    requires WellFounded(h)
    ensures Read(h, o, key).Some? <==> (o, key) in h
    ensures (o, key) in h ==> Origin(h, o, key, |h|).Some?
  {
    if (o, key) in h {
      var rank :| Ranked(h, rank);
      var below := Below(h, rank, rank[(o, key)]);
      assert below <= h.Keys;
      assert h.Keys == below + (h.Keys - below);
      ChainEnds(h, rank, o, key, |h|);
    }
  }

  /** More depth does not change where a read ends, nor do more properties. */
  lemma {:induction false} OriginKept<V>(h: Heap<V>, more: Heap<V>, o: ObjId, key: Key, depth: nat, deeper: nat)
    requires Origin(h, o, key, depth).Some? && depth <= deeper
    requires forall p :: p in h ==> p in more && more[p] == h[p]
    ensures Origin(more, o, key, deeper) == Origin(h, o, key, depth)
    decreases depth
  {
    if h[(o, key)].Getter? {
      OriginKept(h, more, h[(o, key)].source, key, depth - 1, deeper - 1);
    }
  }

  /** A name reads as its own cell, or as what the object it is bound to has under that name. */
  lemma ReadFollows<V>(h: Heap<V>, o: ObjId, key: Key)
    requires WellFounded(h) && (o, key) in h
    ensures Read(h, o, key) == match h[(o, key)]
      case Cell(v) => Some(v)
      case Getter(source) => Read(h, source, key)
  {
    if h[(o, key)].Getter? {
      var rank :| Ranked(h, rank);
      var p, q := (o, key), (h[(o, key)].source, key);
      var below := Below(h, rank, rank[q]);
      assert below <= h.Keys - {p};
      assert h.Keys - {p} == below + (h.Keys - {p} - below);
      ChainEnds(h, rank, q.0, key, |h| - 1);
      OriginKept(h, h, q.0, key, |h| - 1, |h|);
    }
  }

  /** After `export *`, an offered name that was missing reads as the source's, and all others as before. */
  lemma StarReads<V>(h: Heap<V>, target: ObjId, source: ObjId, second: Option<ObjId>, o: ObjId, key: Key)
    requires WellFounded(h)
    ensures var after := Apply(h, Star(target, source, second));
      && ((o, key) in h ==> Read(after, o, key) == Read(h, o, key))
      && ((o, key) !in h ==>
            Read(after, o, key) ==
              if (o == target || second == Some(o)) && key != "default" then Read(h, source, key) else None)
  {
    hide Origin, WellFounded;
    var op := Star(target, source, second);
    var after := Apply(h, op);
    ApplyKeepsWellFounded(h, op);
    forall p: (ObjId, Key)
      ensures p in h ==> p in after && after[p] == h[p]
      ensures p !in h ==> (p in after <==> Offers(h, op, p))
      ensures p !in h && p in after ==> after[p] == Getter(source)
    {
      ApplyAt(h, op, p);
    }
    KeepsRead(h, after, o, key);
    KeepsRead(h, after, source, key);
    ReadsEnd(h, source, key);
    if (o, key) !in h && (o, key) in after {
      ReadFollows(after, o, key);
    } else if (o, key) !in after {
      ReadsEnd(after, o, key);
    }
  }

  lemma KeepsRead<V>(h: Heap<V>, more: Heap<V>, o: ObjId, key: Key)
    requires WellFounded(h) && forall p :: p in h ==> p in more && more[p] == h[p]
    ensures (o, key) in h ==> Read(more, o, key) == Read(h, o, key)
  {
    if (o, key) in h {
      ReadsEnd(h, o, key);
      assert h.Keys <= more.Keys;
      SubsetSize(h.Keys, more.Keys);
      OriginKept(h, more, o, key, |h|, |more|);
      var rank :| Ranked(h, rank);
      OriginIsCell(h, rank, o, key);
    }
  }

  lemma OriginIsCell<V>(h: Heap<V>, rank: map<(ObjId, Key), nat>, o: ObjId, key: Key)
    requires Ranked(h, rank) && (o, key) in h
    ensures var a := Origin(h, o, key, |h|); a.Some? && (a.value, key) in h && h[(a.value, key)].Cell?
  {
    var below := Below(h, rank, rank[(o, key)]);
    assert below <= h.Keys;
    SubsetSize(below, h.Keys);
    ChainEnds(h, rank, o, key, |h|);
  }

  lemma {:induction false} OriginIgnoresValue<V>(h: Heap<V>, a: ObjId, key: Key, v: V, o: ObjId, k: Key, depth: nat)
    requires (a, key) in h && h[(a, key)].Cell?
    ensures Origin(h[(a, key) := Cell(v)], o, k, depth) == Origin(h, o, k, depth)
    decreases depth
  {
    if (o, k) in h && h[(o, k)].Getter? && depth > 0 {
      OriginIgnoresValue(h, a, key, v, h[(o, k)].source, k, depth - 1);
    }
  }

  /** Bindings are live: giving an export a new value changes exactly the reads that end at it. */
  lemma ReadsAreLive<V>(h: Heap<V>, a: ObjId, key: Key, v: V, o: ObjId, k: Key)
    requires (a, key) in h && h[(a, key)].Cell?
    ensures Read(Apply(h, Define(a, key, v)), o, k)
         == if k == key && Origin(h, o, k, |h|) == Some(a) then Some(v) else Read(h, o, k)
  {
    var r := Apply(h, Define(a, key, v));
    assert r == h[(a, key) := Cell(v)];
    assert r.Keys == h.Keys;
    assert |r| == |r.Keys| == |h.Keys| == |h|;
    OriginIgnoresValue(h, a, key, v, o, k, |h|);
  }

  // ----- Whole runs -----

  /** Started from modules with only their own exports, any calls in any order, around any cycle of
      `export *`, leave every name readable. */
  lemma EveryNameReadable<V>(h: Heap<V>, ops: seq<Op<V>>, o: ObjId, key: Key)
    requires OnlyCells(h)
    ensures Read(Run(h, ops), o, key).Some? <==> (o, key) in Run(h, ops)
  {
    hide Run, Read;
    CellsWellFounded(h);
    RunKeepsWellFounded(h, ops);
    ReadsEnd(Run(h, ops), o, key);
  }

  /** The i-th call offers or defines the property. */
  ghost predicate OfferedAt<V>(h: Heap<V>, ops: seq<Op<V>>, i: nat, p: (ObjId, Key)) {
    i < |ops| && (Offers(Run(h, ops[..i]), ops[i], p) || Defines(ops[i], p))
  }

  lemma OfferedPrefix<V>(h: Heap<V>, ops: seq<Op<V>>, n: nat, i: nat, p: (ObjId, Key))
    requires i < n <= |ops|
    ensures OfferedAt(h, ops[..n], i, p) <==> OfferedAt(h, ops, i, p)
  {
    assert ops[..n][..i] == ops[..i];
  }

  /** A property is there at the end exactly when it was at the start or some call offered it. */
  lemma {:induction false} PresentIffOffered<V>(h: Heap<V>, ops: seq<Op<V>>, p: (ObjId, Key))
    ensures p in Run(h, ops) <==> p in h || exists i: nat :: OfferedAt(h, ops, i, p)
  {
    if ops == [] {
    } else {
      hide Apply, Offers, Defines;
      var n: nat := |ops| - 1;
      PresentIffOffered(h, ops[..n], p);
      ApplyAt(Run(h, ops[..n]), ops[n], p);
      if i: nat :| OfferedAt(h, ops[..n], i, p) {
        OfferedPrefix(h, ops, n, i, p);
      }
      if i: nat :| i < n && OfferedAt(h, ops, i, p) {
        OfferedPrefix(h, ops, n, i, p);
      }
      assert OfferedAt(h, ops, n, p) <==> Offers(Run(h, ops[..n]), ops[n], p) || Defines(ops[n], p);
    }
  }

  /** Once bound to a getter, a name keeps it. */
  lemma {:induction false} BindingStays<V>(h: Heap<V>, ops: seq<Op<V>>, i: nat, p: (ObjId, Key))
    requires i <= |ops| && p in Run(h, ops[..i]) && Run(h, ops[..i])[p].Getter?
    ensures p in Run(h, ops) && Run(h, ops)[p] == Run(h, ops[..i])[p]
    decreases |ops|
  {
    if i == |ops| {
      assert ops[..i] == ops;
    } else {
      var front := ops[..|ops| - 1];
      assert front[..i] == ops[..i];
      BindingStays(h, front, i, p);
      ApplyAt(Run(h, front), ops[|ops| - 1], p);
    }
  }

  /** A name binds to the first module that offered it. */
  lemma FirstOfferBinds<V>(h: Heap<V>, ops: seq<Op<V>>, i: nat, p: (ObjId, Key))
    requires i < |ops| && p !in h && Offers(Run(h, ops[..i]), ops[i], p)
    requires forall j: nat :: j < i ==> !OfferedAt(h, ops, j, p)
    ensures p in Run(h, ops) && Run(h, ops)[p] == Getter(ops[i].source)
  {
    var front, next := ops[..i], ops[..i + 1];
    PresentIffOffered(h, front, p);
    forall j: nat
      ensures !OfferedAt(h, front, j, p)
    {
      if j < i {
        OfferedPrefix(h, ops, i, j, p);
      }
    }
    ApplyAt(Run(h, front), ops[i], p);
    assert next[..|next| - 1] == front;
    BindingStays(h, ops, i + 1, p);
  }

  /** `default` is never forwarded. */
  lemma {:induction false} DefaultStaysOwn<V>(h: Heap<V>, ops: seq<Op<V>>, o: ObjId)
    requires OnlyCells(h)
    ensures (o, "default") in Run(h, ops) ==> Run(h, ops)[(o, "default")].Cell?
  {
    if ops != [] {
      DefaultStaysOwn(h, ops[..|ops| - 1], o);
      ApplyAt(Run(h, ops[..|ops| - 1]), ops[|ops| - 1], (o, "default"));
    }
  }
}
