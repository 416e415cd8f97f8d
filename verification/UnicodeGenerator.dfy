/** Three-stage table compression: a function over every code point becomes shared 256-entry
    blocks of indices into a list of distinct elements. */
module UnicodeGenerator {
  import opened Wrappers
  import opened Sets

  const CODE_POINTS: nat := 0x11_0000
  const BLOCK_SIZE: nat := 256
  const BLOCKS: nat := 4352

  datatype Tables<+E> = Tables(stage1: seq<nat>, stage2: seq<nat>, stage3: seq<E>)

  datatype GenerateError = BlockIndexTooLarge | Stage2IndexTooLarge

  /** The k-th block of a stage-2 table. */
  function Chunk(stage2: seq<nat>, k: nat): (c: seq<nat>)
    requires BLOCK_SIZE * k + BLOCK_SIZE <= |stage2|
    ensures |c| == BLOCK_SIZE
  {
    stage2[BLOCK_SIZE * k..BLOCK_SIZE * k + BLOCK_SIZE]
  }

  /** The first index whose element is equivalent to `elem`, or the length. */
  function FindIndex<E>(items: seq<E>, eql: (E, E) -> bool, elem: E): (k: nat)
    ensures k <= |items|
    ensures k < |items| ==> eql(items[k], elem)
    ensures forall j :: 0 <= j < k ==> !eql(items[j], elem)
  {
    if items == [] then 0
    else if eql(items[0], elem) then 0
    else 1 + FindIndex(items[1..], eql, elem)
  }

  /** The distinct elements met among the first `n` code points. */
  function Elements<E>(get: nat -> E, eql: (E, E) -> bool, n: nat): seq<E> {
    if n == 0 then []
    else
      var items := Elements(get, eql, n - 1);
      if FindIndex(items, eql, get(n - 1)) == |items| then items + [get(n - 1)] else items
  }

  /** The stage-3 index of a code point's element. */
  function Code<E>(get: nat -> E, eql: (E, E) -> bool, cp: nat): nat {
    FindIndex(Elements(get, eql, cp), eql, get(cp))
  }

  function Block<E>(get: nat -> E, eql: (E, E) -> bool, q: nat): (b: seq<nat>)
    ensures |b| == BLOCK_SIZE
  {
    seq<nat>(BLOCK_SIZE, j requires 0 <= j < BLOCK_SIZE => Code(get, eql, BLOCK_SIZE * q + j))
  }

  /** The different blocks among the first `q`, less those in `known`. */
  ghost function NewBlocks<E>(get: nat -> E, eql: (E, E) -> bool, q: nat, known: iset<seq<nat>>): set<seq<nat>> {
    if q == 0 then {}
    else
      var b := Block(get, eql, q - 1);
      NewBlocks(get, eql, q - 1, known) + if b in known then {} else {b}
  }

  lemma {:induction false} ElementsGrow<E>(get: nat -> E, eql: (E, E) -> bool, m: nat, n: nat)
    requires m <= n
    ensures Elements(get, eql, m) <= Elements(get, eql, n)
    decreases n
  {
    if m < n {
      ElementsGrow(get, eql, m, n - 1);
    }
  }

  /** A code point's index finds an equivalent element in every later list, and no earlier one. */
  lemma CodeFinds<E>(get: nat -> E, eql: (E, E) -> bool, cp: nat, n: nat)
    requires cp < n && eql(get(cp), get(cp))
    ensures var items := Elements(get, eql, n); var k := Code(get, eql, cp);
      k < |items| && eql(items[k], get(cp)) && forall j :: 0 <= j < k ==> !eql(items[j], get(cp))
  {
    var before, met, items := Elements(get, eql, cp), Elements(get, eql, cp + 1), Elements(get, eql, n);
    var k := Code(get, eql, cp);
    ElementsGrow(get, eql, cp, cp + 1);
    ElementsGrow(get, eql, cp + 1, n);
    assert k == |before| ==> met == before + [get(cp)] && eql(get(cp), get(cp));
    assert forall j :: 0 <= j < |met| ==> items[j] == met[j];
    assert forall j :: 0 <= j < |before| ==> met[j] == before[j];
  }

  /** No element is equivalent to an earlier one. */
  ghost predicate Inequivalent<E>(items: seq<E>, eql: (E, E) -> bool) {
    forall j, k :: 0 <= j < k < |items| ==> !eql(items[j], items[k])
  }

  lemma {:induction false} ElementsInequivalent<E>(get: nat -> E, eql: (E, E) -> bool, n: nat)
    ensures Inequivalent(Elements(get, eql, n), eql)
  {
    if n > 0 {
      ElementsInequivalent(get, eql, n - 1);
    }
  }

  lemma NewBlocksStep<E>(get: nat -> E, eql: (E, E) -> bool, q: nat, known: iset<seq<nat>>)
    ensures NewBlocks(get, eql, q + 1, known)
         == NewBlocks(get, eql, q, known) + if Block(get, eql, q) in known then {} else {Block(get, eql, q)}
  {
  }

  lemma {:induction false} NewBlocksGrow<E>(
    get: nat -> E, eql: (E, E) -> bool, m: nat, n: nat, known: iset<seq<nat>>)
    requires m <= n
    ensures NewBlocks(get, eql, m, known) <= NewBlocks(get, eql, n, known)
    decreases n
  {
    if m < n {
      NewBlocksGrow(get, eql, m, n - 1, known);
    }
  }

  lemma {:induction false} NewBlocksMember<E>(
    get: nat -> E, eql: (E, E) -> bool, n: nat, known: iset<seq<nat>>, q: nat)
    requires q < n && Block(get, eql, q) !in known
    ensures Block(get, eql, q) in NewBlocks(get, eql, n, known)
  {
    if q < n - 1 {
      NewBlocksMember(get, eql, n - 1, known, q);
    }
  }

  lemma {:induction false} NewBlocksOrigin<E>(
    get: nat -> E, eql: (E, E) -> bool, n: nat, known: iset<seq<nat>>, b: seq<nat>)
    requires b in NewBlocks(get, eql, n, known)
    ensures b !in known && exists q: nat :: q < n && Block(get, eql, q) == b
  {
    var last: nat := n - 1;
    if b in NewBlocks(get, eql, last, known) {
      NewBlocksOrigin(get, eql, last, known, b);
      var q: nat :| q < last && Block(get, eql, q) == b;
      assert q < n;
    } else {
      assert last < n && b == Block(get, eql, last);
    }
  }

  /** The new blocks are those of the first `n` that were not known: what the throw conditions count. */
  lemma NewBlocksExact<E>(get: nat -> E, eql: (E, E) -> bool, n: nat, known: iset<seq<nat>>, b: seq<nat>)
    ensures b in NewBlocks(get, eql, n, known) <==> b !in known && exists q: nat :: q < n && Block(get, eql, q) == b
  {
    hide NewBlocks, Block;
    if b in NewBlocks(get, eql, n, known) {
      NewBlocksOrigin(get, eql, n, known, b);
    }
    if q: nat :| b !in known && q < n && Block(get, eql, q) == b {
      NewBlocksMember(get, eql, n, known, q);
    }
  }

  /** A block whose entries a `Uint16Array` holds unchanged. */
  ghost predicate FitsUint16(block: seq<nat>) {
    |block| == BLOCK_SIZE && forall j :: 0 <= j < BLOCK_SIZE ==> block[j] <= 0xffff
  }

  /** Blocks of 16-bit entries with the same digest are the same block. */
  ghost predicate CollisionFree<H(!new)>(hash: seq<nat> -> H) {
    forall a, b :: FitsUint16(a) && FitsUint16(b) && hash(a) == hash(b) ==> a == b
  }

  /** With at most 65536 elements so far, the blocks so far fit. */
  lemma BlockFits<E>(get: nat -> E, eql: (E, E) -> bool, q: nat, n: nat)
    requires BLOCK_SIZE * q + BLOCK_SIZE <= n && |Elements(get, eql, n)| <= 0x1_0000
    ensures FitsUint16(Block(get, eql, q))
  {
    hide Elements;
    var b := Block(get, eql, q);
    forall j | 0 <= j < BLOCK_SIZE
      ensures b[j] <= 0xffff
    {
      var cp := BLOCK_SIZE * q + j;
      NextElement(get, eql, cp);
      ElementsGrow(get, eql, cp + 1, n);
    }
  }

  ghost function Known<H(!new)>(hash: seq<nat> -> H, blocks: map<H, nat>): iset<seq<nat>> {
    iset b: seq<nat> | hash(b) in blocks
  }

  /** A digest that `now` maps to a whole block of `stage2` with that digest. */
  ghost predicate Stored<H(!new)>(hash: seq<nat> -> H, stage2: seq<nat>, now: map<H, nat>, h: H) {
    && h in now && now[h] % BLOCK_SIZE == 0 && now[h] + BLOCK_SIZE <= |stage2| && now[h] <= 0xffff
    && hash(Chunk(stage2, now[h] / BLOCK_SIZE)) == h
  }

  /** Each of the first `q` blocks' stage-1 entries is where its digest is filed. */
  ghost predicate Stage1Filed<E, H(!new)>(
    get: nat -> E, eql: (E, E) -> bool, hash: seq<nat> -> H, q: nat, stage1: seq<nat>, now: map<H, nat>)
  {
    && |stage1| == q
    && forall p: nat {:trigger stage1[p]} :: p < q ==>
         var h := hash(Block(get, eql, p)); h in now && stage1[p] == now[h] && stage1[p] <= 0xffff
  }

  /** Digests filed before are kept, and every other one has its block stored. */
  ghost predicate DigestsFiled<H(!new)>(
    hash: seq<nat> -> H, stage2: seq<nat>, now: map<H, nat>, before: map<H, nat>)
  {
    && (forall h :: h in before ==> h in now && now[h] == before[h])
    && (forall h :: h in now ==> h in before || Stored(hash, stage2, now, h))
  }

  /** Stage 2 holds each new block once. */
  ghost predicate Stage2Filed<E, H(!new)>(
    get: nat -> E, eql: (E, E) -> bool, hash: seq<nat> -> H,
    q: nat, stage2: seq<nat>, now: map<H, nat>, before: map<H, nat>)
  {
    && |stage2| == BLOCK_SIZE * |NewBlocks(get, eql, q, Known(hash, before))|
    && forall k: nat {:trigger Chunk(stage2, k)} :: BLOCK_SIZE * k + BLOCK_SIZE <= |stage2| ==>
         var c := Chunk(stage2, k);
         && hash(c) !in before && hash(c) in now && now[hash(c)] == BLOCK_SIZE * k
         && c in NewBlocks(get, eql, q, Known(hash, before))
  }

  /** The tables after `q` blocks, with the digests filed in `now`, of which `before` was there
      at the start. */
  ghost predicate Filed<E, H(!new)>(
    get: nat -> E, eql: (E, E) -> bool, hash: seq<nat> -> H,
    q: nat, stage1: seq<nat>, stage2: seq<nat>, now: map<H, nat>, before: map<H, nat>)
  {
    && Stage1Filed(get, eql, hash, q, stage1, now)
    && DigestsFiled(hash, stage2, now, before)
    && Stage2Filed(get, eql, hash, q, stage2, now, before)
  }

  lemma BlockIsFiled<E, H(!new)>(
    get: nat -> E, eql: (E, E) -> bool, hash: seq<nat> -> H,
    q: nat, stage1: seq<nat>, stage2: seq<nat>, now: map<H, nat>, before: map<H, nat>, p: nat)
    requires Filed(get, eql, hash, q, stage1, stage2, now, before) && p < q
    ensures hash(Block(get, eql, p)) in now
  {
    assert stage1[p] <= 0xffff;
  }

  lemma FileStage1<E, H(!new)>(
    get: nat -> E, eql: (E, E) -> bool, hash: seq<nat> -> H, q: nat, stage1: seq<nat>, now: map<H, nat>)
    requires Stage1Filed(get, eql, hash, q, stage1, now)
    requires var h := hash(Block(get, eql, q)); h in now && now[h] <= 0xffff
    ensures Stage1Filed(get, eql, hash, q + 1, stage1 + [now[hash(Block(get, eql, q))]], now)
  {
    hide Block;
    var stage1' := stage1 + [now[hash(Block(get, eql, q))]];
    forall p: nat | p < q + 1
      ensures var h := hash(Block(get, eql, p)); h in now && stage1'[p] == now[h] && stage1'[p] <= 0xffff
    {
      assert p < q ==> stage1'[p] == stage1[p];
    }
  }

  /** A digest already filed is that of a block already counted. */
  lemma KnownBlockCounted<E, H(!new)>(
    get: nat -> E, eql: (E, E) -> bool, hash: seq<nat> -> H,
    q: nat, stage2: seq<nat>, now: map<H, nat>, before: map<H, nat>)
    requires CollisionFree(hash) && DigestsFiled(hash, stage2, now, before)
    requires Stage2Filed(get, eql, hash, q, stage2, now, before) && hash(Block(get, eql, q)) in now
    requires |Elements(get, eql, BLOCK_SIZE * (q + 1))| <= 0x1_0000
    ensures NewBlocks(get, eql, q + 1, Known(hash, before)) == NewBlocks(get, eql, q, Known(hash, before))
  {
    hide Block, NewBlocks, FitsUint16, Elements;
    var b, known := Block(get, eql, q), Known(hash, before);
    NewBlocksStep(get, eql, q, known);
    if hash(b) !in before {
      assert Stored(hash, stage2, now, hash(b));
      var k := now[hash(b)] / BLOCK_SIZE;
      ElementsGrow(get, eql, BLOCK_SIZE * q, BLOCK_SIZE * (q + 1));
      StoredFits(get, eql, hash, q, stage2, now, before, k);
      BlockFits(get, eql, q, BLOCK_SIZE * (q + 1));
      assert Chunk(stage2, k) == b;
    }
  }

  /** A stored block is one of the function's, so it fits. */
  lemma StoredFits<E, H(!new)>(
    get: nat -> E, eql: (E, E) -> bool, hash: seq<nat> -> H,
    q: nat, stage2: seq<nat>, now: map<H, nat>, before: map<H, nat>, k: nat)
    requires Stage2Filed(get, eql, hash, q, stage2, now, before)
    requires BLOCK_SIZE * k + BLOCK_SIZE <= |stage2|
    requires |Elements(get, eql, BLOCK_SIZE * q)| <= 0x1_0000
    ensures FitsUint16(Chunk(stage2, k))
  {
    hide Block, NewBlocks, FitsUint16, Elements;
    var c := Chunk(stage2, k);
    NewBlocksOrigin(get, eql, q, Known(hash, before), c);
    var p: nat :| p < q && Block(get, eql, p) == c;
    BlockFits(get, eql, p, BLOCK_SIZE * q);
  }

  lemma FileKnown<E, H(!new)>(
    get: nat -> E, eql: (E, E) -> bool, hash: seq<nat> -> H,
    q: nat, stage1: seq<nat>, stage2: seq<nat>, now: map<H, nat>, before: map<H, nat>)
    requires CollisionFree(hash) && Filed(get, eql, hash, q, stage1, stage2, now, before)
    requires var h := hash(Block(get, eql, q)); h in now && now[h] <= 0xffff
    requires |Elements(get, eql, BLOCK_SIZE * (q + 1))| <= 0x1_0000
    ensures Filed(get, eql, hash, q + 1, stage1 + [now[hash(Block(get, eql, q))]], stage2, now, before)
  {
    hide Stage1Filed, DigestsFiled, NewBlocks, Block, Known, CollisionFree, Elements;
    FileStage1(get, eql, hash, q, stage1, now);
    KnownBlockCounted(get, eql, hash, q, stage2, now, before);
  }

  lemma ChunksAppend(stage2: seq<nat>, b: seq<nat>)
    requires |b| == BLOCK_SIZE && |stage2| % BLOCK_SIZE == 0
    ensures forall k: nat {:trigger Chunk(stage2 + b, k)} :: BLOCK_SIZE * k + BLOCK_SIZE <= |stage2| + BLOCK_SIZE ==>
              Chunk(stage2 + b, k) == if k == |stage2| / BLOCK_SIZE then b else Chunk(stage2, k)
  {
    forall k: nat | BLOCK_SIZE * k + BLOCK_SIZE <= |stage2| + BLOCK_SIZE
      ensures Chunk(stage2 + b, k) == if k == |stage2| / BLOCK_SIZE then b else Chunk(stage2, k)
    {
      if k < |stage2| / BLOCK_SIZE {
        assert Chunk(stage2 + b, k) == Chunk(stage2, k);
      }
    }
  }

  lemma FileNewStage1<E, H(!new)>(
    get: nat -> E, eql: (E, E) -> bool, hash: seq<nat> -> H, q: nat, stage1: seq<nat>, now: map<H, nat>, at: nat)
    requires Stage1Filed(get, eql, hash, q, stage1, now)
    requires hash(Block(get, eql, q)) !in now && at <= 0xffff
    ensures Stage1Filed(get, eql, hash, q + 1, stage1 + [at], now[hash(Block(get, eql, q)) := at])
  {
    hide Block;
    var stage1', now' := stage1 + [at], now[hash(Block(get, eql, q)) := at];
    forall p: nat | p < q + 1
      ensures var h := hash(Block(get, eql, p)); h in now' && stage1'[p] == now'[h] && stage1'[p] <= 0xffff
    {
      assert p < q ==> stage1'[p] == stage1[p];
    }
  }

  lemma FileNewDigest<H(!new)>(
    hash: seq<nat> -> H, b: seq<nat>, stage2: seq<nat>, now: map<H, nat>, before: map<H, nat>)
    requires |b| == BLOCK_SIZE && |stage2| % BLOCK_SIZE == 0 && |stage2| <= 0xffff
    requires DigestsFiled(hash, stage2, now, before) && hash(b) !in now
    ensures DigestsFiled(hash, stage2 + b, now[hash(b) := |stage2|], before)
  {
    hide Chunk;
    ChunksAppend(stage2, b);
    var now' := now[hash(b) := |stage2|];
    forall h | h in now'
      ensures h in before || Stored(hash, stage2 + b, now', h)
    {
      if h != hash(b) && h !in before {
        assert Stored(hash, stage2, now, h);
      }
    }
  }

  lemma FileNewStage2<E, H(!new)>(
    get: nat -> E, eql: (E, E) -> bool, hash: seq<nat> -> H,
    q: nat, stage2: seq<nat>, now: map<H, nat>, before: map<H, nat>)
    requires Stage2Filed(get, eql, hash, q, stage2, now, before)
    requires var b := Block(get, eql, q);
      hash(b) !in now && hash(b) !in before && b !in NewBlocks(get, eql, q, Known(hash, before))
    ensures Stage2Filed(get, eql, hash, q + 1, stage2 + Block(get, eql, q),
                        now[hash(Block(get, eql, q)) := |stage2|], before)
  {
    hide Block, Chunk, NewBlocks;
    var b, known := Block(get, eql, q), Known(hash, before);
    NewBlocksStep(get, eql, q, known);
    ChunksAppend(stage2, b);
    var n, stage2', now' := |stage2| / BLOCK_SIZE, stage2 + b, now[hash(b) := |stage2|];
    forall k: nat | BLOCK_SIZE * k + BLOCK_SIZE <= |stage2'|
      ensures var c := Chunk(stage2', k);
        && hash(c) !in before && hash(c) in now' && now'[hash(c)] == BLOCK_SIZE * k
        && c in NewBlocks(get, eql, q + 1, known)
    {
      assert Chunk(stage2', k) == if k == n then b else Chunk(stage2, k);
    }
  }

  lemma FileNew<E, H(!new)>(
    get: nat -> E, eql: (E, E) -> bool, hash: seq<nat> -> H,
    q: nat, stage1: seq<nat>, stage2: seq<nat>, now: map<H, nat>, before: map<H, nat>)
    requires Filed(get, eql, hash, q, stage1, stage2, now, before)
    requires hash(Block(get, eql, q)) !in now && |stage2| <= 0xffff
    ensures Filed(get, eql, hash, q + 1, stage1 + [|stage2|], stage2 + Block(get, eql, q),
                  now[hash(Block(get, eql, q)) := |stage2|], before)
  {
    NewBlockUnseen(get, eql, hash, q, stage1, stage2, now, before);
    FileNewStage1(get, eql, hash, q, stage1, now, |stage2|);
    FileNewDigest(hash, Block(get, eql, q), stage2, now, before);
    FileNewStage2(get, eql, hash, q, stage2, now, before);
  }

  lemma NewBlockUnseen<E, H(!new)>(
    get: nat -> E, eql: (E, E) -> bool, hash: seq<nat> -> H,
    q: nat, stage1: seq<nat>, stage2: seq<nat>, now: map<H, nat>, before: map<H, nat>)
    requires Filed(get, eql, hash, q, stage1, stage2, now, before)
    requires hash(Block(get, eql, q)) !in now
    ensures var known := Known(hash, before);
      Block(get, eql, q) !in known && Block(get, eql, q) !in NewBlocks(get, eql, q, known)
  {
    hide Block, Stored;
    var b, known := Block(get, eql, q), Known(hash, before);
    if b in NewBlocks(get, eql, q, known) {
      NewBlocksOrigin(get, eql, q, known, b);
      var p: nat :| p < q && Block(get, eql, p) == b;
      BlockIsFiled(get, eql, hash, q, stage1, stage2, now, before, p);
    }
  }

  // ----- What the filed tables mean -----

  function Lookup<E>(t: Tables<E>, cp: nat): Option<E> {
    if cp / BLOCK_SIZE >= |t.stage1| then None
    else
      var at := t.stage1[cp / BLOCK_SIZE] + cp % BLOCK_SIZE;
      if at >= |t.stage2| || t.stage2[at] >= |t.stage3| then None else Some(t.stage3[t.stage2[at]])
  }

  /** From an empty digest map, the two stages give every code point its own index, in blocks
      that are aligned and pairwise different. */
  lemma FiledCodes<E, H(!new)>(
    get: nat -> E, eql: (E, E) -> bool, hash: seq<nat> -> H,
    q: nat, stage1: seq<nat>, stage2: seq<nat>, now: map<H, nat>, cp: nat)
    requires CollisionFree(hash) && Filed(get, eql, hash, q, stage1, stage2, now, map[])
    requires cp < BLOCK_SIZE * q && |Elements(get, eql, BLOCK_SIZE * q)| <= 0x1_0000
    ensures stage1[cp / BLOCK_SIZE] % BLOCK_SIZE == 0 && stage1[cp / BLOCK_SIZE] <= 0xffff
    ensures stage1[cp / BLOCK_SIZE] + BLOCK_SIZE <= |stage2|
    ensures stage2[stage1[cp / BLOCK_SIZE] + cp % BLOCK_SIZE] == Code(get, eql, cp)
  {
    hide Block, Code, Stage2Filed, Elements, FitsUint16;
    var p, j := cp / BLOCK_SIZE, cp % BLOCK_SIZE;
    var h := hash(Block(get, eql, p));
    BlockIsFiled(get, eql, hash, q, stage1, stage2, now, map[], p);
    assert stage1[p] == now[h];
    assert Stored(hash, stage2, now, h);
    var c := Chunk(stage2, now[h] / BLOCK_SIZE);
    StoredFits(get, eql, hash, q, stage2, now, map[], now[h] / BLOCK_SIZE);
    BlockFits(get, eql, p, BLOCK_SIZE * q);
    assert c == Block(get, eql, p);
    BlockAt(get, eql, p, j);
    assert c[j] == stage2[now[h] + j];
  }

  lemma BlockAt<E>(get: nat -> E, eql: (E, E) -> bool, p: nat, j: nat)
    requires j < BLOCK_SIZE
    ensures Block(get, eql, p)[j] == Code(get, eql, BLOCK_SIZE * p + j)
  {
  }

  /** From an empty digest map, the three stages give every code point an element equivalent to
      its own, whatever the equivalence. */
  lemma TablesAreExact<E, H(!new)>(
    get: nat -> E, eql: (E, E) -> bool, hash: seq<nat> -> H, t: Tables<E>, now: map<H, nat>, cp: nat)
    requires CollisionFree(hash) && Filed(get, eql, hash, BLOCKS, t.stage1, t.stage2, now, map[])
    requires t.stage3 == Elements(get, eql, CODE_POINTS) && |t.stage3| <= 0x1_0000
    requires cp < CODE_POINTS && eql(get(cp), get(cp))
    ensures Lookup(t, cp).Some? && eql(Lookup(t, cp).value, get(cp))
  {
    hide Filed, Code, Elements, CollisionFree;
    FiledCodes(get, eql, hash, BLOCKS, t.stage1, t.stage2, now, cp);
    CodeFinds(get, eql, cp, CODE_POINTS);
    FiledLength(get, eql, hash, BLOCKS, t.stage1, t.stage2, now);
  }

  lemma FiledLength<E, H(!new)>(
    get: nat -> E, eql: (E, E) -> bool, hash: seq<nat> -> H,
    q: nat, stage1: seq<nat>, stage2: seq<nat>, now: map<H, nat>)
    requires Filed(get, eql, hash, q, stage1, stage2, now, map[])
    ensures |stage1| == q
  {
  }

  lemma ChunksDiffer<E, H(!new)>(
    get: nat -> E, eql: (E, E) -> bool, hash: seq<nat> -> H,
    q: nat, stage1: seq<nat>, stage2: seq<nat>, now: map<H, nat>, before: map<H, nat>, j: nat, k: nat)
    requires Filed(get, eql, hash, q, stage1, stage2, now, before)
    requires j < k && BLOCK_SIZE * k + BLOCK_SIZE <= |stage2|
    ensures Chunk(stage2, j) != Chunk(stage2, k)
  {
    assert now[hash(Chunk(stage2, j))] == BLOCK_SIZE * j;
    assert now[hash(Chunk(stage2, k))] == BLOCK_SIZE * k;
  }

  /** A second run of the same generator finds every digest filed already: it stores no block,
      and its stage 1 points into tables it does not return. */
  lemma SecondRunStoresNothing<E, H(!new)>(
    get: nat -> E, eql: (E, E) -> bool, hash: seq<nat> -> H,
    first: Tables<E>, between: map<H, nat>, second: Tables<E>, after: map<H, nat>)
    requires Filed(get, eql, hash, BLOCKS, first.stage1, first.stage2, between, map[])
    requires Filed(get, eql, hash, BLOCKS, second.stage1, second.stage2, after, between)
    ensures second.stage2 == [] && forall cp: nat :: Lookup(second, cp) == None
  {
    var known, unfiled := Known(hash, between), NewBlocks(get, eql, BLOCKS, Known(hash, between));
    forall b | b in unfiled
      ensures false
    {
      NewBlocksOrigin(get, eql, BLOCKS, known, b);
      var q: nat :| q < BLOCKS && Block(get, eql, q) == b;
      BlockIsFiled(get, eql, hash, BLOCKS, first.stage1, first.stage2, between, map[], q);
    }
    assert unfiled == {};
  }

  // ----- The generator -----

  class Generator<E(!new), H(==,!new)> {
    const get: nat -> E
    const eql: (E, E) -> bool
    const hash: seq<nat> -> H
    var blockMap: map<H, nat>

    constructor (get: nat -> E, eql: (E, E) -> bool, hash: seq<nat> -> H)
      ensures this.get == get && this.eql == eql && this.hash == hash && blockMap == map[]
    {
      this.get, this.eql, this.hash, blockMap := get, eql, hash, map[];
    }

    /** Gets or creates the stage-2 index of a finished block and adds it to stage 1. */
    method FileBlock(ghost q: nat, stage1: seq<nat>, stage2: seq<nat>, block: seq<nat>, ghost before: map<H, nat>)
      returns (r: Result<(seq<nat>, seq<nat>), GenerateError>)
      requires CollisionFree(hash) && q < BLOCKS && block == Block(get, eql, q)
      requires Filed(get, eql, hash, q, stage1, stage2, blockMap, before)
      requires |Elements(get, eql, BLOCK_SIZE * (q + 1))| <= 0x1_0000
      modifies this
      ensures r.Ok? ==> Filed(get, eql, hash, q + 1, r.value.0, r.value.1, blockMap, before)
      ensures r.Err? && before == map[] ==> |NewBlocks(get, eql, BLOCKS, iset{})| > 256
      ensures r.Err? ==> r.error.Stage2IndexTooLarge? && (before == map[] ==> BlocksFirst(get, eql))
      ensures r.Err? ==> hash(block) !in old(blockMap) || old(blockMap)[hash(block)] > 0xffff
      ensures r.Err? ==> SomeTooLarge(get, eql, hash, blockMap) && !AllKnown(get, eql, hash, before)
    {
      hide Filed, Elements, NewBlocks, Block, SomeTooLarge, AllKnown, BlocksFirst;
      KnownStays(get, eql, hash, q, stage1, stage2, blockMap, before);
      var blockHash := hash(block);
      if blockHash in blockMap {
        var stage2Idx := blockMap[blockHash];
        if stage2Idx > 0xffff {
          StaleDigest(get, eql, hash, q, stage1, stage2, blockMap, before, blockHash);
          LargeIfTold(get, eql, hash, q, blockMap);
          return Err(Stage2IndexTooLarge);
        }
        FileKnown(get, eql, hash, q, stage1, stage2, blockMap, before);
        return Ok((stage1 + [stage2Idx], stage2));
      }
      var stage2Idx := |stage2|;
      if stage2Idx > 0xffff {
        TooManyBlocks(get, eql, hash, q, stage1, stage2, blockMap, before);
        BlocksCameFirst(get, eql, hash, q, stage1, stage2, blockMap, before);
        blockMap := blockMap[blockHash := stage2Idx];
        LargeIfTold(get, eql, hash, q, blockMap);
        return Err(Stage2IndexTooLarge);
      }
      FileNew(get, eql, hash, q, stage1, stage2, blockMap, before);
      blockMap := blockMap[blockHash := stage2Idx];
      return Ok((stage1 + [stage2Idx], stage2 + block));
    }

    /** Runs over every code point. The last block is whole, as 256 divides 0x110000. From an empty
        digest map it fails exactly when there are too many distinct elements or blocks. */
    method Generate() returns (r: Result<Tables<E>, GenerateError>)
      requires CollisionFree(hash)
      modifies this
      ensures r.Ok? ==>
        && r.value.stage3 == Elements(get, eql, CODE_POINTS) && |r.value.stage3| <= 0x1_0000
        && Filed(get, eql, hash, BLOCKS, r.value.stage1, r.value.stage2, blockMap, old(blockMap))
      ensures old(blockMap) == map[] ==>
        (r.Ok? <==> |Elements(get, eql, CODE_POINTS)| <= 0x1_0000 && |NewBlocks(get, eql, BLOCKS, iset{})| <= 256)
      ensures AllKnown(get, eql, hash, old(blockMap)) && |Elements(get, eql, CODE_POINTS)| <= 0x1_0000 ==> r.Ok?
      ensures r.Err? ==> |Elements(get, eql, CODE_POINTS)| > 0x1_0000 || SomeTooLarge(get, eql, hash, blockMap)
      ensures old(blockMap) == map[] && r == Err(BlockIndexTooLarge) ==> ElementsFirst(get, eql)
      ensures old(blockMap) == map[] && r == Err(Stage2IndexTooLarge) ==> BlocksFirst(get, eql)
    {
      hide AllKnown, SomeTooLarge, ElementsFirst, BlocksFirst, Filed, Elements, NewBlocks, Block, Code, FindIndex,
           CollisionFree, Filling;
      var stage1: seq<nat>, stage2: seq<nat>, stage3 := [], [], [];
      var block := new nat[BLOCK_SIZE](_ => 0);
      var blockLen := 0;
      ghost var before := blockMap;
      FillNothing(get, eql, 0, block[..]);
      NothingFiled(get, eql, hash, before);
      for cp := 0 to CODE_POINTS
        invariant fresh(block) && block.Length == BLOCK_SIZE
        invariant blockLen == cp % BLOCK_SIZE
        invariant stage3 == Elements(get, eql, cp) && |stage3| <= 0x1_0000
        invariant Filling(get, eql, cp - blockLen, block[..], blockLen)
        invariant Filed(get, eql, hash, cp / BLOCK_SIZE, stage1, stage2, blockMap, before)
      {
        var elem := get(cp);
        var blockIdx := FindIndex(stage3, eql, elem);
        NextElement(get, eql, cp);
        if blockIdx == |stage3| {
          stage3 := stage3 + [elem];
        }
        assert stage3 == Elements(get, eql, cp + 1) && blockIdx == Code(get, eql, cp);
        if blockIdx > 0xffff {
          TooManyElements(get, eql, cp + 1);
          ElementsCameFirst(get, eql, hash, cp, stage1, stage2, blockMap, before);
          return Err(BlockIndexTooLarge);
        }
        FillNext(get, eql, cp - blockLen, block[..], blockLen);
        block[blockLen] := blockIdx;
        blockLen := blockLen + 1;
        if blockLen < BLOCK_SIZE && cp != 0x10_ffff {
          continue;
        }
        assert blockLen == BLOCK_SIZE;
        BlockFilled(get, eql, cp / BLOCK_SIZE, block[..]);
        var filed :- FileBlock(cp / BLOCK_SIZE, stage1, stage2, block[..], before);
        stage1, stage2 := filed.0, filed.1;
        block := new nat[BLOCK_SIZE](_ => 0);
        blockLen := 0;
        FillNothing(get, eql, cp + 1, block[..]);
      }
      FewBlocks(get, eql, hash, stage1, stage2, blockMap, before);
      return Ok(Tables(stage1, stage2, stage3));
    }
  }

  /** Every block's digest is filed within 16 bits. */
  ghost predicate AllKnown<E, H(!new)>(
    get: nat -> E, eql: (E, E) -> bool, hash: seq<nat> -> H, filed: map<H, nat>)
  {
    forall q: nat {:trigger Block(get, eql, q)} :: q < BLOCKS ==>
      hash(Block(get, eql, q)) in filed && filed[hash(Block(get, eql, q))] <= 0xffff
  }

  /** The 65537th element turns up while the blocks finished before it are few enough. */
  ghost predicate ElementsFirst<E>(get: nat -> E, eql: (E, E) -> bool) {
    exists cp: nat :: cp < CODE_POINTS && ElementsOver(get, eql, cp)
  }

  ghost predicate ElementsOver<E>(get: nat -> E, eql: (E, E) -> bool, cp: nat) {
    |Elements(get, eql, cp + 1)| > 0x1_0000 && |NewBlocks(get, eql, cp / BLOCK_SIZE, iset{})| <= 256
  }

  /** The 257th block is finished while the elements so far are few enough. */
  ghost predicate BlocksFirst<E>(get: nat -> E, eql: (E, E) -> bool) {
    exists q: nat :: q < BLOCKS && BlocksOver(get, eql, q)
  }

  ghost predicate BlocksOver<E>(get: nat -> E, eql: (E, E) -> bool, q: nat) {
    |NewBlocks(get, eql, q + 1, iset{})| > 256 && |Elements(get, eql, BLOCK_SIZE * (q + 1))| <= 0x1_0000
  }

  /** Only one of the two comes first, so each error says which limit was met first. */
  lemma OneLimitFirst<E>(get: nat -> E, eql: (E, E) -> bool)
    ensures !(ElementsFirst(get, eql) && BlocksFirst(get, eql))
  {
    hide Elements, NewBlocks;
    if ElementsFirst(get, eql) && BlocksFirst(get, eql) {
      var cp: nat :| cp < CODE_POINTS && ElementsOver(get, eql, cp);
      var q: nat :| q < BLOCKS && BlocksOver(get, eql, q);
      NotBoth(get, eql, cp, q);
    }
  }

  lemma NotBoth<E>(get: nat -> E, eql: (E, E) -> bool, cp: nat, q: nat)
    requires |Elements(get, eql, cp + 1)| > 0x1_0000 && |NewBlocks(get, eql, q + 1, iset{})| > 256
    ensures |Elements(get, eql, BLOCK_SIZE * (q + 1))| > 0x1_0000
         || |NewBlocks(get, eql, cp / BLOCK_SIZE, iset{})| > 256
  {
    hide Elements, NewBlocks;
    if cp / BLOCK_SIZE <= q {
      ElementsGrow(get, eql, cp + 1, BLOCK_SIZE * (q + 1));
    } else {
      NewBlocksGrow(get, eql, q + 1, cp / BLOCK_SIZE, iset{});
      SubsetSize(NewBlocks(get, eql, q + 1, iset{}), NewBlocks(get, eql, cp / BLOCK_SIZE, iset{}));
    }
  }

  lemma ElementsCameFirst<E, H(!new)>(
    get: nat -> E, eql: (E, E) -> bool, hash: seq<nat> -> H,
    cp: nat, stage1: seq<nat>, stage2: seq<nat>, now: map<H, nat>, before: map<H, nat>)
    requires Filed(get, eql, hash, cp / BLOCK_SIZE, stage1, stage2, now, before)
    requires cp < CODE_POINTS && |Elements(get, eql, cp + 1)| > 0x1_0000
    ensures before == map[] ==> ElementsFirst(get, eql)
  {
    hide Block, NewBlocks, Elements, Filed;
    FiledBlocks(get, eql, hash, cp / BLOCK_SIZE, stage1, stage2, now, before);
    assert before == map[] ==> ElementsOver(get, eql, cp);
  }

  lemma BlocksCameFirst<E, H(!new)>(
    get: nat -> E, eql: (E, E) -> bool, hash: seq<nat> -> H,
    q: nat, stage1: seq<nat>, stage2: seq<nat>, now: map<H, nat>, before: map<H, nat>)
    requires Filed(get, eql, hash, q, stage1, stage2, now, before) && q < BLOCKS
    requires hash(Block(get, eql, q)) !in now && |stage2| > 0xffff
    requires |Elements(get, eql, BLOCK_SIZE * (q + 1))| <= 0x1_0000
    ensures before == map[] ==> BlocksFirst(get, eql)
  {
    hide Block, NewBlocks, Elements;
    if before == map[] {
      NothingKnown(hash);
      NewBlockUnseen(get, eql, hash, q, stage1, stage2, now, before);
      var seen, b := NewBlocks(get, eql, q, iset{}), Block(get, eql, q);
      NewBlocksStep(get, eql, q, iset{});
      assert |seen + {b}| == |seen| + 1;
      assert BlocksOver(get, eql, q);
    }
  }

  /** Some block's digest is filed past 16 bits. */
  ghost predicate SomeTooLarge<E, H(!new)>(
    get: nat -> E, eql: (E, E) -> bool, hash: seq<nat> -> H, filed: map<H, nat>)
  {
    exists q: nat {:trigger Block(get, eql, q)} :: q < BLOCKS &&
      hash(Block(get, eql, q)) in filed && filed[hash(Block(get, eql, q))] > 0xffff
  }

  lemma LargeIfTold<E, H(!new)>(
    get: nat -> E, eql: (E, E) -> bool, hash: seq<nat> -> H, q: nat, filed: map<H, nat>)
    requires q < BLOCKS
    ensures var h := hash(Block(get, eql, q));
      h in filed && filed[h] > 0xffff ==> SomeTooLarge(get, eql, hash, filed)
  {
    hide Block;
  }

  /** With such a digest filed, no later run on the same map returns. */
  lemma TooLargeStays<E, H(!new)>(
    get: nat -> E, eql: (E, E) -> bool, hash: seq<nat> -> H,
    stage1: seq<nat>, stage2: seq<nat>, now: map<H, nat>, before: map<H, nat>)
    requires Filed(get, eql, hash, BLOCKS, stage1, stage2, now, before)
    ensures !SomeTooLarge(get, eql, hash, before)
  {
    hide Block, Stage2Filed, Stored;
    forall q: nat | q < BLOCKS && hash(Block(get, eql, q)) in before
      ensures before[hash(Block(get, eql, q))] <= 0xffff
    {
      assert stage1[q] <= 0xffff;
    }
  }

  /** Digests filed before the run are still filed there. */
  lemma KnownStays<E, H(!new)>(
    get: nat -> E, eql: (E, E) -> bool, hash: seq<nat> -> H,
    q: nat, stage1: seq<nat>, stage2: seq<nat>, now: map<H, nat>, before: map<H, nat>)
    requires Filed(get, eql, hash, q, stage1, stage2, now, before) && q < BLOCKS
    ensures AllKnown(get, eql, hash, before) ==>
              var h := hash(Block(get, eql, q)); h in now && now[h] <= 0xffff
  {
    hide Block, Stage1Filed, Stage2Filed, Stored;
  }

  /** A finished run leaves every block's digest filed. */
  lemma FinishedKnowsAll<E, H(!new)>(
    get: nat -> E, eql: (E, E) -> bool, hash: seq<nat> -> H,
    stage1: seq<nat>, stage2: seq<nat>, now: map<H, nat>, before: map<H, nat>)
    requires Filed(get, eql, hash, BLOCKS, stage1, stage2, now, before)
    ensures AllKnown(get, eql, hash, now)
  {
    hide Block, DigestsFiled, Stage2Filed;
    forall q: nat | q < BLOCKS
      ensures hash(Block(get, eql, q)) in now && now[hash(Block(get, eql, q))] <= 0xffff
    {
      assert stage1[q] <= 0xffff;
    }
  }

  /** A second run on the same generator returns exactly when the first did, with an empty stage 2 into
      which its stage 1 cannot point. */
  method GenerateTwice<E(!new), H(==,!new)>(get: nat -> E, eql: (E, E) -> bool, hash: seq<nat> -> H)
    returns (first: Result<Tables<E>, GenerateError>, second: Result<Tables<E>, GenerateError>)
    requires CollisionFree(hash)
    ensures first.Ok? <==> |Elements(get, eql, CODE_POINTS)| <= 0x1_0000 && |NewBlocks(get, eql, BLOCKS, iset{})| <= 256
    ensures second.Ok? <==> first.Ok?
    ensures first.Ok? ==> second.Ok? && second.value.stage3 == first.value.stage3
    ensures first.Ok? ==> forall cp: nat :: cp < CODE_POINTS && eql(get(cp), get(cp)) ==>
      Lookup(first.value, cp).Some? && eql(Lookup(first.value, cp).value, get(cp))
    ensures first.Ok? ==> second.value.stage2 == [] && forall cp: nat :: Lookup(second.value, cp) == None
  {
    hide AllKnown, SomeTooLarge, Filed, Elements, NewBlocks, CollisionFree, Lookup;
    var generator := new Generator(get, eql, hash);
    first := generator.Generate();
    ghost var between := generator.blockMap;
    second := generator.Generate();
    if second.Ok? {
      TooLargeStays(get, eql, hash, second.value.stage1, second.value.stage2, generator.blockMap, between);
    }
    if first.Ok? {
      var t := first.value;
      FinishedKnowsAll(get, eql, hash, t.stage1, t.stage2, between, map[]);
      forall cp: nat | cp < CODE_POINTS && eql(get(cp), get(cp))
        ensures Lookup(t, cp).Some? && eql(Lookup(t, cp).value, get(cp))
      {
        TablesAreExact(get, eql, hash, t, between, cp);
      }
      SecondRunStoresNothing(get, eql, hash, t, between, second.value, generator.blockMap);
    }
  }

  lemma NothingFiled<E, H(!new)>(get: nat -> E, eql: (E, E) -> bool, hash: seq<nat> -> H, before: map<H, nat>)
    ensures Filed(get, eql, hash, 0, [], [], before, before)
    ensures Elements(get, eql, 0) == []
  {
  }

  lemma NextElement<E>(get: nat -> E, eql: (E, E) -> bool, cp: nat)
    ensures var items, k := Elements(get, eql, cp), Code(get, eql, cp);
      && k == FindIndex(items, eql, get(cp))
      && Elements(get, eql, cp + 1) == if k == |items| then items + [get(cp)] else items
  {
  }

  lemma TooManyElements<E>(get: nat -> E, eql: (E, E) -> bool, n: nat)
    requires n <= CODE_POINTS && |Elements(get, eql, n)| > 0x1_0000
    ensures |Elements(get, eql, CODE_POINTS)| > 0x1_0000
  {
    hide Elements;
    ElementsGrow(get, eql, n, CODE_POINTS);
  }

  /** The first `n` entries of a block buffer are the codes of the code points from `start` on. */
  ghost predicate Filling<E>(get: nat -> E, eql: (E, E) -> bool, start: nat, block: seq<nat>, n: nat) {
    n <= |block| && forall j :: 0 <= j < n ==> block[j] == Code(get, eql, start + j)
  }

  lemma FillNothing<E>(get: nat -> E, eql: (E, E) -> bool, start: nat, block: seq<nat>)
    ensures Filling(get, eql, start, block, 0)
  {
  }

  lemma FillNext<E>(get: nat -> E, eql: (E, E) -> bool, start: nat, block: seq<nat>, n: nat)
    requires n < |block| && Filling(get, eql, start, block, n)
    ensures Filling(get, eql, start, block[n := Code(get, eql, start + n)], n + 1)
  {
    hide Code;
  }

  lemma BlockFilled<E>(get: nat -> E, eql: (E, E) -> bool, q: nat, block: seq<nat>)
    requires |block| == BLOCK_SIZE && Filling(get, eql, BLOCK_SIZE * q, block, BLOCK_SIZE)
    ensures block == Block(get, eql, q)
  {
    hide Code;
  }

  lemma NothingKnown<H(!new)>(hash: seq<nat> -> H)
    ensures Known(hash, map[]) == iset{}
  {
  }

  lemma TooManyBlocks<E, H(!new)>(
    get: nat -> E, eql: (E, E) -> bool, hash: seq<nat> -> H,
    q: nat, stage1: seq<nat>, stage2: seq<nat>, now: map<H, nat>, before: map<H, nat>)
    requires Filed(get, eql, hash, q, stage1, stage2, now, before) && q < BLOCKS
    requires hash(Block(get, eql, q)) !in now && |stage2| > 0xffff
    ensures before == map[] ==> |NewBlocks(get, eql, BLOCKS, iset{})| > 256
  {
    hide Block, NewBlocks;
    if before == map[] {
      NothingKnown(hash);
      NewBlockUnseen(get, eql, hash, q, stage1, stage2, now, before);
      var seen, b := NewBlocks(get, eql, q, iset{}), Block(get, eql, q);
      NewBlocksStep(get, eql, q, iset{});
      assert |seen + {b}| == |seen| + 1;
      NewBlocksGrow(get, eql, q + 1, BLOCKS, iset{});
      SubsetSize(seen + {b}, NewBlocks(get, eql, BLOCKS, iset{}));
    }
  }

  lemma FewBlocks<E, H(!new)>(
    get: nat -> E, eql: (E, E) -> bool, hash: seq<nat> -> H,
    stage1: seq<nat>, stage2: seq<nat>, now: map<H, nat>, before: map<H, nat>)
    requires Filed(get, eql, hash, BLOCKS, stage1, stage2, now, before)
    ensures before == map[] ==> |NewBlocks(get, eql, BLOCKS, iset{})| <= 256
  {
    hide Filed, NewBlocks;
    FiledBlocks(get, eql, hash, BLOCKS, stage1, stage2, now, before);
  }

  lemma FiledBlocks<E, H(!new)>(
    get: nat -> E, eql: (E, E) -> bool, hash: seq<nat> -> H,
    q: nat, stage1: seq<nat>, stage2: seq<nat>, now: map<H, nat>, before: map<H, nat>)
    requires Filed(get, eql, hash, q, stage1, stage2, now, before)
    ensures before == map[] ==> |NewBlocks(get, eql, q, iset{})| <= 256
  {
    hide Block, NewBlocks;
    if before == map[] {
      NothingKnown(hash);
      var n := |NewBlocks(get, eql, q, iset{})|;
      if n > 0 {
        var c := Chunk(stage2, n - 1);
        assert Stored(hash, stage2, now, hash(c));
      }
    }
  }

  /** A digest filed by this run is at most 0xffff. */
  lemma StaleDigest<E, H(!new)>(
    get: nat -> E, eql: (E, E) -> bool, hash: seq<nat> -> H,
    q: nat, stage1: seq<nat>, stage2: seq<nat>, now: map<H, nat>, before: map<H, nat>, h: H)
    requires Filed(get, eql, hash, q, stage1, stage2, now, before) && h in now && now[h] > 0xffff
    ensures h in before
  {
  }
}
