/**
 The mesh of a voxel volume: 24 vertices and 36 indices per voxel, kept dense by moving the
 last block into the place of a removed one. Moving pops vertices one by one, which reverses
 the block; the mesh stays right because a cube's first and last vertex share a position.
 */
module VoxelMesh {

  // ---------------------------------------------------------------- voxel keys

  const HALF: int := 0x8000
  const WORD: int := 0x1_0000
  const WORD2: int := 0x1_0000_0000
  const KEY_LIMIT: int := 0x1_0000_0000_0000

  datatype Vec = Vec(x: int, y: int, z: int)

  predicate IsCell(p: Vec) {
    -HALF <= p.x < HALF && -HALF <= p.y < HALF && -HALF <= p.z < HALF
  }

  /** `v & 0xFFFF` of a signed 16-bit value. */
  function Low16(v: int): (r: nat)
    ensures r < WORD
  {
    v % WORD
  }

  /** The signed 16-bit value with the given low bits. */
  function Signed(w: int): (r: int)
    requires 0 <= w < WORD
    ensures -HALF <= r < HALF
  {
    if w < HALF then w else w - WORD
  }

  /** The 64-bit index of a cell. */
  function Key(p: Vec): (k: nat)
    ensures k < KEY_LIMIT
  {
    Low16(p.y) * WORD2 + Low16(p.x) * WORD + Low16(p.z)
  }

  function Cell(k: nat): (p: Vec)
    requires k < KEY_LIMIT
    ensures IsCell(p)
  {
    Vec(Signed(k / WORD % WORD), Signed(k / WORD2 % WORD), Signed(k % WORD))
  }

  lemma {:induction false} SignedLow(v: int)
    requires -HALF <= v < HALF
    ensures Signed(Low16(v)) == v
  {
  }

  /** The three fields of an index come apart again. */
  lemma {:induction false} Fields(a: nat, b: nat, c: nat)
    requires a < WORD && b < WORD && c < WORD
    ensures var k := a * WORD2 + b * WORD + c;
            k % WORD == c && k / WORD % WORD == b && k / WORD2 % WORD == a
  {
    var k := a * WORD2 + b * WORD + c;
    var h := a * WORD + b;
    assert k == h * WORD + c;
    assert k / WORD == h;
    assert h / WORD == a && h % WORD == b;
    assert k / WORD2 == a;
  }

  /** An index names exactly one cell. */
  lemma {:induction false} CellOfKey(p: Vec)
    requires IsCell(p)
    ensures Cell(Key(p)) == p
  {
    Fields(Low16(p.y), Low16(p.x), Low16(p.z));
    SignedLow(p.x);
    SignedLow(p.y);
    SignedLow(p.z);
  }

  lemma {:induction false} KeyOfCell(k: nat)
    requires k < KEY_LIMIT
    ensures Key(Cell(k)) == k
  {
    var c, h := k % WORD, k / WORD;
    var b, a := h % WORD, h / WORD;
    assert k == h * WORD + c && h == a * WORD + b && a < WORD;
    Fields(a, b, c);
    assert Low16(Signed(a)) == a && Low16(Signed(b)) == b && Low16(Signed(c)) == c;
  }

  /** From the low end an index holds 16 bits of z, of x and of y, each its coordinate modulo 2^16. */
  lemma {:induction false} KeyBits(p: Vec)
    ensures var k := Key(p);
            && k / 4294967296 < 65536 && (k / 4294967296 - p.y) % 65536 == 0
            && (k / 65536 % 65536 - p.x) % 65536 == 0
            && (k % 65536 - p.z) % 65536 == 0
  {
    Fields(Low16(p.y), Low16(p.x), Low16(p.z));
    LowDiffers(p.x);
    LowDiffers(p.y);
    LowDiffers(p.z);
  }

  lemma {:induction false} LowDiffers(v: int)
    ensures Low16(v) < 65536 && (Low16(v) - v) % 65536 == 0
  {
    var q := v / 65536;
    assert Low16(v) - v == 65536 * (-q);
  }

  // ---------------------------------------------------------------- vertices and blocks

  datatype Vertex = Vertex(position: Vec, normal: Vec, u: int, v: int)

  const BLOCK: nat := 24
  const INDICES: nat := 36

  /** Corners of the unit cube, face by face. */
  const CORNERS: seq<(int, int, int)> := [
    (0, 0, 1), (1, 0, 1), (1, 1, 1), (0, 1, 1),
    (1, 0, 0), (0, 0, 0), (0, 1, 0), (1, 1, 0),
    (0, 0, 0), (0, 0, 1), (0, 1, 1), (0, 1, 0),
    (1, 0, 1), (1, 0, 0), (1, 1, 0), (1, 1, 1),
    (0, 1, 1), (1, 1, 1), (1, 1, 0), (0, 1, 0),
    (0, 0, 0), (1, 0, 0), (1, 0, 1), (0, 0, 1)]

  const NORMALS: seq<(int, int, int)> := [(0, 0, 1), (0, 0, -1), (-1, 0, 0), (1, 0, 0), (0, 1, 0), (0, -1, 0)]

  const UVS: seq<(int, int)> := [(0, 1), (1, 1), (1, 0), (0, 0)]

  function ToVec(t: (int, int, int)): (p: Vec) {
    Vec(t.0, t.1, t.2)
  }

  /** `IdentityVerts[i]` */
  function Identity(i: nat): (v: Vertex)
    requires i < BLOCK
  {
    Vertex(ToVec(CORNERS[i]), ToVec(NORMALS[i / 4]), UVS[i % 4].0, UVS[i % 4].1)
  }

  function Plus(a: Vec, b: Vec): (c: Vec) {
    Vec(a.x + b.x, a.y + b.y, a.z + b.z)
  }

  function Minus(a: Vec, b: Vec): (c: Vec) {
    Vec(a.x - b.x, a.y - b.y, a.z - b.z)
  }

  /** Vertex i of the voxel with index k. */
  function CubeVertex(k: nat, i: nat): (v: Vertex)
    requires k < KEY_LIMIT && i < BLOCK
  {
    Identity(i).(position := Plus(Identity(i).position, Cell(k)))
  }

  /** The first and the last vertex of a cube give away its cell. */
  lemma {:induction false} EndsGiveCell(k: nat)
    requires k < KEY_LIMIT
    ensures Minus(CubeVertex(k, 0).position, Identity(0).position) == Cell(k)
    ensures Minus(CubeVertex(k, 23).position, Identity(0).position) == Cell(k)
  {
    assert CORNERS[0] == (0, 0, 1) && CORNERS[23] == (0, 0, 1);
  }

  /** A block of 24 vertices: the cube of one voxel, in normal or reversed order. */
  datatype Block = Block(key: nat, flipped: bool)

  function BlockVertex(b: Block, i: nat): (v: Vertex)
    requires b.key < KEY_LIMIT && i < BLOCK
  {
    CubeVertex(b.key, if b.flipped then BLOCK - 1 - i else i)
  }

  function BlockVerts(b: Block): (vs: seq<Vertex>)
    requires b.key < KEY_LIMIT
    ensures |vs| == BLOCK
  {
    seq(BLOCK, i requires 0 <= i < BLOCK => BlockVertex(b, i))
  }

  function Flip(b: Block): (c: Block) {
    Block(b.key, !b.flipped)
  }

  function Reverse<T>(s: seq<T>): (r: seq<T>)
    ensures |r| == |s|
  {
    seq(|s|, i requires 0 <= i < |s| => s[|s| - 1 - i])
  }

  lemma {:induction false} FlipReverses(b: Block)
    requires b.key < KEY_LIMIT
    ensures BlockVerts(Flip(b)) == Reverse(BlockVerts(b))
  {
    hide CubeVertex;
  }

  predicate KeysOk(bs: seq<Block>) {
    forall i :: 0 <= i < |bs| ==> bs[i].key < KEY_LIMIT
  }

  /** The vertex list of a list of blocks. */
  function VertsOf(bs: seq<Block>): (vs: seq<Vertex>)
    requires KeysOk(bs)
    ensures |vs| == BLOCK * |bs|
  {
    if bs == [] then [] else VertsOf(bs[..|bs| - 1]) + BlockVerts(bs[|bs| - 1])
  }

  lemma {:induction false} VertsConcat(a: seq<Block>, b: seq<Block>)
    requires KeysOk(a) && KeysOk(b)
    ensures VertsOf(a + b) == VertsOf(a) + VertsOf(b)
    decreases |b|
  {
    hide BlockVerts;
    if b == [] {
      assert a + b == a;
    } else {
      assert (a + b)[..|a + b| - 1] == a + b[..|b| - 1];
      VertsConcat(a, b[..|b| - 1]);
    }
  }

  lemma {:induction false} VertsOne(b: Block)
    requires b.key < KEY_LIMIT
    ensures VertsOf([b]) == BlockVerts(b)
  {
    assert [b][..0] == [];
  }

  // ---------------------------------------------------------------- the index list

  const PATTERN: seq<nat> := [0, 1, 2, 2, 3, 0]

  /** Entry q of the 36 indices of a block. */
  function IndexOffset(q: nat): (o: nat)
    requires q < INDICES
    ensures o < BLOCK && (o == 0 <==> q == 0 || q == 5)
  {
    4 * (q / 6) + PATTERN[q % 6]
  }

  function IndexBlock(b: nat): (s: seq<nat>)
    ensures |s| == INDICES
  {
    seq(INDICES, q requires 0 <= q < INDICES => BLOCK * b + IndexOffset(q))
  }

  /** The index list of n blocks. */
  function IndexList(n: nat): (s: seq<nat>)
    ensures |s| == INDICES * n
  {
    if n == 0 then [] else IndexList(n - 1) + IndexBlock(n - 1)
  }

  lemma {:induction false} IndexAt(n: nat, b: nat, q: nat)
    requires b < n && q < INDICES
    ensures INDICES * b + q < |IndexList(n)|
    ensures IndexList(n)[INDICES * b + q] == BLOCK * b + IndexOffset(q)
  {
    hide IndexOffset;
    if b < n - 1 {
      IndexAt(n - 1, b, q);
    }
  }

  /** The first occurrence of a block's offset is at the start of the block's 36 entries. */
  lemma {:induction false} OffsetOccurs(n: nat, b: nat, i: nat)
    requires b < n && i < INDICES * n
    ensures i == INDICES * b ==> IndexList(n)[i] == BLOCK * b
    ensures i < INDICES * b || i >= INDICES * (b + 1) ==> IndexList(n)[i] != BLOCK * b
  {
    hide IndexOffset;
    IndexAt(n, i / INDICES, i % INDICES);
  }

  lemma {:induction false} IndexPrefix(n: nat)
    requires n > 0
    ensures IndexList(n)[..INDICES * (n - 1)] == IndexList(n - 1)
  {
  }

  // ---------------------------------------------------------------- adding and removing blocks

  /** `vertex_index` */
  type Offsets = map<nat, nat>

  datatype Layout = Layout(blocks: seq<Block>, index: Offsets)

  /** The voxel has its block appended. */
  function Added(l: Layout, k: nat): (r: Layout) {
    Layout(l.blocks + [Block(k, false)], l.index[k := BLOCK * |l.blocks|])
  }

  predicate Indexed(l: Layout, k: nat) {
    k in l.index && l.index[k] % BLOCK == 0 && l.index[k] / BLOCK < |l.blocks|
  }

  /** The voxel's block is dropped if it is the last, and otherwise overwritten by the last, reversed. */
  function Removed(l: Layout, k: nat): (r: Layout)
    requires Indexed(l, k)
  {
    var b, n := l.index[k] / BLOCK, |l.blocks| - 1;
    if b == n then Layout(l.blocks[..n], l.index - {k})
    else
      var last := l.blocks[n];
      Layout(l.blocks[b := Flip(last)][..n], l.index[last.key := BLOCK * b] - {k})
  }

  /** What the queue-draining loop does with one index, the voxel set being V. */
  function Updated(l: Layout, V: set<nat>, k: nat): (r: Layout)
    requires k in l.index ==> Indexed(l, k)
  {
    if k in V then Added(l, k) else if k in l.index then Removed(l, k) else l
  }

  /** Every entry of the side index leads to a block of its voxel. */
  predicate Sane(l: Layout) {
    && KeysOk(l.blocks)
    && forall k :: k in l.index ==> Indexed(l, k) && l.blocks[l.index[k] / BLOCK].key == k
  }

  /** And every block's voxel has an entry. */
  predicate Linked(l: Layout) {
    Sane(l) && forall b :: 0 <= b < |l.blocks| ==> l.blocks[b].key in l.index
  }

  /** Only voxels of V may have more blocks than the one in the side index. */
  predicate Loose(l: Layout, V: set<nat>) {
    Linked(l) && forall b :: 0 <= b < |l.blocks| && l.blocks[b].key !in V ==> l.index[l.blocks[b].key] == BLOCK * b
  }

  /** The side index is a bijection from voxels to blocks. */
  predicate Exact(l: Layout) {
    Linked(l) && forall b :: 0 <= b < |l.blocks| ==> l.index[l.blocks[b].key] == BLOCK * b
  }

  lemma {:induction false} RemovedSane(l: Layout, k: nat)
    requires Sane(l) && k in l.index
    ensures Sane(Removed(l, k))
  {
    hide Sane;
    SaneAt(l, k);
    var r := Removed(l, k);
    var b, n := l.index[k] / BLOCK, |l.blocks| - 1;
    RemovedKeysOk(l, k);
    forall m | m in r.index ensures Indexed(r, m) && r.blocks[r.index[m] / BLOCK].key == m {
      if b < n && m == l.blocks[n].key {
        assert r.index[m] == BLOCK * b;
      } else {
        SaneAt(l, m);
        assert l.index[m] / BLOCK != n && l.index[m] / BLOCK != b;
      }
    }
    SaneFrom(r);
  }

  lemma {:induction false} SaneAt(l: Layout, k: nat)
    requires Sane(l) && k in l.index
    ensures KeysOk(l.blocks) && Indexed(l, k) && l.blocks[l.index[k] / BLOCK].key == k
  {
  }

  lemma {:induction false} SaneFrom(l: Layout)
    requires KeysOk(l.blocks)
    requires forall k :: k in l.index ==> Indexed(l, k) && l.blocks[l.index[k] / BLOCK].key == k
    ensures Sane(l)
  {
  }

  lemma {:induction false} RemovedKeysOk(l: Layout, k: nat)
    requires KeysOk(l.blocks) && Indexed(l, k)
    ensures KeysOk(Removed(l, k).blocks)
  {
  }

  /** Whatever was queued and whatever the voxels are, an update leaves entries that lead to their blocks. */
  lemma {:induction false} UpdatedSane(l: Layout, V: set<nat>, k: nat)
    requires Sane(l) && k < KEY_LIMIT
    ensures Sane(Updated(l, V, k))
  {
    if k !in V && k in l.index {
      RemovedSane(l, k);
    }
  }

  lemma {:induction false} SaneIndexed(l: Layout, k: nat)
    requires Sane(l) && k in l.index
    ensures Indexed(l, k)
  {
  }

  lemma {:induction false} AddedLoose(l: Layout, V: set<nat>, k: nat)
    requires Loose(l, V) && k in V && k < KEY_LIMIT
    ensures Loose(Added(l, k), V)
    ensures k !in l.index && Exact(l) ==> Exact(Added(l, k))
  {
  }

  lemma {:induction false} RemovedLoose(l: Layout, V: set<nat>, k: nat)
    requires Loose(l, V) && k !in V && k in l.index
    ensures Loose(Removed(l, k), V) && Removed(l, k).index.Keys == l.index.Keys - {k}
    ensures |Removed(l, k).blocks| == |l.blocks| - 1
    ensures Exact(l) ==> Exact(Removed(l, k))
  {
    var r := Removed(l, k);
    var b, n := l.index[k] / BLOCK, |l.blocks| - 1;
    RemovedSane(l, k);
    SaneAt(l, k);
    hide Sane;
    forall i | 0 <= i <= n && i != b ensures l.blocks[i].key != k {
      assert l.blocks[i].key !in V ==> l.index[l.blocks[i].key] == BLOCK * i;
    }
    forall i | 0 <= i < n ensures RemovedBlock(l, r, b, i) {
      if i != b {
        assert r.blocks[i] == l.blocks[i];
      }
    }
    assert forall i :: 0 <= i < n ==> RemovedBlock(l, r, b, i);
  }

  /** What a block keeps when another is removed: a voxel with an entry, and the entry itself if it was the block's. */
  predicate RemovedBlock(l: Layout, r: Layout, b: nat, i: nat)
    requires |r.blocks| == |l.blocks| - 1 && i < |r.blocks| && b < |l.blocks|
  {
    var key := r.blocks[i].key;
    var n := |l.blocks| - 1;
    var from := if i == b then n else i;
    && key == l.blocks[from].key && key in l.index && key in r.index
    && (l.index[key] == BLOCK * from && (from == n || key != l.blocks[n].key) ==> r.index[key] == BLOCK * i)
  }

  // ---------------------------------------------------------------- draining the queue

  predicate QueueOk(q: seq<nat>) {
    forall i :: 0 <= i < |q| ==> q[i] < KEY_LIMIT
  }

  /** The layout after the queue has been drained. */
  function Drained(l: Layout, V: set<nat>, q: seq<nat>): (r: Layout)
    requires Sane(l) && QueueOk(q)
    ensures Sane(r)
    decreases |q|
  {
    if q == [] then l
    else
      UpdatedSane(l, V, q[0]);
      Drained(Updated(l, V, q[0]), V, q[1..])
  }

  lemma {:induction false} UpdatedLoose(l: Layout, V: set<nat>, k: nat)
    requires Loose(l, V) && k < KEY_LIMIT
    ensures Loose(Updated(l, V, k), V)
    ensures Updated(l, V, k).index.Keys == if k in V then l.index.Keys + {k} else l.index.Keys - {k}
    ensures Extra(Updated(l, V, k)) == Extra(l) + if k in V && k in l.index then 1 else 0
    ensures Exact(l) && !(k in V && k in l.index) ==> Exact(Updated(l, V, k))
  {
    hide Loose, Exact, Removed, Added, Linked, Indexed;
    LooseLinked(l, V);
    hide Sane;
    if k in l.index {
      SaneIndexed(l, k);
    }
    if k in V {
      AddedLoose(l, V, k);
      AddedSize(l, k);
    } else if k in l.index {
      RemovedLoose(l, V, k);
      assert |l.index.Keys - {k}| == |l.index.Keys| - 1;
    }
  }

  lemma {:induction false} AddedSize(l: Layout, k: nat)
    ensures Added(l, k).index.Keys == l.index.Keys + {k}
    ensures |Added(l, k).blocks| == |l.blocks| + 1
    ensures |Added(l, k).index| == |l.index| + if k in l.index then 0 else 1
  {
    assert Added(l, k).index.Keys == l.index.Keys + {k};
    if k in l.index {
      assert l.index.Keys + {k} == l.index.Keys;
    }
  }

  lemma {:induction false} LooseLinked(l: Layout, V: set<nat>)
    requires Loose(l, V)
    ensures Linked(l) && Sane(l)
  {
  }

  lemma {:induction false} DrainedLoose(l: Layout, V: set<nat>, q: seq<nat>)
    requires Loose(l, V) && QueueOk(q)
    ensures Sane(l) && Loose(Drained(l, V, q), V)
    decreases |q|
  {
    hide Loose, Updated;
    LooseLinked(l, V);
    if q != [] {
      UpdatedLoose(l, V, q[0]);
      DrainedLoose(Updated(l, V, q[0]), V, q[1..]);
    }
  }

  /** Blocks beyond the one per voxel. */
  function Extra(l: Layout): (n: int) {
    |l.blocks| - |l.index|
  }

  /** In an exact layout there are as many blocks as voxels. */
  lemma {:induction false} ExactCount(l: Layout)
    requires Exact(l)
    ensures Extra(l) == 0
  {
    var keys := BlockKeys(l, |l.blocks|);
    assert keys == l.index.Keys;
  }

  lemma {:induction false} BlockKeyOnly(l: Layout, b: nat)
    requires Exact(l) && b < |l.blocks|
    ensures l.blocks[b].key in l.index && l.index[l.blocks[b].key] == BLOCK * b
    ensures forall k :: k in l.index && l.index[k] == BLOCK * b ==> k == l.blocks[b].key
    ensures forall k :: k in l.index ==>
              (l.index[k] < BLOCK * (b + 1) <==> l.index[k] < BLOCK * b || l.index[k] == BLOCK * b)
  {
    forall k | k in l.index ensures l.index[k] % BLOCK == 0 {
      SaneAt(l, k);
    }
  }

  /** Keys of the first n blocks of an exact layout. */
  ghost function BlockKeys(l: Layout, n: nat): (s: set<nat>)
    requires Exact(l) && n <= |l.blocks|
    ensures |s| == n
    ensures forall k :: k in s <==> k in l.index && l.index[k] < BLOCK * n
  {
    hide Exact;
    if n == 0 then {}
    else
      var s := BlockKeys(l, n - 1);
      BlockKeyOnly(l, n - 1);
      s + {l.blocks[n - 1].key}
  }

  /** Each voxel of V is queued at most once, and not at all if the mesh has it already. */
  predicate Effective(q: seq<nat>, V: set<nat>, meshed: set<nat>) {
    forall k :: k in V ==> multiset(q)[k] <= if k in meshed then 0 else 1
  }

  lemma {:induction false} EffectiveStep(q: seq<nat>, V: set<nat>, meshed: set<nat>)
    requires q != []
    ensures var k := q[0];
            var next := if k in V then meshed + {k} else meshed - {k};
            Effective(q, V, meshed) <==> !(k in V && k in meshed) && Effective(q[1..], V, next)
  {
    var k, rest := q[0], q[1..];
    var next := if k in V then meshed + {k} else meshed - {k};
    assert q == [k] + rest;
    assert multiset(q) == multiset{k} + multiset(rest);
    if Effective(q, V, meshed) {
      forall x | x in V ensures multiset(rest)[x] <= if x in next then 0 else 1 {
        assert multiset(q)[x] <= if x in meshed then 0 else 1;
      }
    }
    if !(k in V && k in meshed) && Effective(rest, V, next) {
      forall x | x in V ensures multiset(q)[x] <= if x in meshed then 0 else 1 {
        assert multiset(rest)[x] <= if x in next then 0 else 1;
      }
    }
  }

  /** Draining keeps the layout exact if and only if the queue is effective. */
  lemma {:induction false} DrainedExact(l: Layout, V: set<nat>, q: seq<nat>)
    requires Loose(l, V) && QueueOk(q)
    requires Exact(l)
    ensures Exact(Drained(l, V, q)) <==> Effective(q, V, l.index.Keys)
    decreases |q|
  {
    hide Loose, Exact, Updated, Effective, Extra;
    if q == [] {
      NothingQueued(V, l.index.Keys);
    } else {
      var k := q[0];
      LooseLinked(l, V);
      UpdatedLoose(l, V, k);
      EffectiveStep(q, V, l.index.Keys);
      if k in V && k in l.index {
        ExactCount(l);
        DrainedExtra(Updated(l, V, k), V, q[1..]);
        if Exact(Drained(l, V, q)) {
          ExactCount(Drained(l, V, q));
          assert false;
        }
      } else {
        DrainedExact(Updated(l, V, k), V, q[1..]);
      }
    }
  }

  lemma {:induction false} NothingQueued(V: set<nat>, meshed: set<nat>)
    ensures Effective([], V, meshed)
  {
  }

  /** Blocks once doubled stay doubled. */
  lemma {:induction false} DrainedExtra(l: Layout, V: set<nat>, q: seq<nat>)
    requires Loose(l, V) && QueueOk(q)
    ensures Extra(Drained(l, V, q)) >= Extra(l)
    decreases |q|
  {
    hide Loose, Extra, Updated;
    if q != [] {
      LooseLinked(l, V);
      UpdatedLoose(l, V, q[0]);
      DrainedExtra(Updated(l, V, q[0]), V, q[1..]);
    }
  }

  /** The queue names every voxel on which two sets differ. */
  ghost predicate Names(q: seq<nat>, V: set<nat>, meshed: set<nat>) {
    forall k :: (k in V) != (k in meshed) ==> k in q
  }

  lemma {:induction false} NamesStep(q: seq<nat>, V: set<nat>, meshed: set<nat>)
    requires q != [] && Names(q, V, meshed)
    ensures Names(q[1..], V, if q[0] in V then meshed + {q[0]} else meshed - {q[0]})
  {
    assert q == [q[0]] + q[1..];
  }

  /** Draining a queue that names every difference leaves entries for exactly the voxels. */
  lemma {:induction false} DrainedKeys(l: Layout, V: set<nat>, q: seq<nat>)
    requires Loose(l, V) && QueueOk(q)
    requires Names(q, V, l.index.Keys)
    ensures Drained(l, V, q).index.Keys == V
    decreases |q|
  {
    hide Loose, Updated, Names, Effective;
    if q == [] {
      NamesNothing(V, l.index.Keys);
    } else {
      LooseLinked(l, V);
      UpdatedLoose(l, V, q[0]);
      NamesStep(q, V, l.index.Keys);
      DrainedKeys(Updated(l, V, q[0]), V, q[1..]);
    }
  }

  lemma {:induction false} NamesNothing(V: set<nat>, meshed: set<nat>)
    requires Names([], V, meshed)
    ensures V == meshed
  {
  }

  /** The block of a voxel in the vertex list is its cube, in normal or fully reversed order. */
  lemma {:induction false} VoxelDrawn(l: Layout, k: nat)
    requires Linked(l) && k in l.index
    ensures var o := l.index[k];
            var cube := BlockVerts(Block(k, false));
            && o + BLOCK <= |VertsOf(l.blocks)|
            && (VertsOf(l.blocks)[o..o + BLOCK] == cube || VertsOf(l.blocks)[o..o + BLOCK] == Reverse(cube))
  {
    hide BlockVerts, Reverse;
    var b := l.index[k] / BLOCK;
    BlockAt(l.blocks, b);
    assert Indexed(l, k);
    assert l.index[k] == BLOCK * b && l.blocks[b].key == k;
    FlipReverses(Block(k, false));
  }

  lemma {:induction false} BlockAt(bs: seq<Block>, b: nat)
    requires KeysOk(bs) && b < |bs|
    ensures VertsOf(bs)[BLOCK * b..BLOCK * (b + 1)] == BlockVerts(bs[b])
  {
    hide BlockVerts;
    var front := bs[..b + 1];
    assert bs == front + bs[b + 1..];
    VertsConcat(front, bs[b + 1..]);
    assert front[..b] == bs[..b] && front[b] == bs[b];
    assert VertsOf(front) == VertsOf(bs[..b]) + BlockVerts(bs[b]);
  }

  // ---------------------------------------------------------------- runs of edits and updates

  datatype Edit = Add(p: Vec) | Remove(p: Vec)

  function Edited(V: set<nat>, edits: seq<Edit>): (r: set<nat>) {
    if edits == [] then V
    else
      var e, rest := edits[|edits| - 1], edits[..|edits| - 1];
      if e.Add? then Edited(V, rest) + {Key(e.p)} else Edited(V, rest) - {Key(e.p)}
  }

  function Queue(edits: seq<Edit>): (q: seq<nat>)
    ensures |q| == |edits| && QueueOk(q)
  {
    seq(|edits|, i requires 0 <= i < |edits| => Key(edits[i].p))
  }

  /** An edit can change the membership of no voxel but the one it queues. */
  lemma {:induction false} EditsQueue(V: set<nat>, edits: seq<Edit>, k: nat)
    requires (k in V) != (k in Edited(V, edits))
    ensures k in Queue(edits)
    decreases |edits|
  {
    var n := |edits| - 1;
    if Key(edits[n].p) == k {
      assert Queue(edits)[n] == k;
    } else {
      EditsQueue(V, edits[..n], k);
      var i :| 0 <= i < n && Queue(edits[..n])[i] == k;
      assert Queue(edits)[i] == k;
    }
  }

  /** Every voxel present after a batch is queued once by it if it was absent before, and never otherwise. */
  predicate AllEffective(V: set<nat>, batches: seq<seq<Edit>>)
    decreases |batches|
  {
    batches == [] ||
    var after := Edited(V, batches[0]);
    Effective(Queue(batches[0]), after, V) && AllEffective(after, batches[1..])
  }

  /** The voxels and the layout after a run of batches, each followed by an update. */
  ghost function Run(V: set<nat>, l: Layout, batches: seq<seq<Edit>>): (r: (set<nat>, Layout))
    requires Exact(l) && l.index.Keys == V && AllEffective(V, batches)
    ensures Exact(r.1) && r.1.index.Keys == r.0
    decreases |batches|
  {
    if batches == [] then (V, l)
    else
      var after := Edited(V, batches[0]);
      BatchExact(l, V, batches[0]);
      Run(after, Drained(l, after, Queue(batches[0])), batches[1..])
  }

  /** One batch and its update, from an exact layout: exact again if and only if the batch is effective. */
  lemma {:induction false} BatchExact(l: Layout, V: set<nat>, edits: seq<Edit>)
    requires Exact(l) && l.index.Keys == V
    ensures Loose(l, Edited(V, edits))
    ensures var r := Drained(l, Edited(V, edits), Queue(edits));
            && r.index.Keys == Edited(V, edits)
            && (Exact(r) <==> Effective(Queue(edits), Edited(V, edits), V))
  {
    hide Edited, Queue, Effective, Drained;
    var after := Edited(V, edits);
    forall k | (k in after) != (k in V) ensures k in Queue(edits) {
      EditsQueue(V, edits, k);
    }
    DrainedKeys(l, after, Queue(edits));
    DrainedExact(l, after, Queue(edits));
  }

  /** The side index is a bijection onto the blocks after every update of a run. */
  ghost predicate AlwaysExact(V: set<nat>, l: Layout, batches: seq<seq<Edit>>)
    requires Sane(l)
    decreases |batches|
  {
    && Exact(l) && l.index.Keys == V
    && (batches == [] ||
        var after := Edited(V, batches[0]);
        AlwaysExact(after, Drained(l, after, Queue(batches[0])), batches[1..]))
  }

  /** It is, throughout a run, if and only if every batch of the run is effective. */
  lemma {:induction false} RunExactIff(V: set<nat>, l: Layout, batches: seq<seq<Edit>>)
    requires Exact(l) && l.index.Keys == V
    ensures AlwaysExact(V, l, batches) <==> AllEffective(V, batches)
    decreases |batches|
  {
    hide Edited, Queue, Effective, Exact, Loose;
    if batches != [] {
      var after, q := Edited(V, batches[0]), Queue(batches[0]);
      BatchExact(l, V, batches[0]);
      LooseLinked(l, after);
      if Effective(q, after, V) {
        RunExactIff(after, Drained(l, after, q), batches[1..]);
      } else {
        assert !AlwaysExact(after, Drained(l, after, q), batches[1..]);
      }
    }
  }

  // ---------------------------------------------------------------- blocks without an entry

  function KeysOf(bs: seq<Block>): (ks: seq<nat>)
    ensures |ks| == |bs| && forall i :: 0 <= i < |bs| ==> ks[i] == bs[i].key
  {
    seq(|bs|, i requires 0 <= i < |bs| => bs[i].key)
  }

  /** How many blocks of a voxel are drawn. */
  function Copies(l: Layout, k: nat): (n: nat) {
    multiset(KeysOf(l.blocks))[k]
  }

  /**
   Every present voxel queued gets one block more, every absent one that has an entry loses one, and no other changes.
   */
  lemma {:induction false} UpdatedCopies(l: Layout, V: set<nat>, k: nat, m: nat)
    requires Sane(l) && k < KEY_LIMIT
    ensures Copies(Updated(l, V, k), m) ==
            Copies(l, m) + if m != k then 0 else if k in V then 1 else if k in l.index then -1 else 0
    ensures k !in V && k in l.index ==> Copies(l, k) > 0
  {
    hide Copies;
    if k in V {
      AddedCopies(l, k, m);
    } else if k in l.index {
      RemovedCopies(l, k, m);
    }
  }

  lemma {:induction false} AddedCopies(l: Layout, k: nat, m: nat)
    ensures Copies(Added(l, k), m) == Copies(l, m) + if m == k then 1 else 0
  {
    assert KeysOf(Added(l, k).blocks) == KeysOf(l.blocks) + [k];
  }

  lemma {:induction false} RemovedCopies(l: Layout, k: nat, m: nat)
    requires Sane(l) && k in l.index
    ensures Copies(l, k) > 0
    ensures Copies(Removed(l, k), m) == Copies(l, m) - if m == k then 1 else 0
  {
    assert Indexed(l, k);
    var keys, b, n := KeysOf(l.blocks), l.index[k] / BLOCK, |l.blocks| - 1;
    assert keys[b] == k;
    var moved := keys[b := keys[n]];
    assert KeysOf(Removed(l, k).blocks) == moved[..n];
    assert moved == moved[..n] + [keys[n]];
    assert multiset(moved) == multiset(moved[..n]) + multiset{keys[n]};
    assert multiset(moved) == multiset(keys) - multiset{k} + multiset{keys[n]};
    assert k in keys && multiset(keys)[k] > 0;
    assert multiset(moved)[m] == multiset(moved[..n])[m] + if m == keys[n] then 1 else 0;
    assert multiset(moved)[m] == multiset(keys)[m] - (if m == k then 1 else 0) + if m == keys[n] then 1 else 0;
  }

  /**
   Removing a voxel leaves every block with an entry if and only if the voxel had one block. Otherwise blocks
   of it stay drawn, and have no entry by which a later removal could find them.
   */
  lemma {:induction false} OrphanIff(l: Layout, k: nat)
    requires Linked(l) && k in l.index
    ensures Linked(Removed(l, k)) <==> Copies(l, k) == 1
    ensures Copies(l, k) > 1 ==> k !in Removed(l, k).index && Copies(Removed(l, k), k) == Copies(l, k) - 1
  {
    var r := Removed(l, k);
    RemovedSane(l, k);
    RemovedCopies(l, k, k);
    var b, n := l.index[k] / BLOCK, |l.blocks| - 1;
    assert forall i :: 0 <= i < n && i != b ==> r.blocks[i] == l.blocks[i];
    assert b < n ==> r.blocks[b] == Flip(l.blocks[n]);
    if Copies(r, k) == 0 {
      forall i | 0 <= i < n ensures r.blocks[i].key in r.index {
        assert KeysOf(r.blocks)[i] in multiset(KeysOf(r.blocks));
      }
    } else {
      assert k in KeysOf(r.blocks);
      var i :| 0 <= i < n && KeysOf(r.blocks)[i] == k;
      assert r.blocks[i].key !in r.index;
    }
  }

  /** A block without an entry that is moved into the place of a removed one gets an entry again. */
  lemma {:induction false} Readopted(l: Layout, k: nat)
    requires Sane(l) && k in l.index && l.index[k] / BLOCK < |l.blocks| - 1
    requires l.blocks[|l.blocks| - 1].key !in l.index
    ensures var o := l.blocks[|l.blocks| - 1].key;
            o in Removed(l, k).index && Removed(l, k).index[o] == l.index[k]
  {
    assert Indexed(l, k);
    assert l.blocks[l.index[k] / BLOCK].key == k;
  }

  /** Adding a voxel twice, updating, removing it and updating leaves a block and no voxel. */
  lemma {:induction false} OrphanDrawn(p: Vec)
    ensures var k := Key(p);
            var l := Drained(Layout([], map[]), {k}, Queue([Add(p), Add(p)]));
            var r := Drained(l, {}, Queue([Remove(p)]));
            |r.blocks| == 1 && r.blocks[0].key == k && r.index == map[]
  {
    var k, l0 := Key(p), Layout([], map[]);
    var q := Queue([Add(p), Add(p)]);
    assert q == [k, k] && q[1..] == [k] && [k][1..] == [] && Queue([Remove(p)]) == [k];
    var l := Layout([Block(k, false), Block(k, false)], map[k := BLOCK]);
    assert Added(Added(l0, k), k) == l;
    DrainedTwo(l0, {k}, k);
    assert Removed(l, k) == Layout([Block(k, false)], map[]);
    DrainedOne(l, {}, k);
  }

  lemma {:induction false} DrainedOne(l: Layout, V: set<nat>, k: nat)
    requires Sane(l) && k < KEY_LIMIT
    ensures Drained(l, V, [k]) == Updated(l, V, k)
  {
    hide Updated;
    UpdatedSane(l, V, k);
    assert [k][1..] == [];
  }

  lemma {:induction false} DrainedTwo(l: Layout, V: set<nat>, k: nat)
    requires Sane(l) && k in V && k < KEY_LIMIT
    ensures Drained(l, V, [k, k]) == Added(Added(l, k), k)
  {
    assert [k, k][1..] == [k];
    UpdatedSane(l, V, k);
    DrainedOne(Added(l, k), V, k);
  }

  /** Adding one voxel twice between two updates leaves two blocks for it. */
  lemma {:induction false} AddedTwice(p: Vec)
    ensures var edits := [Add(p), Add(p)];
            var l := Layout([], map[]);
            && Exact(l)
            && Edited({}, edits) == {Key(p)}
            && Loose(l, {Key(p)})
            && !Exact(Drained(l, {Key(p)}, Queue(edits)))
  {
    var edits, k := [Add(p), Add(p)], Key(p);
    var l := Layout([], map[]);
    assert edits[..1] == [Add(p)] && edits[..1][..0] == [];
    assert Edited({}, edits[..1]) == {k};
    assert Queue(edits) == [k, k];
    BatchExact(l, {}, edits);
    assert multiset([k, k])[k] == 2;
    assert !Effective([k, k], {k}, {});
  }

  // ---------------------------------------------------------------- winding

  function Det(a: int, b: int, c: int, d: int): (r: int) {
    a * d - b * c
  }

  function Cross(a: Vec, b: Vec): (c: Vec) {
    Vec(Det(a.y, a.z, b.y, b.z), Det(a.z, a.x, b.z, b.x), Det(a.x, a.y, b.x, b.y))
  }

  /** Corner i of triangle t of a block, as the 36 indices name it. */
  function Corner(b: Block, t: nat, i: nat): (v: Vertex)
    requires b.key < KEY_LIMIT && t < 12 && i < 3
  {
    BlockVertex(b, IndexOffset(3 * t + i))
  }

  /** The side a triangle shows: the normal of its corners taken in order. */
  function Facing(b: Block, t: nat): (n: Vec)
    requires b.key < KEY_LIMIT && t < 12
  {
    var p := Corner(b, t, 0).position;
    Cross(Minus(Corner(b, t, 1).position, p), Minus(Corner(b, t, 2).position, p))
  }

  function Negated(a: Vec): (b: Vec) {
    Vec(-a.x, -a.y, -a.z)
  }

  /** The corner of the unit cube that vertex q of a block is. */
  function CornerOf(flipped: bool, q: nat): (v: Vertex)
    requires q < BLOCK
  {
    Identity(if flipped then BLOCK - 1 - q else q)
  }

  function FaceCross(flipped: bool, q: nat, q1: nat, q2: nat): (n: Vec)
    requires q < BLOCK && q1 < BLOCK && q2 < BLOCK
  {
    var p := CornerOf(flipped, q).position;
    Cross(Minus(CornerOf(flipped, q1).position, p), Minus(CornerOf(flipped, q2).position, p))
  }

  /** Both triangles of each face of the unit cube. */
  lemma {:induction false} FaceWinding(flipped: bool, f: nat, i: nat)
    requires f < 6 && i < 4
    ensures var n := CornerOf(flipped, 4 * f + i).normal;
            && FaceCross(flipped, 4 * f, 4 * f + 1, 4 * f + 2) == (if flipped then Negated(n) else n)
            && FaceCross(flipped, 4 * f + 2, 4 * f + 3, 4 * f) == (if flipped then Negated(n) else n)
  {
    hide Cross, Minus, Plus, Negated, Identity, Face;
    var g := if flipped then 5 - f else f;
    var a, u, w, n := UnitFace(g);
    Parallelogram(a, u, w);
    FaceVertices(g, a, u, w, n);
    assert 4 * g + 3 - i == BLOCK - 1 - (4 * f + i) || !flipped;
    assert CornerOf(flipped, 4 * f + i).normal == n;
  }

  lemma {:induction false} FaceVertices(g: nat, a: Vec, u: Vec, w: Vec, n: Vec)
    requires g < 6 && Face(g, a, u, w, n)
    ensures Identity(4 * g).position == a && Identity(4 * g + 1).position == Plus(a, u)
    ensures Identity(4 * g + 2).position == Plus(Plus(a, u), w) && Identity(4 * g + 3).position == Plus(a, w)
    ensures Identity(4 * g).normal == Identity(4 * g + 1).normal == n
    ensures Identity(4 * g + 2).normal == Identity(4 * g + 3).normal == n
  {
    assert (4 * g) / 4 == g && (4 * g + 1) / 4 == g && (4 * g + 2) / 4 == g && (4 * g + 3) / 4 == g;
  }

  /** The four corners of a face, from one of them and its two edges, and its normal. */
  predicate Face(g: nat, a: Vec, u: Vec, w: Vec, n: Vec)
    requires g < 6
  {
    && ToVec(CORNERS[4 * g]) == a && ToVec(CORNERS[4 * g + 1]) == Plus(a, u)
    && ToVec(CORNERS[4 * g + 2]) == Plus(Plus(a, u), w) && ToVec(CORNERS[4 * g + 3]) == Plus(a, w)
    && ToVec(NORMALS[g]) == n
  }

  lemma {:induction false} EdgesOf(a: Vec, b: Vec, c: Vec, d: Vec, u: Vec, w: Vec)
    requires b.x - a.x == u.x && b.y - a.y == u.y && b.z - a.z == u.z
    requires d.x - a.x == w.x && d.y - a.y == w.y && d.z - a.z == w.z
    requires c.x - b.x == w.x && c.y - b.y == w.y && c.z - b.z == w.z
    ensures b == Plus(a, u) && c == Plus(b, w) && d == Plus(a, w)
  {
  }

  lemma {:induction false} FrontFace()
    ensures Face(0, Vec(0, 0, 1), Vec(1, 0, 0), Vec(0, 1, 0), Vec(0, 0, 1))
  {
    hide Plus;
    assert CORNERS[0] == (0, 0, 1) && CORNERS[1] == (1, 0, 1);
    assert CORNERS[2] == (1, 1, 1) && CORNERS[3] == (0, 1, 1);
    var a, b, c, d := Vec(0, 0, 1), Vec(1, 0, 1),
                      Vec(1, 1, 1), Vec(0, 1, 1);
    EdgesOf(a, b, c, d, Vec(1, 0, 0), Vec(0, 1, 0));
  }

  lemma {:induction false} BackFace()
    ensures Face(1, Vec(1, 0, 0), Vec(-1, 0, 0), Vec(0, 1, 0), Vec(0, 0, -1))
  {
    hide Plus;
    assert CORNERS[4] == (1, 0, 0) && CORNERS[5] == (0, 0, 0);
    assert CORNERS[6] == (0, 1, 0) && CORNERS[7] == (1, 1, 0);
    var a, b, c, d := Vec(1, 0, 0), Vec(0, 0, 0),
                      Vec(0, 1, 0), Vec(1, 1, 0);
    EdgesOf(a, b, c, d, Vec(-1, 0, 0), Vec(0, 1, 0));
  }

  lemma {:induction false} LeftFace()
    ensures Face(2, Vec(0, 0, 0), Vec(0, 0, 1), Vec(0, 1, 0), Vec(-1, 0, 0))
  {
    hide Plus;
    assert CORNERS[8] == (0, 0, 0) && CORNERS[9] == (0, 0, 1);
    assert CORNERS[10] == (0, 1, 1) && CORNERS[11] == (0, 1, 0);
    var a, b, c, d := Vec(0, 0, 0), Vec(0, 0, 1),
                      Vec(0, 1, 1), Vec(0, 1, 0);
    EdgesOf(a, b, c, d, Vec(0, 0, 1), Vec(0, 1, 0));
  }

  lemma {:induction false} RightFace()
    ensures Face(3, Vec(1, 0, 1), Vec(0, 0, -1), Vec(0, 1, 0), Vec(1, 0, 0))
  {
    hide Plus;
    assert CORNERS[12] == (1, 0, 1) && CORNERS[13] == (1, 0, 0);
    assert CORNERS[14] == (1, 1, 0) && CORNERS[15] == (1, 1, 1);
    var a, b, c, d := Vec(1, 0, 1), Vec(1, 0, 0),
                      Vec(1, 1, 0), Vec(1, 1, 1);
    EdgesOf(a, b, c, d, Vec(0, 0, -1), Vec(0, 1, 0));
  }

  lemma {:induction false} TopFace()
    ensures Face(4, Vec(0, 1, 1), Vec(1, 0, 0), Vec(0, 0, -1), Vec(0, 1, 0))
  {
    hide Plus;
    assert CORNERS[16] == (0, 1, 1) && CORNERS[17] == (1, 1, 1);
    assert CORNERS[18] == (1, 1, 0) && CORNERS[19] == (0, 1, 0);
    var a, b, c, d := Vec(0, 1, 1), Vec(1, 1, 1),
                      Vec(1, 1, 0), Vec(0, 1, 0);
    EdgesOf(a, b, c, d, Vec(1, 0, 0), Vec(0, 0, -1));
  }

  lemma {:induction false} BottomFace()
    ensures Face(5, Vec(0, 0, 0), Vec(1, 0, 0), Vec(0, 0, 1), Vec(0, -1, 0))
  {
    hide Plus;
    assert CORNERS[20] == (0, 0, 0) && CORNERS[21] == (1, 0, 0);
    assert CORNERS[22] == (1, 0, 1) && CORNERS[23] == (0, 0, 1);
    var a, b, c, d := Vec(0, 0, 0), Vec(1, 0, 0),
                      Vec(1, 0, 1), Vec(0, 0, 1);
    EdgesOf(a, b, c, d, Vec(1, 0, 0), Vec(0, 0, 1));
  }

  /** Around a face in order its corners turn about the normal, in reverse about its negation. */
  predicate Turns(a: Vec, b: Vec, c: Vec, d: Vec, n: Vec) {
    && Cross(Minus(b, a), Minus(c, a)) == n && Cross(Minus(d, c), Minus(a, c)) == n
    && Cross(Minus(c, d), Minus(b, d)) == Negated(n) && Cross(Minus(a, b), Minus(d, b)) == Negated(n)
  }

  lemma {:induction false} DetSums(a: int, b: int, c: int, d: int)
    ensures Det(a, b, a + c, b + d) == Det(a, b, c, d)
    ensures Det(-a, -b, -(a + c), -(b + d)) == Det(a, b, c, d)
    ensures Det(a, b, a - c, b - d) == -Det(a, b, c, d)
    ensures Det(-a, -b, c - a, d - b) == -Det(a, b, c, d)
  {
  }

  lemma {:induction false} CrossSums(u: Vec, w: Vec)
    ensures Cross(u, Plus(u, w)) == Cross(u, w)
    ensures Cross(Negated(u), Negated(Plus(u, w))) == Cross(u, w)
    ensures Cross(u, Minus(u, w)) == Negated(Cross(u, w))
    ensures Cross(Negated(u), Minus(w, u)) == Negated(Cross(u, w))
  {
    hide Det;
    DetSums(u.y, u.z, w.y, w.z);
    DetSums(u.z, u.x, w.z, w.x);
    DetSums(u.x, u.y, w.x, w.y);
  }

  lemma {:induction false} Parallelogram(a: Vec, u: Vec, w: Vec)
    ensures Turns(a, Plus(a, u), Plus(Plus(a, u), w), Plus(a, w), Cross(u, w))
  {
    hide Cross;
    CrossSums(u, w);
    var b, c, d := Plus(a, u), Plus(Plus(a, u), w), Plus(a, w);
    assert Minus(b, a) == u && Minus(c, a) == Plus(u, w);
    assert Minus(d, c) == Negated(u) && Minus(a, c) == Negated(Plus(u, w));
    assert Minus(c, d) == u && Minus(b, d) == Minus(u, w);
    assert Minus(a, b) == Negated(u) && Minus(d, b) == Minus(w, u);
  }

  lemma {:induction false} UnitFace(g: nat) returns (a: Vec, u: Vec, w: Vec, n: Vec)
    requires g < 6
    ensures Face(g, a, u, w, n) && Cross(u, w) == n
  {
    hide Face;
    if g == 0 {
      a, u, w, n := Vec(0, 0, 1), Vec(1, 0, 0), Vec(0, 1, 0), Vec(0, 0, 1);
      FrontFace();
    } else if g == 1 {
      a, u, w, n := Vec(1, 0, 0), Vec(-1, 0, 0), Vec(0, 1, 0), Vec(0, 0, -1);
      BackFace();
    } else if g == 2 {
      a, u, w, n := Vec(0, 0, 0), Vec(0, 0, 1), Vec(0, 1, 0), Vec(-1, 0, 0);
      LeftFace();
    } else if g == 3 {
      a, u, w, n := Vec(1, 0, 1), Vec(0, 0, -1), Vec(0, 1, 0), Vec(1, 0, 0);
      RightFace();
    } else if g == 4 {
      a, u, w, n := Vec(0, 1, 1), Vec(1, 0, 0), Vec(0, 0, -1), Vec(0, 1, 0);
      TopFace();
    } else {
      a, u, w, n := Vec(0, 0, 0), Vec(1, 0, 0), Vec(0, 0, 1), Vec(0, -1, 0);
      BottomFace();
    }
  }

  /** The edge along which the texture of a face goes up. */
  function Upward(g: nat): (w: Vec)
    requires g < 6
  {
    if g < 4 then Vec(0, 1, 0) else if g == 4 then Vec(0, 0, -1) else Vec(0, 0, 1)
  }

  /** Corner 3 of a face is above corner 0, and corner 2 above corner 1. */
  lemma {:induction false} FaceUpright(g: nat)
    requires g < 6
    ensures ToVec(CORNERS[4 * g + 3]) == Plus(ToVec(CORNERS[4 * g]), Upward(g))
    ensures ToVec(CORNERS[4 * g + 2]) == Plus(ToVec(CORNERS[4 * g + 1]), Upward(g))
  {
    hide Plus, ToVec;
    if g == 0 {
      FrontFace();
    } else if g == 1 {
      BackFace();
    } else if g == 2 {
      LeftFace();
    } else if g == 3 {
      RightFace();
    } else if g == 4 {
      TopFace();
    } else {
      BottomFace();
    }
  }

  /**
   The texture goes from left to right and from top to bottom: the left corners of a face, 0 and 3, have u = 0, the
   right ones 1, and the upper corners, 2 and 3, have v = 0, the lower ones 1. `Winding` has them turn about the normal
   in the order 0, 1, 2, 3, so seen from outside the texture is not mirrored.
   */
  lemma {:induction false} Textured(g: nat, i: nat)
    requires g < 6 && i < 4
    ensures Identity(4 * g + i).u == if i == 0 || i == 3 then 0 else 1
    ensures Identity(4 * g + i).v == if i == 2 || i == 3 then 0 else 1
    ensures Identity(4 * g + 3).position == Plus(Identity(4 * g).position, Upward(g))
    ensures Identity(4 * g + 2).position == Plus(Identity(4 * g + 1).position, Upward(g))
  {
    hide Plus, ToVec, Upward;
    FaceUpright(g);
    assert (4 * g + i) % 4 == i;
    assert UVS[0] == (0, 1) && UVS[1] == (1, 1) && UVS[2] == (1, 0) && UVS[3] == (0, 0);
  }

  /**
   Every triangle of a block in normal order shows the side its vertices' normals point to; every triangle of a
   reversed block shows the opposite side.
   */
  lemma {:induction false} Winding(b: Block, t: nat, i: nat)
    requires b.key < KEY_LIMIT && t < 12 && i < 3
    ensures Facing(b, t) == if b.flipped then Negated(Corner(b, t, i).normal) else Corner(b, t, i).normal
  {
    hide Identity, Cross, Cell, Negated, FaceCross;
    var f := t / 2;
    var q, q1, q2 := IndexOffset(3 * t), IndexOffset(3 * t + 1), IndexOffset(3 * t + 2);
    TriangleOf(t, i);
    CrossShift(b, q, q1, q2);
    FaceWinding(b.flipped, f, IndexOffset(3 * t + i) - 4 * f);
  }

  /** Two triangles to a face: its first three corners, then its third, fourth and first. */
  lemma {:induction false} TriangleOf(t: nat, i: nat)
    requires t < 12 && i < 3
    ensures var f := t / 2;
            && f < 6 && 4 * f <= IndexOffset(3 * t + i) < 4 * f + 4
            && (t % 2 == 0 ==> IndexOffset(3 * t) == 4 * f && IndexOffset(3 * t + 1) == 4 * f + 1
                               && IndexOffset(3 * t + 2) == 4 * f + 2)
            && (t % 2 == 1 ==> IndexOffset(3 * t) == 4 * f + 2 && IndexOffset(3 * t + 1) == 4 * f + 3
                               && IndexOffset(3 * t + 2) == 4 * f)
  {
    var f := t / 2;
    assert 3 * t == 6 * f + 3 * (t % 2);
    assert (3 * t) / 6 == f && (3 * t + 1) / 6 == f && (3 * t + 2) / 6 == f;
    assert (3 * t) % 6 == 3 * (t % 2);
  }

  /** The cell does not matter to the side shown. */
  lemma {:induction false} CrossShift(b: Block, q: nat, q1: nat, q2: nat)
    requires b.key < KEY_LIMIT && q < BLOCK && q1 < BLOCK && q2 < BLOCK
    ensures var p := BlockVertex(b, q).position;
            Cross(Minus(BlockVertex(b, q1).position, p), Minus(BlockVertex(b, q2).position, p))
            == FaceCross(b.flipped, q, q1, q2)
    ensures BlockVertex(b, q).normal == CornerOf(b.flipped, q).normal
  {
    hide Identity, Cell, Cross;
  }
}
