/**
 The voxel volume itself: edits queue indices, and the update drains the queue into the vertex and
 index lists of the mesh, in place.
 */
module Voxels {
  import opened VoxelMesh

  class VoxelVolume {
    var voxels: set<nat>
    var changed: seq<nat>
    var offsets: Offsets
    var verts: seq<Vertex>
    var indices: seq<nat>
    /** Number of indices drawn. */
    var count: nat
    /** Which voxel's block stands where. */
    ghost var blocks: seq<Block>

    ghost function Mesh(): (l: Layout)
      reads this
    {
      Layout(blocks, offsets)
    }

    /** The queue names every difference between voxels and side index. */
    ghost predicate Pending()
      reads this
    {
      Names(changed, voxels, offsets.Keys)
    }

    /** The vertex list is the blocks', the index list the canonical one. */
    ghost predicate Drawn()
      reads this
    {
      KeysOk(blocks) && verts == VertsOf(blocks) && indices == IndexList(|blocks|)
    }

    ghost predicate Valid()
      reads this
    {
      && Drawn()
      && QueueOk(changed)
      && Sane(Mesh())
    }

    constructor ()
      ensures Valid() && Exact(Mesh()) && Pending()
      ensures voxels == {} && changed == [] && blocks == []
    {
      voxels, changed, offsets, verts, indices, count := {}, [], map[], [], [], 0;
      blocks := [];
    }

    method AddVoxel(y: int, x: int, z: int)
      requires Valid() && IsCell(Vec(x, y, z))
      modifies this`voxels, this`changed
      ensures Valid() && (old(Pending()) ==> Pending())
      ensures var k := Key(Vec(x, y, z));
              voxels == old(voxels) + {k} && changed == old(changed) + [k]
    {
      var index := Key(Vec(x, y, z));
      changed := changed + [index];
      if index !in voxels {
        voxels := voxels + {index};
      }
    }

    method RemoveVoxel(y: int, x: int, z: int)
      requires Valid() && IsCell(Vec(x, y, z))
      modifies this`voxels, this`changed
      ensures Valid() && (old(Pending()) ==> Pending())
      ensures var k := Key(Vec(x, y, z));
              voxels == old(voxels) - {k} && changed == old(changed) + [k]
    {
      var index := Key(Vec(x, y, z));
      changed := changed + [index];
      if index in voxels {
        voxels := voxels - {index};
      }
    }

    /** The branch for a voxel that is present. */
    method PushBlock(index: nat)
      requires Drawn() && index < KEY_LIMIT
      modifies this`verts, this`indices, this`offsets, this`blocks
      ensures Drawn() && Mesh() == Added(old(Mesh()), index)
    {
      hide BlockVerts, CubeVertex, IndexBlock;
      var vertexOffset := |verts|;
      assert vertexOffset == BLOCK * |blocks|;
      PushVerts(index);
      offsets := offsets[index := vertexOffset];
      PushIndices(vertexOffset);
      PushedLists(blocks, Block(index, false));
      blocks := blocks + [Block(index, false)];
    }

    method PushVerts(index: nat)
      requires index < KEY_LIMIT
      modifies this`verts
      ensures verts == old(verts) + BlockVerts(Block(index, false))
    {
      hide CubeVertex;
      var i := 0;
      while i < BLOCK
        invariant 0 <= i <= BLOCK
        invariant verts == old(verts) + BlockVerts(Block(index, false))[..i]
      {
        verts := verts + [CubeVertex(index, i)];
        i := i + 1;
      }
    }

    method PushIndices(vertexOffset: nat)
      modifies this`indices
      ensures vertexOffset % BLOCK == 0 ==> indices == old(indices) + IndexBlock(vertexOffset / BLOCK)
    {
      var i := 0;
      while i < 6
        invariant 0 <= i <= 6
        invariant |indices| == |old(indices)| + 6 * i
        invariant forall q :: 0 <= q < |old(indices)| ==> indices[q] == old(indices)[q]
        invariant forall q :: 0 <= q < 6 * i ==> indices[|old(indices)| + q] == vertexOffset + IndexOffset(q)
      {
        ghost var before := indices;
        indices := indices + [i * 4 + vertexOffset + 0];
        indices := indices + [i * 4 + vertexOffset + 1];
        indices := indices + [i * 4 + vertexOffset + 2];
        indices := indices + [i * 4 + vertexOffset + 2];
        indices := indices + [i * 4 + vertexOffset + 3];
        indices := indices + [i * 4 + vertexOffset + 0];
        forall q | 6 * i <= q < 6 * i + 6 ensures indices[|old(indices)| + q] == vertexOffset + IndexOffset(q) {
          assert q / 6 == i && q % 6 == q - 6 * i;
        }
        i := i + 1;
      }
    }

    /** Scanning for the block's offset, and popping 36 indices off the back when it is met. */
    method DropIndices(offset: nat)
      requires Drawn() && offset % BLOCK == 0 && offset / BLOCK < |blocks|
      modifies this`indices
      ensures indices == IndexList(|blocks| - 1)
    {
      hide IndexList;
      ghost var b, n := offset / BLOCK, |blocks|;
      ghost var full := indices;
      var i := 0;
      while i < |indices|
        invariant i <= INDICES * b ==> indices == full
        invariant i > INDICES * b ==> i > INDICES * (b + 1) && indices == full[..INDICES * (n - 1)]
        decreases INDICES * n - i
      {
        OffsetOccurs(n, b, i);
        if indices[i] == offset {
          assert i == INDICES * b by { FirstOnly(n, b, i); }
          var j := 0;
          while j < 36
            invariant 0 <= j <= 36
            invariant i == INDICES * b + j
            invariant indices == full[..INDICES * n - j]
          {
            indices := indices[..|indices| - 1];
            j, i := j + 1, i + 1;
          }
        }
        i := i + 1;
      }
      IndexPrefix(n);
    }

    /** The block is the last: pop it. */
    method PopBlock()
      requires KeysOk(blocks) && verts == VertsOf(blocks) && |blocks| > 0
      modifies this`verts, this`blocks
      ensures blocks == old(blocks)[..|old(blocks)| - 1]
      ensures KeysOk(blocks) && verts == VertsOf(blocks)
    {
      hide BlockVerts;
      var i := 0;
      while i < BLOCK
        invariant 0 <= i <= BLOCK
        invariant blocks == old(blocks) && |verts| == |old(verts)| - i
        invariant verts == old(verts)[..|old(verts)| - i]
      {
        verts := verts[..|verts| - 1];
        i := i + 1;
      }
      blocks := blocks[..|blocks| - 1];
    }

    /** Swap-and-pop moves the last block into the place of another, last vertex first. */
    method MoveBlock(offset: nat)
      requires KeysOk(blocks) && verts == VertsOf(blocks)
      requires offset % BLOCK == 0 && offset / BLOCK < |blocks| - 1
      modifies this`verts, this`blocks
      ensures var b, n := offset / BLOCK, |old(blocks)| - 1;
              blocks == old(blocks)[b := Flip(old(blocks)[n])][..n]
      ensures KeysOk(blocks) && verts == VertsOf(blocks)
    {
      ghost var b, n := offset / BLOCK, |blocks| - 1;
      SwapPop(offset);
      MovedVerts(blocks, b, verts);
      blocks := blocks[b := Flip(blocks[n])][..n];
    }

    method SwapPop(offset: nat)
      requires offset + 2 * BLOCK <= |verts|
      modifies this`verts
      ensures var whole, n := old(verts), |old(verts)| - BLOCK;
              verts == whole[..offset] + Reverse(whole[n..]) + whole[offset + BLOCK..n]
    {
      ghost var whole := verts;
      var i := 0;
      while i < BLOCK
        invariant 0 <= i <= BLOCK
        invariant |verts| == |whole| - i
        invariant forall q :: 0 <= q < |verts| && !(offset <= q < offset + i) ==> verts[q] == whole[q]
        invariant forall q :: offset <= q < offset + i ==> verts[q] == whole[|whole| - 1 - (q - offset)]
      {
        var back := |verts| - 1;
        verts := verts[offset + i := verts[back]][back := verts[offset + i]];
        verts := verts[..back];
        i := i + 1;
      }
    }

    /** The branch for a voxel that is absent but has a block. */
    method DropBlock(index: nat)
      requires Drawn() && Sane(Mesh()) && index in offsets
      modifies this`verts, this`indices, this`offsets, this`blocks
      ensures Drawn() && Mesh() == Removed(old(Mesh()), index)
    {
      hide IndexList, VertsOf, CubeVertex, BlockVerts;
      assert Indexed(Mesh(), index);
      DropIndices(offsets[index]);
      if offsets[index] == |verts| - 24 {
        PopBlock();
      } else {
        ghost var last := blocks[|blocks| - 1];
        MoveBlock(offsets[index]);
        BlockAt(blocks, offsets[index] / BLOCK);
        FirstVertex(blocks[offsets[index] / BLOCK]);
        assert verts[offsets[index]] == verts[offsets[index]..offsets[index] + BLOCK][0];
        var vert := verts[offsets[index]];
        MovedCell(last);
        KeyOfCell(last.key);
        var cell := Minus(vert.position, Identity(0).position);
        offsets := offsets[Key(cell) := offsets[index]];
      }
      offsets := offsets - {index};
    }

    /**
     Draining the queue; nothing happens when the mesh is gone or nothing was queued. Whatever the voxels and the
     queue, the lists are those of the drained layout; with one block per voxel before and every difference
     queued, the side index has exactly the voxels, and one block each if and only if the queue was effective.
     */
    method UpdateMesh(alive: bool)
      requires Valid()
      modifies this
      ensures Valid() && voxels == old(voxels)
      ensures !alive ==> changed == old(changed) && Mesh() == old(Mesh())
      ensures alive ==> changed == [] && Mesh() == Drained(old(Mesh()), voxels, old(changed))
      ensures alive && old(changed) != [] ==> count == |indices|
      ensures alive && old(Loose(Mesh(), voxels) && Pending()) ==>
                Loose(Mesh(), voxels) && Pending() && offsets.Keys == voxels
      ensures alive && old(Exact(Mesh()) && Pending()) ==>
                (Exact(Mesh()) <==> Effective(old(changed), voxels, old(offsets.Keys)))
    {
      hide Loose, Exact, Drained, Effective, Updated, Added, Removed, Sane, Linked, Indexed, KeysOk, VertsOf;
      hide IndexList, Names;
      if !alive {
        return;
      }
      ghost var start, queued := Mesh(), changed;
      WhatDrains(start, voxels, queued);
      DrainedStep(start, voxels, queued);
      if |changed| == 0 {
        return;
      }
      while |changed| > 0
        invariant Drawn() && QueueOk(changed) && Sane(Mesh())
        invariant voxels == old(voxels)
        invariant Drained(Mesh(), voxels, changed) == Drained(start, voxels, queued)
        decreases |changed|
      {
        DrainedStep(Mesh(), voxels, changed);
        var index := changed[0];
        ghost var before := Mesh();
        UpdatedCases(before, voxels, index);
        changed := changed[1..];
        if index in voxels {
          PushBlock(index);
        } else {
          if index in offsets {
            DropBlock(index);
          }
        }
        assert Mesh() == Updated(before, voxels, index);
      }
      DrainedStep(Mesh(), voxels, changed);
      count := |indices|;
    }
  }

  // ---------------------------------------------------------------- steps of the update

  /** Offset 24 b stands in the index list at entries 36 b and 36 b + 5 only. */
  lemma {:induction false} FirstOnly(n: nat, b: nat, i: nat)
    requires b < n && i <= INDICES * b && IndexList(n)[i] == BLOCK * b
    ensures i == INDICES * b
  {
    hide IndexList;
    OffsetOccurs(n, b, i);
  }

  lemma {:induction false} DrainedStep(l: Layout, V: set<nat>, q: seq<nat>)
    requires Sane(l) && QueueOk(q)
    ensures q == [] ==> Drained(l, V, q) == l
    ensures q != [] ==>
              && (q[0] in l.index ==> Indexed(l, q[0]))
              && Sane(Updated(l, V, q[0]))
              && Drained(l, V, q) == Drained(Updated(l, V, q[0]), V, q[1..])
  {
    hide Updated, Indexed;
    if q != [] {
      UpdatedSane(l, V, q[0]);
      if q[0] in l.index {
        SaneIndexed(l, q[0]);
      }
    }
  }

  /** What draining a queue that names every difference leads to. */
  lemma {:induction false} WhatDrains(l: Layout, V: set<nat>, q: seq<nat>)
    requires Sane(l) && QueueOk(q)
    ensures var r := Drained(l, V, q);
            && (Loose(l, V) && Names(q, V, l.index.Keys) ==>
                  Loose(r, V) && r.index.Keys == V && Names([], V, r.index.Keys))
            && (Exact(l) && Names(q, V, l.index.Keys) ==> (Exact(r) <==> Effective(q, V, l.index.Keys)))
  {
    hide Drained, Effective;
    if Loose(l, V) && Names(q, V, l.index.Keys) {
      DrainedLoose(l, V, q);
      DrainedKeys(l, V, q);
    }
    if Exact(l) {
      DrainedExact(l, V, q);
    }
  }

  lemma {:induction false} UpdatedCases(l: Layout, V: set<nat>, k: nat)
    requires k in l.index ==> Indexed(l, k)
    ensures k in V ==> Updated(l, V, k) == Added(l, k)
    ensures k !in V && k in l.index ==> Updated(l, V, k) == Removed(l, k)
    ensures k !in V && k !in l.index ==> Updated(l, V, k) == l
  {
  }

  /** A block pushed at the end of both lists. */
  lemma {:induction false} PushedLists(bs: seq<Block>, b: Block)
    requires KeysOk(bs) && b.key < KEY_LIMIT
    ensures KeysOk(bs + [b]) && VertsOf(bs + [b]) == VertsOf(bs) + BlockVerts(b)
    ensures IndexList(|bs + [b]|) == IndexList(|bs|) + IndexBlock(|bs|)
  {
    hide BlockVerts, IndexBlock;
    assert (bs + [b])[..|bs|] == bs;
  }

  /** A moved block stands reversed in its new place, and everything else is where it was. */
  lemma {:induction false} MovedVerts(bs: seq<Block>, b: nat, moved: seq<Vertex>)
    requires KeysOk(bs) && b < |bs| - 1
    requires var whole, n := VertsOf(bs), BLOCK * (|bs| - 1);
             moved == whole[..BLOCK * b] + Reverse(whole[n..]) + whole[BLOCK * b + BLOCK..n]
    ensures var next := bs[b := Flip(bs[|bs| - 1])][..|bs| - 1];
            KeysOk(next) && moved == VertsOf(next)
  {
    hide BlockVerts, VertsOf, Reverse;
    var n := |bs| - 1;
    var last := bs[n];
    var next := bs[b := Flip(last)][..n];
    var front, middle := bs[..b], bs[b + 1..n];
    assert bs == front + [bs[b]] + middle + [last];
    assert next == front + [Flip(last)] + middle;
    assert KeysOk(front) && KeysOk(middle);
    VertsOne(bs[b]);
    VertsOne(last);
    VertsOne(Flip(last));
    VertsConcat(front, [bs[b]]);
    VertsConcat(front + [bs[b]], middle);
    VertsConcat(front + [bs[b]] + middle, [last]);
    VertsConcat(front, [Flip(last)]);
    VertsConcat(front + [Flip(last)], middle);
    FlipReverses(last);
    Parts(VertsOf(front), BlockVerts(bs[b]), VertsOf(middle), BlockVerts(last));
  }

  lemma {:induction false} Parts(a: seq<Vertex>, b: seq<Vertex>, c: seq<Vertex>, d: seq<Vertex>)
    ensures var whole, n := a + b + c + d, |a| + |b| + |c|;
            whole[..|a|] == a && whole[|a| + |b|..n] == c && whole[n..] == d
  {
  }

  lemma {:induction false} FirstVertex(b: Block)
    requires b.key < KEY_LIMIT
    ensures BlockVerts(b)[0] == BlockVertex(b, 0)
  {
    hide BlockVertex;
  }

  /** Whichever way round it stands, a moved block's first vertex leads back to its cell. */
  lemma {:induction false} MovedCell(b: Block)
    requires b.key < KEY_LIMIT
    ensures Minus(BlockVertex(Flip(b), 0).position, Identity(0).position) == Cell(b.key)
  {
    EndsGiveCell(b.key);
  }
}
