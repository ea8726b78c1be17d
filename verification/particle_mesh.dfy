/** The particle mesh sample (`NodeParticleMeshGenerator`): every item stamps `Count`
    copies of a sprite's mesh (or of a unit quad when it has no sprite) into one mesh,
    evaluating the graph once per vertex. Only the integer side is modelled: the array
    sizes counted up front, the triangle indices offset by the running vertex index, the
    Update Particle flag, and the failures when the counted sizes do not match what the
    loops write. */
module ParticleMesh {
  import opened Wrappers
  import opened MeshArith

  /** An entry of a sprite's `ushort` triangle list. */
  type UShort = x: int | 0 <= x < 0x1_0000

  /** What the generator uses of a sprite: its vertex count and its triangle list. */
  datatype Sprite = Sprite(vertexCount: nat, triangles: seq<UShort>)

  /** A `SpriteItem`: a sprite, possibly `null`, and how many particles to stamp. */
  datatype Item = Item(sprite: Option<Sprite>, count: int)

  /** The quad used without a sprite: four vertices, corners 0 1 on top and 2 3 below. */
  const QuadVertexCount: nat := 4
  const QuadTriangles: seq<int> := [0, 2, 3, 3, 1, 0]

  /** The vertices of one particle of an item. */
  function Verts(it: Item): nat {
    if it.sprite.Some? then it.sprite.value.vertexCount else QuadVertexCount
  }

  /** The triangle list of one particle of an item, before offsetting. */
  function Pattern(it: Item): (r: seq<int>)
    ensures it.sprite.None? ==> r == QuadTriangles
  {
    if it.sprite.Some? then it.sprite.value.triangles else QuadTriangles
  }

  /** A particle's triangle list only names its own vertices. The quad's always does. */
  predicate WellFormed(it: Item) {
    forall t :: 0 <= t < |Pattern(it)| ==> 0 <= Pattern(it)[t] < Verts(it)
  }

  /** The quad fallback is (0, 2, 3) then (3, 1, 0), all corners of the quad. */
  lemma {:induction false} QuadWellFormed(it: Item)
    requires it.sprite.None?
    ensures WellFormed(it)
    ensures Pattern(it)[..3] == [0, 2, 3] && Pattern(it)[3..] == [3, 1, 0]
  {
  }

  // ----- the sizes counted up front -----

  /** `vertexCount`: the sum of vertices × `Count`, negative counts included. */
  function VertexTotal(items: seq<Item>): int
    decreases |items|
  {
    if |items| == 0 then 0 else Verts(items[0]) * items[0].count + VertexTotal(items[1..])
  }

  /** `triangleCount`: the sum of triangle list lengths × `Count`. */
  function TriangleTotal(items: seq<Item>): int
    decreases |items|
  {
    if |items| == 0 then 0 else |Pattern(items[0])| * items[0].count + TriangleTotal(items[1..])
  }

  // ----- what the loops write -----

  /** How many particles the `for (i = 0; i < Count; i++)` loop stamps. */
  function Particles(it: Item): nat {
    if it.count < 0 then 0 else it.count
  }

  function Offset(pattern: seq<int>, base: int): seq<int> {
    seq(|pattern|, t requires 0 <= t < |pattern| => pattern[t] + base)
  }

  /** The triangle indices `count` particles write, the first one's vertices starting
      at `vi`. */
  function ItemTriangles(pattern: seq<int>, verts: nat, count: nat, vi: int): seq<int>
    decreases count
  {
    if count == 0 then [] else Offset(pattern, vi) + ItemTriangles(pattern, verts, count - 1, vi + verts)
  }

  /** The Update Particle flags `count` particles set, one per vertex. */
  function ItemUpdates(verts: nat, count: nat): seq<bool>
    decreases count
  {
    if count == 0 then [] else seq(verts, v requires 0 <= v < verts => v == 0) + ItemUpdates(verts, count - 1)
  }

  /** How many vertices the loops write. */
  function WrittenVerts(items: seq<Item>): nat
    decreases |items|
  {
    if |items| == 0 then 0 else Verts(items[0]) * Particles(items[0]) + WrittenVerts(items[1..])
  }

  /** How many triangle indices the loops write. */
  function WrittenTriangles(items: seq<Item>): nat
    decreases |items|
  {
    if |items| == 0 then 0 else |Pattern(items[0])| * Particles(items[0]) + WrittenTriangles(items[1..])
  }

  /** The triangle indices of all items in turn, the running vertex index starting at
      `vi`. */
  function EmitTriangles(items: seq<Item>, vi: int): seq<int>
    decreases |items|
  {
    if |items| == 0 then []
    else
      var it := items[0];
      ItemTriangles(Pattern(it), Verts(it), Particles(it), vi) +
        EmitTriangles(items[1..], vi + Verts(it) * Particles(it))
  }

  function EmitUpdates(items: seq<Item>): seq<bool>
    decreases |items|
  {
    if |items| == 0 then [] else ItemUpdates(Verts(items[0]), Particles(items[0])) + EmitUpdates(items[1..])
  }

  // ----- the whole generation -----

  /** What `GenerateMesh` leaves in the mesh: nothing without a connected Position output;
      otherwise the vertex count, the triangle list and the Update Particle flag of each
      evaluation in order. */
  datatype ParticleMesh = Cleared | Mesh(vertexCount: nat, triangles: seq<int>, updates: seq<bool>)

  /** `GenerateMesh`: a negative counted size fails allocating its array, and a write
      past a counted size fails with an index out of range. */
  function Generate(items: seq<Item>, positionConnected: bool): (r: Result<ParticleMesh>)
    ensures !positionConnected ==> r == Success(Cleared)
    ensures positionConnected && (forall i :: 0 <= i < |items| ==> items[i].count >= 0) ==> r.Success?
    ensures r.Success? && positionConnected ==>
      r.value.Mesh? && |r.value.triangles| == TriangleTotal(items) &&
      |r.value.updates| == r.value.vertexCount == VertexTotal(items)
  {
    if !positionConnected then Success(Cleared)
    else
      TotalsAgainstWritten(items);
      EmitSizes(items, 0);
      var vt := VertexTotal(items);
      var tt := TriangleTotal(items);
      if vt < 0 || tt < 0 then Failure("negative array size")
      else if WrittenTriangles(items) > tt || WrittenVerts(items) > vt then Failure("index out of range")
      else Success(Mesh(vt, EmitTriangles(items, 0), EmitUpdates(items)))
  }

  // ----- properties -----

  /** The products of a particle count and a size, as non-negative numbers. */
  lemma {:induction false} MulNonNegative(a: nat, b: nat)
    ensures a * b >= 0
  {
  }

  /** The counted sizes never exceed what the loops write, and equal it exactly when
      every item with a negative count has nothing to write. */
  lemma {:induction false} TotalsAgainstWritten(items: seq<Item>)
    ensures VertexTotal(items) <= WrittenVerts(items)
    ensures TriangleTotal(items) <= WrittenTriangles(items)
    ensures VertexTotal(items) == WrittenVerts(items) <==>
      forall i :: 0 <= i < |items| ==> items[i].count >= 0 || Verts(items[i]) == 0
    ensures TriangleTotal(items) == WrittenTriangles(items) <==>
      forall i :: 0 <= i < |items| ==> items[i].count >= 0 || |Pattern(items[i])| == 0
    decreases |items|
  {
    if |items| > 0 {
      var it := items[0];
      var tail := items[1..];
      TotalsAgainstWritten(tail);
      assert forall i :: 1 <= i < |items| ==> items[i] == tail[i - 1];
      ItemAgainstWritten(Verts(it), it.count);
      ItemAgainstWritten(|Pattern(it)|, it.count);
    }
  }

  /** One item's share of the comparison. */
  lemma {:induction false} ItemAgainstWritten(size: nat, count: int)
    ensures size * count <= size * (if count < 0 then 0 else count)
    ensures size * count == size * (if count < 0 then 0 else count) <==> count >= 0 || size == 0
  {
    if count < 0 && size > 0 {
      assert size * count == -(size * -count);
      MulNonNegative(size, -count - 1);
      assert size * -count == size * (-count - 1) + size;
    }
  }

  /** With a connected Position output the generation succeeds exactly when every item
      with a negative count has neither vertices nor triangles. */
  lemma {:induction false} GenerateSucceeds(items: seq<Item>)
    ensures Generate(items, true).Success? <==>
      forall i :: 0 <= i < |items| ==> items[i].count >= 0 || (Verts(items[i]) == 0 && |Pattern(items[i])| == 0)
  {
    TotalsAgainstWritten(items);
  }

  /** On success every counted slot is written: the triangle list and the evaluations
      have exactly the counted sizes. */
  lemma {:induction false} GenerateFillsArrays(items: seq<Item>)
    requires Generate(items, true).Success?
    ensures var m := Generate(items, true).value;
      m.Mesh? && |m.triangles| == TriangleTotal(items) && |m.updates| == VertexTotal(items) == m.vertexCount
  {
    TotalsAgainstWritten(items);
    EmitSizes(items, 0);
  }

  /** The emitted lists have the written sizes. */
  lemma {:induction false} EmitSizes(items: seq<Item>, vi: int)
    ensures |EmitTriangles(items, vi)| == WrittenTriangles(items)
    ensures |EmitUpdates(items)| == WrittenVerts(items)
    decreases |items|
  {
    if |items| > 0 {
      var it := items[0];
      ItemSizes(Pattern(it), Verts(it), Particles(it), vi);
      EmitSizes(items[1..], vi + Verts(it) * Particles(it));
    }
  }

  lemma {:induction false} ItemSizes(pattern: seq<int>, verts: nat, count: nat, vi: int)
    ensures |ItemTriangles(pattern, verts, count, vi)| == |pattern| * count
    ensures |ItemUpdates(verts, count)| == verts * count
    decreases count
  {
    if count > 0 {
      ItemSizes(pattern, verts, count - 1, vi + verts);
      assert |pattern| * count == |pattern| * (count - 1) + |pattern|;
      assert verts * count == verts * (count - 1) + verts;
    }
  }

  /** The place of index `t` of particle `i`'s triangles in an item's block. */
  function Slot(size: nat, i: nat, t: nat): nat {
    i * size + t
  }

  /** Particle `i` of an item writes its pattern offset by the running vertex index,
      which has grown by the item's vertex count for each particle before it. */
  lemma {:induction false} ItemTrianglesOffset(pattern: seq<int>, verts: nat, count: nat, vi: int)
    ensures |ItemTriangles(pattern, verts, count, vi)| == |pattern| * count
    ensures forall i, t :: 0 <= i < count && 0 <= t < |pattern| ==>
      Slot(|pattern|, i, t) < |pattern| * count &&
      ItemTriangles(pattern, verts, count, vi)[Slot(|pattern|, i, t)] == pattern[t] + vi + i * verts
    decreases count
  {
    ItemSizes(pattern, verts, count, vi);
    if count > 0 {
      var n := |pattern|;
      var rest := ItemTriangles(pattern, verts, count - 1, vi + verts);
      ItemTrianglesOffset(pattern, verts, count - 1, vi + verts);
      var r := ItemTriangles(pattern, verts, count, vi);
      assert r == Offset(pattern, vi) + rest;
      forall i, t | 0 <= i < count && 0 <= t < n
        ensures Slot(n, i, t) < n * count && r[Slot(n, i, t)] == pattern[t] + vi + i * verts
      {
        MulMonotone(i + 1, count, n);
        assert (i + 1) * n == i * n + n;
        if i > 0 {
          assert Slot(n, i, t) == n + Slot(n, i - 1, t) by {
            assert i * n == (i - 1) * n + n;
          }
          assert (i - 1) * verts + verts == i * verts;
        }
      }
    }
  }

  /** Update Particle is set on the first vertex of each particle and on no other. */
  lemma {:induction false} ItemUpdatesFirstVertex(verts: nat, count: nat)
    ensures |ItemUpdates(verts, count)| == verts * count
    ensures forall j :: 0 <= j < verts * count ==> (ItemUpdates(verts, count)[j] <==> j % verts == 0)
    decreases count
  {
    ItemSizes([], verts, count, 0);
    if count > 0 {
      var head := seq(verts, v requires 0 <= v < verts => v == 0);
      var rest := ItemUpdates(verts, count - 1);
      ItemUpdatesUnfold(verts, count);
      hide ItemUpdates;
      ItemUpdatesFirstVertex(verts, count - 1);
      var r := head + rest;
      assert verts * count == verts + verts * (count - 1);
      forall j | 0 <= j < verts * count ensures r[j] <==> j % verts == 0 {
        if j >= verts {
          ModShift(j - verts, verts);
        } else {
          DivModOf(verts, 0, j);
        }
      }
    }
  }

  lemma {:induction false} ItemUpdatesUnfold(verts: nat, count: nat)
    requires count > 0
    ensures ItemUpdates(verts, count) == seq(verts, v requires 0 <= v < verts => v == 0) + ItemUpdates(verts, count - 1)
  {
  }

  /** When every item's particle only names its own vertices, every written triangle
      index names a vertex written by the same loops, counted from `vi`. */
  lemma {:induction false} EmitInRange(items: seq<Item>, vi: int)
    requires forall i :: 0 <= i < |items| ==> WellFormed(items[i])
    ensures forall k :: 0 <= k < |EmitTriangles(items, vi)| ==>
      vi <= EmitTriangles(items, vi)[k] < vi + WrittenVerts(items)
    decreases |items|
  {
    if |items| > 0 {
      var it := items[0];
      var tail := items[1..];
      var size := Verts(it) * Particles(it);
      assert forall i :: 1 <= i < |items| ==> items[i] == tail[i - 1];
      EmitInRange(tail, vi + size);
      ItemInRange(it, Particles(it), vi);
      MulNonNegative(Verts(it), Particles(it));
    }
  }

  /** The indices of one item's block stay within its own vertices. */
  lemma {:induction false} ItemInRange(it: Item, count: nat, vi: int)
    requires WellFormed(it)
    ensures forall k :: 0 <= k < |ItemTriangles(Pattern(it), Verts(it), count, vi)| ==>
      vi <= ItemTriangles(Pattern(it), Verts(it), count, vi)[k] < vi + Verts(it) * count
    decreases count
  {
    if count > 0 {
      var n := Verts(it);
      ItemInRange(it, count - 1, vi + n);
      assert n * count == n + n * (count - 1);
      MulNonNegative(n, count - 1);
    }
  }

  /** A successful generation from well-formed items only names vertices of the mesh. */
  lemma {:induction false} GenerateInRange(items: seq<Item>)
    requires forall i :: 0 <= i < |items| ==> WellFormed(items[i])
    requires Generate(items, true).Success?
    ensures var m := Generate(items, true).value;
      m.Mesh? && forall k :: 0 <= k < |m.triangles| ==> 0 <= m.triangles[k] < m.vertexCount
  {
    TotalsAgainstWritten(items);
    EmitInRange(items, 0);
  }
}
