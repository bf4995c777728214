/**
 Limits, records and flat-index arithmetic of the graphics header. In the
 struct-of-arrays revision a render layer keeps the per-slot texture units of
 all its sprite batches in one flat table (`batch * slotCnt + slot`) and the
 per-batch texture-unit records in another (`batch * unitLimit + unit`).
 */
module GraphicsLayout {

  const TexUnitLimitCap := 32
  const RenderLayerLimit := 16
  const RenderLayerSpriteBatchLimit := 10
  const RenderLayerCharBatchLimit := 24
  const SpriteBatchSlotLimit := 1024
  const CharBatchSlotLimit := 1024

  /** Floats per sprite-quad vertex: position 2, pos 2, size 2, rotation 1,
      texture unit 1, texture coordinates 2, alpha 1. */
  const SpriteQuadVertAttrCnt := 11

  /** Number of distinct values of an `unsigned short` element index. */
  const UShortRange := 65536

  /** A texture unit of one sprite batch: the texture bound to it and the
      number of slots that use it. */
  datatype SpriteBatchTexUnitInfo = SpriteBatchTexUnitInfo(texIndex: int, refCnt: int)

  /** Identifies one sprite slot of a renderer. */
  datatype SpriteBatchSlotKey = SpriteBatchSlotKey(layerIndex: int, batchIndex: int, slotIndex: int)

  /** Row-major position of entry `inner` of row `outer` when each row has
      `innerCnt` entries. */
  function FlatIndex(outer: nat, inner: nat, innerCnt: nat): (r: nat)
    requires inner < innerCnt
    ensures outer * innerCnt <= r < outer * innerCnt + innerCnt
  {
    outer * innerCnt + inner
  }

  /** A flat index lies below `outerCnt * innerCnt` whenever its row does. */
  lemma FlatIndexInRange(outer: nat, inner: nat, outerCnt: nat, innerCnt: nat)
    requires outer < outerCnt && inner < innerCnt
    ensures FlatIndex(outer, inner, innerCnt) < outerCnt * innerCnt
  {
    MulMonotone(outer + 1, outerCnt, innerCnt);
  }

  lemma MulMonotone(a: nat, b: nat, n: nat)
    ensures a <= b ==> a * n <= b * n
  {
  }

  /** The row and column are recovered from a flat index by division and
      remainder. */
  lemma {:induction false} FlatIndexRoundTrip(outer: nat, inner: nat, innerCnt: nat)
    requires inner < innerCnt
    ensures FlatIndex(outer, inner, innerCnt) / innerCnt == outer
    ensures FlatIndex(outer, inner, innerCnt) % innerCnt == inner
  {
    var r := FlatIndex(outer, inner, innerCnt);
    var q: nat, m := r / innerCnt, r % innerCnt;
    assert r == q * innerCnt + m;
    // Neither quotient can lie below the other: a whole row separates them.
    MulMonotone(q + 1, outer, innerCnt);
    MulMonotone(outer + 1, q, innerCnt);
  }

  /** Distinct in-range (row, column) pairs have distinct flat indices. */
  lemma FlatIndexInjective(o1: nat, i1: nat, o2: nat, i2: nat, innerCnt: nat)
    requires i1 < innerCnt && i2 < innerCnt
    requires FlatIndex(o1, i1, innerCnt) == FlatIndex(o2, i2, innerCnt)
    ensures o1 == o2 && i1 == i2
  {
    FlatIndexRoundTrip(o1, i1, innerCnt);
    FlatIndexRoundTrip(o2, i2, innerCnt);
  }

  /** The flat tables of a layer's sprite batches. */
  datatype SpriteBatchTables = SpriteBatchTables(
    batchCnt: nat,
    slotCnt: nat,
    unitLimit: nat,
    slotTexUnits: seq<int>,
    texUnits: seq<SpriteBatchTexUnitInfo>)
  {
    ghost predicate Valid()
    {
      |slotTexUnits| == batchCnt * slotCnt && |texUnits| == batchCnt * unitLimit
    }

    /** `get_sprite_batch_slot_tex_unit`: the entry of slot `slot` of batch `batch`. */
    function SlotTexUnit(batch: nat, slot: nat): (r: int)
      requires Valid() && batch < batchCnt && slot < slotCnt
    {
      FlatIndexInRange(batch, slot, batchCnt, slotCnt);
      slotTexUnits[FlatIndex(batch, slot, slotCnt)]
    }

    /** `get_sprite_batch_tex_unit_info`: the record of unit `unit` of batch `batch`. */
    function TexUnitInfo(batch: nat, unit: nat): (r: SpriteBatchTexUnitInfo)
      requires Valid() && batch < batchCnt && unit < unitLimit
    {
      FlatIndexInRange(batch, unit, batchCnt, unitLimit);
      texUnits[FlatIndex(batch, unit, unitLimit)]
    }
  }

  /** Writing one batch's slot entry never changes what another (batch, slot)
      pair reads back. */
  lemma SlotEntriesIndependent(t: SpriteBatchTables, b1: nat, s1: nat, b2: nat, s2: nat, unit: int)
    requires t.Valid() && b1 < t.batchCnt && b2 < t.batchCnt && s1 < t.slotCnt && s2 < t.slotCnt
    requires (b1, s1) != (b2, s2)
    ensures FlatIndex(b1, s1, t.slotCnt) < |t.slotTexUnits|
    ensures t.(slotTexUnits := t.slotTexUnits[FlatIndex(b1, s1, t.slotCnt) := unit]).SlotTexUnit(b2, s2)
         == t.SlotTexUnit(b2, s2)
  {
    FlatIndexInRange(b1, s1, t.batchCnt, t.slotCnt);
    FlatIndexInRange(b2, s2, t.batchCnt, t.slotCnt);
    if FlatIndex(b1, s1, t.slotCnt) == FlatIndex(b2, s2, t.slotCnt) {
      FlatIndexInjective(b1, s1, b2, s2, t.slotCnt);
    }
  }

  /** With at most `SpriteBatchSlotLimit` slots per batch, every vertex
      number of the batch (four per slot) fits an `unsigned short`. */
  lemma VertexNumbersFitUShort(slotCnt: nat, v: nat)
    requires slotCnt <= SpriteBatchSlotLimit && v < 4 * slotCnt
    ensures v < UShortRange
  {
  }
}
