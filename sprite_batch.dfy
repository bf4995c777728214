/**
 A sprite batch: a fixed number of quad slots that share one vertex buffer and
 a small table of texture units. Each unit holds a texture index and a
 reference count; every active slot is mapped to one unit.

 The first half of the module gives the batch's bookkeeping as values
 (`BatchState`) with the allocation policy as functions (`FindTexUnit`,
 `Take`, `Release`) and the invariant they keep (`Inv`). The second half is the
 `SpriteBatch` class, whose methods update arrays and a bitset in place and are
 proved to move the state exactly as those functions say.
 */
module SpriteBatches {
  import opened Bitsets
  import opened GraphicsLayout

  /** Floats written per slot: four vertices of `SpriteQuadVertAttrCnt` floats. */
  const QuadFloatCnt := 4 * SpriteQuadVertAttrCnt

  /** Position, within one vertex, of the float that selects the texture unit. */
  const TexUnitAttr := 7

  // ---------------------------------------------------------------------------
  // Texture-unit choice

  predicate IsFree(info: SpriteBatchTexUnitInfo)
  {
    info.refCnt == 0
  }

  /** A unit matches a request only while some slot still references it. */
  predicate HoldsTexture(info: SpriteBatchTexUnitInfo, texIndex: int)
  {
    info.refCnt != 0 && info.texIndex == texIndex
  }

  /** `find_tex_unit_to_use`: the lowest unit that is in use with the requested
      texture wins, even over a lower-numbered free unit; otherwise the lowest
      free unit; otherwise -1. */
  function FindTexUnit(units: seq<SpriteBatchTexUnitInfo>, texIndex: int): (r: int)
    ensures -1 <= r < |units|
    ensures (exists i :: 0 <= i < |units| && HoldsTexture(units[i], texIndex)) ==>
              0 <= r && HoldsTexture(units[r], texIndex)
              && forall i :: 0 <= i < r ==> !HoldsTexture(units[i], texIndex)
    ensures (forall i :: 0 <= i < |units| ==> !HoldsTexture(units[i], texIndex)) ==>
              (r == -1 <==> forall i :: 0 <= i < |units| ==> !IsFree(units[i]))
              && (0 <= r ==> IsFree(units[r]) && forall i :: 0 <= i < r ==> !IsFree(units[i]))
  {
    var hit := FirstInactive(Misses(units, texIndex));
    if hit != -1 then hit
    else FirstInactive(InUse(units))
  }

  /** Per unit: does it fail to hold the texture? */
  function Misses(units: seq<SpriteBatchTexUnitInfo>, texIndex: int): (r: seq<bool>)
    ensures |r| == |units| && forall i :: 0 <= i < |units| ==> r[i] == !HoldsTexture(units[i], texIndex)
  {
    seq(|units|, i requires 0 <= i < |units| => !HoldsTexture(units[i], texIndex))
  }

  /** Per unit: is it in use? */
  function InUse(units: seq<SpriteBatchTexUnitInfo>): (r: seq<bool>)
    ensures |r| == |units| && forall i :: 0 <= i < |units| ==> r[i] == !IsFree(units[i])
  {
    seq(|units|, i requires 0 <= i < |units| => !IsFree(units[i]))
  }

  /** A free unit whose stale texture index equals the request is not a match:
      with a live unit elsewhere holding the texture, that unit is chosen. */
  lemma StaleFreeUnitIgnored(units: seq<SpriteBatchTexUnitInfo>, texIndex: int, stale: nat, live: nat)
    requires stale < live < |units|
    requires units[stale] == SpriteBatchTexUnitInfo(texIndex, 0)
    requires HoldsTexture(units[live], texIndex)
    requires forall i :: 0 <= i < |units| && i != live ==> !HoldsTexture(units[i], texIndex)
    ensures FindTexUnit(units, texIndex) == live
  {
  }

  // ---------------------------------------------------------------------------
  // The batch's bookkeeping as a value

  datatype BatchState = BatchState(
    active: seq<bool>,                      // slot activity bits
    slotTexUnits: seq<int>,                 // texture unit of each slot
    texUnits: seq<SpriteBatchTexUnitInfo>)  // texture and reference count of each unit

  /** A freshly constructed batch: no slot active, every unit free. */
  function EmptyBatch(slotCnt: nat, unitLimit: nat): BatchState
  {
    BatchState(seq(slotCnt, _ => false), seq(slotCnt, _ => 0),
               seq(unitLimit, _ => SpriteBatchTexUnitInfo(0, 0)))
  }

  /** 1 when slot (isActive, unit) references unit `u`, else 0. */
  function Uses(isActive: bool, unit: int, u: int): nat
  {
    if isActive && unit == u then 1 else 0
  }

  /** Number of active slots mapped to unit `u`. */
  function RefCount(active: seq<bool>, slotTexUnits: seq<int>, u: int): nat
    requires |active| == |slotTexUnits|
    decreases |active|
  {
    if |active| == 0 then 0
    else
      var n := |active| - 1;
      RefCount(active[..n], slotTexUnits[..n], u) + Uses(active[n], slotTexUnits[n], u)
  }

  /** The batch invariant: every slot names a unit of the table, each unit's
      reference count is the number of active slots mapped to it, and no two
      units in use hold the same texture. */
  ghost predicate Inv(st: BatchState, slotCnt: nat, unitLimit: nat)
  {
    && |st.active| == slotCnt && |st.slotTexUnits| == slotCnt && |st.texUnits| == unitLimit
    && (forall s :: 0 <= s < slotCnt ==> 0 <= st.slotTexUnits[s] < unitLimit)
    && (forall u :: 0 <= u < unitLimit ==> st.texUnits[u].refCnt == RefCount(st.active, st.slotTexUnits, u))
    && (forall u, v :: 0 <= u < v < unitLimit && !IsFree(st.texUnits[u]) && !IsFree(st.texUnits[v]) ==>
          st.texUnits[u].texIndex != st.texUnits[v].texIndex)
  }

  /** `take_any_slot`: fail (-1, state unchanged) when every slot is active or
      no unit is usable; otherwise activate the lowest inactive slot, map it to
      the chosen unit, bind the unit to the texture and count the new user. */
  function Take(st: BatchState, texIndex: int): (BatchState, int)
    requires |st.slotTexUnits| == |st.active|
  {
    var slot := FirstInactive(st.active);
    if slot == -1 then (st, -1)
    else
      var unit := FindTexUnit(st.texUnits, texIndex);
      if unit == -1 then (st, -1)
      else (Bind(st, slot, unit, texIndex), slot)
  }

  /** The update of a successful take once the slot and the unit are chosen:
      activate the slot, map it to the unit, bind the unit to the texture and
      count the new user. */
  function Bind(st: BatchState, slot: nat, unit: nat, texIndex: int): BatchState
    requires slot < |st.active| == |st.slotTexUnits| && unit < |st.texUnits|
  {
    BatchState(st.active[slot := true], st.slotTexUnits[slot := unit],
               st.texUnits[unit := SpriteBatchTexUnitInfo(texIndex, st.texUnits[unit].refCnt + 1)])
  }

  /** `release_slot`: deactivate the slot and count one user less on its unit.
      The slot keeps its (now stale) unit number. */
  function Release(st: BatchState, slot: nat): BatchState
    requires slot < |st.active| == |st.slotTexUnits|
    requires 0 <= st.slotTexUnits[slot] < |st.texUnits|
  {
    var unit := st.slotTexUnits[slot];
    st.(active := st.active[slot := false],
        texUnits := st.texUnits[unit := st.texUnits[unit].(refCnt := st.texUnits[unit].refCnt - 1)])
  }

  // ---------------------------------------------------------------------------
  // Reference counting

  lemma {:induction false} RefCountNoneActive(slotCnt: nat, u: int)
    ensures RefCount(seq(slotCnt, _ => false), seq(slotCnt, _ => 0), u) == 0
  {
    if slotCnt > 0 {
      var n := slotCnt - 1;
      assert seq(slotCnt, _ => false)[..n] == seq(n, _ => false);
      assert seq(slotCnt, _ => 0)[..n] == seq(n, _ => 0);
      RefCountNoneActive(n, u);
    }
  }

  /** Changing one slot changes each unit's count by that slot's contribution only. */
  lemma {:induction false} RefCountUpdate(active: seq<bool>, slotTexUnits: seq<int>, s: nat, b: bool, w: int, u: int)
    requires |active| == |slotTexUnits| && s < |active|
    ensures RefCount(active[s := b], slotTexUnits[s := w], u)
         == RefCount(active, slotTexUnits, u) - Uses(active[s], slotTexUnits[s], u) + Uses(b, w, u)
  {
    var n := |active| - 1;
    var a2, t2 := active[s := b], slotTexUnits[s := w];
    if s == n {
      assert a2[..n] == active[..n];
      assert t2[..n] == slotTexUnits[..n];
    } else {
      assert a2[..n] == active[..n][s := b];
      assert t2[..n] == slotTexUnits[..n][s := w];
      RefCountUpdate(active[..n], slotTexUnits[..n], s, b, w, u);
    }
  }

  /** An active slot contributes to its unit's count. */
  lemma {:induction false} RefCountCoversActive(active: seq<bool>, slotTexUnits: seq<int>, s: nat)
    requires |active| == |slotTexUnits| && s < |active| && active[s]
    ensures RefCount(active, slotTexUnits, slotTexUnits[s]) >= 1
  {
    var n := |active| - 1;
    if s < n {
      RefCountCoversActive(active[..n], slotTexUnits[..n], s);
    }
  }

  // ---------------------------------------------------------------------------
  // What the invariant gives and which operations keep it

  /** A fresh batch satisfies the invariant. */
  lemma EmptyBatchInv(slotCnt: nat, unitLimit: nat)
    requires unitLimit >= 1
    ensures Inv(EmptyBatch(slotCnt, unitLimit), slotCnt, unitLimit)
  {
    var st := EmptyBatch(slotCnt, unitLimit);
    forall u | 0 <= u < unitLimit
      ensures st.texUnits[u].refCnt == RefCount(st.active, st.slotTexUnits, u)
    {
      RefCountNoneActive(slotCnt, u);
    }
  }

  /** Every active slot is mapped to a unit in use, so it renders with that
      unit's texture. */
  lemma ActiveSlotUnitInUse(st: BatchState, slotCnt: nat, unitLimit: nat, s: nat)
    requires Inv(st, slotCnt, unitLimit) && s < slotCnt && st.active[s]
    ensures st.texUnits[st.slotTexUnits[s]].refCnt >= 1
  {
    RefCountCoversActive(st.active, st.slotTexUnits, s);
  }

  /** Taking a slot keeps the invariant. */
  lemma TakePreservesInv(st: BatchState, slotCnt: nat, unitLimit: nat, texIndex: int)
    requires Inv(st, slotCnt, unitLimit)
    ensures Inv(Take(st, texIndex).0, slotCnt, unitLimit)
  {
    var slot := FirstInactive(st.active);
    var unit := FindTexUnit(st.texUnits, texIndex);
    if slot != -1 && unit != -1 {
      var st' := Take(st, texIndex).0;
      forall u | 0 <= u < unitLimit
        ensures st'.texUnits[u].refCnt == RefCount(st'.active, st'.slotTexUnits, u)
      {
        RefCountUpdate(st.active, st.slotTexUnits, slot, true, unit, u);
      }
      if !HoldsTexture(st.texUnits[unit], texIndex) {
        assert forall i :: 0 <= i < unitLimit ==> !HoldsTexture(st.texUnits[i], texIndex);
      }
    }
  }

  /** Releasing an active slot keeps the invariant. */
  lemma ReleasePreservesInv(st: BatchState, slotCnt: nat, unitLimit: nat, slot: nat)
    requires Inv(st, slotCnt, unitLimit) && slot < slotCnt && st.active[slot]
    ensures Inv(Release(st, slot), slotCnt, unitLimit)
  {
    var st' := Release(st, slot);
    var unit := st.slotTexUnits[slot];
    forall u | 0 <= u < unitLimit
      ensures st'.texUnits[u].refCnt == RefCount(st'.active, st'.slotTexUnits, u)
    {
      RefCountUpdate(st.active, st.slotTexUnits, slot, false, unit, u);
      assert st'.slotTexUnits == st.slotTexUnits[slot := unit];
    }
  }

  /** Releasing a slot that is not active is not allowed: on a fresh batch of
      eight slots it drives unit 0's count to -1 and breaks the invariant. */
  lemma ReleaseInactiveBreaksCount()
    ensures Release(EmptyBatch(8, 1), 0).texUnits[0].refCnt == -1
    ensures !Inv(Release(EmptyBatch(8, 1), 0), 8, 1)
  {
  }

  /** A request for a texture that a unit in use already holds reuses that
      unit, even when a free unit exists (lower-numbered or not). */
  lemma TakeReusesUnitInUse(st: BatchState, slotCnt: nat, unitLimit: nat, texIndex: int, u: nat)
    requires Inv(st, slotCnt, unitLimit)
    requires u < unitLimit && HoldsTexture(st.texUnits[u], texIndex)
    requires exists s :: 0 <= s < slotCnt && !st.active[s]
    ensures Take(st, texIndex).1 != -1
    ensures Take(st, texIndex).0.slotTexUnits[Take(st, texIndex).1] == u
    ensures Take(st, texIndex).0.texUnits[u].refCnt == st.texUnits[u].refCnt + 1
  {
    var unit := FindTexUnit(st.texUnits, texIndex);
    assert 0 <= unit && HoldsTexture(st.texUnits[unit], texIndex);
  }

  /** When every unit is in use with some other texture, the batch refuses the
      request even though slots are free, and nothing changes. */
  lemma TakeSaturated(st: BatchState, slotCnt: nat, unitLimit: nat, texIndex: int)
    requires Inv(st, slotCnt, unitLimit)
    requires forall u :: 0 <= u < unitLimit ==> !IsFree(st.texUnits[u]) && st.texUnits[u].texIndex != texIndex
    ensures Take(st, texIndex) == (st, -1)
  {
    var unit := FindTexUnit(st.texUnits, texIndex);
    assert forall i :: 0 <= i < unitLimit ==> !HoldsTexture(st.texUnits[i], texIndex);
  }

  /** A successful take uses the lowest inactive slot (so no two active slots
      share an index) and binds it to a unit that now holds the texture. */
  lemma TakeUsesLowestFreeSlot(st: BatchState, slotCnt: nat, unitLimit: nat, texIndex: int)
    requires Inv(st, slotCnt, unitLimit)
    requires Take(st, texIndex).1 != -1
    ensures var (st', slot) := Take(st, texIndex);
      && 0 <= slot < slotCnt && !st.active[slot] && st'.active[slot]
      && (forall s :: 0 <= s < slot ==> st.active[s])
      && st'.texUnits[st'.slotTexUnits[slot]].texIndex == texIndex
      && st'.texUnits[st'.slotTexUnits[slot]].refCnt >= 1
  {
    TakePreservesInv(st, slotCnt, unitLimit, texIndex);
    var (st', slot) := Take(st, texIndex);
    ActiveSlotUnitInUse(st', slotCnt, unitLimit, slot);
  }

  /** A fresh batch with at least one slot always accepts a request, on slot 0
      and unit 0. */
  lemma TakeFromEmptyBatch(slotCnt: nat, unitLimit: nat, texIndex: int)
    requires slotCnt >= 1 && unitLimit >= 1
    ensures Take(EmptyBatch(slotCnt, unitLimit), texIndex).1 == 0
    ensures Take(EmptyBatch(slotCnt, unitLimit), texIndex).0.slotTexUnits[0] == 0
    ensures Take(EmptyBatch(slotCnt, unitLimit), texIndex).0.texUnits[0] == SpriteBatchTexUnitInfo(texIndex, 1)
  {
    var st := EmptyBatch(slotCnt, unitLimit);
    assert !st.active[0];
    assert IsFree(st.texUnits[0]);
    assert FindTexUnit(st.texUnits, texIndex) == 0;
  }

  /** Releasing the only user of a unit frees the unit, and the freed slot and
      unit let any texture be taken afterwards. */
  lemma ReleaseLastUserFreesUnit(st: BatchState, slotCnt: nat, unitLimit: nat, slot: nat, texIndex: int)
    requires Inv(st, slotCnt, unitLimit) && slot < slotCnt && st.active[slot]
    requires st.texUnits[st.slotTexUnits[slot]].refCnt == 1
    ensures IsFree(Release(st, slot).texUnits[st.slotTexUnits[slot]])
    ensures Take(Release(st, slot), texIndex).1 != -1
  {
    var st' := Release(st, slot);
    var unit := st.slotTexUnits[slot];
    assert !st'.active[slot];
    assert IsFree(st'.texUnits[unit]);
  }

  lemma {:induction false} ImageBound(units: seq<SpriteBatchTexUnitInfo>, n: nat)
    requires n <= |units|
    ensures |set u | 0 <= u < n :: units[u].texIndex| <= n
  {
    if n > 0 {
      ImageBound(units, n - 1);
      assert (set u | 0 <= u < n :: units[u].texIndex)
          == (set u | 0 <= u < n - 1 :: units[u].texIndex) + {units[n - 1].texIndex};
    }
  }

  /** The textures used by the active slots of a batch are the textures of
      units in use, so there are at most `unitLimit` of them. */
  lemma ActiveTexturesBounded(st: BatchState, slotCnt: nat, unitLimit: nat)
    requires Inv(st, slotCnt, unitLimit)
    ensures (set s | 0 <= s < slotCnt && st.active[s] :: st.texUnits[st.slotTexUnits[s]].texIndex)
         <= (set u | 0 <= u < unitLimit && !IsFree(st.texUnits[u]) :: st.texUnits[u].texIndex)
    ensures |set s | 0 <= s < slotCnt && st.active[s] :: st.texUnits[st.slotTexUnits[s]].texIndex| <= unitLimit
  {
    var used := set s | 0 <= s < slotCnt && st.active[s] :: st.texUnits[st.slotTexUnits[s]].texIndex;
    var live := set u | 0 <= u < unitLimit && !IsFree(st.texUnits[u]) :: st.texUnits[u].texIndex;
    var all := set u | 0 <= u < unitLimit :: st.texUnits[u].texIndex;
    forall t | t in used ensures t in live {
      var s :| 0 <= s < slotCnt && st.active[s] && st.texUnits[st.slotTexUnits[s]].texIndex == t;
      ActiveSlotUnitInUse(st, slotCnt, unitLimit, s);
    }
    assert live <= all;
    ImageBound(st.texUnits, unitLimit);
    SubsetCardinality(used, all);
  }

  lemma {:induction false} SubsetCardinality<T>(a: set<T>, b: set<T>)
    requires a <= b
    ensures |a| <= |b|
    decreases |b|
  {
    if a != {} {
      var x :| x in a;
      SubsetCardinality(a - {x}, b - {x});
    }
  }

  /** A worked sequence on a batch of 8 slots and 2 units: it takes texture 5
      (slot 0, unit 0), texture 7 (slot 1, unit 1), texture 5 again (slot 2,
      unit 0 now counting 2), and refuses texture 9 with five slots still
      free. `AfterTakes(n)` is the batch after the first `n` takes. */
  function AfterTakes(n: nat): (st: BatchState)
    requires 1 <= n <= 3
    ensures |st.active| == |st.slotTexUnits| == 8 && |st.texUnits| == 2
  {
    var f, t := false, true;
    if n == 1 then
      BatchState([t, f, f, f, f, f, f, f], [0, 0, 0, 0, 0, 0, 0, 0],
                 [SpriteBatchTexUnitInfo(5, 1), SpriteBatchTexUnitInfo(0, 0)])
    else if n == 2 then
      BatchState([t, t, f, f, f, f, f, f], [0, 1, 0, 0, 0, 0, 0, 0],
                 [SpriteBatchTexUnitInfo(5, 1), SpriteBatchTexUnitInfo(7, 1)])
    else
      BatchState([t, t, t, f, f, f, f, f], [0, 1, 0, 0, 0, 0, 0, 0],
                 [SpriteBatchTexUnitInfo(5, 2), SpriteBatchTexUnitInfo(7, 1)])
  }

  /** The first inactive bit is the one before which all bits are set. */
  lemma FirstInactiveAt(bits: seq<bool>, k: nat)
    requires k < |bits| && !bits[k] && forall j :: 0 <= j < k ==> bits[j]
    ensures FirstInactive(bits) == k
  {
  }

  lemma TakeFirst()
    ensures Take(EmptyBatch(8, 2), 5) == (AfterTakes(1), 0)
  {
    TakeFromEmptyBatch(8, 2, 5);
    var b, b' := EmptyBatch(8, 2), AfterTakes(1);
    assert b.active[0 := true] == b'.active;
    assert b.slotTexUnits[0 := 0] == b'.slotTexUnits;
    assert b.texUnits[0 := SpriteBatchTexUnitInfo(5, 1)] == b'.texUnits;
  }

  lemma TakeSecond()
    ensures Take(AfterTakes(1), 7) == (AfterTakes(2), 1)
  {
    var b, b' := AfterTakes(1), AfterTakes(2);
    FirstInactiveAt(b.active, 1);
    assert b.active[1 := true] == b'.active;
    assert b.slotTexUnits[1 := 1] == b'.slotTexUnits;
    assert b.texUnits[1 := SpriteBatchTexUnitInfo(7, 1)] == b'.texUnits;
    assert FindTexUnit(b.texUnits, 7) == 1 by {
      assert !HoldsTexture(b.texUnits[0], 7) && !HoldsTexture(b.texUnits[1], 7);
      assert IsFree(b.texUnits[1]);
    }
  }

  lemma TakeThird()
    ensures Take(AfterTakes(2), 5) == (AfterTakes(3), 2)
  {
    var b, b' := AfterTakes(2), AfterTakes(3);
    FirstInactiveAt(b.active, 2);
    assert b.active[2 := true] == b'.active;
    assert b.slotTexUnits[2 := 0] == b'.slotTexUnits;
    assert b.texUnits[0 := SpriteBatchTexUnitInfo(5, 2)] == b'.texUnits;
    assert FindTexUnit(b.texUnits, 5) == 0 by {
      assert HoldsTexture(b.texUnits[0], 5);
    }
  }

  lemma TakeFourthRefused()
    ensures Take(AfterTakes(3), 9) == (AfterTakes(3), -1)
  {
    var b := AfterTakes(3);
    FirstInactiveAt(b.active, 3);
    assert FindTexUnit(b.texUnits, 9) == -1 by {
      assert !HoldsTexture(b.texUnits[0], 9) && !HoldsTexture(b.texUnits[1], 9);
      assert !IsFree(b.texUnits[0]) && !IsFree(b.texUnits[1]);
    }
  }

  function QuadIndices(i: nat): seq<int>
  {
    [(4 * i) % UShortRange, (4 * i + 1) % UShortRange, (4 * i + 2) % UShortRange,
     (4 * i + 2) % UShortRange, (4 * i + 3) % UShortRange, (4 * i) % UShortRange]
  }

  /** The element buffer of a batch of `slotCnt` slots. */
  function IndexBuffer(slotCnt: nat): (r: seq<int>)
    ensures |r| == 6 * slotCnt
  {
    if slotCnt == 0 then [] else IndexBuffer(slotCnt - 1) + QuadIndices(slotCnt - 1)
  }

  /** Corner of the quad that element `c` of a slot's six refers to. */
  function QuadCorner(c: nat): nat
    requires c < 6
  {
    [0, 1, 2, 2, 3, 0][c]
  }

  /** Without truncation (at most 16384 slots, so in particular within
      `SpriteBatchSlotLimit`), element `6i + c` is vertex `4i + corner(c)`: it
      lies below `4 * slotCnt` and refers to slot `i`'s vertices only. */
  lemma {:induction false} IndexBufferRefersToOwnSlot(slotCnt: nat, i: nat, c: nat)
    requires 4 * slotCnt <= UShortRange && i < slotCnt && c < 6
    ensures 6 * i + c < |IndexBuffer(slotCnt)|
    ensures IndexBuffer(slotCnt)[6 * i + c] == 4 * i + QuadCorner(c)
    ensures 4 * i <= IndexBuffer(slotCnt)[6 * i + c] < 4 * i + 4 <= 4 * slotCnt
  {
    var n := slotCnt - 1;
    if i < n {
      IndexBufferRefersToOwnSlot(n, i, c);
      assert IndexBuffer(slotCnt)[6 * i + c] == IndexBuffer(n)[6 * i + c];
    } else {
      assert IndexBuffer(slotCnt)[6 * i + c] == QuadIndices(n)[c];
      QuadIndicesNoWrap(n, c);
    }
  }

  /** Below the `unsigned short` range, a quad's indices are its four vertex
      numbers, unreduced. */
  lemma QuadIndicesNoWrap(i: nat, c: nat)
    requires 4 * i + 4 <= UShortRange && c < 6
    ensures QuadIndices(i)[c] == 4 * i + QuadCorner(c)
  {
    var v := 4 * i + QuadCorner(c);
    assert 0 <= v < UShortRange;
    assert v % UShortRange == v;
  }

  // ---------------------------------------------------------------------------
  // The batch object

  /** The unit table as records, from the two parallel arrays. */
  function TexUnitsOf(texIndexes: seq<int>, refCnts: seq<int>): (r: seq<SpriteBatchTexUnitInfo>)
    requires |texIndexes| == |refCnts|
    ensures |r| == |texIndexes|
    ensures forall u :: 0 <= u < |r| ==> r[u] == SpriteBatchTexUnitInfo(texIndexes[u], refCnts[u])
  {
    seq(|texIndexes|, u requires 0 <= u < |texIndexes| => SpriteBatchTexUnitInfo(texIndexes[u], refCnts[u]))
  }

  /** Whether float `k` of the vertex buffer belongs to slot `slot`. */
  predicate InSlotRange(slot: int, k: int)
  {
    QuadFloatCnt * slot <= k < QuadFloatCnt * slot + QuadFloatCnt
  }

  class SpriteBatch {
    const slotCnt: int
    const unitLimit: int
    const slotActivity: HeapBitset
    const slotTexUnits: array<int>
    const texUnitTexIndexes: array<int>
    const texUnitRefCnts: array<int>
    /** The GPU vertex buffer, `QuadFloatCnt` floats per slot. */
    const verts: array<real>
    /** The GPU element buffer, uploaded once. */
    const indices: seq<int>
    ghost const Repr: set<object>

    ghost predicate Wf()
      reads this, Repr
    {
      && this in Repr && slotActivity in Repr && slotActivity.bytes in Repr
      && slotTexUnits in Repr && texUnitTexIndexes in Repr && texUnitRefCnts in Repr && verts in Repr
      && slotTexUnits != texUnitTexIndexes && slotTexUnits != texUnitRefCnts
      && texUnitTexIndexes != texUnitRefCnts
      && slotActivity.bytes as object !in {slotTexUnits, texUnitTexIndexes, texUnitRefCnts, verts}
      && 0 <= slotCnt && slotCnt % 8 == 0 && 1 <= unitLimit <= TexUnitLimitCap
      && slotActivity.Valid() && 8 * slotActivity.bytes.Length == slotCnt && slotActivity.bitCnt == slotCnt
      && slotTexUnits.Length == slotCnt
      && texUnitTexIndexes.Length == unitLimit && texUnitRefCnts.Length == unitLimit
      && verts.Length == QuadFloatCnt * slotCnt
    }

    ghost function State(): (st: BatchState)
      reads this, Repr
      requires Wf()
    {
      BatchState(slotActivity.Active(), slotTexUnits[..],
                 TexUnitsOf(texUnitTexIndexes[..], texUnitRefCnts[..]))
    }

    ghost predicate Valid()
      reads this, Repr
    {
      Wf() && Inv(State(), slotCnt, unitLimit)
    }

    /** Nothing the batch owns changed, so neither did its state. */
    twostate lemma Unaffected()
      requires old(Valid()) && unchanged(Repr)
      ensures Valid() && State() == old(State())
    {
    }

    /** The constructor: a zeroed bitset of `slotCnt / 8` bytes, all units free,
        a zeroed vertex buffer and the element buffer of `IndexBuffer`. */
    constructor (slotCnt: int, unitLimit: int)
      requires slotCnt >= 0 && slotCnt % 8 == 0
      requires 1 <= unitLimit <= TexUnitLimitCap
      ensures Valid() && fresh(Repr)
      ensures this.slotCnt == slotCnt && this.unitLimit == unitLimit
      ensures State() == EmptyBatch(slotCnt, unitLimit)
      ensures forall k :: 0 <= k < verts.Length ==> verts[k] == 0.0
      ensures indices == IndexBuffer(slotCnt)
    {
      var idx := BuildIndexBuffer(slotCnt);
      var bits := new HeapBitset(slotCnt / 8);
      var slotUnits := new int[slotCnt](_ => 0);
      var texIndexes := new int[unitLimit](_ => 0);
      var refCnts := new int[unitLimit](_ => 0);
      var vs := new real[QuadFloatCnt * slotCnt](_ => 0.0);
      this.slotCnt := slotCnt;
      this.unitLimit := unitLimit;
      slotActivity := bits;
      slotTexUnits := slotUnits;
      texUnitTexIndexes := texIndexes;
      texUnitRefCnts := refCnts;
      verts := vs;
      indices := idx;
      Repr := {this, bits, bits.bytes, slotUnits, texIndexes, refCnts, vs};
      new;
      EmptyBatchInv(slotCnt, unitLimit);
      assert slotActivity.Active() == EmptyBatch(slotCnt, unitLimit).active;
      assert slotTexUnits[..] == EmptyBatch(slotCnt, unitLimit).slotTexUnits;
      assert TexUnitsOf(texUnitTexIndexes[..], texUnitRefCnts[..]) == EmptyBatch(slotCnt, unitLimit).texUnits;
    }

    /** The constructor's index loop: six element indices per slot, written
        into a scratch array that is then uploaded. */
    static method BuildIndexBuffer(slotCnt: nat) returns (indices: seq<int>)
      ensures indices == IndexBuffer(slotCnt)
    {
      var idx := new int[6 * slotCnt];
      var i := 0;
      while i < slotCnt
        invariant 0 <= i <= slotCnt
        invariant idx[..6 * i] == IndexBuffer(i)
      {
        // 4i, 4i+1, 4i+2, 4i+2, 4i+3, 4i, each as an unsigned short
        var quad := QuadIndices(i);
        forall c | 0 <= c < 6 {
          idx[6 * i + c] := quad[c];
        }
        assert idx[..6 * i + 6] == idx[..6 * i] + quad;
        i := i + 1;
      }
      assert idx[..] == idx[..6 * slotCnt];
      indices := idx[..];
    }

    /** `find_tex_unit_to_use`: a read-only scan that remembers the first free
        unit and returns early on a unit in use with the requested texture. */
    method FindTexUnitToUse(texIndex: int) returns (r: int)
      requires Wf()
      ensures r == FindTexUnit(State().texUnits, texIndex)
    {
      var units := State().texUnits;
      var freeTexUnit := -1;
      var i := 0;
      while i < unitLimit
        invariant 0 <= i <= unitLimit
        invariant forall j :: 0 <= j < i ==> !HoldsTexture(units[j], texIndex)
        invariant freeTexUnit == -1 ==> forall j :: 0 <= j < i ==> !IsFree(units[j])
        invariant freeTexUnit != -1 ==>
                    0 <= freeTexUnit < i && IsFree(units[freeTexUnit])
                    && forall j :: 0 <= j < freeTexUnit ==> !IsFree(units[j])
      {
        if texUnitRefCnts[i] == 0 {
          if freeTexUnit == -1 {
            freeTexUnit := i;
          }
        } else if texUnitTexIndexes[i] == texIndex {
          return i;
        }
        i := i + 1;
      }
      return freeTexUnit;
    }

    /** `take_any_slot`. */
    method TakeAnySlot(texIndex: int) returns (r: int)
      requires Valid()
      modifies slotActivity.bytes, slotTexUnits, texUnitTexIndexes, texUnitRefCnts
      ensures Valid()
      ensures (State(), r) == Take(old(State()), texIndex)
      ensures unchanged(verts)
    {
      ghost var st := State();
      var full := slotActivity.IsFull();
      if full {
        assert Take(st, texIndex) == (st, -1) by {
          assert FirstInactive(st.active) == -1;
        }
        Unaffected();
        return -1;
      }
      var texUnit := FindTexUnitToUse(texIndex);
      if texUnit == -1 {
        assert Take(st, texIndex) == (st, -1);
        Unaffected();
        return -1;
      }
      var slotIndex := slotActivity.FirstInactiveBitIndex();
      assert slotIndex == FirstInactive(st.active) by {
        assert slotActivity.Active()[..slotCnt] == st.active;
      }
      TakePreservesInv(st, slotCnt, unitLimit, texIndex);
      assert Take(st, texIndex) == (Bind(st, slotIndex, texUnit, texIndex), slotIndex);
      BindSlot(slotIndex, texUnit, texIndex);
      return slotIndex;
    }

    /** The bookkeeping half of `take_any_slot` once a slot and a unit are
        chosen: activate the slot, count it on the unit, bind the unit to the
        texture and map the slot to the unit. */
    method BindSlot(slotIndex: int, texUnit: int, texIndex: int)
      requires Wf() && 0 <= slotIndex < slotCnt && 0 <= texUnit < unitLimit
      modifies slotActivity.bytes, slotTexUnits, texUnitTexIndexes, texUnitRefCnts
      ensures Wf()
      ensures State() == Bind(old(State()), slotIndex, texUnit, texIndex)
    {
      ghost var st := State();
      slotActivity.ActivateBit(slotIndex);
      texUnitRefCnts[texUnit] := texUnitRefCnts[texUnit] + 1;
      texUnitTexIndexes[texUnit] := texIndex;
      slotTexUnits[slotIndex] := texUnit;
      assert slotTexUnits[..] == st.slotTexUnits[slotIndex := texUnit];
      assert TexUnitsOf(texUnitTexIndexes[..], texUnitRefCnts[..])
          == st.texUnits[texUnit := SpriteBatchTexUnitInfo(texIndex, st.texUnits[texUnit].refCnt + 1)];
    }

    /** `clear_slot`: zero the slot's floats of the vertex buffer. */
    method ClearSlot(slotIndex: int)
      requires Wf() && 0 <= slotIndex < slotCnt
      modifies verts
      ensures forall k :: 0 <= k < verts.Length ==>
                verts[k] == if InSlotRange(slotIndex, k) then 0.0 else old(verts[k])
    {
      forall k | QuadFloatCnt * slotIndex <= k < QuadFloatCnt * slotIndex + QuadFloatCnt {
        verts[k] := 0.0;
      }
    }

    /** `write_to_slot`: the quad's floats (computed by the caller from
        position, source rectangle, origin, rotation, scale and alpha) are
        stored at the slot's range, with each vertex's texture-selector float
        set to the slot's unit. */
    method WriteToSlot(slotIndex: int, quad: seq<real>)
      requires Wf() && 0 <= slotIndex < slotCnt && |quad| == QuadFloatCnt
      requires 0 <= slotTexUnits[slotIndex] < unitLimit
      modifies verts
      ensures forall k :: 0 <= k < verts.Length && !InSlotRange(slotIndex, k) ==> verts[k] == old(verts[k])
      ensures forall k :: 0 <= k < QuadFloatCnt ==>
                verts[QuadFloatCnt * slotIndex + k]
                == if k % SpriteQuadVertAttrCnt == TexUnitAttr then slotTexUnits[slotIndex] as real else quad[k]
    {
      var texUnit := slotTexUnits[slotIndex];
      forall k | 0 <= k < QuadFloatCnt {
        verts[QuadFloatCnt * slotIndex + k] :=
          if k % SpriteQuadVertAttrCnt == TexUnitAttr then texUnit as real else quad[k];
      }
    }

    /** `release_slot`: the slot must be active, which `release_slot` does not check. */
    method ReleaseSlot(slotIndex: int)
      requires Valid() && 0 <= slotIndex < slotCnt && State().active[slotIndex]
      modifies slotActivity.bytes, texUnitRefCnts, verts
      ensures Valid()
      ensures State() == Release(old(State()), slotIndex)
      ensures forall k :: 0 <= k < verts.Length ==>
                verts[k] == if InSlotRange(slotIndex, k) then 0.0 else old(verts[k])
    {
      ghost var st := State();
      var texUnit := slotTexUnits[slotIndex];
      ghost var units' := st.texUnits[texUnit := st.texUnits[texUnit].(refCnt := st.texUnits[texUnit].refCnt - 1)];
      texUnitRefCnts[texUnit] := texUnitRefCnts[texUnit] - 1;
      assert slotActivity.Active() == st.active;
      slotActivity.DeactivateBit(slotIndex);
      assert TexUnitsOf(texUnitTexIndexes[..], texUnitRefCnts[..]) == units';
      ReleasePreservesInv(st, slotCnt, unitLimit, slotIndex);
      ClearSlot(slotIndex);
    }
  }
}
