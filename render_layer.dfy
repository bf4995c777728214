/**
 Render layers and the renderer's slot request. A layer owns a growing list of
 sprite batches of one default size; a request for a slot with a texture is
 offered to each batch in order and, only when every batch refuses, a new batch
 is appended and asked instead. The renderer picks the layer by name.
 */
module RenderLayers {
  import opened Bitsets
  import opened GraphicsLayout
  import opened SpriteBatches

  /** The layer take from batch `i` onwards: the first batch that accepts wins;
      past the end, the new batch `empty` is appended and asked. Returns the
      new batch states, the batch index and the slot index. */
  function LayerTakeFrom(states: seq<BatchState>, texIndex: int, empty: BatchState, i: nat): (seq<BatchState>, int, int)
    requires i <= |states| && |empty.slotTexUnits| == |empty.active|
    requires forall j :: 0 <= j < |states| ==> |states[j].slotTexUnits| == |states[j].active|
    decreases |states| - i
  {
    if i == |states| then
      var (b, s) := Take(empty, texIndex);
      (states + [b], |states|, s)
    else
      var (b, s) := Take(states[i], texIndex);
      if s != -1 then (states[i := b], i, s)
      else LayerTakeFrom(states, texIndex, empty, i + 1)
  }

  /** `RenderLayer::take_any_sprite_batch_slot`. */
  function LayerTake(states: seq<BatchState>, texIndex: int, empty: BatchState): (seq<BatchState>, int, int)
    requires |empty.slotTexUnits| == |empty.active|
    requires forall j :: 0 <= j < |states| ==> |states[j].slotTexUnits| == |states[j].active|
  {
    LayerTakeFrom(states, texIndex, empty, 0)
  }

  /** The batch chosen by the layer take is the first, from `i` on, that
      accepts: every batch before it refused and is unchanged; only the chosen
      batch changes, as `Take` says; and when none accepts, exactly one batch
      (the new one after its take) is appended. */
  lemma {:induction false} LayerTakeFromFirstSuccess(states: seq<BatchState>, texIndex: int, empty: BatchState, i: nat)
    requires i <= |states| && |empty.slotTexUnits| == |empty.active|
    requires forall j :: 0 <= j < |states| ==> |states[j].slotTexUnits| == |states[j].active|
    ensures var (states', b, s) := LayerTakeFrom(states, texIndex, empty, i);
      && i <= b <= |states|
      && (forall j :: i <= j < b ==> Take(states[j], texIndex).1 == -1)
      && (b < |states| ==>
            s != -1 && states' == states[b := Take(states[b], texIndex).0] && s == Take(states[b], texIndex).1)
      && (b == |states| ==>
            states' == states + [Take(empty, texIndex).0] && s == Take(empty, texIndex).1)
    decreases |states| - i
  {
    if i < |states| && Take(states[i], texIndex).1 == -1 {
      LayerTakeFromFirstSuccess(states, texIndex, empty, i + 1);
    }
  }

  /** The layer never grows by more than one batch per request, and grows
      exactly when every existing batch refuses. */
  lemma LayerTakeGrowth(states: seq<BatchState>, texIndex: int, empty: BatchState)
    requires |empty.slotTexUnits| == |empty.active|
    requires forall j :: 0 <= j < |states| ==> |states[j].slotTexUnits| == |states[j].active|
    ensures var (states', b, s) := LayerTake(states, texIndex, empty);
      && |states'| == (if forall j :: 0 <= j < |states| ==> Take(states[j], texIndex).1 == -1
                       then |states| + 1 else |states|)
      && |states| <= |states'|
      && states'[..|states|] == (if 0 <= b < |states| then states[b := Take(states[b], texIndex).0] else states)
  {
    LayerTakeFromFirstSuccess(states, texIndex, empty, 0);
  }

  /** When every batch refuses and the new batch has slots, the request
      lands on slot 0 of a new batch at index `|states|`. */
  lemma LayerTakeAppendsFreshBatch(states: seq<BatchState>, texIndex: int, slotCnt: nat, unitLimit: nat)
    requires slotCnt >= 1 && unitLimit >= 1
    requires forall j :: 0 <= j < |states| ==> |states[j].slotTexUnits| == |states[j].active|
    requires forall j :: 0 <= j < |states| ==> Take(states[j], texIndex).1 == -1
    ensures LayerTake(states, texIndex, EmptyBatch(slotCnt, unitLimit)).1 == |states|
    ensures LayerTake(states, texIndex, EmptyBatch(slotCnt, unitLimit)).2 == 0
    ensures |LayerTake(states, texIndex, EmptyBatch(slotCnt, unitLimit)).0| == |states| + 1
  {
    LayerTakeFromFirstSuccess(states, texIndex, EmptyBatch(slotCnt, unitLimit), 0);
    TakeFromEmptyBatch(slotCnt, unitLimit, texIndex);
  }

  /** The layer take keeps every batch's invariant. */
  lemma LayerTakePreservesInv(states: seq<BatchState>, texIndex: int, slotCnt: nat, unitLimit: nat)
    requires unitLimit >= 1
    requires forall j :: 0 <= j < |states| ==> Inv(states[j], slotCnt, unitLimit)
    requires forall j :: 0 <= j < |states| ==> |states[j].slotTexUnits| == |states[j].active|
    ensures forall j :: 0 <= j < |LayerTake(states, texIndex, EmptyBatch(slotCnt, unitLimit)).0| ==>
              Inv(LayerTake(states, texIndex, EmptyBatch(slotCnt, unitLimit)).0[j], slotCnt, unitLimit)
  {
    var empty := EmptyBatch(slotCnt, unitLimit);
    LayerTakeFromFirstSuccess(states, texIndex, empty, 0);
    var (states', b, s) := LayerTake(states, texIndex, empty);
    if b < |states| {
      TakePreservesInv(states[b], slotCnt, unitLimit, texIndex);
    } else {
      EmptyBatchInv(slotCnt, unitLimit);
      TakePreservesInv(empty, slotCnt, unitLimit, texIndex);
    }
  }

  class RenderLayer {
    const defaultSlotCnt: int
    const unitLimit: int
    var spriteBatches: seq<SpriteBatch>
    ghost var Repr: set<object>

    ghost predicate Valid()
      reads this, Repr
    {
      && this in Repr
      && defaultSlotCnt >= 0 && defaultSlotCnt % 8 == 0 && 1 <= unitLimit <= TexUnitLimitCap
      && (forall i :: 0 <= i < |spriteBatches| ==>
            && spriteBatches[i] in Repr && spriteBatches[i].Repr <= Repr && this !in spriteBatches[i].Repr
            && spriteBatches[i].Valid()
            && spriteBatches[i].slotCnt == defaultSlotCnt && spriteBatches[i].unitLimit == unitLimit)
      && (forall i, j :: 0 <= i < j < |spriteBatches| ==> spriteBatches[i].Repr !! spriteBatches[j].Repr)
    }

    ghost function States(): (r: seq<BatchState>)
      reads this, Repr
      requires Valid()
      ensures |r| == |spriteBatches|
      ensures forall i :: 0 <= i < |r| ==> |r[i].slotTexUnits| == |r[i].active|
    {
      seq(|spriteBatches|, i reads this, Repr requires 0 <= i < |spriteBatches| && Valid() =>
        spriteBatches[i].State())
    }

    /** A layer with no batches yet. */
    constructor (defaultSlotCnt: int, unitLimit: int)
      requires defaultSlotCnt >= 0 && defaultSlotCnt % 8 == 0 && 1 <= unitLimit <= TexUnitLimitCap
      ensures Valid() && fresh(Repr) && States() == []
      ensures this.defaultSlotCnt == defaultSlotCnt && this.unitLimit == unitLimit
    {
      this.defaultSlotCnt := defaultSlotCnt;
      this.unitLimit := unitLimit;
      spriteBatches := [];
      Repr := {this};
    }

    /** `RenderLayer::take_any_sprite_batch_slot`. */
    method TakeAnySpriteBatchSlot(texIndex: int) returns (batchIndex: int, slotIndex: int)
      requires Valid()
      modifies Repr
      ensures Valid() && fresh(Repr - old(Repr))
      ensures (States(), batchIndex, slotIndex)
           == LayerTake(old(States()), texIndex, EmptyBatch(defaultSlotCnt, unitLimit))
    {
      ghost var states := States();
      ghost var empty := EmptyBatch(defaultSlotCnt, unitLimit);
      var i := 0;
      while i < |spriteBatches|
        invariant 0 <= i <= |spriteBatches|
        invariant spriteBatches == old(spriteBatches) && Repr == old(Repr)
        invariant Valid() && States() == states
        invariant LayerTakeFrom(states, texIndex, empty, i) == LayerTake(states, texIndex, empty)
      {
        var taken := TakeFromBatch(texIndex, i);
        if taken != -1 {
          assert LayerTakeFrom(states, texIndex, empty, i) == (States(), i, taken);
          return i, taken;
        }
        assert States() == states;
        assert LayerTakeFrom(states, texIndex, empty, i) == LayerTakeFrom(states, texIndex, empty, i + 1);
        i := i + 1;
      }
      assert LayerTakeFrom(states, texIndex, empty, i)
          == (states + [Take(empty, texIndex).0], |states|, Take(empty, texIndex).1);
      batchIndex, slotIndex := AppendBatchAndTake(texIndex);
    }

    /** One step of the layer take: batch `i` is asked for a slot; the other
        batches are untouched. */
    method TakeFromBatch(texIndex: int, i: int) returns (taken: int)
      requires Valid() && 0 <= i < |spriteBatches|
      modifies Repr
      ensures spriteBatches == old(spriteBatches) && Repr == old(Repr) && Valid()
      ensures (States(), taken) == (old(States())[i := Take(old(States())[i], texIndex).0], Take(old(States())[i], texIndex).1)
    {
      ghost var states := States();
      label beforeTake:
      var batch := spriteBatches[i];
      taken := batch.TakeAnySlot(texIndex);
      forall j | 0 <= j < |spriteBatches|
        ensures spriteBatches[j].Valid()
        ensures spriteBatches[j].State() == states[i := batch.State()][j]
      {
        if j != i {
          assert spriteBatches[j].Repr !! batch.Repr;
          spriteBatches[j].Unaffected@beforeTake();
        }
      }
      assert Valid();
      assert States() == states[i := batch.State()];
    }

    /** The end of the layer take: a new batch of the default size is asked
        for the slot and appended whatever it answers. */
    method AppendBatchAndTake(texIndex: int) returns (batchIndex: int, slotIndex: int)
      requires Valid()
      modifies this
      ensures Valid() && fresh(Repr - old(Repr))
      ensures batchIndex == |old(spriteBatches)|
      ensures States() == old(States()) + [Take(EmptyBatch(defaultSlotCnt, unitLimit), texIndex).0]
      ensures slotIndex == Take(EmptyBatch(defaultSlotCnt, unitLimit), texIndex).1
    {
      label start:
      var newBatch := new SpriteBatch(defaultSlotCnt, unitLimit);
      slotIndex := newBatch.TakeAnySlot(texIndex);
      Unaffected@start();
      batchIndex := |spriteBatches|;
      PushBatch(newBatch);
    }

    /** Nothing the layer owns changed, so neither did its state. */
    twostate lemma Unaffected()
      requires old(Valid()) && unchanged(old(Repr))
      ensures Repr == old(Repr) && spriteBatches == old(spriteBatches)
      ensures Valid() && States() == old(States())
    {
      forall i | 0 <= i < |spriteBatches|
        ensures spriteBatches[i].Valid() && spriteBatches[i].State() == old(States())[i]
      {
        assert spriteBatches[i] in old(Repr);
        spriteBatches[i].Unaffected();
      }
    }

    /** Appends a batch that owns nothing of the layer's. */
    method PushBatch(batch: SpriteBatch)
      requires Valid() && batch.Valid() && batch.Repr !! Repr
      requires batch.slotCnt == defaultSlotCnt && batch.unitLimit == unitLimit
      modifies this
      ensures spriteBatches == old(spriteBatches) + [batch] && Repr == old(Repr) + batch.Repr
      ensures Valid() && States() == old(States()) + [batch.State()]
    {
      ghost var states := States();
      ghost var olds := spriteBatches;
      label beforeAppend:
      spriteBatches := spriteBatches + [batch];
      Repr := Repr + batch.Repr;
      var n := |spriteBatches|;
      forall i, j | 0 <= i < j < n
        ensures spriteBatches[i].Repr !! spriteBatches[j].Repr
      {
        if j < n - 1 {
          assert spriteBatches[i] == olds[i] && spriteBatches[j] == olds[j];
        }
      }
      forall i | 0 <= i < n
        ensures spriteBatches[i].Valid() && spriteBatches[i].State() == (states + [batch.State()])[i]
      {
        if i < n - 1 {
          assert spriteBatches[i] == olds[i];
          olds[i].Unaffected@beforeAppend();
        } else {
          batch.Unaffected@beforeAppend();
        }
      }
      assert Valid();
      assert States() == states + [batch.State()];
    }
  }

  class Renderer {
    var layers: seq<RenderLayer>
    var layerNamesToIndexes: map<string, int>
    var layersLocked: bool
    ghost var Repr: set<object>

    ghost predicate Valid()
      reads this, Repr
    {
      && this in Repr
      && (forall i :: 0 <= i < |layers| ==>
            layers[i] in Repr && layers[i].Repr <= Repr && this !in layers[i].Repr && layers[i].Valid())
      && (forall i, j :: 0 <= i < j < |layers| ==> layers[i].Repr !! layers[j].Repr)
      && (forall name :: name in layerNamesToIndexes ==> 0 <= layerNamesToIndexes[name] < |layers|)
    }

    /** The layer a name selects: an unknown name is entered into the map with
        index 0 and so selects the first layer. */
    function LayerIndex(name: string): (r: int)
      reads this
    {
      if name in layerNamesToIndexes then layerNamesToIndexes[name] else 0
    }

    /** `Renderer::take_any_sprite_batch_slot`: the layers must be locked, and
        an unknown name needs at least one layer to fall back on. */
    method TakeAnySpriteBatchSlot(layerName: string, texIndex: int) returns (key: SpriteBatchSlotKey)
      requires Valid() && layersLocked
      requires layerName in layerNamesToIndexes || |layers| > 0
      modifies this, Repr
      ensures Valid() && fresh(Repr - old(Repr))
      ensures layers == old(layers) && layersLocked
      ensures key.layerIndex == old(LayerIndex(layerName))
      ensures layerNamesToIndexes == old(layerNamesToIndexes)[layerName := key.layerIndex]
      ensures (layers[key.layerIndex].States(), key.batchIndex, key.slotIndex)
           == LayerTake(old(layers[key.layerIndex].States()), texIndex,
                        EmptyBatch(layers[key.layerIndex].defaultSlotCnt, layers[key.layerIndex].unitLimit))
      ensures forall j :: 0 <= j < |layers| && j != key.layerIndex ==>
                layers[j].States() == old(layers[j].States())
    {
      label start:
      var layerIndex := LayerIndex(layerName);
      layerNamesToIndexes := layerNamesToIndexes[layerName := layerIndex];
      LayersUnaffected@start();
      var batchIndex, slotIndex := TakeFromLayer(layerIndex, texIndex);
      key := SpriteBatchSlotKey(layerIndex, batchIndex, slotIndex);
    }

    /** Changing only the renderer's own fields changes no layer. */
    twostate lemma LayersUnaffected()
      requires old(Valid()) && layers == old(layers) && Repr == old(Repr)
      requires unchanged(old(Repr) - {this})
      ensures forall j :: 0 <= j < |layers| ==> layers[j].Valid() && layers[j].States() == old(layers[j].States())
    {
      forall j | 0 <= j < |layers|
        ensures layers[j].Valid() && layers[j].States() == old(layers[j].States())
      {
        layers[j].Unaffected();
      }
    }

    /** After a change to what layer `k` owns, which leaves layer `k` valid
        and adds only fresh objects to it, the renderer that takes those
        objects into its footprint is valid and no other layer changed. */
    twostate lemma LayerChangedAlone(k: int)
      requires old(Valid()) && 0 <= k < |layers|
      requires layers == old(layers) && layerNamesToIndexes == old(layerNamesToIndexes)
      requires unchanged(old(Repr) - old(layers[k].Repr) - {this})
      requires layers[k].Valid() && fresh(layers[k].Repr - old(layers[k].Repr))
      requires Repr == old(Repr) + layers[k].Repr
      ensures Valid()
      ensures forall j :: 0 <= j < |layers| && j != k ==> layers[j].States() == old(layers[j].States())
    {
      forall j | 0 <= j < |layers| && j != k
        ensures layers[j].Valid() && layers[j].States() == old(layers[j].States())
        ensures layers[j].Repr == old(layers[j].Repr) && layers[j].Repr !! layers[k].Repr
      {
        assert old(layers[j].Repr !! layers[k].Repr);
        layers[j].Unaffected();
      }
      forall i, j | 0 <= i < j < |layers|
        ensures layers[i].Repr !! layers[j].Repr
      {
        if i != k && j != k {
          assert old(layers[i].Repr !! layers[j].Repr);
        }
      }
    }

    /** The layer's take, and what it leaves of the other layers. */
    method TakeFromLayer(layerIndex: int, texIndex: int) returns (batchIndex: int, slotIndex: int)
      requires Valid() && 0 <= layerIndex < |layers|
      modifies Repr
      ensures Valid() && fresh(Repr - old(Repr))
      ensures layers == old(layers) && layerNamesToIndexes == old(layerNamesToIndexes)
      ensures layersLocked == old(layersLocked)
      ensures (layers[layerIndex].States(), batchIndex, slotIndex)
           == LayerTake(old(layers[layerIndex].States()), texIndex,
                        EmptyBatch(layers[layerIndex].defaultSlotCnt, layers[layerIndex].unitLimit))
      ensures forall j :: 0 <= j < |layers| && j != layerIndex ==>
                layers[j].States() == old(layers[j].States())
    {
      label beforeTake:
      var layer := layers[layerIndex];
      assert layer.Valid() && this !in layer.Repr && layer.Repr <= Repr;
      batchIndex, slotIndex := layer.TakeAnySpriteBatchSlot(texIndex);
      Repr := Repr + layer.Repr;
      LayerChangedAlone@beforeTake(layerIndex);
    }
  }
}
