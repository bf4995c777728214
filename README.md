# zfw2 core in Dafny

This project models the bookkeeping core of the zfw2 2D game framework and its asset packer. All drawing, audio playback, font rasterisation and window polling is delegated to OpenGL, OpenAL, FreeType or GLFW and stays outside the model. The core is the logic that decides where things go:

- **Sprite batches** (`sprite_batch.dfy`). A batch has a fixed number of sprite slots and a small table of texture units. Each unit holds a texture index and a reference count. `take_any_slot` gives a request the lowest free slot. The slot gets a unit that already holds the requested texture, or else the lowest free unit. `release_slot` hands the slot back.
  - The batch is a class over arrays. Its abstract state (`BatchState`) is specified by the pure functions `Take`, `Bind` and `Release`.
  - The invariant `Inv` says that:
    - every unit's count equals the number of active slots mapped to it;
    - no two live units hold the same texture.
- **Render layers** (`render_layer.dfy`). A layer offers a request to its batches in order. When every batch refuses, it appends one new batch of the layer's default size. The renderer selects the layer by name.
- **Bitset** (`bitset.dfy`). The byte-array bitset behind slot activity: set, clear, test, fill, clear-all, the first-inactive scan, `is_full`, `is_clear` and `resize`.
- **Flat tables and limits** (`layout.dfy`). These are the limit constants of `graphics.h`, the `SpriteBatchTexUnitInfo` record and the row-major accessors `batch * count + entry` of the struct-of-arrays render layer.
- **Memory arena** (`memory.dfy`). `MemArena`, a bump allocator with a one-step `rewind`.
- **Audio handle pools** (`audio.dfy`). Sound and music sources live in fixed arrays of slots. Each slot carries a version that is bumped on reuse, and handles (index, version) are checked against it. Sounds can be marked for automatic release once they stop.
- **Input edges** (`input.dfy`). The input manager keeps this frame's and last frame's button masks. It answers down, pressed and released queries for keys, mouse buttons and gamepad buttons.
- **Font atlas** (`fonts.dfy`). The asset packer's atlas builder:
  - it sizes the texture;
  - it places glyphs on shelves, wrapping to a new row at the size limit;
  - it stores the kerning table;
  - it writes each glyph's coverage into the alpha byte of a transparent-white RGBA texture.
- **Integer vectors** (`math.dfy`). `Vec2DInt` with its operators, including C++'s truncating division, and `Rect`.

Where a source operation updates memory in place, it is a method on a class. Each such method is proved to move the abstract state exactly as a pure specification function says. The properties the framework relies on are lemmas about those functions.

`graphics.h` and `graphics.cpp` come from different revisions. The header keeps a renderer's tables in flat struct-of-arrays form, while `graphics.cpp` uses one object per batch. The model follows `graphics.cpp` for the allocator and models the header's accessors on their own. Likewise, `utils.h` (`HeapBitset`) and `utils.cpp` (`DynamicBitset`) describe two revisions of the bitset. Both are modelled by one class, which has a constructor for each revision.

The file defining the texture-unit limit `gk_texUnitLimit` is not part of this model. Batches and layers take it as a construction parameter between 1 and `gk_texUnitLimitCap` (32). The float count per sprite vertex is taken as 11, from the attribute layout at `graphics.cpp:49-70`.

## Model

| member | source | states |
|---|---|---|
| Bitsets.FirstInactive | zfw2/src/utils.cpp:27-38 | -1 exactly when every bit is set; otherwise an index of an inactive bit with every lower bit active |
| Bitsets.MaskBit | zfw2/include/zfw2/utils.h:35-51 | or-ing in the mask of bit k sets bit k and no other; and-ing with its complement clears bit k and no other |
| Bitsets.ByteFullOrClear | zfw2/src/utils.cpp:40-64 | a byte is 0xFF exactly when all eight bits are set, and 0 exactly when none is |
| Bitsets.SetBitSpec | zfw2/include/zfw2/utils.h:35-39 | the byte update of `activate_bit(i)` makes bit i active and keeps every other bit |
| Bitsets.ClearBitSpec | zfw2/include/zfw2/utils.h:41-45 | the byte update of `deactivate_bit(i)` makes bit i inactive and keeps every other bit |
| Bitsets.AllBytesFullIff | zfw2/src/utils.cpp:40-51 | every byte is 0xFF if and only if every bit is active |
| Bitsets.AllBytesClearIff | zfw2/src/utils.cpp:53-64 | every byte is 0 if and only if no bit is active |
| Bitsets.FullIffNoInactive | zfw2/src/utils.cpp:27-51 | a full bitset has no inactive bit below its bit count; the converse holds when the bit count fills whole bytes |
| Bitsets.PartialByteNotFull | zfw2/src/utils.cpp:27-51 | with 3 bits in one byte 0x07 the scan finds no inactive bit, yet the byte is not 0xFF, so `is_full` says false |
| Bitsets.HeapBitset.constructor | zfw2/include/zfw2/utils.h:17-19 | value-initialised bytes: every byte 0 and every bit inactive |
| Bitsets.HeapBitset.FromBitCount | zfw2/src/utils.cpp:6-10 | requires a positive bit count; allocates the rounded-up byte count with every bit inactive |
| Bitsets.HeapBitset.IsBitActive | zfw2/include/zfw2/utils.h:47-51 | the mask test on byte i/8 is entry i of the abstract bit vector |
| Bitsets.HeapBitset.ActivateBit | zfw2/include/zfw2/utils.h:35-39 | the bit vector afterwards is the old one with bit i set, and bit i reads as active |
| Bitsets.HeapBitset.DeactivateBit | zfw2/include/zfw2/utils.h:41-45 | the bit vector afterwards is the old one with bit i cleared, and bit i reads as inactive |
| Bitsets.HeapBitset.Fill | zfw2/include/zfw2/utils.h:25-28 | every byte becomes 0xFF and every bit active |
| Bitsets.HeapBitset.Clear | zfw2/include/zfw2/utils.h:30-33 | every byte becomes 0 and every bit inactive |
| Bitsets.HeapBitset.Resize | zfw2/src/utils.cpp:12-25 | requires a positive bit count; always records it; fresh zeroed storage only when the byte count changes, otherwise the bytes are kept |
| Bitsets.HeapBitset.FirstInactiveBitIndex | zfw2/src/utils.cpp:27-38 | the scan returns the first inactive bit below the bit count, or -1 |
| Bitsets.HeapBitset.IsFull | zfw2/src/utils.cpp:40-51 | true exactly when every byte is 0xFF, that is, every bit is active |
| Bitsets.HeapBitset.IsClear | zfw2/src/utils.cpp:53-64 | true exactly when every byte is 0, that is, no bit is active |
| GraphicsLayout.FlatIndex | zfw2/include/zfw2/graphics.h:119-127 | the flat index of (row, entry) lies within its row's block of `innerCnt` entries |
| GraphicsLayout.FlatIndexInRange | zfw2/include/zfw2/graphics.h:119-127 | with the row and the entry in range, the flat index is below rows times entries |
| GraphicsLayout.FlatIndexRoundTrip | zfw2/include/zfw2/graphics.h:119-127 | division and remainder by the row length recover the row and the entry |
| GraphicsLayout.FlatIndexInjective | zfw2/include/zfw2/graphics.h:119-127 | distinct in-range (row, entry) pairs have distinct flat indices |
| GraphicsLayout.SlotEntriesIndependent | zfw2/include/zfw2/graphics.h:119-122 | writing one batch's slot entry leaves every other (batch, slot) entry as it was |
| GraphicsLayout.VertexNumbersFitUShort | zfw2/include/zfw2/graphics.h:21 | within the 1024-slot limit every vertex number of a batch fits an `unsigned short` |
| SpriteBatches.FindTexUnit | zfw2/src/graphics.cpp:263-286 | the lowest unit in use that holds the texture when there is one, even above a free unit; otherwise the lowest free unit; otherwise -1 |
| SpriteBatches.StaleFreeUnitIgnored | zfw2/src/graphics.cpp:269-276 | a free unit whose stale texture index equals the request is passed over in favour of the live unit holding it |
| SpriteBatches.EmptyBatchInv | zfw2/src/graphics.cpp:8-10 | a fresh batch, with no slot active and every unit free, satisfies the batch invariant |
| SpriteBatches.ActiveSlotUnitInUse | zfw2/src/graphics.cpp:171-176 | under the invariant, every active slot's unit has a positive count |
| SpriteBatches.TakePreservesInv | zfw2/src/graphics.cpp:151-179 | a take keeps the invariant: counts equal active users and live textures are distinct |
| SpriteBatches.ReleasePreservesInv | zfw2/src/graphics.cpp:181-192 | releasing an active slot keeps the invariant |
| SpriteBatches.ReleaseInactiveBreaksCount | zfw2/src/graphics.cpp:181-188 | releasing a slot that is not active drives a count to -1 and breaks the invariant |
| SpriteBatches.TakeReusesUnitInUse | zfw2/src/graphics.cpp:159-176 | a request for a texture a live unit holds succeeds when a slot is free, maps the slot to that unit and counts one more user |
| SpriteBatches.TakeSaturated | zfw2/src/graphics.cpp:159-165 | when every unit is live with another texture, the take fails with -1 and changes nothing |
| SpriteBatches.TakeUsesLowestFreeSlot | zfw2/src/graphics.cpp:167-178 | a successful take activates the lowest inactive slot and maps it to a unit that holds the requested texture and has at least one user |
| SpriteBatches.TakeFromEmptyBatch | zfw2/src/graphics.cpp:151-179 | a fresh batch gives a request slot 0 on unit 0 with count 1 |
| SpriteBatches.ReleaseLastUserFreesUnit | zfw2/src/graphics.cpp:181-188 | releasing a unit's only user frees the unit, and a following take succeeds |
| SpriteBatches.ActiveTexturesBounded | zfw2/src/graphics.cpp:171-188 | the textures drawn by active slots are those of live units, so there are at most unit-limit of them |
| SpriteBatches.TakeFirst | zfw2/src/graphics.cpp:151-179 | on 8 slots and 2 units, texture 5 gets slot 0 and unit 0 |
| SpriteBatches.TakeSecond | zfw2/src/graphics.cpp:151-179 | texture 7 then gets slot 1 and unit 1 |
| SpriteBatches.TakeThird | zfw2/src/graphics.cpp:151-179 | texture 5 again gets slot 2 and shares unit 0, whose count becomes 2 |
| SpriteBatches.TakeFourthRefused | zfw2/src/graphics.cpp:159-165 | texture 9 is refused with -1, both units being live, and the batch is unchanged |
| SpriteBatches.IndexBuffer | zfw2/src/graphics.cpp:32-43 | six element indices per slot |
| SpriteBatches.IndexBufferRefersToOwnSlot | zfw2/src/graphics.cpp:32-43 | element 6i+c is 4i plus the corner {0,1,2,2,3,0}[c], so it lies in slot i's four vertices and below 4 times the slot count |
| SpriteBatches.SpriteBatch.constructor | zfw2/src/graphics.cpp:8-43 | requires a slot count divisible by 8; the state is the empty batch, the vertex buffer is zeroed, and the indices are `IndexBuffer` |
| SpriteBatches.SpriteBatch.BuildIndexBuffer | zfw2/src/graphics.cpp:32-43 | the index loop produces exactly the index buffer |
| SpriteBatches.SpriteBatch.FindTexUnitToUse | zfw2/src/graphics.cpp:263-286 | the scan with its remembered first free unit returns `FindTexUnit` of the unit table |
| SpriteBatches.SpriteBatch.TakeAnySlot | zfw2/src/graphics.cpp:151-179 | the new state and the result are `Take` of the old state; the invariant holds; the vertex buffer is untouched |
| SpriteBatches.SpriteBatch.BindSlot | zfw2/src/graphics.cpp:170-176 | activates the slot, maps it to the unit, and binds the unit to the texture with one more user |
| SpriteBatches.SpriteBatch.ClearSlot | zfw2/src/graphics.cpp:254-261 | zeroes the slot's 44 floats and keeps every other float |
| SpriteBatches.SpriteBatch.WriteToSlot | zfw2/src/graphics.cpp:194-252 | writes the quad's 44 floats at the slot's range, with the texture-unit attribute of each vertex taken from the slot's unit, and keeps every other float |
| SpriteBatches.SpriteBatch.ReleaseSlot | zfw2/src/graphics.cpp:181-192 | for an active slot: the new state is `Release` of the old, the invariant holds, and the slot's floats are zero |
| RenderLayers.LayerTakeFromFirstSuccess | zfw2/src/graphics.cpp:296-315 | the chosen batch is the first that accepts and every batch before it refused; only it changes; with no taker, exactly the new batch is appended |
| RenderLayers.LayerTakeGrowth | zfw2/src/graphics.cpp:296-315 | the layer grows by one batch exactly when every existing batch refuses, and the existing batches change only at the chosen one |
| RenderLayers.LayerTakeAppendsFreshBatch | zfw2/src/graphics.cpp:310-314 | when every batch refuses, the request lands on slot 0 of a new batch whose index is the old batch count |
| RenderLayers.LayerTakePreservesInv | zfw2/src/graphics.cpp:296-315 | the layer take keeps every batch's invariant |
| RenderLayers.RenderLayer.constructor | zfw2/src/graphics.cpp:310-314 | requires a default slot count divisible by 8; a layer with no batches yet, keeping its default slot count and unit limit |
| RenderLayers.RenderLayer.TakeAnySpriteBatchSlot | zfw2/src/graphics.cpp:296-315 | the loop's new batch states and (batch, slot) are `LayerTake` of the old states |
| RenderLayers.RenderLayer.TakeFromBatch | zfw2/src/graphics.cpp:298-307 | asking batch i changes batch i as `Take` says and no other batch |
| RenderLayers.RenderLayer.AppendBatchAndTake | zfw2/src/graphics.cpp:310-314 | a new default-size batch is asked and appended whatever it answers; its index is the old count |
| RenderLayers.RenderLayer.PushBatch | zfw2/src/graphics.cpp:314 | appending a batch that shares nothing with the layer keeps the layer valid and appends its state |
| RenderLayers.Renderer.TakeAnySpriteBatchSlot | zfw2/src/graphics.cpp:328-336 | requires locked layers; an unknown name is entered with index 0; the selected layer does the layer take, and every other layer is unchanged |
| RenderLayers.Renderer.TakeFromLayer | zfw2/src/graphics.cpp:334 | the selected layer changes as `LayerTake` says, and every other layer keeps its states |
| Memory.Rewound | zfw2/include/zfw2/memory.h:38-43 | the offset goes back by exactly the last allocation's size and the rewind size is reset, so a second rewind is refused |
| Memory.AllocReturnsReservedBlock | zfw2/include/zfw2/memory.h:17-25 | the corrected allocation returns the start of the block, and the block ends at the new offset |
| Memory.SuccessiveBlocksDisjoint | zfw2/include/zfw2/memory.h:17-25 | two successive allocations return disjoint blocks, in order |
| Memory.AllocThenRewind | zfw2/include/zfw2/memory.h:17-43 | an allocation followed by a rewind restores the previous offset, and leaves no further rewind |
| Memory.AllocAsWrittenReturnsNextBlock | zfw2/include/zfw2/memory.h:22-24 | two allocations of 4 bytes on a fresh arena return offsets 4 and 8; the first is not the block reserved and the second extends past the reservation |
| Memory.AllocAsWrittenOutsideReservation | zfw2/include/zfw2/memory.h:22-24 | as written, `alloc` returns the new offset, which is the start of the block plus its size |
| Memory.MemArena.constructor | zfw2/include/zfw2/memory.h:13-15 | a buffer of the given size, with offset and rewind size 0 |
| Memory.MemArena.AllocAsWritten | zfw2/include/zfw2/memory.h:17-25 | requires cnt > 0; advances the offset by cnt times the element size, records it for rewind, returns the new offset |
| Memory.MemArena.Alloc | zfw2/include/zfw2/memory.h:17-25 | the same bookkeeping, returning the start of the block |
| Memory.MemArena.AllocAndClear | zfw2/include/zfw2/memory.h:27-35 | allocates and zeroes exactly the block's bytes, keeping every other byte |
| Memory.MemArena.Rewind | zfw2/include/zfw2/memory.h:38-43 | requires a pending allocation; moves the state as `Rewound` |
| Audio.CreateSound | zfw2/src/audio.cpp:57-73 | the handle names the lowest slot whose id is 0 and carries that slot's version plus one |
| Audio.AutoRelease | zfw2/src/audio.cpp:103-126 | one pass keeps the versions and the shape of the collection |
| Audio.EmptySoundInv | zfw2/src/audio.cpp:44-55 | the zeroed collection satisfies the pool invariant and has no slot marked |
| Audio.CreateSoundIssuesValidHandle | zfw2/src/audio.cpp:57-79 | creation keeps the invariant and issues a handle that release and play accept; the new slot holds the new id; other slots keep their ids and versions; every auto-release mark is kept, including a stale one on the reused slot |
| Audio.CreateAndPlaySound | zfw2/src/audio.cpp:96-101 | ids and versions are those of `create_sound_src`; the new slot is marked and every other mark is kept |
| Audio.CreateAndPlayMarksNewSlot | zfw2/src/audio.cpp:96-101 | create-and-play keeps the invariant, and the marked slot is that of a valid handle |
| Audio.StaleMarkReleasesPlainSound | zfw2/src/audio.cpp:57-68 | a stopped marked source freed by one auto-release pass leaves its mark; a plain creation that reuses the slot inherits it, and the next pass with the source stopped makes the caller's handle stale |
| Audio.ZeroHandleNeverValid | zfw2/src/audio.cpp:75-82 | a default handle (0, 0) is never accepted |
| Audio.StaleSoundHandleRejected | zfw2/src/audio.cpp:75-82 | after release a handle is refused, and it stays refused after its slot is reused |
| Audio.AutoReleasePreservesInv | zfw2/src/audio.cpp:103-126 | a pass keeps the invariant and never touches an unmarked slot |
| Audio.AutoReleaseTwoPasses | zfw2/src/audio.cpp:105-124 | a marked source still playing is kept; a stopped one is released but stays marked; the next pass unmarks it |
| Audio.SoundSrcCollection.constructor | zfw2/include/zfw2/audio.h:21-28 | a zero-initialised collection, equal to the empty pool |
| Audio.SoundSrcCollection.CleanSoundSrcs | zfw2/src/audio.cpp:44-55 | every id, version and mark becomes 0 |
| Audio.SoundSrcCollection.CreateSoundSrc | zfw2/src/audio.cpp:57-73 | the search loop moves the state and returns the handle as `CreateSound` |
| Audio.SoundSrcCollection.ReleaseSoundSrcByIndex | zfw2/src/audio.cpp:9-16 | requires a live slot; zeroes that slot's id only and keeps the versions |
| Audio.SoundSrcCollection.ReleaseSoundSrc | zfw2/src/audio.cpp:75-82 | requires a valid handle; releases its slot |
| Audio.SoundSrcCollection.CreateAndPlaySoundSrc | zfw2/src/audio.cpp:96-101 | creates a source and marks its slot for automatic release |
| Audio.SoundSrcCollection.HandleAutoReleaseSoundSrcs | zfw2/src/audio.cpp:103-126 | the loop moves the state as `AutoRelease` with the given stopped flags |
| Audio.AddMusic | zfw2/src/audio.cpp:150-168 | the handle names the lowest inactive slot and carries that slot's version plus one |
| Audio.ReleaseMusicCloses | zfw2/src/audio.cpp:201-214 | the corrected release never passes a null stream to `fclose` |
| Audio.CleanMusicCloses | zfw2/src/audio.cpp:128-148 | cleaning closes exactly the non-null streams of the active slots: no null stream, nothing else, and every such stream |
| Audio.EmptyMusicInv | zfw2/src/audio.cpp:147 | the zeroed collection satisfies the music invariant |
| Audio.AddMusicIssuesValidHandle | zfw2/src/audio.cpp:150-168 | adding keeps the invariant and issues a valid handle whose slot has no open stream |
| Audio.ReleaseMusicUndoesAdd | zfw2/src/audio.cpp:201-214 | release keeps the invariant, and release right after add restores the collection except for the slot's bumped version |
| Audio.StaleMusicHandleRejected | zfw2/src/audio.cpp:201-205 | a released music handle is refused, also after its slot is reused |
| Audio.ReleaseUnplayedMusicClosesNull | zfw2/src/audio.cpp:209 | releasing a source that was never played passes a null stream to `fclose` as written; the corrected release closes nothing |
| Audio.ReleaseClosesOpenedStream | zfw2/src/audio.cpp:179-209 | the corrected release closes exactly the stream that play opened, or nothing when opening failed |
| Audio.MusicSrcCollection.constructor | zfw2/include/zfw2/audio.h:50-57 | a zero-initialised collection, equal to the empty pool |
| Audio.MusicSrcCollection.CleanMusicSrcs | zfw2/src/audio.cpp:128-148 | returns the streams closed, as `CleanMusicCloses`, and zeroes the collection |
| Audio.MusicSrcCollection.AddMusicSrc | zfw2/src/audio.cpp:150-168 | the search loop moves the state and returns the handle as `AddMusic` |
| Audio.MusicSrcCollection.PlayMusicSrc | zfw2/src/audio.cpp:170-185 | stores the opened stream in the slot and reports success exactly when it is non-null |
| Audio.MusicSrcCollection.ReleaseMusicSrc | zfw2/src/audio.cpp:201-214 | requires a valid handle; the slot returns to the default source and becomes inactive; only a non-null stream is closed |
| Input.KeyBitsFit | zfw2/include/zfw2/input.h:9-51 | each of the 59 keys has a non-zero bit of its own in the 64-bit mask |
| Input.MouseButtonBitsFit | zfw2/include/zfw2/input.h:22-52 | each of the 3 mouse buttons has a non-zero bit of its own in the 8-bit mask |
| Input.GamepadButtonBitsFit | zfw2/include/zfw2/input.h:31-53 | each of the 15 gamepad buttons has a non-zero bit of its own in the 16-bit mask |
| Input.InputManager.constructor | zfw2/include/zfw2/input.h:153-155 | both states start zero-initialised |
| Input.InputManager.Refresh | zfw2/src/input.cpp:160-164 | the last state becomes the previous current state, and the polled state becomes current |
| Input.InputManager.IsKeyDown | zfw2/include/zfw2/input.h:79-83 | the mask test equals bit k of the current key mask read by shifting |
| Input.InputManager.IsKeyPressed | zfw2/include/zfw2/input.h:85-89 | true exactly when bit k is set now and was not last frame; never true when the two masks are equal |
| Input.InputManager.IsKeyReleased | zfw2/include/zfw2/input.h:91-95 | true exactly when bit k is clear now and was set last frame; never together with pressed; never true when the masks are equal |
| Input.InputManager.IsMouseButtonDown | zfw2/include/zfw2/input.h:97-101 | the mask test equals bit b of the current mouse mask |
| Input.InputManager.IsMouseButtonPressed | zfw2/include/zfw2/input.h:103-107 | set now and not last frame; never true when the masks are equal |
| Input.InputManager.IsMouseButtonReleased | zfw2/include/zfw2/input.h:109-113 | clear now and set last frame; never together with pressed |
| Input.InputManager.IsGamepadButtonDown | zfw2/include/zfw2/input.h:130-134 | the mask test equals bit b of the current gamepad mask |
| Input.InputManager.IsGamepadButtonPressed | zfw2/include/zfw2/input.h:136-140 | set now and not last frame; never true when the masks are equal |
| Input.InputManager.IsGamepadButtonReleased | zfw2/include/zfw2/input.h:142-146 | clear now and set last frame; never together with pressed |
| Input.HeldKeyEdges | zfw2/include/zfw2/input.h:85-95 | drives the manager through press, hold and release and returns the query answers: a key reads pressed on the first frame only, then down but not pressed, then released on one frame only; both states end up released |
| FontAtlas.Px | zfw2_asset_packer/src/fonts.cpp:106-109 | `>> 6` on a 26.6 value gives the whole pixels rounded down: 64 r <= v < 64 r + 64 |
| FontAtlas.LineHeight | zfw2_asset_packer/src/fonts.cpp:16-19 | the line height is the face's height metric in whole pixels, rounded down |
| FontAtlas.GlyphMetrics | zfw2_asset_packer/src/fonts.cpp:106-109 | horizontal offset, vertical offset (ascender minus bearing) and advance are each the 26.6 value rounded down to pixels |
| FontAtlas.MaxWidth | zfw2_asset_packer/src/fonts.cpp:21-37 | an upper bound of every width that is one of them, or 0 |
| FontAtlas.CalcLargestBitmapWidth | zfw2_asset_packer/src/fonts.cpp:21-37 | the running maximum loop returns `MaxWidth` |
| FontAtlas.FontTexSizeAsWritten | zfw2_asset_packer/src/fonts.cpp:39-48 | width min(largest width times range size, 1024); height line height times (ideal width / 1024 + 1) |
| FontAtlas.Placed | zfw2_asset_packer/src/fonts.cpp:100-114 | one position per glyph; the cursor starts at (0, 0) and ends just right of the last glyph, on its row |
| FontAtlas.SameWidthPlacement | zfw2_asset_packer/src/fonts.cpp:100-114 | with every glyph w pixels wide, 1024 / w glyphs share a row, and glyph k sits at column k mod that count and row k div it |
| FontAtlas.PlacementStep | zfw2_asset_packer/src/fonts.cpp:100-143 | a glyph wraps to (0, y + line height) exactly when x + width > 1024, otherwise sits at the cursor; the cursor then advances by its width |
| FontAtlas.GlyphWithinRow | zfw2_asset_packer/src/fonts.cpp:100-114 | a glyph no wider than 1024 starts at x >= 0 and ends at or before 1024 |
| FontAtlas.GlyphsInReadingOrder | zfw2_asset_packer/src/fonts.cpp:100-143 | a later glyph is on a lower row, or on the same row starting at or after an earlier glyph's end |
| FontAtlas.RowsNonDecreasing | zfw2_asset_packer/src/fonts.cpp:100-104 | rows never go back up, and the final cursor is on the last row |
| FontAtlas.RowsInsideTexture | zfw2_asset_packer/src/fonts.cpp:39-48 | with the corrected height, every glyph's row lies inside the texture |
| FontAtlas.NarrowRangeNeverWraps | zfw2_asset_packer/src/fonts.cpp:100-104 | when the whole range is narrower than 1024, nothing wraps and every glyph is on row 0 |
| FontAtlas.GlyphsFitTexWidth | zfw2_asset_packer/src/fonts.cpp:39-48 | the computed texture width holds every placed glyph when no glyph is wider than 1024 |
| FontAtlas.TexHeightAsWrittenTooShort | zfw2_asset_packer/src/fonts.cpp:46 | five 400-pixel glyphs with line height 10 need 30 rows of pixels, but the formula gives 20 and the font is accepted |
| FontAtlas.TexHeightAsWrittenTooShortAscii | zfw2_asset_packer/src/fonts.cpp:39-48 | a 95-glyph printable-ASCII range of 43-pixel glyphs takes 5 lines, but the formula allots 4, and the last glyph's row starts at the texture's bottom edge; the font is accepted |
| FontAtlas.KerningIndex | zfw2_asset_packer/src/fonts.cpp:122 | the flat entry of a glyph pair lies below range size squared |
| FontAtlas.KerningIndexInjective | zfw2_asset_packer/src/fonts.cpp:117-123 | each glyph pair has its own entry |
| FontAtlas.StoreKerningRow | zfw2_asset_packer/src/fonts.cpp:117-123 | row i holds the pair kernings in whole pixels; every entry outside the row is kept |
| FontAtlas.InitTexPixels | zfw2_asset_packer/src/fonts.cpp:79-87 | every pixel becomes RGBA (255, 255, 255, 0) |
| FontAtlas.AlphaIndexDecodes | zfw2_asset_packer/src/fonts.cpp:134-138 | the written byte is an alpha byte, and decodes back to its pixel |
| FontAtlas.DrawGlyph | zfw2_asset_packer/src/fonts.cpp:126-141 | only alpha bytes inside the glyph rectangle with coverage above 0 change, and they take the coverage |
| FontAtlas.DrawPixel | zfw2_asset_packer/src/fonts.cpp:130-139 | one bitmap pixel is written exactly as the drawing loops require |
| FontAtlas.GlyphsDisjoint | zfw2_asset_packer/src/fonts.cpp:100-143 | no pixel of an earlier glyph lies in a later glyph's rectangle |
| FontAtlas.GetFontDataWithPx | zfw2_asset_packer/src/fonts.cpp:50-149 | refused exactly when the atlas is too tall; otherwise every rectangle is placed inside the atlas, metrics and kernings are stored, and the pixels show every glyph on transparent white |
| FontAtlas.LayOutGlyphs | zfw2_asset_packer/src/fonts.cpp:89-144 | the glyph loop stores every rectangle, metric and kerning row and draws every glyph at its placed position |
| FontAtlas.PlaceGlyph | zfw2_asset_packer/src/fonts.cpp:100-114 | one step of the shelf: wrap when needed, append the metrics and source rectangle, advance the cursor; the position lies inside the atlas |
| FontAtlas.StoreKerning | zfw2_asset_packer/src/fonts.cpp:116-123 | stores row i and keeps the rows before it |
| FontAtlas.TallGlyphOverlapsNextRow | zfw2_asset_packer/src/fonts.cpp:100-141 | two 600-pixel glyphs with line height 10 go to rows 0 and 10 of a 20-row atlas, so 20-row bitmaps overlap the next row and run past the texture |
| FontAtlas.GlyphFitsAtlas | zfw2_asset_packer/src/fonts.cpp:100-114 | each placed glyph lies inside the atlas with the computed width and the corrected height |
| FontAtlas.DrawGlyphInAtlas | zfw2_asset_packer/src/fonts.cpp:125-141 | drawing glyph i keeps the colour bytes white, keeps transparent what no glyph covers, keeps earlier glyphs, and draws glyph i |
| FontAtlas.EarlierGlyphKept | zfw2_asset_packer/src/fonts.cpp:125-141 | drawing glyph i keeps what an earlier glyph drew |
| FontAtlas.NewGlyphDrawn | zfw2_asset_packer/src/fonts.cpp:125-141 | drawing glyph i at its placed position leaves its coverage in the alpha bytes |
| IntMath.TruncDiv | zfw2_common/include/zfw2_common/math.h:90-93 | C++ division: the remainder is smaller in size than the divisor and has the dividend's sign |
| IntMath.TruncDivOfNegative | zfw2_common/include/zfw2_common/math.h:90-93 | -7 / 2 is -3 in C++ but -4 under Euclidean division; 7 / -2 is -3 |
| IntMath.TruncDivOfMultiple | zfw2_common/include/zfw2_common/math.h:85-93 | a multiple divides back exactly |
| IntMath.Div | zfw2_common/include/zfw2_common/math.h:90-93 | componentwise truncating division: each remainder is smaller than the scalar in magnitude and is zero or has the sign of the dividend, as C++ truncation gives |
| IntMath.Add | zfw2_common/include/zfw2_common/math.h:75-78 | `+` leaves a vector unchanged exactly when the other operand is zero; a non-negative operand never decreases a component |
| IntMath.Sub | zfw2_common/include/zfw2_common/math.h:80-83 | `-` gives zero exactly when the operands are equal, and leaves the first unchanged exactly when the second is zero |
| IntMath.Scale | zfw2_common/include/zfw2_common/math.h:85-88 | `*` by 1 is the identity, by 0 gives zero, by -1 negates, and a non-zero scalar maps only zero to zero |
| IntMath.Eq | zfw2_common/include/zfw2_common/math.h:95-98 | true exactly when the two vectors are equal |
| IntMath.Ne | zfw2_common/include/zfw2_common/math.h:100-103 | true exactly when the two vectors differ |
| IntMath.AddSubRoundTrip | zfw2_common/include/zfw2_common/math.h:75-83 | (a + b) - b == a when the sum fits in 32 bits |
| IntMath.ScaleDivRoundTrip | zfw2_common/include/zfw2_common/math.h:85-93 | (a * s) / s == a when the product fits in 32 bits |
| IntMath.Vec2DIntVar.constructor | zfw2_common/include/zfw2_common/math.h:70-73 | the variable holds the given vector |
| IntMath.Vec2DIntVar.AddAssign | zfw2_common/include/zfw2_common/math.h:105-110 | `+=` leaves the vector equal to the sum |
| IntMath.Vec2DIntVar.SubAssign | zfw2_common/include/zfw2_common/math.h:112-117 | `-=` leaves the vector equal to the difference |
| IntMath.Vec2DIntVar.ScaleAssign | zfw2_common/include/zfw2_common/math.h:119-124 | `*=` leaves the vector equal to the scaled vector |
| IntMath.Vec2DIntVar.DivAssign | zfw2_common/include/zfw2_common/math.h:126-131 | `/=` leaves the vector equal to the truncated quotient |

## Left out

- Every OpenGL, OpenAL, FreeType and GLFW call is outside the model. New OpenAL source and buffer ids, opened file streams and "has the source stopped" arrive as parameters. FreeType's glyph bitmaps, metrics and kernings arrive as a sequence of glyph records. The polled input state arrives whole.
- Floating point is outside the model: `Vec2D`, `Matrix4x4`, the camera conversions, and the vertex contents that `write_to_slot` computes. The vertex buffer holds opaque reals, and `WriteToSlot` takes the quad's 44 floats as a parameter.
- Text shaping for char batches is declared in `graphics.h`, and its implementation is not part of this model. Char batches and their activity bitsets are therefore not modelled.
- `add_layer` and `lock_layers` are not part of this model, since the file defining them is not part of it either. The renderer's layer list, name map and lock flag are plain fields.
- The sprite-batch draw passes, the batch move constructor and move assignment, and the destructors are GPU plumbing or C++ ownership only, and are not modelled.
- Music streaming (`load_music_buf_data`, `refresh_music_srcs`, and the buffer queueing in `play_music_src`) consists of file reads and OpenAL queue calls. Only the stream `play_music_src` stores in the slot is modelled.
- `play_sound_src` only issues OpenAL calls after its handle checks. Its checks are `SoundHandleValid`.
- GLFW polling and the key-code mapping in `input.cpp` are not modelled. Neither are the getters for mouse position, scroll, gamepad connection and axis values, which return a stored field.
- `get_bit_to_byte_cnt` is not part of this model. The bit count is rounded up to whole bytes.
- The sizing products (`cnt * sizeof(T)`, `texWidth * texHeight * 4`) and handle versions use 32-bit `int`. The model uses unbounded integers there, so it does not capture their wrap-around.
- IntMath.Add: requires the sum to fit in 32 bits, and does not model signed overflow, which is undefined behaviour in C++.
- IntMath.Sub: requires the difference to fit in 32 bits, for the same reason.
- IntMath.Scale: requires the product to fit in 32 bits, for the same reason.
- Memory.MemArena.AllocAndClear: requires the block to lie inside the buffer. `alloc_and_clear` does not check this and would write past the buffer. It clears the block that the corrected `alloc` returns; see Findings.
- SpriteBatches.SpriteBatch.ReleaseSlot: requires an active slot. `release_slot` does not check this, and ReleaseInactiveBreaksCount shows what follows without it.
- RenderLayers.Renderer.TakeAnySpriteBatchSlot: requires a known layer name or at least one layer. `Renderer::take_any_sprite_batch_slot` enters index 0 for an unknown name, which is out of bounds when there are no layers.
- FontAtlas.GetFontDataWithPx: requires a non-empty character range and a non-negative height metric, as the constant range and FreeType guarantee. It uses the corrected atlas height, not the as-written one; see Findings.
- FontAtlas.GetFontDataWithPx: through `GlyphsShaped`, it also requires every glyph bitmap to be at most 1024 pixels wide and at most one line tall. `get_font_data_with_px` checks neither, and FreeType does not promise them. With a taller bitmap the program draws over the glyphs of the row below; on the last row it writes past the end of the pixel buffer, as `TallGlyphOverlapsNextRow` shows. With a wider bitmap the texture is 1024 wide and the bitmap's rows spill into the following pixel rows. The model promises nothing for such fonts.
- FontAtlas.LayOutGlyphs: requires `GlyphsShaped`, for the same reason as GetFontDataWithPx.
- FontAtlas.PlaceGlyph: requires `GlyphsShaped`, for the same reason as GetFontDataWithPx.
- FontAtlas.DrawGlyphInAtlas: requires `GlyphsShaped`, for the same reason as GetFontDataWithPx.
- The `HeapBitset` of `utils.h` and the `DynamicBitset` of `utils.cpp` are modelled as one class. The bit count of a `HeapBitset` is eight times its byte count.

## Findings

| source | as written | input that shows it | evidently intended | confidence | as-written member | corrected member |
|---|---|---|---|---|---|---|
| zfw2/include/zfw2/memory.h:22-24 | `alloc` adds the size to the offset and then returns the buffer at the new offset, which is the end of the block it reserved | two `alloc` calls of 4 bytes on a fresh arena return offsets 4 and 8: the first caller gets the second block, and the second caller's block extends past everything reserved | return the offset before the increment, that is, the start of the reserved block | not executed | Memory.AllocAsWrittenReturnsNextBlock | Memory.AllocReturnsReservedBlock |
| zfw2_asset_packer/src/fonts.cpp:46 | the atlas height is line height times (ideal width / 1024 + 1), counting rows as if glyphs packed edge to edge with no wasted space at row ends | the full printable-ASCII range (95 glyphs, space to tilde), all 43 pixels wide: 23 glyphs fit a row, so placement uses 5 lines, but the formula allots 4 (4085 / 1024 + 1), and the last glyph's row starts at y = 4 lines, the texture's bottom edge, so it is written past the end of the pixel buffer. The smaller case of five 400-pixel glyphs with line height 10 gets 20 rows against the 30 it needs | a height that covers every row the shelf placement uses | not executed | FontAtlas.TexHeightAsWrittenTooShortAscii | FontAtlas.RowsInsideTexture |
| zfw2/src/audio.cpp:209 | `release_music_src` calls `fclose` on the slot's stream without checking it | `add_music_src` followed by `release_music_src`, with no `play_music_src` in between: the stream is null and `fclose(NULL)` is undefined behaviour | close the stream only when it is open, as `clean_music_srcs` does | not executed | Audio.ReleaseUnplayedMusicClosesNull | Audio.MusicSrcCollection.ReleaseMusicSrc |
