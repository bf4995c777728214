/**
 A bump allocator over a fixed byte buffer that can undo its most recent
 allocation. The arena's bookkeeping is two numbers: the offset of the first
 unreserved byte and the size of the last allocation (0 once it was undone).
 Allocation sizes are byte counts: `cnt` elements of `elemSize` bytes each.
 */
module Memory {

  /** The arena's bookkeeping. */
  datatype ArenaState = ArenaState(offs: int, rewindSize: int)

  /** Offset and rewind size both start at 0. */
  const InitialArena := ArenaState(0, 0)

  /** Bytes reserved by a request for `cnt` elements of `elemSize` bytes. */
  function AllocSize(cnt: int, elemSize: nat): int
  {
    cnt * elemSize
  }

  /** `alloc` as written: reserve `size` bytes, remember the size for `rewind`,
      and return the offset AFTER the increment, which is the end of the block
      just reserved. */
  function AllocatedAsWritten(st: ArenaState, size: int): (ArenaState, int)
  {
    (ArenaState(st.offs + size, size), st.offs + size)
  }

  /** `alloc` as evidently intended: the same bookkeeping, but the returned
      offset is the start of the block just reserved. */
  function Allocated(st: ArenaState, size: int): (ArenaState, int)
  {
    (ArenaState(st.offs + size, size), st.offs)
  }

  /** `rewind`: give back the last allocation; allowed only once per
      allocation. */
  function Rewound(st: ArenaState): (r: ArenaState)
    requires st.rewindSize > 0
    ensures r.offs + st.rewindSize == st.offs && r.offs < st.offs && !(r.rewindSize > 0)
  {
    ArenaState(st.offs - st.rewindSize, 0)
  }

  /** The returned block of the corrected allocation is exactly the bytes it
      reserved: it starts at the old offset and ends at the new one. */
  lemma AllocReturnsReservedBlock(st: ArenaState, size: int)
    requires size > 0
    ensures Allocated(st, size).1 == st.offs
    ensures Allocated(st, size).1 + size == Allocated(st, size).0.offs
  {
  }

  /** Two successive corrected allocations return disjoint blocks, in order. */
  lemma SuccessiveBlocksDisjoint(st: ArenaState, size1: int, size2: int)
    requires size1 > 0 && size2 > 0
    ensures var (st1, p1) := Allocated(st, size1);
      var (st2, p2) := Allocated(st1, size2);
      p1 + size1 <= p2 && p2 + size2 == st2.offs && st.offs == p1
  {
  }

  /** An allocation followed by a rewind returns the arena to its prior
      offset, and a second rewind is refused. */
  lemma AllocThenRewind(st: ArenaState, size: int)
    requires size > 0
    ensures Allocated(st, size).0.rewindSize > 0
    ensures Rewound(Allocated(st, size).0).offs == st.offs
    ensures !(Rewound(Allocated(st, size).0).rewindSize > 0)
  {
  }

  /** The as-written allocation hands out the block that the NEXT allocation
      reserves: on a fresh arena, allocating 4 bytes reserves [0, 4) but
      returns offset 4, and a following 4-byte allocation reserves [4, 8) and
      returns offset 8, so the first block handed out is the second one
      reserved and the second one lies past everything reserved. */
  lemma AllocAsWrittenReturnsNextBlock()
    ensures var (st1, p1) := AllocatedAsWritten(InitialArena, 4);
      var (st2, p2) := AllocatedAsWritten(st1, 4);
      && p1 == 4 && st1.offs == 4
      && p2 == 8 && st2.offs == 8
      && p1 != Allocated(InitialArena, 4).1
      && p2 + 4 > st2.offs
  {
  }

  /** In general the as-written result is the end of the reserved block, so
      its `size` bytes all lie outside what was reserved. */
  lemma AllocAsWrittenOutsideReservation(st: ArenaState, size: int)
    requires size > 0
    ensures AllocatedAsWritten(st, size).1 == AllocatedAsWritten(st, size).0.offs
    ensures AllocatedAsWritten(st, size).1 == Allocated(st, size).1 + size
  {
  }

  class MemArena {
    const buf: array<bv8>
    var bufOffs: int
    var rewindSize: int

    function State(): ArenaState
      reads this
    {
      ArenaState(bufOffs, rewindSize)
    }

    constructor (size: int)
      requires size >= 0
      ensures buf.Length == size && fresh(buf)
      ensures State() == InitialArena
    {
      buf := new bv8[size];
      bufOffs := 0;
      rewindSize := 0;
    }

    /** `alloc` exactly as written, returning the post-increment offset. */
    method AllocAsWritten(cnt: int, elemSize: nat) returns (p: int)
      requires cnt > 0
      modifies this
      ensures (State(), p) == AllocatedAsWritten(old(State()), AllocSize(cnt, elemSize))
    {
      var size := cnt * elemSize;
      bufOffs := bufOffs + size;
      rewindSize := size;
      p := bufOffs;
    }

    /** `alloc`, returning the start of the reserved block. */
    method Alloc(cnt: int, elemSize: nat) returns (p: int)
      requires cnt > 0
      modifies this
      ensures (State(), p) == Allocated(old(State()), AllocSize(cnt, elemSize))
    {
      var size := cnt * elemSize;
      p := bufOffs;
      bufOffs := bufOffs + size;
      rewindSize := size;
    }

    /** `alloc_and_clear`: allocate, then zero every byte of the block. The
        block must fit in the buffer, which `alloc_and_clear` does not check. */
    method AllocAndClear(cnt: int, elemSize: nat) returns (p: int)
      requires cnt > 0
      requires 0 <= bufOffs && bufOffs + AllocSize(cnt, elemSize) <= buf.Length
      modifies this, buf
      ensures (State(), p) == Allocated(old(State()), AllocSize(cnt, elemSize))
      ensures forall k :: 0 <= k < buf.Length ==>
                buf[k] == if p <= k < p + AllocSize(cnt, elemSize) then 0 else old(buf[k])
    {
      p := Alloc(cnt, elemSize);
      var size := cnt * elemSize;
      forall k | p <= k < p + size {
        buf[k] := 0;
      }
    }

    /** `rewind`: requires an allocation that has not been undone yet. */
    method Rewind()
      requires rewindSize > 0
      modifies this
      ensures State() == Rewound(old(State()))
    {
      bufOffs := bufOffs - rewindSize;
      rewindSize := 0;
    }
  }
}
