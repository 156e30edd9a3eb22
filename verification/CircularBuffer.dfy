/** The ring of write commands (aesd-circular-buffer.c): ten slots, two offsets and a full flag,
    with the two searches that map between byte positions and (slot, offset) pairs. */
module CircularBuffer {
  import opened Sequences

  const SLOTS: nat := 10
  const NULL: nat := 0

  /** A slot: the address of its data buffer and the number of bytes stored there. */
  datatype Entry = Entry(buffptr: nat, size: nat)

  const EMPTY := Entry(NULL, 0)

  function Next(i: nat): nat {
    if i + 1 >= SLOTS then 0 else i + 1
  }

  /** A snapshot of the ring's fields. */
  datatype Ring = Ring(entry: seq<Entry>, inOffs: nat, outOffs: nat, full: bool) {

    ghost predicate Shape() {
      |entry| == SLOTS && inOffs < SLOTS && outOffs < SLOTS
    }

    /** The physical slot that is j-th in reading order. */
    function Slot(j: nat): nat {
      if outOffs + j >= SLOTS then outOffs + j - SLOTS else outOffs + j
    }

    /** The sizes of the slots in reading order. */
    ghost function Sizes(): (r: seq<nat>)
      requires Shape()
      ensures |r| == SLOTS
      ensures forall j :: 0 <= j < SLOTS ==> r[j] == entry[Slot(j)].size
    {
      seq(SLOTS, j requires 0 <= j < SLOTS => entry[Slot(j)].size)
    }

    /** Storing an entry: `complete` moves the write slot on, `newEntry` pushes the read slot of a full ring. */
    function Add(e: Entry, complete: bool, newEntry: bool): Ring
      requires |entry| == SLOTS && inOffs < SLOTS
    {
      var stored := this.(entry := entry[inOffs := e], outOffs := if newEntry && full then Next(outOffs) else outOffs);
      if complete then stored.(inOffs := Next(inOffs), full := Next(inOffs) == stored.outOffs) else stored
    }
  }

  // ---------------------------------------------------------------------------------------------
  // Byte position -> slot
  // ---------------------------------------------------------------------------------------------

  /** A place found after skipping n segments. */
  function Skipping(found: Option<(nat, nat)>, n: nat): Option<(nat, nat)> {
    if found.None? then None else Some((found.value.0 + n, found.value.1))
  }

  /** Where position p falls when segments of the given sizes are laid end to end. */
  function Locate(sizes: seq<nat>, p: nat): Option<(nat, nat)> {
    if sizes == [] then None
    else if p < sizes[0] then Some((0, p))
    else Skipping(Locate(sizes[1..], p - sizes[0]), 1)
  }

  /** Locate finds nothing exactly past the end, and otherwise the one pair that addresses p. */
  lemma {:induction false} LocateIff(sizes: seq<nat>, p: nat, j: nat, off: nat)
    ensures Locate(sizes, p).None? <==> p >= Sum(sizes)
    ensures Locate(sizes, p) == Some((j, off))
       <==> j < |sizes| && off < sizes[j] && Sum(sizes[..j]) + off == p
  {
    if sizes != [] {
      var rest := sizes[1..];
      if p >= sizes[0] {
        LocateIff(rest, p - sizes[0], if j > 0 then j - 1 else 0, off);
      }
      if 0 < j < |sizes| {
        assert sizes[..j][1..] == rest[..j - 1];
        assert Sum(sizes[..j]) == sizes[0] + Sum(rest[..j - 1]);
      }
    }
  }

  lemma LocateStep(sizes: seq<nat>, p: nat, k: nat)
    requires k < |sizes| && sizes[k] <= p
    ensures Skipping(Locate(sizes[k..], p), k) == Skipping(Locate(sizes[k + 1..], p - sizes[k]), k + 1)
  {
    assert sizes[k..][1..] == sizes[k + 1..];
  }

  // ---------------------------------------------------------------------------------------------
  // (write command, offset) -> byte position
  // ---------------------------------------------------------------------------------------------

  /** The byte position of offset o inside segment j, or -1 when the segment is too short. */
  function PositionIn(sizes: seq<nat>, j: nat, o: nat): int
    requires j < |sizes|
  {
    if o >= sizes[j] then -1 else Sum(sizes[..j]) + o
  }

  /** The answer of aesd_buffer_find_offset, given the slot sizes in reading order.
      From outOffs on it means the physical slot; before it, the bare offset wins whenever the
      write_cmd-th slot in reading order holds data. */
  function SeekOffset(sizes: seq<nat>, outOffs: nat, w: nat, o: nat): int
    requires |sizes| == SLOTS && outOffs < SLOTS
  {
    if w >= SLOTS then Sum(sizes)
    else if outOffs <= w then PositionIn(sizes, w - outOffs, o)
    else if sizes[w] > 0 then o
    else PositionIn(sizes, SLOTS - outOffs + w, o)
  }

  /** The turn at which a search from outOffs on visits slot w. */
  function Visit(outOffs: nat, w: nat): int {
    if outOffs <= w then w - outOffs else SLOTS - outOffs + w
  }

  lemma VisitOfSlot(r: Ring, w: nat, cnt: nat)
    requires r.Shape() && cnt < SLOTS && (w < SLOTS ==> cnt <= Visit(r.outOffs, w))
    ensures r.Slot(cnt) < SLOTS
    ensures r.Slot(cnt) == w <==> w < SLOTS && cnt == Visit(r.outOffs, w)
  {
  }

  /** That visit is decisive, unless the w-th turn came before and found data. */
  lemma SeekAtVisit(sizes: seq<nat>, outOffs: nat, w: nat, o: nat)
    requires |sizes| == SLOTS && outOffs < SLOTS && w < SLOTS
    requires w < Visit(outOffs, w) ==> sizes[w] == 0
    ensures SeekOffset(sizes, outOffs, w, o) == PositionIn(sizes, Visit(outOffs, w), o)
  {
  }

  /** Unless the bare offset wins, seeking into a slot and looking the position up gives the pair back. */
  lemma SeekThenLocate(r: Ring, w: nat, o: nat)
    requires r.Shape() && w < SLOTS && o < r.entry[w].size
    requires r.outOffs <= w || r.Sizes()[w] == 0
    ensures SeekOffset(r.Sizes(), r.outOffs, w, o) >= 0
    ensures var at := Locate(r.Sizes(), SeekOffset(r.Sizes(), r.outOffs, w, o));
            at.Some? && r.Slot(at.value.0) == w && at.value.1 == o
  {
    assert r.Slot(Visit(r.outOffs, w)) == w;
    LocateIff(r.Sizes(), SeekOffset(r.Sizes(), r.outOffs, w, o), Visit(r.outOffs, w), o);
  }

  /** What the answer of the seek means, for every slot number and offset: the bare offset, for a slot
      ahead of the read slot whose number is that of a place with data; otherwise the position that leads
      back to the slot and the offset, or a negative value for an offset past the slot's end; and the
      total size for a slot number out of range. */
  lemma SeekMeaning(r: Ring, w: nat, o: nat)
    requires r.Shape()
    ensures var sizes, p := r.Sizes(), SeekOffset(r.Sizes(), r.outOffs, w, o);
            if w >= 10 then p == Sum(sizes)
            else if w < r.outOffs && sizes[w] > 0 then p == o
            else if o < r.entry[w].size then
              p >= 0 && Locate(sizes, p).Some? && r.Slot(Locate(sizes, p).value.0) == w && Locate(sizes, p).value.1 == o
            else p < 0
  {
    if w < SLOTS && (r.outOffs <= w || r.Sizes()[w] == 0) {
      assert r.Slot(Visit(r.outOffs, w)) == w;
      if o < r.entry[w].size {
        SeekThenLocate(r, w, o);
      }
    }
  }

  /** Byte o of physical slot w is stored, and seeking to it lands on position p. */
  ghost predicate SeeksTo(r: Ring, w: nat, o: nat, p: nat)
    requires r.Shape()
  {
    w < SLOTS && o < r.entry[w].size && SeekOffset(r.Sizes(), r.outOffs, w, o) == p
  }

  /** With the read slot at zero, every stored byte is reached by exactly one (slot, offset) pair. */
  lemma EveryByteHasOneSeek(r: Ring, p: nat)
    requires r.Shape() && r.outOffs == 0 && p < Sum(r.Sizes())
    ensures exists w: nat, o: nat :: SeeksTo(r, w, o, p)
    ensures forall w: nat, o: nat, w': nat, o': nat :: SeeksTo(r, w, o, p) && SeeksTo(r, w', o', p) ==> w == w' && o == o'
  {
    var sizes := r.Sizes();
    LocateIff(sizes, p, 0, 0);
    var at := Locate(sizes, p).value;
    LocateIff(sizes, p, at.0, at.1);
    forall w: nat, o: nat | SeeksTo(r, w, o, p)
      ensures w == at.0 && o == at.1
    {
      assert r.Slot(w) == w;
      LocateIff(sizes, p, w, o);
    }
    assert r.Slot(at.0) == at.0;
    assert SeeksTo(r, at.0, at.1, p);
  }

  // ---------------------------------------------------------------------------------------------
  // The buffer itself
  // ---------------------------------------------------------------------------------------------

  class AesdCircularBuffer {
    const entry: array<Entry>
    var inOffs: nat
    var outOffs: nat
    var full: bool

    ghost predicate Valid()
      reads this, entry
    {
      Snapshot().Shape()
    }

    ghost function Snapshot(): Ring
      reads this, entry
    {
      Ring(entry[..], inOffs, outOffs, full)
    }

    constructor Init()
      ensures Valid() && fresh(entry)
      ensures Snapshot() == Ring(seq(SLOTS, _ => EMPTY), 0, 0, false)
    {
      entry := new Entry[SLOTS](_ => EMPTY);
      inOffs, outOffs, full := 0, 0, false;
    }

    method AddEntry(e: Entry, completeEntry: bool, newEntry: bool)
      requires Valid()
      modifies this, entry
      ensures Valid()
      ensures Snapshot() == old(Snapshot()).Add(e, completeEntry, newEntry)
    {
      entry[inOffs] := e;
      if newEntry {
        if full {
          outOffs := outOffs + 1;
          if outOffs >= SLOTS {
            outOffs := 0;
          }
        }
      }
      if completeEntry {
        inOffs := inOffs + 1;
        if inOffs >= SLOTS {
          inOffs := 0;
        }
        if inOffs == outOffs {
          full := true;
        } else {
          full := false;
        }
      }
    }

    /** The wrapping search visits empty slots too, yet agrees with flat addressing. */
    method FindEntryOffsetForFpos(charOffset: nat) returns (r: Option<(nat, nat)>)
      requires Valid()
      ensures r == match Locate(Snapshot().Sizes(), charOffset)
                case None => None
                case Some(at) => Some((Snapshot().Slot(at.0), at.1))
    {
      ghost var ring := Snapshot();
      ghost var sizes := ring.Sizes();
      var bufIndex := outOffs;
      var cnt := 0;
      var bytecnt := 0;
      r := None;
      assert sizes[0..] == sizes;
      while cnt < SLOTS
        invariant 0 <= cnt <= SLOTS && 0 <= bytecnt <= charOffset
        invariant bufIndex == outOffs + cnt || bufIndex == outOffs + cnt - SLOTS
        invariant 0 <= bufIndex <= SLOTS
        invariant Locate(sizes, charOffset) == Skipping(Locate(sizes[cnt..], charOffset - bytecnt), cnt)
      {
        if bufIndex >= SLOTS {
          bufIndex := 0;
        }
        assert bufIndex == ring.Slot(cnt) && entry[bufIndex].size == sizes[cnt];
        if bytecnt + entry[bufIndex].size > charOffset {
          r := Some((bufIndex, charOffset - bytecnt));
          return;
        }
        LocateStep(sizes, charOffset - bytecnt, cnt);
        bytecnt := bytecnt + entry[bufIndex].size;
        cnt := cnt + 1;
        bufIndex := bufIndex + 1;
      }
    }

    /** The two-exit search has the closed form SeekOffset. */
    method FindOffset(writeCmd: nat, writeCmdOffset: nat) returns (offset: int)
      requires Valid()
      ensures offset == SeekOffset(Snapshot().Sizes(), outOffs, writeCmd, writeCmdOffset)
    {
      ghost var ring := Snapshot();
      ghost var sizes := ring.Sizes();
      var bufIndex := outOffs;
      var cnt := 0;
      offset := 0;
      while cnt < SLOTS
        invariant 0 <= cnt <= SLOTS
        invariant bufIndex == outOffs + cnt || bufIndex == outOffs + cnt - SLOTS
        invariant 0 <= bufIndex <= SLOTS
        invariant offset == Sum(sizes[..cnt])
        invariant writeCmd < SLOTS ==> cnt <= Visit(outOffs, writeCmd)
        invariant writeCmd < cnt ==> sizes[writeCmd] == 0
      {
        if bufIndex >= SLOTS {
          bufIndex := 0;
        }
        assert bufIndex == ring.Slot(cnt) && entry[bufIndex].size == sizes[cnt];
        VisitOfSlot(ring, writeCmd, cnt);
        if bufIndex == writeCmd {
          SeekAtVisit(sizes, outOffs, writeCmd, writeCmdOffset);
          if writeCmdOffset >= entry[bufIndex].size {
            offset := -1;
          } else {
            offset := offset + writeCmdOffset;
          }
          return;
        }
        if entry[bufIndex].size > 0 && writeCmd == cnt {
          offset := writeCmdOffset;
          return;
        }
        SumStep(sizes, cnt);
        offset := offset + entry[bufIndex].size;
        cnt := cnt + 1;
        bufIndex := bufIndex + 1;
      }
      assert sizes[..SLOTS] == sizes;
    }
  }
}
