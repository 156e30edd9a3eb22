/** How the device's fields represent the command history, and why each step of aesd_write keeps it so. */
module Refinement {
  import opened Sequences
  import opened CircularBuffer
  import opened CommandLog
  import opened Positions

  /** A snapshot of the device: the ring, the live data buffers, write_entry_new_flag and size. */
  datatype Dev = Dev(ring: Ring, heap: map<nat, string>, newFlag: bool, size: int)

  ghost function BytesAt(e: Entry, heap: map<nat, string>): string {
    if e.buffptr in heap then heap[e.buffptr] else ""
  }

  ghost function Bytes(es: seq<Entry>, heap: map<nat, string>): (r: seq<string>)
    ensures |r| == |es|
    ensures forall i :: 0 <= i < |es| ==> r[i] == BytesAt(es[i], heap)
  {
    seq(|es|, i requires 0 <= i < |es| => BytesAt(es[i], heap))
  }

  ghost function Rotate(s: seq<string>, out: nat): (r: seq<string>)
    requires out < |s|
    ensures |r| == |s|
    ensures forall j :: 0 <= j < |s| ==> r[j] == s[if out + j >= |s| then out + j - |s| else out + j]
  {
    s[out..] + s[..out]
  }

  /** The bytes of each slot in reading order. */
  ghost function View(d: Dev): (r: seq<string>)
    requires d.ring.Shape()
    ensures |r| == SLOTS
    ensures forall j :: 0 <= j < SLOTS ==> r[j] == BytesAt(d.ring.entry[d.ring.Slot(j)], d.heap)
  {
    Rotate(Bytes(d.ring.entry, d.heap), d.ring.outOffs)
  }

  ghost predicate Holds(es: seq<Entry>, p: nat) {
    exists i :: 0 <= i < |es| && es[i].buffptr == p
  }

  ghost predicate Unshared(es: seq<Entry>) {
    forall i, j :: 0 <= i < j < |es| && es[i].buffptr == es[j].buffptr ==> es[i].buffptr == NULL
  }

  /** Ownership: a slot has a buffer exactly when it has bytes, of exactly its size; no two slots
      share one; and no other data buffer is live. */
  ghost predicate Owned(es: seq<Entry>, heap: map<nat, string>) {
    && NULL !in heap
    && (forall i :: 0 <= i < |es| ==>
          if es[i].buffptr == NULL then es[i].size == 0
          else es[i].buffptr in heap && 0 < es[i].size == |heap[es[i].buffptr]|)
    && Unshared(es)
    && (forall p :: p in heap ==> Holds(es, p))
  }

  /** The fields a history prescribes. */
  ghost predicate Offsets(d: Dev, l: Log) {
    && d.ring.Shape()
    && d.ring.inOffs == l.InOffs()
    && d.ring.outOffs == l.OutOffs()
    && d.ring.full == l.Full()
    && d.newFlag == l.pending.None?
  }

  datatype Aspect = Fields | Ownership | Contents | Total

  /** What it means, aspect by aspect, for a device to represent a history. */
  ghost predicate Matches(d: Dev, l: Log, aspect: Aspect) {
    && l.WellFormed()
    && Offsets(d, l)
    && match aspect
       case Fields => true
       case Ownership => Owned(d.ring.entry, d.heap)
       case Contents => View(d) == l.Padded()
       case Total => d.size == l.Size()
  }

  ghost predicate Refines(d: Dev, l: Log) {
    forall aspect: Aspect :: Matches(d, l, aspect)
  }

  /** All but the total. */
  ghost predicate Represents(d: Dev, l: Log) {
    forall aspect: Aspect :: aspect != Total ==> Matches(d, l, aspect)
  }

  /** All aspects at once. */
  lemma Aspects(d: Dev, l: Log)
    requires Refines(d, l)
    ensures l.WellFormed() && Offsets(d, l) && Owned(d.ring.entry, d.heap)
    ensures View(d) == l.Padded() && d.size == l.Size()
  {
    assert Matches(d, l, Fields) && Matches(d, l, Ownership) && Matches(d, l, Contents) && Matches(d, l, Total);
  }

  lemma EmptyDevice(d: Dev)
    requires d == Dev(Ring(seq(SLOTS, _ => EMPTY), 0, 0, false), map[], true, 0)
    ensures Refines(d, EMPTY_LOG)
  {
    assert View(d) == EMPTY_LOG.Padded();
  }

  /** The write slot holds the bytes at Place(l) in reading order. */
  lemma WriteSlot(d: Dev, l: Log)
    requires d.ring.inOffs == l.InOffs() && d.ring.outOffs == l.OutOffs()
    ensures d.ring.Slot(Place(l)) == d.ring.inOffs
  {
  }

  lemma WriteSlotSize(d: Dev, l: Log)
    requires Refines(d, l)
    ensures d.ring.Shape() && d.ring.entry[d.ring.inOffs].size == |l.Padded()[Place(l)]|
  {
    Aspects(d, l);
    WriteSlot(d, l);
    var bytes := View(d)[Place(l)];
  }

  /** What aesd_write may rely on when it looks at the flags and at the write slot. */
  lemma WriteSlotFacts(d: Dev, l: Log)
    requires Refines(d, l)
    ensures d.ring.Shape() && NULL !in d.heap
    ensures (d.ring.full && d.newFlag) == l.Evicts() && d.newFlag == l.pending.None?
    ensures var e := d.ring.entry[d.ring.inOffs];
            && (if e.buffptr == NULL then e == EMPTY else e.buffptr in d.heap && 0 < e.size == |d.heap[e.buffptr]|)
            && e.size <= d.size
  {
    Aspects(d, l);
    WriteSlotSize(d, l);
    PaddedContent(l);
    FlattenSplit(l.Padded(), Place(l));
  }

  lemma NullEntry(d: Dev, l: Log, i: nat)
    requires Refines(d, l) && i < |d.ring.entry| && d.ring.entry[i].size == 0
    ensures d.ring.entry[i] == EMPTY
  {
    assert Matches(d, l, Ownership);
  }

  /** The ring's fields in every state the driver can reach. */
  lemma RingFlags(d: Dev, l: Log)
    requires Refines(d, l)
    ensures !d.ring.full ==> d.ring.outOffs == 0 && d.ring.inOffs == |l.completed| < SLOTS
    ensures d.ring.full && d.newFlag ==> d.ring.inOffs == d.ring.outOffs
    ensures d.ring.full && !d.newFlag ==> d.ring.outOffs == (d.ring.inOffs + 1) % SLOTS
  {
    assert Matches(d, l, Fields);
  }

  /** The entry that is j-th in reading order, as a read finds it. */
  lemma EntryAt(d: Dev, l: Log, j: nat)
    requires Refines(d, l) && j < SLOTS
    ensures d.ring.Shape() && d.ring.Slot(j) < SLOTS
    ensures var e := d.ring.entry[d.ring.Slot(j)];
            && e.size == |l.Padded()[j]|
            && (e.size > 0 ==> e.buffptr != NULL && e.buffptr in d.heap && d.heap[e.buffptr] == l.Padded()[j])
  {
    Aspects(d, l);
    var bytes := View(d)[j];
  }

  lemma FirstRound(d: Dev, l: Log)
    requires Refines(d, l) && !d.ring.full
    ensures d.ring.outOffs == 0 && !l.Full() && !l.hole && |d.ring.entry| == SLOTS
    ensures d.ring.inOffs == |l.completed| && d.newFlag == l.pending.None?
  {
    assert Matches(d, l, Fields);
  }

  /** Until the ring has filled up, every slot past the write slot is empty, and so is the write
      slot itself while no entry is open. */
  lemma UnusedSlot(d: Dev, l: Log, i: nat)
    requires Refines(d, l) && !d.ring.full && i < SLOTS
    requires i > d.ring.inOffs || (d.newFlag && i == d.ring.inOffs)
    ensures i < |d.ring.entry| && d.ring.entry[i] == EMPTY
  {
    FirstRound(d, l);
    UnusedPlace(l, i);
    EntryAt(d, l, i);
    NullEntry(d, l, i);
  }

  ghost function Buffers(es: seq<Entry>): set<nat> {
    set i | 0 <= i < |es| && es[i].buffptr != NULL :: es[i].buffptr
  }

  lemma BuffersWithout(es: seq<Entry>, k: nat)
    requires k < |es| && es[k].buffptr != NULL
    requires Unshared(es)
    ensures Unshared(es[k := es[k].(buffptr := NULL)])
    ensures Buffers(es[k := es[k].(buffptr := NULL)]) == Buffers(es) - {es[k].buffptr}
  {
    var u := es[k := es[k].(buffptr := NULL)];
    forall p | p in Buffers(es) - {es[k].buffptr} ensures p in Buffers(u) {
      var i :| 0 <= i < |es| && es[i].buffptr == p;
      assert u[i].buffptr == p;
    }
  }

  lemma TotalSize(d: Dev, l: Log)
    requires Refines(d, l)
    ensures d.size == l.Size()
  {
    assert Matches(d, l, Total);
  }

  lemma OwnedBuffers(es: seq<Entry>, heap: map<nat, string>)
    requires Owned(es, heap)
    ensures heap.Keys == Buffers(es)
  {
    forall p | p in heap ensures p in Buffers(es) {
      assert Holds(es, p);
    }
  }

  /** Ownership in every reachable state: the live data buffers are exactly the slots' buffers, no
      two slots share one, and a slot's size is its buffer's. */
  lemma LiveBuffers(d: Dev, l: Log)
    requires Refines(d, l)
    ensures |d.ring.entry| == SLOTS && d.heap.Keys == Buffers(d.ring.entry) && Unshared(d.ring.entry)
    ensures forall i :: 0 <= i < SLOTS ==> d.ring.entry[i].size == |BytesAt(d.ring.entry[i], d.heap)|
  {
    assert Matches(d, l, Ownership);
    OwnedBuffers(d.ring.entry, d.heap);
  }

  /** The slots read in order hold the last commands of the history, and nothing else. */
  lemma ReadOrder(d: Dev, l: Log)
    requires Refines(d, l)
    ensures d.ring.Shape() && View(d) == l.Padded() && Flatten(View(d)) == l.Content()
    ensures d.ring.Sizes() == Lengths(l.Padded()) && d.ring.outOffs == l.OutOffs()
  {
    PaddedContent(l);
    assert Matches(d, l, Contents);
    assert d.ring.Sizes() == Lengths(l.Padded()) by {
      forall j | 0 <= j < SLOTS ensures d.ring.Sizes()[j] == |l.Padded()[j]| {
        EntryAt(d, l, j);
      }
    }
  }

  /** What the search delivers to aesd_read. */
  lemma ReadFinds(d: Dev, l: Log, position: nat, count: nat)
    requires Refines(d, l)
    ensures d.ring.Shape()
    ensures match Locate(d.ring.Sizes(), position)
            case None => ReadBytes(l, position, count) == ""
            case Some(at) =>
              && at.0 < SLOTS && d.ring.Slot(at.0) < SLOTS
              && var e := d.ring.entry[d.ring.Slot(at.0)];
                 && e.buffptr != NULL && e.buffptr in d.heap && at.1 < e.size == |d.heap[e.buffptr]|
                 && ReadBytes(l, position, count)
                    == d.heap[e.buffptr][at.1..at.1 + ReadLen(e.size, at.1, count)]
  {
    ReadOrder(d, l);
    var found := Locate(d.ring.Sizes(), position);
    ReadPiecesLocate(l.Padded(), position, count);
    if found.Some? {
      EntryAt(d, l, found.value.0);
    }
  }

  // ---------------------------------------------------------------------------------------------
  // Giving up the buffer in the write slot
  // ---------------------------------------------------------------------------------------------

  lemma RotateUpdate(s: seq<string>, out: nat, k: nat, x: string)
    requires out < |s| && k < |s|
    ensures Rotate(s[if out + k >= |s| then out + k - |s| else out + k := x], out) == Rotate(s, out)[k := x]
  {
  }

  lemma RotateShift(s: seq<string>, out: nat, x: string)
    requires out < |s| == SLOTS
    ensures Rotate(s[out := x], Next(out)) == Rotate(s, out)[1..] + [x]
  {
  }

  /** The write slot's buffer freed, the slot cleared, and `less` taken off the size. */
  ghost function Cleared(d: Dev, less: nat): Dev
    requires d.ring.Shape()
  {
    var i := d.ring.inOffs;
    Dev(d.ring.(entry := d.ring.entry[i := EMPTY]), d.heap - {d.ring.entry[i].buffptr}, d.newFlag, d.size - less)
  }

  lemma ClearOwned(es: seq<Entry>, heap: map<nat, string>, i: nat)
    requires Owned(es, heap) && i < |es|
    ensures Owned(es[i := EMPTY], heap - {es[i].buffptr})
  {
    var es' := es[i := EMPTY];
    forall p | p in heap - {es[i].buffptr} ensures Holds(es', p) {
      assert Holds(es, p);
      var k :| 0 <= k < |es| && es[k].buffptr == p;
      assert es'[k].buffptr == p;
    }
  }

  lemma ClearView(d: Dev, k: nat, less: nat)
    requires d.ring.Shape() && Owned(d.ring.entry, d.heap)
    requires k < SLOTS && d.ring.Slot(k) == d.ring.inOffs
    ensures Cleared(d, less).ring.Shape()
    ensures View(Cleared(d, less)) == View(d)[k := ""]
    ensures BytesAt(d.ring.entry[d.ring.inOffs], d.heap) == View(d)[k]
    ensures d.ring.entry[d.ring.inOffs].size == |View(d)[k]|
  {
    var c := Cleared(d, less);
    assert Bytes(c.ring.entry, c.heap) == Bytes(d.ring.entry, d.heap)[d.ring.inOffs := ""];
    RotateUpdate(Bytes(d.ring.entry, d.heap), d.ring.outOffs, k, "");
  }

  lemma Combine(d: Dev, l: Log)
    requires l.WellFormed() && Offsets(d, l) && Owned(d.ring.entry, d.heap)
    requires View(d) == l.Padded() && d.size == l.Size()
    ensures Refines(d, l)
  {
  }

  lemma ClearedSlot(d: Dev, l: Log, less: nat)
    requires Refines(d, l)
    ensures l.WellFormed() && Offsets(d, l) && d.size == l.Size()
    ensures var c := Cleared(d, less);
            Owned(c.ring.entry, c.heap) && c.ring.Shape() && View(c) == l.Padded()[Place(l) := ""]
    ensures BytesAt(d.ring.entry[d.ring.inOffs], d.heap) == l.Padded()[Place(l)]
    ensures d.ring.entry[d.ring.inOffs].size == |l.Padded()[Place(l)]|
  {
    Aspects(d, l);
    ClearOwned(d.ring.entry, d.heap, d.ring.inOffs);
    WriteSlot(d, l);
    ClearView(d, Place(l), less);
  }

  /** Evicting: the oldest place becomes a hole and its bytes leave the size. */
  lemma ClearEvicts(d: Dev, l: Log)
    requires Refines(d, l) && l.Evicts()
    ensures d.ring.Shape()
    ensures Refines(Cleared(d, d.ring.entry[d.ring.inOffs].size), l.Evicted())
  {
    ClearedSlot(d, l, 0);
    ClearedSlot(d, l, d.ring.entry[d.ring.inOffs].size);
    EvictedPadded(l);
    EvictedSize(l);
    Combine(Cleared(d, d.ring.entry[d.ring.inOffs].size), l.Evicted());
  }

  /** Dropping: the pending bytes leave the ring but stay counted in the size. */
  lemma ClearDrops(d: Dev, l: Log)
    requires Refines(d, l) && l.pending.Some?
    ensures d.ring.Shape()
    ensures Refines(Cleared(d, 0), l.Dropped())
    ensures BytesAt(d.ring.entry[d.ring.inOffs], d.heap) == l.pending.value
  {
    ClearedSlot(d, l, 0);
    DroppedPadded(l);
    DroppedSize(l);
    Combine(Cleared(d, 0), l.Dropped());
  }

  // ---------------------------------------------------------------------------------------------
  // Storing a new buffer in the write slot
  // ---------------------------------------------------------------------------------------------

  /** The state after a successful write has put `whole` at address p into the write slot. */
  ghost function Stored(d: Dev, p: nat, whole: string, more: nat): Dev
    requires d.ring.Shape()
  {
    Dev(d.ring.Add(Entry(p, |whole|), Terminated(whole), d.newFlag), d.heap[p := whole], Terminated(whole), d.size + more)
  }

  lemma StoredOwned(es: seq<Entry>, heap: map<nat, string>, i: nat, p: nat, whole: string)
    requires Owned(es, heap) && i < |es| && es[i].buffptr == NULL
    requires p != NULL && p !in heap && whole != ""
    ensures Owned(es[i := Entry(p, |whole|)], heap[p := whole])
  {
    var es' := es[i := Entry(p, |whole|)];
    forall q | q in heap[p := whole] ensures Holds(es', q) {
      if q == p {
        assert es'[i].buffptr == p;
      } else {
        assert Holds(es, q);
        var k :| 0 <= k < |es| && es[k].buffptr == q;
        assert es'[k].buffptr == q;
      }
    }
  }

  lemma NextOffs(c: nat)
    ensures (c + 1) % SLOTS == Next(c % SLOTS)
  {
  }

  lemma StoredOffsets(d: Dev, l: Log, p: nat, whole: string, more: nat)
    requires Offsets(d, l) && l.WellFormed()
    ensures l.Filled(whole).WellFormed() && Offsets(Stored(d, p, whole, more), l.Filled(whole))
  {
    NextOffs(|l.completed|);
    if Terminated(whole) {
      assert l.Filled(whole).InOffs() == Next(l.InOffs());
    }
  }

  lemma StoredBytes(d: Dev, p: nat, whole: string, more: nat)
    requires d.ring.Shape() && Owned(d.ring.entry, d.heap)
    requires p != NULL && p !in d.heap
    ensures var s := Stored(d, p, whole, more);
            Bytes(s.ring.entry, s.heap) == Bytes(d.ring.entry, d.heap)[d.ring.inOffs := whole]
  {
  }

  lemma StoredView(d: Dev, k: nat, p: nat, whole: string, more: nat)
    requires d.ring.Shape() && Owned(d.ring.entry, d.heap)
    requires k < SLOTS && d.ring.Slot(k) == d.ring.inOffs
    requires p != NULL && p !in d.heap && (d.newFlag && d.ring.full ==> k == 0)
    ensures Stored(d, p, whole, more).ring.Shape()
    ensures View(Stored(d, p, whole, more))
         == if d.newFlag && d.ring.full then View(d)[1..] + [whole] else View(d)[k := whole]
  {
    var s, b := Stored(d, p, whole, more), Bytes(d.ring.entry, d.heap);
    StoredBytes(d, p, whole, more);
    assert View(s) == Rotate(b[d.ring.inOffs := whole], s.ring.outOffs);
    if d.newFlag && d.ring.full {
      assert d.ring.inOffs == d.ring.outOffs;
      RotateShift(b, d.ring.outOffs, whole);
    } else {
      RotateUpdate(b, d.ring.outOffs, k, whole);
    }
  }

  lemma EmptyWriteSlot(d: Dev, l: Log)
    requires Refines(d, l) && l.PendingBytes() == "" && (l.Evicts() ==> l.hole)
    ensures d.ring.Shape() && d.ring.entry[d.ring.inOffs] == EMPTY
  {
    WriteSlotFacts(d, l);
    WriteSlotSize(d, l);
    assert Matches(d, l, Fields);
    FilledPadded(l, "");
  }

  lemma StoredContents(d: Dev, l: Log, p: nat, whole: string, more: nat)
    requires Refines(d, l) && l.PendingBytes() == "" && (l.Evicts() ==> l.hole)
    requires p != NULL && p !in d.heap
    requires Offsets(d, l) && l.WellFormed() && Owned(d.ring.entry, d.heap)
    ensures Stored(d, p, whole, more).ring.Shape()
    ensures View(Stored(d, p, whole, more)) == l.Filled(whole).Padded()
  {
    assert Matches(d, l, Contents);
    WriteSlot(d, l);
    FilledPadded(l, whole);
    StoredView(d, Place(l), p, whole, more);
  }

  lemma StoredSlot(d: Dev, l: Log, p: nat, whole: string, more: nat)
    requires Refines(d, l) && l.PendingBytes() == "" && (l.Evicts() ==> l.hole)
    requires p != NULL && p !in d.heap && whole != ""
    requires Offsets(d, l) && l.WellFormed() && d.ring.entry[d.ring.inOffs] == EMPTY
    ensures var s := Stored(d, p, whole, more);
            Owned(s.ring.entry, s.heap) && s.ring.Shape() && View(s) == l.Filled(whole).Padded()
  {
    assert Matches(d, l, Ownership);
    StoredOwned(d.ring.entry, d.heap, d.ring.inOffs, p, whole);
    StoredContents(d, l, p, whole, more);
  }

  /** Moving bytes out of the lost count changes nothing but the total. */
  lemma CombineLost(s: Dev, f: Log, lost: nat)
    requires Represents(s, f) && s.size == f.(lost := lost).Size()
    ensures Refines(s, f.(lost := lost))
  {
    var g := f.(lost := lost);
    SameContent(f, g);
    forall aspect: Aspect ensures Matches(s, g, aspect) {
      assert Matches(s, f, if aspect == Total then Fields else aspect);
    }
  }

  lemma StoredTotal(d: Dev, l: Log, p: nat, whole: string, back: nat)
    requires Refines(d, l) && d.ring.Shape() && l.PendingBytes() == "" && (l.Evicts() ==> l.hole)
    requires back <= l.lost && back <= |whole|
    ensures Stored(d, p, whole, |whole| - back).size == l.Filled(whole).(lost := l.lost - back).Size()
  {
    assert Matches(d, l, Total);
    FilledTotal(l, whole, back);
  }

  lemma StoredAspects(d: Dev, l: Log, p: nat, whole: string, more: nat)
    requires Refines(d, l) && l.PendingBytes() == "" && (l.Evicts() ==> l.hole)
    requires p != NULL && p !in d.heap && whole != ""
    ensures d.ring.Shape() && d.ring.entry[d.ring.inOffs] == EMPTY
    ensures Represents(Stored(d, p, whole, more), l.Filled(whole))
  {
    EmptyWriteSlot(d, l);
    assert Matches(d, l, Fields);
    StoredOffsets(d, l, p, whole, more);
    StoredSlot(d, l, p, whole, more);
  }

  /** Storing never loses a buffer, since the slot written is empty by then. Of the new command's
      bytes, `back` were counted as lost and are so no longer. */
  lemma StoreFills(d: Dev, l: Log, p: nat, whole: string, back: nat)
    requires Refines(d, l) && l.PendingBytes() == "" && (l.Evicts() ==> l.hole)
    requires p != NULL && p !in d.heap && whole != "" && back <= l.lost && back <= |whole|
    ensures d.ring.Shape() && d.ring.entry[d.ring.inOffs] == EMPTY
    ensures Refines(Stored(d, p, whole, |whole| - back), l.Filled(whole).(lost := l.lost - back))
  {
    StoredAspects(d, l, p, whole, |whole| - back);
    StoredTotal(d, l, p, whole, back);
    CombineLost(Stored(d, p, whole, |whole| - back), l.Filled(whole), l.lost - back);
  }
}
