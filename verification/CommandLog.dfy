/** The reference the driver is measured against: a plain history of write commands, without buffers
    or pointers. The slots that a ring with this history uses (Padded, InOffs, OutOffs, Place) are
    functions of it. */
module CommandLog {
  import opened Sequences
  import opened CircularBuffer

  /** How one aesd_write fares with the kernel: allocation of the entry struct, allocation of the
      data buffer, copy from user space, in the order in which they are tried. */
  datatype Outcome = NoStruct | NoBuffer | CopyFault | Success

  predicate Terminated(s: string) {
    s != "" && s[|s| - 1] == '\n'
  }

  /** Every command ever completed; the unterminated command being accumulated, if any; whether the
      oldest retained command has been evicted ahead of its replacement; and the number of bytes
      of accumulated commands thrown away by copy faults. */
  datatype Log = Log(completed: seq<string>, pending: Option<string>, hole: bool, lost: nat) {

    ghost predicate WellFormed() {
      && (forall k :: 0 <= k < |completed| ==> Terminated(completed[k]))
      && (pending.Some? ==> !Terminated(pending.value))
      && (hole ==> Full() && pending.None?)
    }

    predicate Full() { |completed| >= SLOTS }

    function PendingBytes(): string {
      if pending.Some? then pending.value else ""
    }

    /** The commands a reader can still see, oldest first. */
    function Retained(): (r: seq<string>)
      ensures |r| <= SLOTS
    {
      if pending.Some? then Last(completed, SLOTS - 1) + [pending.value]
      else Last(completed, if hole then SLOTS - 1 else SLOTS)
    }

    /** The same commands spread over SLOTS places: a hole comes first, unused places last. */
    function Padded(): (r: seq<string>)
      ensures |r| == SLOTS
    {
      if hole then Empties(SLOTS - |Retained()|) + Retained()
      else Retained() + Empties(SLOTS - |Retained()|)
    }

    function Content(): string { Flatten(Retained()) }

    function Size(): nat { |Content()| + lost }

    /** The slot a write goes to, and the slot reading starts from. */
    function InOffs(): (r: nat)
      ensures r < SLOTS
    {
      |completed| % SLOTS
    }

    function OutOffs(): (r: nat)
      ensures r < SLOTS
    {
      if !Full() then 0 else if pending.Some? then Next(InOffs()) else InOffs()
    }

    /** A write into a full ring with no pending command first gives up the oldest command. */
    predicate Evicts() { Full() && pending.None? }

    function Evicted(): Log { if Evicts() then this.(hole := true) else this }

    function EvictedLength(): nat { if Evicts() then |Padded()[0]| else 0 }

    /** The pending bytes are gone, the command stays open. */
    function Dropped(): Log {
      if pending.Some? then this.(pending := Some(""), lost := lost + |pending.value|) else this
    }

    function Filled(whole: string): Log {
      if Terminated(whole) then Log(completed + [whole], None, false, lost)
      else this.(pending := Some(whole), hole := false)
    }

    function Write(data: string, outcome: Outcome): Log {
      if outcome.NoStruct? || data == "" || outcome.NoBuffer? then Evicted()
      else if outcome.CopyFault? then Evicted().Dropped()
      else Evicted().Filled(PendingBytes() + data)
    }
  }

  const EMPTY_LOG := Log([], None, false, 0)

  predicate Accepted(data: string, outcome: Outcome) {
    outcome.Success? && data != ""
  }

  /** What aesd_write answers; a zero-count write returns an uninitialised value. */
  datatype WriteResult = Wrote(n: nat) | NoMemory | BadAddress | Unset

  function WriteReturn(data: string, outcome: Outcome): WriteResult {
    if outcome.NoStruct? then NoMemory
    else if data == "" then Unset
    else if outcome.NoBuffer? then NoMemory
    else if outcome.CopyFault? then BadAddress
    else Wrote(|data|)
  }

  // ---------------------------------------------------------------------------------------------
  // One write
  // ---------------------------------------------------------------------------------------------

  lemma WriteKeepsWellFormed(l: Log, data: string, outcome: Outcome)
    requires l.WellFormed()
    ensures l.Write(data, outcome).WellFormed()
    ensures l.Full() ==> l.Write(data, outcome).Full()
  {
  }

  lemma PaddedContent(l: Log)
    ensures Flatten(l.Padded()) == l.Content()
  {
    var gap := SLOTS - |l.Retained()|;
    FlattenAppend(Empties(gap), l.Retained());
    FlattenAppend(l.Retained(), Empties(gap));
    FlattenEmpties(gap);
  }

  /** The place in reading order that the slot at InOffs occupies while it is empty or open. */
  function Place(l: Log): nat {
    if !l.Full() then |l.completed| else if l.pending.Some? then SLOTS - 1 else 0
  }

  lemma EvictedPadded(l: Log)
    requires l.WellFormed() && l.Evicts()
    ensures l.Evicted().WellFormed() && l.Evicted().Padded() == l.Padded()[0 := ""]
  {
    var q, p := l.Evicted().Padded(), l.Padded();
    forall j | 0 <= j < SLOTS ensures q[j] == p[0 := ""][j] {
      if !l.hole && j > 0 {
        assert q[j] == Last(l.completed, SLOTS - 1)[j - 1];
        assert p[j] == Last(l.completed, SLOTS)[j];
      }
    }
  }

  lemma DroppedPadded(l: Log)
    requires l.WellFormed() && l.pending.Some?
    ensures l.Dropped().WellFormed() && l.Padded()[Place(l)] == l.pending.value
    ensures l.Dropped().Padded() == l.Padded()[Place(l) := ""]
  {
  }

  lemma LastSnoc(s: seq<string>, x: string)
    ensures Last(s + [x], SLOTS) == Last(s, SLOTS - 1) + [x]
  {
  }

  lemma PaddedFirstRound(l: Log)
    requires !l.Full() && !l.hole
    ensures l.Padded() == l.completed + [l.PendingBytes()] + Empties(SLOTS - 1 - |l.completed|)
  {
    assert Last(l.completed, SLOTS - 1) == Last(l.completed, SLOTS) == l.completed;
    assert Empties(SLOTS - |l.completed|) == [""] + Empties(SLOTS - 1 - |l.completed|);
  }

  /** The places of a full ring whose open or given-up slot is empty, and of one not yet full. */
  lemma PaddedForms(l: Log)
    requires l.hole ==> l.Evicts()
    ensures l.Full() && l.hole ==> l.Padded() == [""] + Last(l.completed, SLOTS - 1)
    ensures l.Full() && l.pending.Some? ==> l.Padded() == Last(l.completed, SLOTS - 1) + [l.pending.value]
    ensures l.Full() && !l.hole && l.pending.None? ==> l.Padded() == Last(l.completed, SLOTS)
    ensures !l.Full() ==> l.Padded() == l.completed + [l.PendingBytes()] + Empties(SLOTS - 1 - |l.completed|)
  {
    if !l.Full() {
      PaddedFirstRound(l);
    }
  }

  lemma UnusedPlace(l: Log, i: nat)
    requires !l.Full() && !l.hole && |l.completed| <= i < SLOTS
    requires i == |l.completed| ==> l.pending.None?
    ensures l.Padded()[i] == ""
  {
    PaddedForms(l);
  }

  lemma ReplaceMiddle(a: seq<string>, x: string, b: seq<string>, y: string)
    ensures (a + [x] + b)[|a|] == x && (a + [x] + b)[|a| := y] == a + [y] + b
    ensures ([x] + b)[1..] == b
  {
  }

  lemma FilledForms(l: Log, whole: string)
    requires l.hole ==> l.Evicts()
    ensures l.Filled(whole).Padded() == if l.Full() then Last(l.completed, SLOTS - 1) + [whole]
                else l.completed + [whole] + Empties(SLOTS - 1 - |l.completed|)
  {
    var f := l.Filled(whole);
    PaddedForms(f);
    LastSnoc(l.completed, whole);
    if Terminated(whole) && !l.Full() {
      if f.Full() {
        assert Last(l.completed, SLOTS - 1) == l.completed;
        assert Empties(0) == [];
      } else {
        assert Empties(SLOTS - 1 - |l.completed|) == [""] + Empties(SLOTS - 2 - |l.completed|);
      }
    }
  }

  /** A finished or extended command takes the place of the open slot; a full ring with no open
      command shifts by one. */
  lemma FilledPadded(l: Log, whole: string)
    requires l.hole ==> l.Evicts()
    requires l.PendingBytes() == "" && (l.Evicts() ==> l.hole)
    ensures l.Padded()[Place(l)] == ""
    ensures l.Filled(whole).Padded()
         == if l.Evicts() then l.Padded()[1..] + [whole] else l.Padded()[Place(l) := whole]
  {
    PaddedForms(l);
    FilledForms(l, whole);
    var kept := Last(l.completed, SLOTS - 1);
    if !l.Full() {
      ReplaceMiddle(l.completed, "", Empties(SLOTS - 1 - |l.completed|), whole);
    } else if l.hole {
      ReplaceMiddle([], "", kept, whole);
    } else {
      ReplaceMiddle(kept, "", [], whole);
      assert kept + [""] + [] == kept + [""];
      assert kept + [whole] + [] == kept + [whole];
    }
  }

  lemma EvictedSize(l: Log)
    requires l.WellFormed()
    ensures l.Evicted().Size() == l.Size() - l.EvictedLength()
  {
    if l.Evicts() {
      PaddedContent(l);
      PaddedContent(l.Evicted());
      EvictedPadded(l);
      FlattenUpdate(l.Padded(), 0, "");
    }
  }

  lemma DroppedSize(l: Log)
    requires l.WellFormed()
    ensures l.Dropped().Size() == l.Size()
  {
    if l.pending.Some? {
      PaddedContent(l);
      PaddedContent(l.Dropped());
      DroppedPadded(l);
      FlattenUpdate(l.Padded(), Place(l), "");
    }
  }

  lemma FilledSize(l: Log, whole: string)
    requires l.hole ==> l.Evicts()
    requires l.PendingBytes() == "" && (l.Evicts() ==> l.hole)
    ensures |l.Filled(whole).Content()| == |l.Content()| + |whole|
  {
    var p := l.Padded();
    PaddedContent(l);
    PaddedContent(l.Filled(whole));
    FilledPadded(l, whole);
    if l.Evicts() {
      FlattenSnoc(p[1..], whole);
      assert Flatten(p) == p[0] + Flatten(p[1..]);
    } else {
      FlattenUpdate(p, Place(l), whole);
    }
  }

  lemma SameContent(a: Log, b: Log)
    requires a.completed == b.completed && a.pending == b.pending && a.hole == b.hole
    ensures a.Content() == b.Content() && a.Padded() == b.Padded()
  {
  }

  lemma FilledTotal(l: Log, whole: string, back: nat)
    requires l.hole ==> l.Evicts()
    requires l.PendingBytes() == "" && (l.Evicts() ==> l.hole) && back <= l.lost
    ensures l.Filled(whole).(lost := l.lost - back).Size() == l.Size() + |whole| - back
  {
    var f := l.Filled(whole);
    FilledSize(l, whole);
    SameContent(f, f.(lost := l.lost - back));
  }

  lemma AcceptedSize(e: Log, data: string)
    requires e.WellFormed() && (e.Evicts() ==> e.hole)
    ensures e.Filled(e.PendingBytes() + data).Size() == e.Size() + |data|
  {
    var whole := e.PendingBytes() + data;
    DroppedSize(e);
    FilledSize(e.Dropped(), whole);
    SameContent(e.Filled(whole), e.Dropped().Filled(whole));
  }

  /** Conservation: every write moves the size by what it accepted minus what it evicted; bytes
      discarded by a faulted append stay counted. */
  lemma WriteSize(l: Log, data: string, outcome: Outcome)
    requires l.WellFormed()
    ensures l.Write(data, outcome).Size()
         == l.Size() - l.EvictedLength() + if Accepted(data, outcome) then |data| else 0
  {
    EvictedSize(l);
    assert l.Evicted().WellFormed();
    DroppedSize(l.Evicted());
    if Accepted(data, outcome) {
      AcceptedSize(l.Evicted(), data);
    }
  }

  /** A successful write is an eviction, a move of the pending bytes out of and back into the log,
      and the storing of the longer command. */
  lemma WriteSuccess(l: Log, data: string, whole: string)
    requires data != "" && whole == l.PendingBytes() + data
    ensures l.Evicted().PendingBytes() == l.PendingBytes()
    ensures l.Evicted().Dropped().PendingBytes() == ""
    ensures var d := l.Evicted().Dropped();
            && |l.PendingBytes()| <= d.lost
            && l.Write(data, Success) == d.Filled(whole).(lost := d.lost - |l.PendingBytes()|)
  {
  }
}
