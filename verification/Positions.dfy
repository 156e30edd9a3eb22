/** What reads and seeks mean in terms of the command history. */
module Positions {
  import opened Sequences
  import opened CircularBuffer
  import opened CommandLog

  const EINVAL := 22
  const SIZE_T_RANGE: nat := 0x1_0000_0000_0000_0000
  const COUNTER_RANGE: nat := 0x1_0000   // read_bytes is a uint16_t

  /** A file position as the size_t the ring search receives. */
  function ToSizeT(fpos: int): nat {
    fpos % SIZE_T_RANGE
  }

  // ---------------------------------------------------------------------------------------------
  // aesd_read
  // ---------------------------------------------------------------------------------------------

  /** Bytes copied from an entry of the given size, starting at off: the loop compares the offset
      inside the entry, not the number of bytes read, with the requested count. */
  function ReadLen(size: nat, off: nat, count: nat): (n: nat)
    requires off < size
    ensures 1 <= n <= size - off
  {
    var wanted := if count - off > 1 then count - off else 1;
    if size - off < wanted then size - off else wanted
  }

  /** Bytes read at a position in pieces laid end to end: from one piece only. */
  function ReadPieces(pieces: seq<string>, position: nat, count: nat): string {
    if pieces == [] then ""
    else if position < |pieces[0]| then pieces[0][position..position + ReadLen(|pieces[0]|, position, count)]
    else ReadPieces(pieces[1..], position - |pieces[0]|, count)
  }

  function ReadBytes(l: Log, position: nat, count: nat): string {
    ReadPieces(l.Padded(), position, count)
  }

  lemma {:induction false} ReadPiecesLocate(pieces: seq<string>, position: nat, count: nat)
    ensures match Locate(Lengths(pieces), position)
            case None => ReadPieces(pieces, position, count) == ""
            case Some(at) =>
              && at.0 < |pieces| && at.1 < |pieces[at.0]|
              && ReadPieces(pieces, position, count)
                 == pieces[at.0][at.1..at.1 + ReadLen(|pieces[at.0]|, at.1, count)]
  {
    if pieces != [] && position >= |pieces[0]| {
      assert Lengths(pieces)[1..] == Lengths(pieces[1..]);
      ReadPiecesLocate(pieces[1..], position - |pieces[0]|, count);
    }
  }

  /** The read's 16-bit counter does not wrap. */
  predicate ReadFits(l: Log, position: nat, count: nat) {
    |ReadBytes(l, position, count)| < COUNTER_RANGE
  }

  lemma SliceOfHead(head: string, tail: string, position: nat, n: nat)
    requires position + n <= |head|
    ensures head[position..position + n] <= Drop(head + tail, position)
  {
    assert Drop(head + tail, position) == head[position..] + tail;
    assert head[position..position + n] == head[position..][..n];
  }

  lemma DropHead(head: string, tail: string, position: nat)
    requires position >= |head|
    ensures Drop(head + tail, position) == Drop(tail, position - |head|)
  {
  }

  lemma {:induction false} ReadPiecesIsSlice(pieces: seq<string>, position: nat, count: nat)
    ensures var data := ReadPieces(pieces, position, count);
            && (data == "" <==> position >= |Flatten(pieces)|)
            && data <= Drop(Flatten(pieces), position)
            && |data| <= if count >= 1 then count else 1
  {
    if pieces != [] {
      var head, tail := pieces[0], Flatten(pieces[1..]);
      if position < |head| {
        SliceOfHead(head, tail, position, ReadLen(|head|, position, count));
      } else {
        ReadPiecesIsSlice(pieces[1..], position - |head|, count);
        DropHead(head, tail, position);
      }
    }
  }

  /** A read returns the content from the position on, and nothing exactly at or past the end. */
  lemma ReadIsSlice(l: Log, position: nat, count: nat)
    ensures ReadBytes(l, position, count) == "" <==> position >= |l.Content()|
    ensures ReadBytes(l, position, count) <= Drop(l.Content(), position)
    ensures |ReadBytes(l, position, count)| <= if count >= 1 then count else 1
  {
    PaddedContent(l);
    ReadPiecesIsSlice(l.Padded(), position, count);
  }

  /** What a read at a position of a 64-bit loff_t delivers: from 0 on, consecutive content, and nothing
      exactly at or past the end. A negative position, which an eviction can cause in a file that has
      written less than was evicted, becomes a huge one: nothing. */
  lemma ReadAtPosition(l: Log, fpos: int, count: nat)
    requires -0x8000_0000_0000_0000 <= fpos <= 0x7fff_ffff_ffff_ffff
    ensures var data := ReadBytes(l, ToSizeT(fpos), count);
            && (fpos >= 0 ==> data <= Drop(l.Content(), fpos) && (data == "" <==> fpos >= |l.Content()|))
            && (fpos < 0 && |l.Content()| <= 0x8000_0000_0000_0000 ==> data == "")
  {
    if fpos >= 0 {
      assert ToSizeT(fpos) == fpos;
    }
    ReadIsSlice(l, ToSizeT(fpos), count);
  }

  /** A read call asking for at most 65535 bytes always fits, whatever the device holds. */
  lemma SmallCountsFit(l: Log, position: nat, count: nat)
    requires count <= 65535
    ensures ReadFits(l, position, count)
  {
    ReadIsSlice(l, position, count);
  }

  /** The copy loop as the source runs it, k iterations in: a counter that wraps at 16 bits. */
  datatype CopyLoop = Running(readBytes: nat) | Exited(readBytes: nat)

  function CopyLoopStep(size: nat, off: nat, count: nat, s: CopyLoop): CopyLoop {
    match s
    case Exited(n) => Exited(n)
    case Running(n) =>
      var m := (n + 1) % COUNTER_RANGE;
      if m + off >= count || m + off >= size then Exited(m) else Running(m)
  }

  function CopyLoopAfter(size: nat, off: nat, count: nat, k: nat): CopyLoop {
    if k == 0 then (if off < size then Running(0) else Exited(0))
    else CopyLoopStep(size, off, count, CopyLoopAfter(size, off, count, k - 1))
  }

  /** Where the loop stands after k iterations when its target is n. */
  function CopyLoopAt(n: nat, k: nat): CopyLoop {
    if n < COUNTER_RANGE && k >= n then Exited(n) else Running(k % COUNTER_RANGE)
  }

  lemma CopyLoopNext(size: nat, off: nat, count: nat, k: nat)
    requires off < size
    ensures var n := ReadLen(size, off, count);
            CopyLoopStep(size, off, count, CopyLoopAt(n, k)) == CopyLoopAt(n, k + 1)
  {
    var n, m := ReadLen(size, off, count), k % COUNTER_RANGE;
    assert (k + 1) % COUNTER_RANGE == (m + 1) % COUNTER_RANGE;
    if n < COUNTER_RANGE && k < n {
      assert m == k;
    }
  }

  lemma {:induction false} CopyLoopTrace(size: nat, off: nat, count: nat, k: nat)
    requires off < size
    ensures CopyLoopAfter(size, off, count, k) == CopyLoopAt(ReadLen(size, off, count), k)
  {
    if k > 0 {
      CopyLoopTrace(size, off, count, k - 1);
      CopyLoopNext(size, off, count, k - 1);
    }
  }

  /** The copy loop of aesd_read comes to an end exactly when its target fits the 16-bit counter,
      and then it has copied exactly that many bytes. */
  lemma CopyLoopEndsIff(size: nat, off: nat, count: nat)
    requires off < size
    ensures (exists k :: CopyLoopAfter(size, off, count, k).Exited?) <==> ReadLen(size, off, count) < 65536
    ensures forall k :: CopyLoopAfter(size, off, count, k).Exited?
              ==> CopyLoopAfter(size, off, count, k) == Exited(ReadLen(size, off, count))
  {
    forall k: nat ensures CopyLoopAfter(size, off, count, k) == CopyLoopAt(ReadLen(size, off, count), k) {
      CopyLoopTrace(size, off, count, k);
    }
    assert ReadLen(size, off, count) < COUNTER_RANGE ==>
      CopyLoopAfter(size, off, count, ReadLen(size, off, count)).Exited?;
  }

  /** A read call honours the requested count exactly when the count is positive or the position is
      at or past the end. */
  lemma ReadHonoursCountIff(l: Log, position: nat, count: nat)
    ensures |ReadBytes(l, position, count)| <= count <==> count >= 1 || position >= |l.Content()|
  {
    ReadIsSlice(l, position, count);
  }

  lemma PlaceRead(l: Log, j: nat, o: nat, count: nat)
    requires j < SLOTS && o < |l.Padded()[j]|
    ensures ReadBytes(l, |Flatten(l.Padded()[..j])| + o, count)
         == l.Padded()[j][o..o + ReadLen(|l.Padded()[j]|, o, count)]
  {
    var pieces, position := l.Padded(), |Flatten(l.Padded()[..j])| + o;
    FlattenPrefixLength(pieces, j);
    LocateIff(Lengths(pieces), position, j, o);
    ReadPiecesLocate(pieces, position, count);
  }

  /** A read that starts at byte o of a command stops there after count - o bytes, or one, since the copy
      loop compares the offset inside the command with the count. It delivers as many bytes as asked for,
      or as are left in the command, exactly when the count is positive and it starts at the command's
      first byte, asks for one byte, starts at the last one, or asks for at least the command's length. */
  lemma ShortReadIff(l: Log, j: nat, o: nat, count: nat)
    requires j < SLOTS && o < |l.Padded()[j]|
    ensures var piece := l.Padded()[j];
            var data := ReadBytes(l, |Flatten(l.Padded()[..j])| + o, count);
            && o + |data| <= |piece| && data == piece[o..o + |data|]
            && |data| == (if count <= o + 1 then 1 else if count < |piece| then count - o else |piece| - o)
            && ((|data| == if count < |piece| - o then count else |piece| - o)
                <==> count >= 1 && (o == 0 || count == 1 || o == |piece| - 1 || count >= |piece|))
  {
    PlaceRead(l, j, o, count);
  }

  // ---------------------------------------------------------------------------------------------
  // aesd_llseek
  // ---------------------------------------------------------------------------------------------

  datatype Whence = SeekSet | SeekCur | SeekEnd | Invalid

  /** The new position, or nothing for an unknown whence. */
  function SeekTarget(l: Log, fpos: int, off: int, whence: Whence): Option<int> {
    match whence
    case SeekSet => Some(off)
    case SeekCur => Some(fpos + off)
    case SeekEnd => Some(l.Size())
    case Invalid => None
  }

  // ---------------------------------------------------------------------------------------------
  // The SEEKTO ioctl
  // ---------------------------------------------------------------------------------------------

  /** The value aesd_adjust_file_offset returns: a position, or something negative. */
  function SeekTo(l: Log, w: nat, o: nat): int {
    if w >= SLOTS - 1 then -EINVAL else SeekOffset(Lengths(l.Padded()), l.OutOffs(), w, o)
  }

  function Answer(r: int): Option<nat> {
    if r < 0 then None else Some(r)
  }

  /** The position of byte o of command w among commands laid end to end. */
  function PlaceOf(commands: seq<string>, w: nat, o: nat): Option<nat> {
    if w < |commands| && o < |commands[w]| then Some(|Flatten(commands[..w])| + o) else None
  }

  /** The documented meaning: byte o of the zero-referenced retained write command w. */
  function Documented(l: Log, w: nat, o: nat): Option<nat> {
    PlaceOf(l.Retained(), w, o)
  }

  /** When the ioctl numbers commands as documented. Below the bound of nine: reading starts at
      slot zero and no command is missing, or the one accidental case in which the missing command's
      slot is the last one. At nine: there is no tenth command to be refused. */
  predicate NumbersAsDocumented(l: Log, w: nat) {
    if w < SLOTS - 1 then
      (l.OutOffs() == 0 && !l.hole) || (l.OutOffs() == SLOTS - 1 && l.hole && w == 0)
    else w == SLOTS - 1 && |l.Retained()| == SLOTS ==> l.Retained()[w] == ""
  }

  lemma PaddedKept(l: Log)
    requires l.WellFormed()
    ensures l.hole ==> |l.Retained()| == SLOTS - 1 && l.Padded() == [""] + l.Retained()
    ensures !l.hole ==> l.Padded() == l.Retained() + Empties(SLOTS - |l.Retained()|)
  {
  }

  lemma PlaceInSuffix(kept: seq<string>, w: nat, o: nat)
    requires w < |kept|
    ensures Answer(PositionIn(Lengths([""] + kept), w + 1, o)) == PlaceOf(kept, w, o)
  {
    var p := [""] + kept;
    assert Sum(Lengths(p)[..w + 1]) == |Flatten(kept[..w])| by {
      FlattenPrefixLength(p, w + 1);
      FlattenAppend([""], kept[..w]);
      assert p[..w + 1] == [""] + kept[..w];
    }
    assert Lengths(p)[w + 1] == |kept[w]|;
  }

  lemma PlaceInPrefix(kept: seq<string>, rest: seq<string>, w: nat, o: nat)
    requires w < |kept| + |rest| && forall j :: 0 <= j < |rest| ==> rest[j] == ""
    ensures Answer(PositionIn(Lengths(kept + rest), w, o)) == PlaceOf(kept, w, o)
  {
    var p := kept + rest;
    FlattenPrefixLength(p, w);
    if w < |kept| {
      assert p[..w] == kept[..w];
    }
  }

  /** The places of the retained commands: one further on when a hole precedes them. */
  lemma DocumentedPlace(l: Log, w: nat, o: nat)
    requires l.WellFormed()
    requires w + (if l.hole then 1 else 0) < SLOTS
    ensures Documented(l, w, o) == Answer(PositionIn(Lengths(l.Padded()), w + if l.hole then 1 else 0, o))
  {
    PaddedKept(l);
    if l.hole {
      PlaceInSuffix(l.Retained(), w, o);
    } else {
      PlaceInPrefix(l.Retained(), Empties(SLOTS - |l.Retained()|), w, o);
    }
  }

  /** In a ring that has wrapped, only the hole and a pending command emptied by a fault are empty. */
  lemma EmptyPlaces(l: Log, j: nat)
    requires l.WellFormed() && l.Full() && j < SLOTS && l.Padded()[j] == ""
    ensures if l.hole then j == 0 else j == SLOTS - 1
  {
    assert forall k :: 0 <= k < |l.completed| ==> l.completed[k] != "";
  }

  lemma SeekByPlace(s: seq<nat>, out: nat, w: nat, o: nat)
    requires |s| == SLOTS && out < SLOTS && w < SLOTS && (w >= out || s[w] == 0)
    ensures SeekOffset(s, out, w, o) == PositionIn(s, (w + 10 - out) % 10, o)
  {
  }

  lemma PlaceByLengths(pieces: seq<string>, j: nat, o: nat)
    requires j < |pieces|
    ensures Answer(PositionIn(Lengths(pieces), j, o)) == PlaceOf(pieces, j, o)
    ensures PositionIn(Lengths(pieces), j, o) < 0 <==> o >= |pieces[j]|
  {
    FlattenPrefixLength(pieces, j);
  }

  /** What the ioctl answers, for every command number and offset: nothing from 9 on; the bare offset for
      a number below the read slot's whose place in reading order holds data; otherwise, by physical slot,
      the position of the offset in that slot, or nothing when it is past the slot's end. */
  lemma SeekToCases(l: Log, w: nat, o: nat)
    requires l.WellFormed()
    ensures w >= 9 ==> Answer(SeekTo(l, w, o)).None?
    ensures w < 9 && w < l.OutOffs() && l.Padded()[w] != "" ==> SeekTo(l, w, o) == o
    ensures w < 9 && (w >= l.OutOffs() || l.Padded()[w] == "") ==>
              var j := (w + 10 - l.OutOffs()) % 10;
              && Answer(SeekTo(l, w, o)) == PlaceOf(l.Padded(), j, o)
              && (SeekTo(l, w, o) < 0 <==> o >= |l.Padded()[j]|)
  {
    if w < SLOTS - 1 && (w >= l.OutOffs() || l.Padded()[w] == "") {
      SeekByPlace(Lengths(l.Padded()), l.OutOffs(), w, o);
      PlaceByLengths(l.Padded(), (w + 10 - l.OutOffs()) % 10, o);
    }
  }

  /** An offset on which two numberings of the places differ. */
  lemma SeekDiffers(s: seq<nat>, out: nat, w: nat, hole: bool) returns (o: nat)
    requires |s| == SLOTS && out < SLOTS && w < SLOTS - 1
    requires forall j :: 0 <= j < SLOTS && s[j] == 0 ==> if hole then j == 0 else j == SLOTS - 1
    requires hole ==> s[0] == 0
    requires hole || out > 0
    requires !(hole && out == SLOTS - 1 && w == 0)
    ensures Answer(SeekOffset(s, out, w, o)) != Answer(PositionIn(s, w + if hole then 1 else 0, o))
  {
    var at := w + if hole then 1 else 0;
    assert s[at] > 0;
    o := 0;
    if out <= w {
      if s[w - out] > 0 {
        SumStep(s, w - out);
        SumMonotone(s, w - out + 1, at);
      }
    } else if s[w] > 0 {
      o := s[at];
    } else {
      assert s[1] > 0 && s[SLOTS - out] > 0;
      SumStep(s, 0);
      SumStep(s, 1);
      SumMonotone(s, 2, SLOTS - out);
    }
  }

  /** The two cases in which both numberings of the places agree. */
  lemma SeekMatches(s: seq<nat>, out: nat, w: nat, o: nat, hole: bool)
    requires |s| == SLOTS && out < SLOTS && w < SLOTS - 1
    requires if hole then out == SLOTS - 1 && w == 0 && s[0] == 0 else out == 0
    ensures SeekOffset(s, out, w, o) == PositionIn(s, w + if hole then 1 else 0, o)
  {
  }

  lemma SeekToAgrees(l: Log, w: nat, o: nat)
    requires l.WellFormed() && w < SLOTS - 1 && NumbersAsDocumented(l, w)
    ensures Answer(SeekTo(l, w, o)) == Documented(l, w, o)
  {
    assert l.hole ==> l.Padded()[0] == "" by {
      PaddedKept(l);
    }
    SeekMatches(Lengths(l.Padded()), l.OutOffs(), w, o, l.hole);
    DocumentedPlace(l, w, o);
  }

  lemma SeekToDiffers(l: Log, w: nat) returns (o: nat)
    requires l.WellFormed() && w < SLOTS - 1 && !NumbersAsDocumented(l, w)
    ensures Answer(SeekTo(l, w, o)) != Documented(l, w, o)
  {
    var s := Lengths(l.Padded());
    forall j | 0 <= j < SLOTS && s[j] == 0 ensures if l.hole then j == 0 else j == SLOTS - 1 {
      assert l.Padded()[j] == "";
      EmptyPlaces(l, j);
    }
    if l.hole {
      assert l.Padded()[0] == "";
    }
    o := SeekDiffers(s, l.OutOffs(), w, l.hole);
    DocumentedPlace(l, w, o);
  }

  /** In a full ring without a hole whose read slot has moved, the ioctl answers as documented for the
      first command and an offset exactly when the offset is inside that command: past its end it
      answers the offset, where an error is documented. */
  lemma FirstCommandIff(l: Log, o: nat)
    requires l.WellFormed() && l.Full() && !l.hole && l.OutOffs() > 0
    ensures |l.Retained()| > 0 && SeekTo(l, 0, o) == o
    ensures Answer(SeekTo(l, 0, o)) == Documented(l, 0, o) <==> o < |l.Retained()[0]|
  {
    if l.Padded()[0] == "" {
      EmptyPlaces(l, 0);
    }
    SeekToCases(l, 0, o);
    PaddedKept(l);
  }

  /** Every command from the bound of nine on is refused, the tenth retained one included. */
  lemma SeekToBound(l: Log, w: nat)
    requires w >= SLOTS - 1
    ensures NumbersAsDocumented(l, w) <==> forall o: nat :: Documented(l, w, o).None?
  {
    if !NumbersAsDocumented(l, w) {
      assert Documented(l, w, 0).Some?;
    }
  }

  /** The ioctl answers as documented for every offset exactly in the states listed above. */
  lemma SeekToIff(l: Log, w: nat)
    requires l.WellFormed()
    ensures (forall o: nat :: Answer(SeekTo(l, w, o)) == Documented(l, w, o)) <==> NumbersAsDocumented(l, w)
  {
    if w >= SLOTS - 1 {
      SeekToBound(l, w);
      assert forall o: nat :: Answer(SeekTo(l, w, o)).None?;
    } else if NumbersAsDocumented(l, w) {
      forall o: nat ensures Answer(SeekTo(l, w, o)) == Documented(l, w, o) {
        SeekToAgrees(l, w, o);
      }
    } else {
      var o := SeekToDiffers(l, w);
    }
  }

  lemma FromPlace(commands: seq<string>, w: nat, o: nat)
    requires w < |commands| && o < |commands[w]|
    ensures PlaceOf(commands, w, o).value < |Flatten(commands)|
    ensures Drop(Flatten(commands), PlaceOf(commands, w, o).value) == commands[w][o..] + Flatten(commands[w + 1..])
  {
    FlattenSplit(commands, w);
    var head, tail := Flatten(commands[..w]), Flatten(commands[w + 1..]);
    assert (head + commands[w] + tail)[|head| + o..] == commands[w][o..] + tail;
  }

  /** From a documented position on, the content is the rest of that command and all later ones. */
  lemma DocumentedContent(l: Log, w: nat, o: nat)
    requires Documented(l, w, o).Some?
    ensures Documented(l, w, o).value < |l.Content()|
    ensures Drop(l.Content(), Documented(l, w, o).value)
         == l.Retained()[w][o..] + Flatten(l.Retained()[w + 1..])
  {
    FromPlace(l.Retained(), w, o);
  }
}
