/** The character device (main.c). Reads, writes and the SEEKTO ioctl run under the device mutex, so
    each is one atomic step. A plain seek takes no lock; it is modelled as a step of its own. */
module Driver {
  import opened Sequences
  import opened CircularBuffer
  import opened KernelMemory
  import opened CommandLog
  import opened Positions
  import opened WriteRuns
  import opened Refinement

  class OpenFile {
    var fpos: int

    constructor (fpos: int)
      ensures this.fpos == fpos
    {
      this.fpos := fpos;
    }
  }

  class AesdDevice {
    const circBuffer: AesdCircularBuffer
    const mem: Kmem
    var writeEntryNewFlag: bool
    var size: nat
    /** The history the fields stand for. */
    ghost var log: Log

    ghost predicate Valid()
      reads this, circBuffer, circBuffer.entry, mem
    {
      Refines(Snapshot(), log)
    }

    ghost function Snapshot(): Dev
      reads this, circBuffer, circBuffer.entry, mem
    {
      Dev(circBuffer.Snapshot(), mem.live, writeEntryNewFlag, size)
    }

    /** aesd_init_module: an empty ring, ready for a new command. */
    constructor ()
      ensures Valid() && log == EMPTY_LOG
      ensures fresh(circBuffer) && fresh(circBuffer.entry) && fresh(mem)
    {
      circBuffer := new AesdCircularBuffer.Init();
      mem := new Kmem();
      writeEntryNewFlag := true;
      size := 0;
      log := EMPTY_LOG;
      new;
      EmptyDevice(Snapshot());
    }

    /** The device is in order apart from one more live buffer, p, that no slot knows yet. */
    ghost predicate ValidBeside(p: nat)
      reads this, circBuffer, circBuffer.entry, mem
    {
      p != NULL && p in mem.live && mem.Valid() && Refines(SnapshotBeside(p), log)
    }

    ghost function SnapshotBeside(p: nat): Dev
      reads this, circBuffer, circBuffer.entry, mem
    {
      Dev(circBuffer.Snapshot(), mem.live - {p}, writeEntryNewFlag, size)
    }

    /** A full ring with no open entry gives up its oldest entry before anything else is tried. */
    method EvictOldest(file: OpenFile)
      requires Valid()
      modifies this, circBuffer.entry, mem, file
      ensures Valid()
      ensures log == old(log).Evicted()
      ensures file.fpos - size == old(file.fpos - size)
    {
      ghost var d := Snapshot();
      WriteSlotFacts(d, log);
      if circBuffer.full && writeEntryNewFlag {
        ClearEvicts(d, log);
        var oldEntry := circBuffer.entry[circBuffer.inOffs];
        if oldEntry.buffptr != NULL {
          size := size - oldEntry.size;
          file.fpos := file.fpos - oldEntry.size;
          mem.Kfree(oldEntry.buffptr);
          circBuffer.entry[circBuffer.inOffs] := EMPTY;
        }
        assert Snapshot() == Cleared(d, oldEntry.size) by {
          assert mem.live == d.heap - {oldEntry.buffptr};
          assert circBuffer.entry[..] == d.ring.entry[circBuffer.inOffs := EMPTY];
        }
      }
      log := log.Evicted();
    }

    /** The open entry's bytes move to the front of the new buffer p and its own buffer is freed. */
    method MoveOpenEntry(p: nat)
      requires ValidBeside(p) && log.pending.Some?
      requires circBuffer.Valid() && circBuffer.entry[circBuffer.inOffs].size <= |mem.live[p]|
      modifies this`log, circBuffer.entry, mem
      ensures ValidBeside(p) && log == old(log).Dropped()
      ensures |mem.live[p]| == |old(mem.live[p])|
      ensures |old(log).PendingBytes()| == old(circBuffer.entry[circBuffer.inOffs].size) <= |mem.live[p]|
      ensures mem.live[p][..|old(log).PendingBytes()|] == old(log).PendingBytes()
    {
      ghost var d := SnapshotBeside(p);
      WriteSlotFacts(d, log);
      ClearDrops(d, log);
      var open := circBuffer.entry[circBuffer.inOffs];
      if open.size > 0 {
        OverwriteHead(mem.live[p], log.pending.value);
        mem.Store(p, 0, mem.live[open.buffptr][..open.size]);
      }
      mem.Kfree(open.buffptr);
      circBuffer.entry[circBuffer.inOffs] := EMPTY;
      assert SnapshotBeside(p) == Cleared(d, 0) by {
        assert mem.live - {p} == d.heap - {open.buffptr};
        assert circBuffer.entry[..] == d.ring.entry[circBuffer.inOffs := EMPTY];
      }
      log := log.Dropped();
    }

    /** A buffer for the new entry, starting with the bytes of the open entry if there is one. */
    method PrepareBuffer(count: nat, available: bool) returns (p: nat, bufOffset: nat)
      requires Valid() && count > 0
      modifies this`log, circBuffer.entry, mem
      ensures (p != NULL) == available
      ensures p == NULL ==> Valid() && log == old(log)
      ensures p != NULL ==> ValidBeside(p) && log == old(log).Dropped()
      ensures p != NULL ==> |mem.live[p]| == bufOffset + count && mem.live[p][..bufOffset] == old(log).PendingBytes()
    {
      bufOffset := 0;
      ghost var d := Snapshot();
      WriteSlotFacts(d, log);
      if !writeEntryNewFlag {
        bufOffset := circBuffer.entry[circBuffer.inOffs].size;
        p := mem.Kmalloc(count + bufOffset, available);
        if p == NULL {
          return;
        }
        assert mem.live - {p} == d.heap;
        assert SnapshotBeside(p) == d;
        MoveOpenEntry(p);
      } else {
        p := mem.Kmalloc(count, available);
        if p == NULL {
          return;
        }
        assert mem.live - {p} == d.heap;
        assert SnapshotBeside(p) == d;
      }
    }

    /** The entry goes into the ring, complete if its last byte is a newline. */
    method AddBuffer(p: nat, size: nat)
      requires circBuffer.Valid() && p in mem.live && 0 < size == |mem.live[p]|
      modifies `writeEntryNewFlag, circBuffer, circBuffer.entry
      ensures circBuffer.Snapshot()
           == old(circBuffer.Snapshot()).Add(Entry(p, size), Terminated(mem.live[p]), old(writeEntryNewFlag))
      ensures writeEntryNewFlag == Terminated(mem.live[p])
    {
      if mem.live[p][size - 1] != '\n' {
        circBuffer.AddEntry(Entry(p, size), false, writeEntryNewFlag);
        writeEntryNewFlag := false;
      } else {
        circBuffer.AddEntry(Entry(p, size), true, writeEntryNewFlag);
        writeEntryNewFlag := true;
      }
    }

    /** The filled buffer p becomes the entry in the write slot. */
    method CommitEntry(file: OpenFile, p: nat, count: nat, bufOffset: nat)
      requires ValidBeside(p)
      requires log.PendingBytes() == "" && (log.Evicts() ==> log.hole) && bufOffset <= log.lost
      requires count > 0 && |mem.live[p]| == bufOffset + count
      modifies this, circBuffer, circBuffer.entry, file
      ensures Valid()
      ensures log == old(log).Filled(mem.live[p]).(lost := old(log).lost - bufOffset)
      ensures file.fpos == old(file.fpos) + count && size == old(size) + count
    {
      ghost var d := SnapshotBeside(p);
      ghost var whole := mem.live[p];
      StoreFills(d, log, p, whole, bufOffset);
      AddBuffer(p, count + bufOffset);
      file.fpos := file.fpos + count;
      size := size + count;
      assert (mem.live - {p})[p := whole] == mem.live;
      assert Snapshot() == Stored(d, p, whole, count);
      log := log.Filled(whole).(lost := log.lost - bufOffset);
    }

    /** Whatever the outcome, the device goes on to represent the history extended by this write,
        and the writer's position moves with the device size. The answer is a count exactly when the
        write is accepted, and then the number of bytes the history has gained; a bad address means
        that nothing is pending any more. */
    method AesdWrite(file: OpenFile, buf: string, outcome: Outcome) returns (retval: WriteResult)
      requires Valid()
      modifies this, circBuffer, circBuffer.entry, mem, file
      ensures Valid()
      ensures log == old(log).Write(buf, outcome)
      ensures file.fpos - size == old(file.fpos - size)
      ensures retval == WriteReturn(buf, outcome)
      ensures retval.Wrote? <==> outcome == Success && buf != ""
      ensures retval.Wrote? ==> retval.n == |Stream(log)| - |Stream(old(log))| == |buf|
      ensures retval.NoMemory? <==> outcome == NoStruct || (outcome == NoBuffer && buf != "")
      ensures retval.BadAddress? <==> outcome == CopyFault && buf != ""
      ensures retval.BadAddress? ==> log.PendingBytes() == ""
    {
      WriteAnswers(log, buf, outcome);
      var count := |buf|;
      EvictOldest(file);
      if outcome.NoStruct? {
        return NoMemory;
      }
      if count == 0 {
        return Unset;
      }
      var p, bufOffset := PrepareBuffer(count, !outcome.NoBuffer?);
      if p == NULL {
        return NoMemory;
      }
      if outcome.CopyFault? {
        mem.Kfree(p);
        return BadAddress;
      }
      OverwriteTail(mem.live[p], buf);
      WriteSuccess(old(log), buf, old(log).PendingBytes() + buf);
      ghost var others := mem.live - {p};
      mem.Store(p, bufOffset, buf);
      assert mem.live - {p} == others;
      CommitEntry(file, p, count, bufOffset);
      return Wrote(count);
    }

    /** Copies bytes of the one entry the position falls in. The 16-bit counter must not wrap: the
        loop would not end otherwise. */
    method AesdRead(file: OpenFile, count: nat) returns (data: string)
      requires Valid()
      requires ReadFits(log, ToSizeT(file.fpos), count)
      modifies file
      ensures Valid()
      ensures data == ReadBytes(log, ToSizeT(old(file.fpos)), count)
      ensures file.fpos == old(file.fpos) + |data|
    {
      ReadFinds(Snapshot(), log, ToSizeT(file.fpos), count);
      data := "";
      var found := circBuffer.FindEntryOffsetForFpos(ToSizeT(file.fpos));
      if found.None? {
        return;
      }
      var slot, off := found.value.0, found.value.1;
      var entry := circBuffer.entry[slot];
      data := CopyToUser(entry, off, count);
      file.fpos := file.fpos + |data|;
    }

    /** The copy loop of aesd_read. */
    method CopyToUser(entry: Entry, off: nat, count: nat) returns (data: string)
      requires entry.buffptr != NULL && entry.buffptr in mem.live
      requires off < entry.size == |mem.live[entry.buffptr]|
      requires ReadLen(entry.size, off, count) < COUNTER_RANGE
      ensures data == mem.live[entry.buffptr][off..off + ReadLen(entry.size, off, count)]
    {
      var readBytes := 0;
      data := "";
      while readBytes + off < entry.size
        invariant 0 <= readBytes <= ReadLen(entry.size, off, count)
        invariant readBytes == 0 || readBytes + off < count
        invariant data == mem.live[entry.buffptr][off..off + readBytes]
      {
        if entry.buffptr != NULL {
          data := data + [mem.live[entry.buffptr][readBytes + off]];
          readBytes := (readBytes + 1) % COUNTER_RANGE;
          if readBytes + off >= count {
            break;
          }
        }
      }
    }

    method AesdLlseek(file: OpenFile, off: int, whence: Whence) returns (newpos: Option<int>)
      requires Valid()
      modifies file
      ensures Valid()
      ensures newpos == SeekTarget(log, old(file.fpos), off, whence)
      ensures file.fpos == if newpos.Some? then newpos.value else old(file.fpos)
    {
      match whence {
        case SeekSet => newpos := Some(off);
        case SeekCur => newpos := Some(file.fpos + off);
        case SeekEnd =>
          TotalSize(Snapshot(), log);
          newpos := Some(size);
        case Invalid => return None;
      }
      file.fpos := newpos.value;
    }

    /** The SEEKTO ioctl: a negative answer leaves the position alone. */
    method AesdAdjustFileOffset(file: OpenFile, writeCmd: nat, writeCmdOffset: nat) returns (offset: int)
      requires Valid()
      modifies file
      ensures Valid()
      ensures offset == SeekTo(log, writeCmd, writeCmdOffset)
      ensures file.fpos == if offset < 0 then old(file.fpos) else offset
    {
      if writeCmd >= SLOTS - 1 {
        return -EINVAL;
      }
      ReadOrder(Snapshot(), log);
      offset := circBuffer.FindOffset(writeCmd, writeCmdOffset);
      if offset < 0 {
        return;
      }
      file.fpos := offset;
    }

    /** aesd_cleanup_module: every data buffer is freed, each exactly once. */
    method AesdCleanup()
      requires Valid()
      modifies circBuffer.entry, mem
      ensures mem.live == map[]
      ensures forall i :: 0 <= i < circBuffer.entry.Length ==> circBuffer.entry[i].buffptr == NULL
    {
      LiveBuffers(Snapshot(), log);
      WriteSlotFacts(Snapshot(), log);
      var index := 0;
      while index < SLOTS
        invariant 0 <= index <= SLOTS == circBuffer.entry.Length && mem.Valid()
        invariant forall i :: 0 <= i < index ==> circBuffer.entry[i].buffptr == NULL
        invariant Unshared(circBuffer.entry[..])
        invariant mem.live.Keys == Buffers(circBuffer.entry[..])
      {
        ghost var es := circBuffer.entry[..];
        if circBuffer.entry[index].buffptr != NULL {
          mem.Kfree(circBuffer.entry[index].buffptr);
          circBuffer.entry[index] := circBuffer.entry[index].(buffptr := NULL);
          assert circBuffer.entry[..] == es[index := es[index].(buffptr := NULL)];
          BuffersWithout(es, index);
        }
        index := index + 1;
      }
      assert Buffers(circBuffer.entry[..]) == {};
    }
  }
}
