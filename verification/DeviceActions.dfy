/** The driver's methods carry out the steps that runs are made of. */
module DeviceActions {
  import opened CommandLog
  import opened Positions
  import opened Refinement
  import opened Driver
  import opened DeviceRuns

  /** The device's history and the positions of its open files. */
  ghost function WorldOf(dev: AesdDevice, files: seq<OpenFile>): World
    reads dev, files
  {
    World(dev.log, seq(|files|, i requires 0 <= i < |files| reads files => files[i].fpos))
  }

  ghost predicate Distinct(files: seq<OpenFile>) {
    forall i, j :: 0 <= i < j < |files| ==> files[i] != files[j]
  }

  lemma WriteStep(w: World, w': World, f: nat, data: string, outcome: Outcome)
    requires f < |w.fpos| == |w'.fpos| && w'.log == w.log.Write(data, outcome)
    requires w'.fpos[f] - w'.log.Size() == w.fpos[f] - w.log.Size()
    requires forall i :: 0 <= i < |w.fpos| && i != f ==> w'.fpos[i] == w.fpos[i]
    ensures w' == Step(w, Write(f, data, outcome))
  {
    assert w'.fpos == w.fpos[f := w'.fpos[f]];
  }

  method PerformWrite(dev: AesdDevice, files: seq<OpenFile>, f: nat, data: string, outcome: Outcome)
    returns (result: CallResult)
    requires dev.Valid() && Distinct(files) && f < |files|
    modifies dev, dev.circBuffer, dev.circBuffer.entry, dev.mem, files
    ensures dev.Valid()
    ensures WorldOf(dev, files) == Step(old(WorldOf(dev, files)), Write(f, data, outcome))
    ensures result == ResultOf(old(WorldOf(dev, files)), Write(f, data, outcome))
  {
    ghost var w := WorldOf(dev, files);
    TotalSize(dev.Snapshot(), dev.log);
    var retval := dev.AesdWrite(files[f], data, outcome);
    TotalSize(dev.Snapshot(), dev.log);
    WriteStep(w, WorldOf(dev, files), f, data, outcome);
    result := WriteDone(retval);
  }

  lemma ReadStep(w: World, w': World, f: nat, count: nat, output: string)
    requires f < |w.fpos| == |w'.fpos| && output == ReadBytes(w.log, ToSizeT(w.fpos[f]), count)
    requires w'.log == w.log && w'.fpos[f] == w.fpos[f] + |output|
    requires forall i :: 0 <= i < |w.fpos| && i != f ==> w'.fpos[i] == w.fpos[i]
    ensures w' == Step(w, Read(f, count)) && output == Output(w, Read(f, count))
    ensures ReadDone(|output|) == ResultOf(w, Read(f, count))
  {
    assert w'.fpos == w.fpos[f := w'.fpos[f]];
  }

  method PerformRead(dev: AesdDevice, files: seq<OpenFile>, f: nat, count: nat)
    returns (output: string, result: CallResult)
    requires dev.Valid() && Distinct(files) && Enabled(WorldOf(dev, files), Read(f, count))
    modifies files
    ensures dev.Valid()
    ensures WorldOf(dev, files) == Step(old(WorldOf(dev, files)), Read(f, count))
    ensures output == Output(old(WorldOf(dev, files)), Read(f, count))
    ensures result == ResultOf(old(WorldOf(dev, files)), Read(f, count))
  {
    ghost var w := WorldOf(dev, files);
    output := dev.AesdRead(files[f], count);
    ReadStep(w, WorldOf(dev, files), f, count, output);
    result := ReadDone(|output|);
  }

  /** Both ways of seeking. */
  method PerformSeek(dev: AesdDevice, files: seq<OpenFile>, a: Action) returns (result: CallResult)
    requires dev.Valid() && Distinct(files) && a.file < |files| && (a.Seek? || a.SeekCommand?)
    modifies files
    ensures dev.Valid()
    ensures WorldOf(dev, files) == Step(old(WorldOf(dev, files)), a)
    ensures result == ResultOf(old(WorldOf(dev, files)), a)
  {
    ghost var fpos := WorldOf(dev, files).fpos;
    if a.Seek? {
      var newpos := dev.AesdLlseek(files[a.file], a.off, a.whence);
      result := SeekDone(newpos);
    } else {
      var offset := dev.AesdAdjustFileOffset(files[a.file], a.cmd, a.cmdOff);
      result := SeekCommandDone(offset);
    }
    assert WorldOf(dev, files).fpos == fpos[a.file := files[a.file].fpos];
  }

  /** One action on one of the open files of a device: the new history and positions, what the caller
      gets and what the call returns are those of the run's step. */
  method Perform(dev: AesdDevice, files: seq<OpenFile>, a: Action) returns (output: string, result: CallResult)
    requires dev.Valid() && Distinct(files) && Enabled(WorldOf(dev, files), a)
    modifies dev, dev.circBuffer, dev.circBuffer.entry, dev.mem, files
    ensures dev.Valid()
    ensures WorldOf(dev, files) == Step(old(WorldOf(dev, files)), a)
    ensures output == Output(old(WorldOf(dev, files)), a)
    ensures result == ResultOf(old(WorldOf(dev, files)), a)
  {
    output := "";
    match a {
      case Write(f, data, outcome) => result := PerformWrite(dev, files, f, data, outcome);
      case Read(f, count) => output, result := PerformRead(dev, files, f, count);
      case _ => result := PerformSeek(dev, files, a);
    }
  }
}
