/** Runs in which several open files share the device. Each read, write and SEEKTO is one step, since
    it holds the device mutex throughout. A plain seek takes no lock; it is one step here as well. */
module DeviceRuns {
  import opened Sequences
  import opened CircularBuffer
  import opened CommandLog
  import opened Positions
  import opened WriteRuns

  /** The device's history and the position of each open file. */
  datatype World = World(log: Log, fpos: seq<int>)

  datatype Action =
    | Write(file: nat, data: string, outcome: Outcome)
    | Read(file: nat, count: nat)
    | Seek(file: nat, off: int, whence: Whence)
    | SeekCommand(file: nat, cmd: nat, cmdOff: nat)

  /** The file is open, and a read's byte counter does not wrap (its loop would not end). */
  predicate Enabled(w: World, a: Action) {
    a.file < |w.fpos| && (a.Read? ==> ReadFits(w.log, ToSizeT(w.fpos[a.file]), a.count))
  }

  /** One step, as the contracts of the driver's methods have it. */
  function Step(w: World, a: Action): World
    requires a.file < |w.fpos|
  {
    var p := w.fpos[a.file];
    match a
    case Write(f, data, outcome) =>
      var l := w.log.Write(data, outcome);
      World(l, w.fpos[f := p + l.Size() - w.log.Size()])
    case Read(f, count) => w.(fpos := w.fpos[f := p + |ReadBytes(w.log, ToSizeT(p), count)|])
    case Seek(f, off, whence) =>
      var target := SeekTarget(w.log, p, off, whence);
      if target.Some? then w.(fpos := w.fpos[f := target.value]) else w
    case SeekCommand(f, cmd, off) =>
      var target := SeekTo(w.log, cmd, off);
      if target >= 0 then w.(fpos := w.fpos[f := target]) else w
  }

  /** What a step hands to its caller. */
  function Output(w: World, a: Action): string
    requires a.file < |w.fpos|
  {
    if a.Read? then ReadBytes(w.log, ToSizeT(w.fpos[a.file]), a.count) else ""
  }

  /** What the call of a step returns to its caller. */
  datatype CallResult =
    | WriteDone(retval: WriteResult)
    | ReadDone(n: nat)
    | SeekDone(newpos: Option<int>)
    | SeekCommandDone(offset: int)

  function ResultOf(w: World, a: Action): CallResult
    requires a.file < |w.fpos|
  {
    match a
    case Write(_, data, outcome) => WriteDone(WriteReturn(data, outcome))
    case Read(_, _) => ReadDone(|Output(w, a)|)
    case Seek(f, off, whence) => SeekDone(SeekTarget(w.log, w.fpos[f], off, whence))
    case SeekCommand(_, cmd, off) => SeekCommandDone(SeekTo(w.log, cmd, off))
  }

  /** A run: the worlds before, between and after its actions, what the actions deliver, and what their
      calls return. */
  datatype Trace = Trace(ws: seq<World>, actions: seq<Action>, outputs: seq<string>, results: seq<CallResult>) {

    ghost predicate StepAt(k: nat)
      requires k < |actions| && |ws| == |actions| + 1 && |outputs| == |actions| == |results|
    {
      && Enabled(ws[k], actions[k])
      && ws[k + 1] == Step(ws[k], actions[k])
      && outputs[k] == Output(ws[k], actions[k])
      && results[k] == ResultOf(ws[k], actions[k])
    }

    /** Any number of files, any well-formed history to begin with. */
    ghost predicate IsRun() {
      && |ws| == |actions| + 1 && |outputs| == |actions| == |results|
      && ws[0].log.WellFormed()
      && forall k :: 0 <= k < |actions| ==> StepAt(k)
    }

    ghost predicate HasFile(f: nat) {
      forall i :: 0 <= i < |ws| ==> f < |ws[i].fpos|
    }

    /** Position of file f after k steps. */
    ghost function At(f: nat, k: nat): int
      requires k < |ws|
    {
      if f < |ws[k].fpos| then ws[k].fpos[f] else 0
    }

    /** What step k delivers to file f. */
    ghost function Got(f: nat, k: nat): string
      requires k < |actions| && |outputs| == |actions|
    {
      if actions[k].file == f then outputs[k] else ""
    }

    /** Everything file f has read in the first k steps. */
    ghost function ReadBy(f: nat, k: nat): string
      requires k <= |actions| && |outputs| == |actions|
    {
      Flatten(Pieces(f)[..k])
    }

    ghost function Contents(): (r: seq<string>)
      ensures |r| == |ws| && forall i :: 0 <= i < |ws| ==> r[i] == ws[i].log.Content()
    {
      seq(|ws|, i requires 0 <= i < |ws| => ws[i].log.Content())
    }

    ghost function Positions(f: nat): (r: seq<int>)
      ensures |r| == |ws| && forall i :: 0 <= i < |ws| ==> r[i] == At(f, i)
    {
      seq(|ws|, i requires 0 <= i < |ws| => At(f, i))
    }

    ghost function Pieces(f: nat): (r: seq<string>)
      requires |outputs| == |actions|
      ensures |r| == |actions| && forall k :: 0 <= k < |r| ==> r[k] == Got(f, k)
    {
      seq(|actions|, k requires 0 <= k < |actions| => Got(f, k))
    }
  }

  lemma FilesStayStep(t: Trace, k: nat)
    requires t.IsRun() && k < |t.actions| && t.ws[k].log.WellFormed()
    ensures t.ws[k + 1].log.WellFormed() && |t.ws[k + 1].fpos| == |t.ws[k].fpos|
  {
    assert t.StepAt(k);
    var w, a := t.ws[k], t.actions[k];
    if a.Write? {
      WriteKeepsWellFormed(w.log, a.data, a.outcome);
    }
  }

  lemma {:induction false} FilesStay(t: Trace, k: nat)
    requires t.IsRun() && k <= |t.actions|
    ensures t.ws[k].log.WellFormed() && |t.ws[k].fpos| == |t.ws[0].fpos|
  {
    if k > 0 {
      FilesStay(t, k - 1);
      FilesStayStep(t, k - 1);
    }
  }

  /** The writes among some actions, in the order in which they took the mutex. */
  function WritesOf(actions: seq<Action>): seq<WriteOp> {
    if actions == [] then []
    else if Final(actions).Write? then WritesOf(Init(actions)) + [WriteOp(Final(actions).data, Final(actions).outcome)]
    else WritesOf(Init(actions))
  }

  lemma QuietStep(t: Trace, k: nat)
    requires t.IsRun() && k < |t.actions| && !t.actions[k].Write?
    ensures t.ws[k + 1].log == t.ws[k].log
  {
    assert t.StepAt(k);
  }

  lemma WriteStep(t: Trace, k: nat)
    requires t.IsRun() && k < |t.actions| && t.actions[k].Write?
    ensures t.ws[k + 1].log == t.ws[k].log.Write(t.actions[k].data, t.actions[k].outcome)
  {
    assert t.StepAt(k);
  }

  /** However files interleave, the history is that of the writes alone, in their order. */
  lemma {:induction false} RunIsItsWrites(t: Trace, k: nat)
    requires t.IsRun() && k <= |t.actions|
    ensures t.ws[k].log == Writes(t.ws[0].log, WritesOf(t.actions[..k]))
  {
    if k > 0 {
      RunIsItsWrites(t, k - 1);
      assert Init(t.actions[..k]) == t.actions[..k - 1];
      var before := WritesOf(t.actions[..k - 1]);
      if t.actions[k - 1].Write? {
        WriteStep(t, k - 1);
        assert Init(before + [WriteOp(t.actions[k - 1].data, t.actions[k - 1].outcome)]) == before;
      } else {
        QuietStep(t, k - 1);
      }
    }
  }

  /** A file open at the start is open throughout, so the results below ask for it at the start only. */
  lemma FileStays(t: Trace, f: nat)
    requires t.IsRun() && f < |t.ws[0].fpos|
    ensures t.HasFile(f)
  {
    forall i | 0 <= i < |t.ws| ensures f < |t.ws[i].fpos| {
      FilesStay(t, i);
    }
  }

  lemma IdleStep(t: Trace, f: nat, k: nat)
    requires t.IsRun() && t.HasFile(f) && k < |t.actions| && t.actions[k].file != f
    ensures t.At(f, k + 1) == t.At(f, k)
  {
    assert t.StepAt(k);
  }

  lemma WriteMoves(t: Trace, k: nat)
    requires t.IsRun() && k < |t.actions| && t.actions[k].Write? && t.HasFile(t.actions[k].file)
    ensures var f := t.actions[k].file;
            t.At(f, k + 1) - t.ws[k + 1].log.Size() == t.At(f, k) - t.ws[k].log.Size()
  {
    assert t.StepAt(k);
  }

  lemma ReadOutput(w: World, a: Action)
    requires a.file < |w.fpos| && a.Read? && 0 <= w.fpos[a.file] < 0x8000_0000_0000_0000
    ensures Output(w, a) <= Drop(w.log.Content(), w.fpos[a.file])
    ensures Output(w, a) == "" <==> w.fpos[a.file] >= |w.log.Content()|
  {
    assert ToSizeT(w.fpos[a.file]) == w.fpos[a.file];
    ReadIsSlice(w.log, w.fpos[a.file], a.count);
  }

  lemma ReadMoves(t: Trace, f: nat, k: nat)
    requires t.IsRun() && t.HasFile(f) && k < |t.actions| && t.actions[k].file == f && t.actions[k].Read?
    ensures t.outputs[k] == Output(t.ws[k], t.actions[k])
    ensures t.At(f, k + 1) == t.At(f, k) + |t.outputs[k]|
  {
    assert t.StepAt(k);
  }

  lemma ReadStep(t: Trace, f: nat, k: nat)
    requires t.IsRun() && t.HasFile(f) && k < |t.actions| && t.actions[k].file == f && t.actions[k].Read?
    requires 0 <= t.At(f, k) < 0x8000_0000_0000_0000
    ensures t.At(f, k + 1) == t.At(f, k) + |t.Got(f, k)|
    ensures t.Got(f, k) <= Drop(t.ws[k].log.Content(), t.At(f, k))
    ensures t.Got(f, k) == "" <==> t.At(f, k) >= |t.ws[k].log.Content()|
  {
    ReadMoves(t, f, k);
    ReadOutput(t.ws[k], t.actions[k]);
  }

  // ---------------------------------------------------------------------------------------------
  // Seeks and what they return
  // ---------------------------------------------------------------------------------------------

  /** SEEK_SET leads to the position asked for, whatever the position before. */
  lemma SeekSetIsAbsolute(w: World, f: nat, a: int)
    requires f < |w.fpos|
    ensures Step(w, Seek(f, a, SeekSet)) == World(w.log, w.fpos[f := a])
    ensures ResultOf(w, Seek(f, a, SeekSet)) == SeekDone(Some(a))
  {
  }

  /** SEEK_CUR counts from there, backwards too: the two calls leave the world that one leaves. */
  lemma SeekCurIsRelative(w: World, f: nat, a: int, b: int)
    requires f < |w.fpos|
    ensures var there := Step(w, Seek(f, a, SeekSet));
            && Step(there, Seek(f, b, SeekCur)) == Step(w, Seek(f, a + b, SeekSet))
            && ResultOf(there, Seek(f, b, SeekCur)) == SeekDone(Some(a + b))
  {
  }

  /** A read is undone by SEEK_CUR with minus the number of bytes that it has returned, and the same read
      then delivers the same bytes. */
  lemma ReadAndBack(w: World, f: nat, count: nat)
    requires f < |w.fpos|
    ensures var n: int := ResultOf(w, Read(f, count)).n;
            var back := Step(Step(w, Read(f, count)), Seek(f, -n, SeekCur));
            && n == |Output(w, Read(f, count))|
            && back == w && Output(back, Read(f, count)) == Output(w, Read(f, count))
  {
    var n := ResultOf(w, Read(f, count)).n;
    assert w.fpos[f := w.fpos[f] + n][f := w.fpos[f]] == w.fpos;
  }

  /** An unknown whence returns no position and moves nothing. */
  lemma UnknownWhence(w: World, f: nat, off: int)
    requires f < |w.fpos|
    ensures Step(w, Seek(f, off, Invalid)) == w && ResultOf(w, Seek(f, off, Invalid)) == SeekDone(None)
  {
  }

  /** What a seek of either kind returns is where the file then stands; a failed one moves nothing. */
  lemma SeekResults(w: World, f: nat, a: Action)
    requires f < |w.fpos| && a.file == f && (a.Seek? || a.SeekCommand?)
    ensures var r, w' := ResultOf(w, a), Step(w, a);
            && (a.Seek? ==> r.SeekDone? && w' == if r.newpos.Some? then World(w.log, w.fpos[f := r.newpos.value]) else w)
            && (a.SeekCommand? ==> r.SeekCommandDone? && w' == if r.offset >= 0 then World(w.log, w.fpos[f := r.offset]) else w)
  {
  }

  // ---------------------------------------------------------------------------------------------
  // Size and positions
  // ---------------------------------------------------------------------------------------------

  /** File f writes and does nothing else, and nobody else writes. */
  ghost predicate OnlyWriter(actions: seq<Action>, f: nat) {
    forall k :: 0 <= k < |actions| ==> (actions[k].Write? <==> actions[k].file == f)
  }

  ghost function Lead(t: Trace, f: nat, k: nat): int
    requires k < |t.ws|
  {
    t.At(f, k) - t.ws[k].log.Size()
  }

  lemma LeadStep(t: Trace, f: nat, k: nat)
    requires t.IsRun() && t.HasFile(f) && OnlyWriter(t.actions, f) && k < |t.actions|
    ensures Lead(t, f, k + 1) == Lead(t, f, k)
  {
    if t.actions[k].file == f {
      WriteMoves(t, k);
    } else {
      IdleStep(t, f, k);
      QuietStep(t, k);
    }
  }

  lemma {:induction false} Constant(s: seq<int>, k: nat)
    requires k < |s| && forall j :: 0 <= j < |s| - 1 ==> s[j + 1] == s[j]
    ensures s[k] == s[0]
  {
    if k > 0 {
      Constant(s, k - 1);
      assert s[k - 1 + 1] == s[k - 1];
    }
  }

  /** The position of a sole writer moves with the device size, through any number of evictions,
      failures and faults. */
  lemma SoleWriter(t: Trace, f: nat, k: nat)
    requires t.IsRun() && f < |t.ws[0].fpos| && OnlyWriter(t.actions, f) && k <= |t.actions|
    ensures t.At(f, k) - t.ws[k].log.Size() == t.At(f, 0) - t.ws[0].log.Size()
  {
    FileStays(t, f);
    var leads := seq(|t.ws|, i requires 0 <= i < |t.ws| => Lead(t, f, i));
    forall j | 0 <= j < |leads| - 1 ensures leads[j + 1] == leads[j] {
      LeadStep(t, f, j);
    }
    Constant(leads, k);
  }

  /** From the empty device on it is the size, hence never negative. */
  lemma SoleWriterFromEmpty(t: Trace, f: nat, k: nat)
    requires t.IsRun() && f < |t.ws[0].fpos| && OnlyWriter(t.actions, f) && k <= |t.actions|
    requires t.At(f, 0) == 0 && t.ws[0].log == EMPTY_LOG
    ensures 0 <= t.At(f, k) == |t.ws[k].log.Content()| + t.ws[k].log.lost
  {
    SoleWriter(t, f, k);
  }

  // ---------------------------------------------------------------------------------------------
  // What writers are told
  // ---------------------------------------------------------------------------------------------

  /** A write's answer, at its step: a count exactly when the write is accepted, of the bytes by which the
      history has grown; otherwise the failure there was. */
  lemma WriteResults(w: World, f: nat, data: string, outcome: Outcome)
    requires f < |w.fpos|
    ensures var r, w' := ResultOf(w, Write(f, data, outcome)), Step(w, Write(f, data, outcome));
            && r.WriteDone?
            && (r.retval.Wrote? <==> outcome == Success && data != "")
            && (r.retval.Wrote? ==> r.retval.n == |Stream(w'.log)| - |Stream(w.log)|)
            && (r.retval.NoMemory? <==> outcome == NoStruct || (outcome == NoBuffer && data != ""))
            && (r.retval.BadAddress? <==> outcome == CopyFault && data != "")
            && (r.retval.BadAddress? ==> w'.log.PendingBytes() == "")
  {
    WriteAnswers(w.log, data, outcome);
  }

  /** The bytes that the write calls among the first k steps have claimed to have written. */
  ghost function Claimed(t: Trace, k: nat): nat
    requires k <= |t.results|
  {
    if k == 0 then 0
    else
      var r := t.results[k - 1];
      Claimed(t, k - 1) + if r.WriteDone? && r.retval.Wrote? then r.retval.n else 0
  }

  /** The bytes in the history and those that copy faults have taken out of it. */
  function Accounted(l: Log): nat {
    |Stream(l)| + l.lost
  }

  lemma WriteAccounts(l: Log, data: string, outcome: Outcome)
    ensures var r := WriteReturn(data, outcome);
            Accounted(l.Write(data, outcome)) == Accounted(l) + if r.Wrote? then r.n else 0
  {
    WriteAnswers(l, data, outcome);
    if outcome != Success || data == "" {
      FailureStep(l, WriteOp(data, outcome));
    }
  }

  lemma ClaimStep(t: Trace, k: nat)
    requires t.IsRun() && k < |t.actions|
    ensures Accounted(t.ws[k + 1].log) - Accounted(t.ws[k].log) == Claimed(t, k + 1) - Claimed(t, k)
  {
    assert t.StepAt(k);
    if t.actions[k].Write? {
      WriteAccounts(t.ws[k].log, t.actions[k].data, t.actions[k].outcome);
    }
  }

  /** In every run, what writers have been told they wrote is what the history has gained, but for the
      bytes that copy faults have taken out of it. */
  lemma {:induction false} ClaimsAreMet(t: Trace, k: nat)
    requires t.IsRun() && k <= |t.actions|
    ensures Accounted(t.ws[k].log) == Accounted(t.ws[0].log) + Claimed(t, k)
  {
    if k > 0 {
      ClaimsAreMet(t, k - 1);
      ClaimStep(t, k - 1);
    }
  }

  // ---------------------------------------------------------------------------------------------
  // Reading while others write
  // ---------------------------------------------------------------------------------------------

  /** Discards no pending bytes. */
  predicate KeepsPending(l: Log, data: string, outcome: Outcome) {
    !(outcome.CopyFault? && data != "" && l.PendingBytes() != "")
  }

  /** Neither evicts bytes nor discards pending ones. */
  predicate OnlyAppends(l: Log, data: string, outcome: Outcome) {
    l.EvictedLength() == 0 && KeepsPending(l, data, outcome)
  }

  /** A write evicts no bytes when it need not, or when the place is empty already. */
  lemma NothingEvicted(l: Log)
    requires l.WellFormed()
    ensures l.EvictedLength() == 0 <==> (l.Evicts() ==> l.hole)
  {
    if l.Evicts() {
      PaddedForms(l);
      if !l.hole {
        assert l.Padded()[0] == l.completed[|l.completed| - SLOTS];
      }
    }
  }

  lemma NoEffect(l: Log, data: string, outcome: Outcome)
    requires !Accepted(data, outcome) && KeepsPending(l, data, outcome) && (l.Evicts() ==> l.hole)
    ensures l.Write(data, outcome).Content() == l.Content()
  {
    ContentForms(l);
    ContentForms(l.Write(data, outcome));
  }

  lemma SuccessContent(l: Log, data: string)
    requires l.WellFormed() && data != ""
    ensures l.Write(data, Success).Content() == Flatten(Last(l.completed, SLOTS - 1)) + l.PendingBytes() + data
  {
    var kept, whole := Last(l.completed, SLOTS - 1), l.PendingBytes() + data;
    SuccessStep(l, data);
    LastSnoc(l.completed, whole);
    assert l.Write(data, Success).Retained() == kept + [whole];
    FlattenSnoc(kept, whole);
  }

  lemma OpenContent(l: Log)
    requires l.WellFormed() && (l.Evicts() ==> l.hole)
    ensures l.Content() == Flatten(Last(l.completed, SLOTS - 1)) + l.PendingBytes()
  {
    ContentForms(l);
    if !l.Full() {
      assert Last(l.completed, SLOTS) == Last(l.completed, SLOTS - 1) == l.completed;
    }
  }

  /** Such a write leaves the content a prefix of the new content, even inside an open command. */
  lemma WriteAppends(l: Log, data: string, outcome: Outcome)
    requires l.WellFormed() && OnlyAppends(l, data, outcome)
    ensures l.Write(data, outcome).Content() == l.Content() + if Accepted(data, outcome) then data else ""
  {
    NothingEvicted(l);
    if Accepted(data, outcome) {
      OpenContent(l);
      SuccessContent(l, data);
    } else {
      NoEffect(l, data, outcome);
    }
  }

  /** No step evicts or discards. */
  ghost predicate OnlyAppending(t: Trace) {
    && |t.ws| == |t.actions| + 1
    && forall k :: 0 <= k < |t.actions| ==>
         (t.actions[k].Write? ==> OnlyAppends(t.ws[k].log, t.actions[k].data, t.actions[k].outcome))
  }

  lemma ContentStep(t: Trace, k: nat)
    requires t.IsRun() && OnlyAppending(t) && k < |t.actions|
    ensures t.ws[k].log.Content() <= t.ws[k + 1].log.Content()
  {
    var a := t.actions[k];
    if a.Write? {
      FilesStay(t, k);
      WriteStep(t, k);
      WriteAppends(t.ws[k].log, a.data, a.outcome);
    } else {
      QuietStep(t, k);
    }
  }

  lemma ContentGrows(t: Trace, i: nat, j: nat)
    requires t.IsRun() && OnlyAppending(t) && i <= j <= |t.actions|
    ensures t.ws[i].log.Content() <= t.ws[j].log.Content()
  {
    forall k | 0 <= k < |t.ws| - 1 ensures GrowsAt(t.Contents(), k) {
      ContentStep(t, k);
    }
    GrowsFromTo(t.Contents(), i, j);
  }

  /** File f only reads, and no step of any file evicts or discards. */
  ghost predicate Undisturbed(t: Trace, f: nat) {
    && OnlyAppending(t)
    && forall k :: 0 <= k < |t.actions| && t.actions[k].file == f ==> t.actions[k].Read?
  }

  lemma UndisturbedStep(t: Trace, f: nat, k: nat)
    requires t.IsRun() && t.HasFile(f) && Undisturbed(t, f) && k < |t.actions|
    requires 0 <= t.At(f, k) < 0x8000_0000_0000_0000
    ensures t.ws[k].log.Content() <= t.ws[k + 1].log.Content()
    ensures t.At(f, k + 1) == t.At(f, k) + |t.Got(f, k)|
    ensures t.Got(f, k) <= Drop(t.ws[k].log.Content(), t.At(f, k))
  {
    ContentStep(t, k);
    if t.actions[k].file == f {
      ReadStep(t, f, k);
    } else {
      IdleStep(t, f, k);
    }
  }

  /** Contents that grow, positions, and the pieces taken at those positions. */
  ghost predicate Advances(contents: seq<string>, positions: seq<int>, pieces: seq<string>, k: nat)
    requires |contents| == |positions| == |pieces| + 1 && k < |pieces|
  {
    positions[k] >= 0 ==>
      && contents[k] <= contents[k + 1]
      && positions[k + 1] == positions[k] + |pieces[k]|
      && pieces[k] <= Drop(contents[k], positions[k])
  }

  /** The first k pieces are one stretch of the content after k steps. */
  ghost predicate Joined(contents: seq<string>, positions: seq<int>, pieces: seq<string>, k: nat)
    requires |contents| == |positions| == |pieces| + 1 && k <= |pieces| && positions[0] >= 0
  {
    var bytes := Flatten(pieces[..k]);
    contents[0] <= contents[k] && positions[k] == positions[0] + |bytes| && bytes <= Drop(contents[k], positions[0])
  }

  lemma DropGrows(c: string, c': string, start: nat, s: string)
    requires c <= c' && s <= Drop(c, start)
    ensures s <= Drop(c', start)
  {
    if start <= |c| {
      assert c'[start..][..|c| - start] == c[start..];
    }
  }

  lemma GrowStretch(c: string, c': string, start: nat, sofar: string, piece: string)
    requires c <= c' && sofar <= Drop(c, start) && piece <= Drop(c, start + |sofar|)
    ensures sofar + piece <= Drop(c', start)
  {
    if start + |sofar| <= |c| {
      assert c[start..][|sofar|..] == c[start + |sofar|..];
      DropGrows(c, c', start, sofar + piece);
    }
  }

  lemma JoinStep(contents: seq<string>, positions: seq<int>, pieces: seq<string>, k: nat)
    requires |contents| == |positions| == |pieces| + 1 && k < |pieces| && positions[0] >= 0
    requires Joined(contents, positions, pieces, k) && Advances(contents, positions, pieces, k)
    ensures Joined(contents, positions, pieces, k + 1)
  {
    FlattenTake(pieces, k);
    GrowStretch(contents[k], contents[k + 1], positions[0], Flatten(pieces[..k]), pieces[k]);
  }

  lemma {:induction false} PiecesJoin(contents: seq<string>, positions: seq<int>, pieces: seq<string>, k: nat)
    requires |contents| == |positions| == |pieces| + 1 && k <= |pieces| && positions[0] >= 0
    requires forall j :: 0 <= j < |pieces| ==> Advances(contents, positions, pieces, j)
    ensures Joined(contents, positions, pieces, k)
  {
    if k > 0 {
      PiecesJoin(contents, positions, pieces, k - 1);
      JoinStep(contents, positions, pieces, k - 1);
    }
  }

  lemma UndisturbedAdvances(t: Trace, f: nat, k: nat)
    requires t.IsRun() && t.HasFile(f) && Undisturbed(t, f) && k < |t.actions|
    requires t.At(f, k) < 0x8000_0000_0000_0000
    ensures Advances(t.Contents(), t.Positions(f), t.Pieces(f), k)
  {
    if t.At(f, k) >= 0 {
      UndisturbedStep(t, f, k);
    }
  }

  /** What a file has read in pieces, while others were writing in between, is exactly one stretch of
      the content, from where the file started to where it is now. */
  lemma InterleavedRead(t: Trace, f: nat, k: nat)
    requires t.IsRun() && f < |t.ws[0].fpos| && Undisturbed(t, f) && k <= |t.actions|
    requires 0 <= t.At(f, 0) && forall i :: 0 <= i < |t.ws| ==> t.At(f, i) < 0x8000_0000_0000_0000
    ensures t.ws[0].log.Content() <= t.ws[k].log.Content()
    ensures t.At(f, k) == t.At(f, 0) + |t.ReadBy(f, k)|
    ensures t.ReadBy(f, k) <= Drop(t.ws[k].log.Content(), t.At(f, 0))
  {
    FileStays(t, f);
    forall j | 0 <= j < |t.actions| ensures Advances(t.Contents(), t.Positions(f), t.Pieces(f), j) {
      UndisturbedAdvances(t, f, j);
    }
    PiecesJoin(t.Contents(), t.Positions(f), t.Pieces(f), k);
  }

  // ---------------------------------------------------------------------------------------------
  // Reading across evictions
  // ---------------------------------------------------------------------------------------------

  /** The bytes of the stream that a reader can no longer see. */
  function Gone(l: Log): int {
    |Stream(l)| - |l.Content()|
  }

  lemma SuffixOfStream(commands: seq<string>, n: nat, pending: string)
    ensures var stream, content := Flatten(commands) + pending, Flatten(Last(commands, n)) + pending;
            |content| <= |stream| && content == Drop(stream, |stream| - |content|)
  {
    var kept := Last(commands, n);
    var unseen := commands[..|commands| - |kept|];
    assert commands == unseen + kept;
    FlattenAppend(unseen, kept);
    assert Flatten(commands) + pending == Flatten(unseen) + (Flatten(kept) + pending);
  }

  /** The content is the stream without the bytes gone. */
  lemma ContentIsSuffix(l: Log)
    ensures 0 <= Gone(l) <= |Stream(l)| && l.Content() == Drop(Stream(l), Gone(l))
  {
    ContentForms(l);
    SuffixOfStream(l.completed, if l.pending.None? && !l.hole then SLOTS else SLOTS - 1, l.PendingBytes());
  }

  /** A write that discards nothing, and no other, appends what it accepts to the stream. */
  lemma StreamAppends(l: Log, data: string, outcome: Outcome)
    ensures KeepsPending(l, data, outcome)
            <==> Stream(l.Write(data, outcome)) == Stream(l) + if Accepted(data, outcome) then data else ""
  {
    if Accepted(data, outcome) {
      SuccessExtends(l, data);
    } else {
      FailureStep(l, WriteOp(data, outcome));
    }
  }

  lemma KeepsLost(l: Log, data: string, outcome: Outcome)
    requires KeepsPending(l, data, outcome)
    ensures l.Write(data, outcome).lost == l.lost
  {
  }

  /** Every write puts out of sight exactly what it evicts; a copy fault shortens stream and content
      alike. */
  lemma WriteGone(l: Log, data: string, outcome: Outcome)
    requires l.WellFormed()
    ensures Gone(l.Write(data, outcome)) == Gone(l) + l.EvictedLength()
  {
    WriteSize(l, data, outcome);
    if KeepsPending(l, data, outcome) {
      StreamAppends(l, data, outcome);
      KeepsLost(l, data, outcome);
    } else {
      FailureStep(l, WriteOp(data, outcome));
    }
  }

  /** The content grows by what a write accepts exactly when it evicts no bytes and discards none. */
  lemma WriteAppendsIff(l: Log, data: string, outcome: Outcome)
    requires l.WellFormed()
    ensures l.Write(data, outcome).Content() == l.Content() + (if Accepted(data, outcome) then data else "")
            <==> OnlyAppends(l, data, outcome)
  {
    if OnlyAppends(l, data, outcome) {
      WriteAppends(l, data, outcome);
    } else {
      WriteGone(l, data, outcome);
      StreamAppends(l, data, outcome);
      WriteAnswers(l, data, outcome);
    }
  }

  /** Completed commands stay completed. */
  lemma WriteCompleted(l: Log, data: string, outcome: Outcome)
    ensures Flatten(l.completed) <= Flatten(l.Write(data, outcome).completed)
  {
    FlattenSnoc(l.completed, l.PendingBytes() + data);
  }

  /** None of the steps i, ..., j - 1 discards pending bytes; evictions are allowed. */
  ghost predicate NoDiscards(t: Trace, i: nat, j: nat) {
    && |t.ws| == |t.actions| + 1
    && forall k :: i <= k < j <= |t.actions| ==>
         (t.actions[k].Write? ==> KeepsPending(t.ws[k].log, t.actions[k].data, t.actions[k].outcome))
  }

  /** The bytes evicted by steps i, ..., j - 1. */
  ghost function EvictedBetween(t: Trace, i: nat, j: nat): nat
    requires i <= j <= |t.actions| && |t.ws| == |t.actions| + 1
    decreases j - i
  {
    if i == j then 0
    else EvictedBetween(t, i, j - 1) + if t.actions[j - 1].Write? then t.ws[j - 1].log.EvictedLength() else 0
  }

  lemma StreamStep(t: Trace, i: nat, j: nat, k: nat)
    requires t.IsRun() && NoDiscards(t, i, j) && i <= k < j <= |t.actions|
    ensures Stream(t.ws[k].log) <= Stream(t.ws[k + 1].log)
  {
    var a := t.actions[k];
    if a.Write? {
      WriteStep(t, k);
      StreamAppends(t.ws[k].log, a.data, a.outcome);
    } else {
      QuietStep(t, k);
    }
  }

  lemma {:induction false} StreamGrows(t: Trace, i: nat, j: nat, k: nat)
    requires t.IsRun() && NoDiscards(t, i, j) && i <= k <= j <= |t.actions|
    ensures Stream(t.ws[i].log) <= Stream(t.ws[k].log)
  {
    if i < k {
      StreamGrows(t, i, j, k - 1);
      StreamStep(t, i, j, k - 1);
    }
  }

  lemma CompletedStep(t: Trace, k: nat)
    requires t.IsRun() && k < |t.actions|
    ensures Flatten(t.ws[k].log.completed) <= Flatten(t.ws[k + 1].log.completed)
  {
    if t.actions[k].Write? {
      WriteStep(t, k);
      WriteCompleted(t.ws[k].log, t.actions[k].data, t.actions[k].outcome);
    } else {
      QuietStep(t, k);
    }
  }

  lemma {:induction false} CompletedGrows(t: Trace, i: nat, j: nat)
    requires t.IsRun() && i <= j <= |t.actions|
    ensures Flatten(t.ws[i].log.completed) <= Flatten(t.ws[j].log.completed)
    decreases j - i
  {
    if i < j {
      CompletedGrows(t, i, j - 1);
      CompletedStep(t, j - 1);
    }
  }

  ghost function GoneAt(t: Trace, k: nat): int
    requires k < |t.ws|
  {
    Gone(t.ws[k].log)
  }

  lemma GoneStep(t: Trace, k: nat)
    requires t.IsRun() && k < |t.actions|
    ensures GoneAt(t, k + 1) == GoneAt(t, k) + if t.actions[k].Write? then t.ws[k].log.EvictedLength() else 0
  {
    FilesStay(t, k);
    if t.actions[k].Write? {
      WriteStep(t, k);
      WriteGone(t.ws[k].log, t.actions[k].data, t.actions[k].outcome);
    } else {
      QuietStep(t, k);
    }
  }

  lemma {:induction false} GoneGrows(t: Trace, i: nat, j: nat)
    requires t.IsRun() && i <= j <= |t.actions|
    ensures GoneAt(t, j) == GoneAt(t, i) + EvictedBetween(t, i, j)
    decreases j - i
  {
    if i < j {
      GoneGrows(t, i, j - 1);
      GoneStep(t, j - 1);
    }
  }

  lemma {:induction false} IdleBetween(t: Trace, f: nat, i: nat, j: nat)
    requires t.IsRun() && t.HasFile(f) && i <= j <= |t.actions|
    requires forall k :: i <= k < j ==> t.actions[k].file != f
    ensures t.At(f, j) == t.At(f, i)
    decreases j - i
  {
    if i < j {
      IdleBetween(t, f, i, j - 1);
      IdleStep(t, f, j - 1);
    }
  }

  /** The place in the stream at which file f stands after k steps. */
  ghost function StreamPosition(t: Trace, f: nat, k: nat): int
    requires k < |t.ws|
  {
    GoneAt(t, k) + t.At(f, k)
  }

  ghost predicate ByteKept(l: Log, l': Log, at: nat, piece: string, b: nat)
    requires b < |piece|
  {
    at + b < |Flatten(l.completed)| ==>
      at + b < |Flatten(l'.completed)| && piece[b] == Flatten(l'.completed)[at + b]
  }

  /** The bytes of a piece of the stream at some place that belong to completed commands of l are at
      the same place in l'. */
  ghost predicate CompletedKept(l: Log, l': Log, at: nat, piece: string) {
    forall b :: 0 <= b < |piece| ==> ByteKept(l, l', at, piece, b)
  }

  lemma StaysCompleted(l: Log, l': Log, at: nat, piece: string)
    requires piece <= Drop(Stream(l), at) && Flatten(l.completed) <= Flatten(l'.completed)
    ensures CompletedKept(l, l', at, piece)
  {
    forall b | 0 <= b < |piece| ensures ByteKept(l, l', at, piece, b) {
      assert piece[b] == Drop(Stream(l), at)[b] == Stream(l)[at + b];
    }
  }

  /** A piece seen after k steps is the stream's bytes at some place. Of its bytes, those in completed
      commands are still there at a later moment, whatever happens; without discards, all are. */
  ghost predicate OfStream(t: Trace, k: nat, later: nat, at: int, piece: string)
    requires k <= later < |t.ws|
  {
    && at >= 0
    && piece <= Drop(Stream(t.ws[k].log), at)
    && CompletedKept(t.ws[k].log, t.ws[later].log, at, piece)
    && (NoDiscards(t, k, later) ==> piece <= Drop(Stream(t.ws[later].log), at))
  }

  lemma SeenPiece(l: Log, at: nat, piece: string)
    requires piece <= Drop(l.Content(), at)
    ensures Gone(l) >= 0 && piece <= Drop(Stream(l), Gone(l) + at)
  {
    ContentIsSuffix(l);
    DropTwice(Stream(l), Gone(l), at);
  }

  lemma CompletedPiece(t: Trace, k: nat, later: nat, at: nat, piece: string)
    requires t.IsRun() && k <= later <= |t.actions| && piece <= Drop(Stream(t.ws[k].log), at)
    ensures CompletedKept(t.ws[k].log, t.ws[later].log, at, piece)
  {
    CompletedGrows(t, k, later);
    StaysCompleted(t.ws[k].log, t.ws[later].log, at, piece);
  }

  lemma UndiscardedPiece(t: Trace, k: nat, later: nat, at: nat, piece: string)
    requires t.IsRun() && k <= later <= |t.actions| && piece <= Drop(Stream(t.ws[k].log), at)
    ensures NoDiscards(t, k, later) ==> piece <= Drop(Stream(t.ws[later].log), at)
  {
    if NoDiscards(t, k, later) {
      StreamGrows(t, k, later, later);
      DropGrows(Stream(t.ws[k].log), Stream(t.ws[later].log), at, piece);
    }
  }

  lemma PieceOfStream(t: Trace, k: nat, at: nat, piece: string, later: nat)
    requires t.IsRun() && k <= later <= |t.actions| && piece <= Drop(t.ws[k].log.Content(), at)
    ensures OfStream(t, k, later, GoneAt(t, k) + at, piece)
  {
    SeenPiece(t.ws[k].log, at, piece);
    CompletedPiece(t, k, later, GoneAt(t, k) + at, piece);
    UndiscardedPiece(t, k, later, GoneAt(t, k) + at, piece);
  }

  lemma ReadPiece(t: Trace, f: nat, k: nat)
    requires t.IsRun() && f < |t.ws[0].fpos| && k < |t.actions|
    requires t.actions[k].file == f && t.actions[k].Read? && 0 <= t.At(f, k) < 0x8000_0000_0000_0000
    ensures t.outputs[k] <= Drop(t.ws[k].log.Content(), t.At(f, k))
  {
    FileStays(t, f);
    ReadStep(t, f, k);
  }

  /** In every run, a read delivers the stream's bytes at the file's place. */
  lemma ReadOfStream(t: Trace, f: nat, k: nat, later: nat)
    requires t.IsRun() && f < |t.ws[0].fpos| && k < later <= |t.actions|
    requires t.actions[k].file == f && t.actions[k].Read? && 0 <= t.At(f, k) < 0x8000_0000_0000_0000
    ensures OfStream(t, k, later, StreamPosition(t, f, k), t.outputs[k])
  {
    ReadPiece(t, f, k);
    PieceOfStream(t, k, t.At(f, k), t.outputs[k], later);
  }

  lemma ReaderMoves(t: Trace, f: nat, i: nat, j: nat)
    requires t.IsRun() && t.HasFile(f) && i < j < |t.actions|
    requires t.actions[i].file == f && t.actions[i].Read?
    requires forall k :: i < k < j ==> t.actions[k].file != f
    ensures t.At(f, j) == t.At(f, i) + |t.outputs[i]|
  {
    ReadMoves(t, f, i);
    IdleBetween(t, f, i + 1, j);
  }

  lemma GoneMoves(t: Trace, i: nat, j: nat)
    requires t.IsRun() && i < j < |t.actions| && t.actions[i].Read?
    ensures GoneAt(t, j) == GoneAt(t, i) + EvictedBetween(t, i + 1, j)
  {
    QuietStep(t, i);
    GoneGrows(t, i + 1, j);
  }

  /** In every run, between two reads of a file that is idle in the meantime, the reader's place in the
      stream moves on by what the first delivered and exactly the bytes that were evicted in the
      meantime. */
  lemma EvictionsSkip(t: Trace, f: nat, i: nat, j: nat)
    requires t.IsRun() && f < |t.ws[0].fpos| && i < j < |t.actions|
    requires t.actions[i].file == f && t.actions[i].Read? && t.actions[j].file == f && t.actions[j].Read?
    requires forall k :: i < k < j ==> t.actions[k].file != f
    requires 0 <= t.At(f, i) < 0x8000_0000_0000_0000 && t.At(f, j) < 0x8000_0000_0000_0000
    ensures StreamPosition(t, f, j) == StreamPosition(t, f, i) + |t.outputs[i]| + EvictedBetween(t, i + 1, j)
    ensures OfStream(t, i, |t.actions|, StreamPosition(t, f, i), t.outputs[i])
    ensures OfStream(t, j, |t.actions|, StreamPosition(t, f, j), t.outputs[j])
  {
    FileStays(t, f);
    ReaderMoves(t, f, i, j);
    GoneMoves(t, i, j);
    ReadOfStream(t, f, i, |t.actions|);
    ReadOfStream(t, f, j, |t.actions|);
  }

  // ---------------------------------------------------------------------------------------------
  // Draining
  // ---------------------------------------------------------------------------------------------

  /** The run consists of reads by file f, each asking for a positive count. */
  ghost predicate Drains(t: Trace, f: nat) {
    forall k :: 0 <= k < |t.actions| ==> t.actions[k].Read? && t.actions[k].file == f && t.actions[k].count > 0
  }

  lemma {:induction false} DrainKeepsLog(t: Trace, f: nat, k: nat)
    requires t.IsRun() && Drains(t, f) && k <= |t.actions|
    ensures t.ws[k].log == t.ws[0].log
  {
    if k > 0 {
      DrainKeepsLog(t, f, k - 1);
      QuietStep(t, k - 1);
    }
  }

  ghost predicate Climbs(positions: seq<int>, end: nat, k: nat)
    requires k < |positions| - 1
  {
    positions[k] >= 0 ==>
      positions[k + 1] >= positions[k] && (positions[k + 1] > positions[k] || positions[k] >= end)
  }

  lemma {:induction false} ClimbsToEnd(positions: seq<int>, end: nat, k: nat)
    requires k < |positions| && positions[0] >= 0
    requires forall j :: 0 <= j < |positions| - 1 ==> Climbs(positions, end, j)
    ensures positions[k] >= positions[0] && (positions[k] >= positions[0] + k || positions[k] >= end)
  {
    if k > 0 {
      ClimbsToEnd(positions, end, k - 1);
      assert Climbs(positions, end, k - 1);
    }
  }

  lemma DrainClimbs(t: Trace, f: nat, k: nat)
    requires t.IsRun() && t.HasFile(f) && Drains(t, f) && k < |t.actions| && t.At(f, k) < 0x8000_0000_0000_0000
    ensures Climbs(t.Positions(f), |t.ws[0].log.Content()|, k)
  {
    if t.At(f, k) >= 0 {
      DrainKeepsLog(t, f, k);
      ReadStep(t, f, k);
    }
  }

  /** Draining: from any position, reads of arbitrary positive counts return consecutive pieces of
      the content; as many of them as there are bytes left return all of it. */
  lemma Drained(t: Trace, f: nat)
    requires t.IsRun() && f < |t.ws[0].fpos| && Drains(t, f)
    requires 0 <= t.At(f, 0) && forall i :: 0 <= i < |t.ws| ==> t.At(f, i) < 0x8000_0000_0000_0000
    ensures t.ReadBy(f, |t.actions|) <= Drop(t.ws[0].log.Content(), t.At(f, 0))
    ensures |t.actions| >= |t.ws[0].log.Content()| - t.At(f, 0) ==>
              t.ReadBy(f, |t.actions|) == Drop(t.ws[0].log.Content(), t.At(f, 0))
  {
    FileStays(t, f);
    DrainKeepsLog(t, f, |t.actions|);
    forall j | 0 <= j < |t.actions| ensures Climbs(t.Positions(f), |t.ws[0].log.Content()|, j) {
      DrainClimbs(t, f, j);
    }
    ClimbsToEnd(t.Positions(f), |t.ws[0].log.Content()|, |t.actions|);
    InterleavedRead(t, f, |t.actions|);
  }

  lemma SeekStep(w: World, f: nat, cmd: nat, cmdOff: nat)
    requires f < |w.fpos|
    ensures var w', r := Step(w, SeekCommand(f, cmd, cmdOff)), SeekTo(w.log, cmd, cmdOff);
            w' == if r < 0 then w else World(w.log, w.fpos[f := r])
  {
  }

  /** SEEKTO, then reading on, in the states in which the ioctl numbers commands as documented: the
      reads deliver the rest of that command and all later ones, or the ioctl fails without effect. */
  lemma SeekThenDrain(w: World, f: nat, cmd: nat, cmdOff: nat, t: Trace)
    requires w.log.WellFormed() && f < |w.fpos| && cmd < SLOTS - 1 && NumbersAsDocumented(w.log, cmd)
    requires t.IsRun() && f < |t.ws[0].fpos| && Drains(t, f) && |t.actions| >= |w.log.Content()|
    requires t.ws[0] == Step(w, SeekCommand(f, cmd, cmdOff))
    requires forall i :: 0 <= i < |t.ws| ==> t.At(f, i) < 0x8000_0000_0000_0000
    ensures var kept := w.log.Retained();
            if cmd < |kept| && cmdOff < |kept[cmd]| then
              t.ReadBy(f, |t.actions|) == kept[cmd][cmdOff..] + Flatten(kept[cmd + 1..])
            else SeekTo(w.log, cmd, cmdOff) < 0 && t.ws[0] == w
  {
    SeekToAgrees(w.log, cmd, cmdOff);
    SeekStep(w, f, cmd, cmdOff);
    if Documented(w.log, cmd, cmdOff).Some? {
      DocumentedContent(w.log, cmd, cmdOff);
      Drained(t, f);
    }
  }
}
