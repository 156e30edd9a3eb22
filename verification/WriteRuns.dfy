/** Runs of writes of any length and outcome, and what they leave in the history. */
module WriteRuns {
  import opened Sequences
  import opened CircularBuffer
  import opened CommandLog
  import opened Positions

  datatype WriteOp = WriteOp(data: string, outcome: Outcome) {
    predicate Succeeds() { Accepted(data, outcome) }
    predicate Faults() { outcome.CopyFault? && data != "" }
  }

  function Init<T>(s: seq<T>): seq<T>
    requires s != []
  {
    s[..|s| - 1]
  }

  function Final<T>(s: seq<T>): T
    requires s != []
  {
    s[|s| - 1]
  }

  function Writes(l: Log, ops: seq<WriteOp>): Log {
    if ops == [] then l else Writes(l, Init(ops)).Write(Final(ops).data, Final(ops).outcome)
  }

  lemma {:induction false} WritesKeepWellFormed(l: Log, ops: seq<WriteOp>)
    requires l.WellFormed()
    ensures Writes(l, ops).WellFormed()
    ensures l.Full() ==> Writes(l, ops).Full()
  {
    if ops != [] {
      WritesKeepWellFormed(l, Init(ops));
      WriteKeepsWellFormed(Writes(l, Init(ops)), Final(ops).data, Final(ops).outcome);
    }
  }

  // ---------------------------------------------------------------------------------------------
  // The reference: pieces grouped into commands
  // ---------------------------------------------------------------------------------------------

  /** Pieces joined into commands, each ending with the piece that ends in a newline, and the
      bytes left over. */
  function Grouped(pieces: seq<string>): (seq<string>, string) {
    if pieces == [] then ([], "")
    else
      var (commands, rest) := Grouped(Init(pieces));
      if Terminated(Final(pieces)) then (commands + [rest + Final(pieces)], "") else (commands, rest + Final(pieces))
  }

  /** The pieces up to and including the last one that ends in a newline. */
  function ClosedPart(pieces: seq<string>): seq<string> {
    if pieces == [] || Terminated(Final(pieces)) then pieces else ClosedPart(Init(pieces))
  }

  /** The data of the writes whose effect lasts: a copy fault wipes out what is not yet terminated. */
  function Surviving(ops: seq<WriteOp>): seq<string> {
    if ops == [] then []
    else if Final(ops).Succeeds() then Surviving(Init(ops)) + [Final(ops).data]
    else if Final(ops).Faults() then ClosedPart(Surviving(Init(ops)))
    else Surviving(Init(ops))
  }

  function ClosedKept(ops: seq<WriteOp>, kept: seq<nat>): (r: seq<nat>)
    requires forall j :: 0 <= j < |kept| ==> kept[j] < |ops|
    ensures r <= kept
  {
    if kept == [] || Terminated(ops[Final(kept)].data) then kept else ClosedKept(ops, Init(kept))
  }

  /** The surviving writes by their numbers. */
  function Kept(ops: seq<WriteOp>): (r: seq<nat>)
    ensures forall j :: 0 <= j < |r| ==> r[j] < |ops|
  {
    if ops == [] then []
    else if Final(ops).Succeeds() then Kept(Init(ops)) + [|ops| - 1]
    else if Final(ops).Faults() then ClosedKept(Init(ops), Kept(Init(ops)))
    else Kept(Init(ops))
  }

  function DataAt(ops: seq<WriteOp>, kept: seq<nat>): (r: seq<string>)
    requires forall j :: 0 <= j < |kept| ==> kept[j] < |ops|
    ensures |r| == |kept|
    ensures forall j :: 0 <= j < |kept| ==> r[j] == ops[kept[j]].data
  {
    seq(|kept|, j requires 0 <= j < |kept| => ops[kept[j]].data)
  }

  lemma {:induction false} ClosedKeptData(ops: seq<WriteOp>, kept: seq<nat>)
    requires forall j :: 0 <= j < |kept| ==> kept[j] < |ops|
    ensures DataAt(ops, ClosedKept(ops, kept)) == ClosedPart(DataAt(ops, kept))
  {
    if kept != [] && !Terminated(ops[Final(kept)].data) {
      ClosedKeptData(ops, Init(kept));
      assert Init(DataAt(ops, kept)) == DataAt(ops, Init(kept));
    }
  }

  ghost predicate Increasing(s: seq<nat>) {
    forall i, j :: 0 <= i < j < |s| ==> s[i] < s[j]
  }

  lemma {:induction false} KeptIncreasing(ops: seq<WriteOp>)
    ensures Increasing(Kept(ops))
  {
    if ops != [] {
      KeptIncreasing(Init(ops));
    }
  }

  lemma SameData(ops: seq<WriteOp>, kept: seq<nat>)
    requires ops != [] && forall j :: 0 <= j < |kept| ==> kept[j] < |ops| - 1
    ensures DataAt(ops, kept) == DataAt(Init(ops), kept)
  {
  }

  /** The surviving pieces are those of the kept writes, in the order of the writes. */
  lemma {:induction false} KeptSurvive(ops: seq<WriteOp>)
    ensures Surviving(ops) == DataAt(ops, Kept(ops))
  {
    if ops != [] {
      var front := Init(ops);
      var kept := Kept(front);
      KeptSurvive(front);
      if Final(ops).Succeeds() {
        SameData(ops, kept);
        assert DataAt(ops, kept + [|front|]) == DataAt(ops, kept) + [Final(ops).data];
      } else if Final(ops).Faults() {
        ClosedKeptData(front, kept);
        SameData(ops, ClosedKept(front, kept));
      } else {
        SameData(ops, kept);
      }
    }
  }

  lemma {:induction false} ClosedPartGrouped(pieces: seq<string>)
    ensures Grouped(ClosedPart(pieces)) == (Grouped(pieces).0, "")
  {
    if pieces != [] && !Terminated(Final(pieces)) {
      ClosedPartGrouped(Init(pieces));
    }
  }

  lemma SuccessStep(l: Log, piece: string)
    requires piece != ""
    ensures l.Write(piece, Success) == var whole := l.PendingBytes() + piece;
              if Terminated(piece) then Log(l.completed + [whole], None, false, l.lost)
              else Log(l.completed, Some(whole), false, l.lost)
  {
  }

  /** An unsuccessful write completes nothing, and only a copy fault touches the pending bytes. */
  lemma FailureStep(l: Log, op: WriteOp)
    requires !op.Succeeds()
    ensures var l' := l.Write(op.data, op.outcome);
            l'.completed == l.completed && l'.PendingBytes() == if op.Faults() then "" else l.PendingBytes()
  {
  }

  /** The k-th write is a copy fault that finds no command completed since the start of the run. */
  predicate FaultsEarly(ops: seq<WriteOp>, k: nat)
    requires k < |ops|
  {
    ops[k].Faults() && ClosedPart(Surviving(ops[..k])) == []
  }

  /** What is left of the bytes that were pending when the run began, as a piece of its own. */
  ghost function StartPiece(l: Log, ops: seq<WriteOp>): seq<string> {
    if exists k :: 0 <= k < |ops| && FaultsEarly(ops, k) then [] else [l.PendingBytes()]
  }

  lemma StartStep(l: Log, ops: seq<WriteOp>)
    requires ops != []
    ensures StartPiece(l, ops) == if FaultsEarly(ops, |ops| - 1) then [] else StartPiece(l, Init(ops))
  {
    var last := |ops| - 1;
    assert ops[..last] == Init(ops);
    forall k | 0 <= k < last ensures FaultsEarly(ops, k) == FaultsEarly(Init(ops), k) {
      assert ops[..k] == Init(ops)[..k];
    }
  }

  lemma {:induction false} ClosedPartAppend(front: seq<string>, pieces: seq<string>)
    ensures ClosedPart(front + pieces)
         == if ClosedPart(pieces) == [] then ClosedPart(front) else front + ClosedPart(pieces)
  {
    if pieces == [] {
      assert front + pieces == front;
    } else if !Terminated(Final(pieces)) {
      assert Init(front + pieces) == front + Init(pieces);
      ClosedPartAppend(front, Init(pieces));
    }
  }

  lemma StartIsOpen(l: Log, ops: seq<WriteOp>)
    requires l.WellFormed()
    ensures ClosedPart(StartPiece(l, ops)) == []
  {
    if StartPiece(l, ops) != [] {
      assert Init(StartPiece(l, ops)) == [];
    }
  }

  /** A copy fault leaves the pieces that are terminated. */
  lemma FaultPieces(l: Log, ops: seq<WriteOp>)
    requires l.WellFormed() && ops != [] && Final(ops).Faults()
    ensures StartPiece(l, ops) + Surviving(ops) == ClosedPart(StartPiece(l, Init(ops)) + Surviving(Init(ops)))
  {
    StartStep(l, ops);
    StartIsOpen(l, Init(ops));
    assert ops[..|ops| - 1] == Init(ops);
    ClosedPartAppend(StartPiece(l, Init(ops)), Surviving(Init(ops)));
  }

  lemma OneOpenPiece(l: Log)
    requires l.WellFormed()
    ensures Grouped([l.PendingBytes()]) == ([], l.PendingBytes())
  {
    assert Init([l.PendingBytes()]) == [];
    assert "" + l.PendingBytes() == l.PendingBytes();
  }

  lemma GroupedSnoc(pieces: seq<string>, piece: string)
    ensures var (commands, rest) := Grouped(pieces);
            Grouped(pieces + [piece])
            == if Terminated(piece) then (commands + [rest + piece], "") else (commands, rest + piece)
  {
    assert Init(pieces + [piece]) == pieces;
  }

  /** The history is the completed commands of l and what some pieces group into. */
  ghost predicate Extends(l: Log, l': Log, pieces: seq<string>) {
    l'.completed == l.completed + Grouped(pieces).0 && l'.PendingBytes() == Grouped(pieces).1
  }

  lemma ExtendsSuccess(l: Log, l': Log, pieces: seq<string>, data: string)
    requires Extends(l, l', pieces) && data != ""
    ensures Extends(l, l'.Write(data, Success), pieces + [data])
  {
    SuccessStep(l', data);
    GroupedSnoc(pieces, data);
  }

  lemma ExtendsFailure(l: Log, l': Log, pieces: seq<string>, op: WriteOp)
    requires Extends(l, l', pieces) && !op.Succeeds()
    ensures Extends(l, l'.Write(op.data, op.outcome), if op.Faults() then ClosedPart(pieces) else pieces)
  {
    FailureStep(l', op);
    ClosedPartGrouped(pieces);
  }

  /** The pieces of a run from any state: the bytes pending at its start, unless a copy fault hits them,
      and the surviving ones. */
  ghost function RunPieces(l: Log, ops: seq<WriteOp>): seq<string> {
    StartPiece(l, ops) + Surviving(ops)
  }

  lemma RunPiecesStep(l: Log, ops: seq<WriteOp>)
    requires l.WellFormed() && ops != []
    ensures RunPieces(l, ops) == if Final(ops).Succeeds() then RunPieces(l, Init(ops)) + [Final(ops).data]
                                 else if Final(ops).Faults() then ClosedPart(RunPieces(l, Init(ops)))
                                 else RunPieces(l, Init(ops))
  {
    if Final(ops).Faults() {
      FaultPieces(l, ops);
    } else {
      StartStep(l, ops);
    }
  }

  /** A run from any state adds to the completed commands what its pieces group into. */
  lemma {:induction false} RunFrom(l: Log, ops: seq<WriteOp>)
    requires l.WellFormed()
    ensures Extends(l, Writes(l, ops), RunPieces(l, ops))
  {
    if ops == [] {
      OneOpenPiece(l);
      assert RunPieces(l, ops) == [l.PendingBytes()];
    } else {
      RunFrom(l, Init(ops));
      RunPiecesStep(l, ops);
      var before, op := Writes(l, Init(ops)), Final(ops);
      if op.Succeeds() {
        ExtendsSuccess(l, before, RunPieces(l, Init(ops)), op.data);
      } else {
        ExtendsFailure(l, before, RunPieces(l, Init(ops)), op);
      }
    }
  }

  /** An empty first piece makes no difference. */
  lemma {:induction false} EmptyStart(pieces: seq<string>)
    ensures Grouped([""] + pieces) == Grouped(pieces)
  {
    if pieces == [] {
      assert [""] + pieces == [""];
      OneOpenPiece(EMPTY_LOG);
    } else {
      assert Init([""] + pieces) == [""] + Init(pieces);
      EmptyStart(Init(pieces));
    }
  }

  /** From a state without pending bytes, that is what the surviving pieces group into. */
  lemma RunFromClosed(l: Log, ops: seq<WriteOp>)
    requires l.WellFormed() && l.PendingBytes() == ""
    ensures Extends(l, Writes(l, ops), Surviving(ops))
  {
    RunFrom(l, ops);
    EmptyStart(Surviving(ops));
    assert [] + Surviving(ops) == Surviving(ops);
  }

  /** For every run from the empty device, whatever fails on the way: the history is exactly what
      the surviving pieces group into. */
  lemma RunHistory(ops: seq<WriteOp>)
    ensures var l := Writes(EMPTY_LOG, ops);
            l.WellFormed() && (l.completed, l.PendingBytes()) == Grouped(Surviving(ops))
  {
    WritesKeepWellFormed(EMPTY_LOG, ops);
    RunFromClosed(EMPTY_LOG, ops);
    assert [] + Grouped(Surviving(ops)).0 == Grouped(Surviving(ops)).0;
  }

  lemma ContentForms(l: Log)
    ensures l.Content() == if l.pending.Some? then Flatten(Last(l.completed, SLOTS - 1)) + l.pending.value
                           else Flatten(Last(l.completed, if l.hole then SLOTS - 1 else SLOTS))
  {
    if l.pending.Some? {
      FlattenSnoc(Last(l.completed, SLOTS - 1), l.pending.value);
    }
  }

  /** What a reader sees after any run: the last ten commands, or the last nine and the open one;
      one less while there is a hole. */
  lemma RunRetained(ops: seq<WriteOp>)
    ensures var l, commands := Writes(EMPTY_LOG, ops), Grouped(Surviving(ops)).0;
            l.Content() == if l.pending.Some? then Flatten(Last(commands, SLOTS - 1)) + Grouped(Surviving(ops)).1
                           else Flatten(Last(commands, if l.hole then SLOTS - 1 else SLOTS))
  {
    RunHistory(ops);
    ContentForms(Writes(EMPTY_LOG, ops));
  }

  lemma HoleAfter(ops: seq<WriteOp>)
    ensures var l := Writes(EMPTY_LOG, ops);
            l.hole <==> l.Evicts() && ops != [] && !Final(ops).Succeeds()
  {
    if ops != [] {
      WritesKeepWellFormed(EMPTY_LOG, Init(ops));
    }
  }

  /** There is a hole exactly when a failed or empty write came last and found the ring full, with
      no open command: the next successful write makes up for it. */
  lemma RunHoles(ops: seq<WriteOp>)
    ensures var l, commands := Writes(EMPTY_LOG, ops), Grouped(Surviving(ops)).0;
            l.hole <==> |commands| >= SLOTS && l.pending.None? && ops != [] && !Final(ops).Succeeds()
  {
    RunHistory(ops);
    HoleAfter(ops);
  }

  /** Every byte in the history, completed or pending, retained or not. */
  function Stream(l: Log): string {
    Flatten(l.completed) + l.PendingBytes()
  }

  /** A successful write appends its data to the stream. */
  lemma SuccessExtends(l: Log, data: string)
    requires data != ""
    ensures Stream(l.Write(data, Success)) == Stream(l) + data
  {
    SuccessStep(l, data);
    FlattenSnoc(l.completed, l.PendingBytes() + data);
    assert Flatten(l.completed) + (l.PendingBytes() + data) == Stream(l) + data;
  }

  /** What the answers of a write mean for the history. A count says how many bytes it has gained, and
      comes exactly with the writes that are accepted. The other answers come with a history that has
      gained nothing: no memory, with the pending bytes kept; a bad address, with nothing pending. */
  lemma WriteAnswers(l: Log, data: string, outcome: Outcome)
    ensures var l', answer := l.Write(data, outcome), WriteReturn(data, outcome);
            && (answer.Wrote? <==> outcome == Success && data != "")
            && (answer.Wrote? ==> answer.n == |Stream(l')| - |Stream(l)| == |data|)
            && (!answer.Wrote? ==> l'.completed == l.completed)
            && (answer.NoMemory? <==> outcome == NoStruct || (outcome == NoBuffer && data != ""))
            && (answer.NoMemory? ==> l'.PendingBytes() == l.PendingBytes())
            && (answer.BadAddress? <==> outcome == CopyFault && data != "")
            && (answer.BadAddress? ==> l'.PendingBytes() == "")
  {
    if outcome == Success && data != "" {
      SuccessExtends(l, data);
    } else {
      FailureStep(l, WriteOp(data, outcome));
    }
  }

  lemma {:induction false} GroupedStream(pieces: seq<string>)
    ensures Flatten(Grouped(pieces).0) + Grouped(pieces).1 == Flatten(pieces)
  {
    if pieces != [] {
      var front, piece := Init(pieces), Final(pieces);
      var (commands, rest) := Grouped(front);
      GroupedStream(front);
      assert pieces == front + [piece];
      FlattenSnoc(front, piece);
      FlattenSnoc(commands, rest + piece);
      assert Flatten(commands) + (rest + piece) == Flatten(commands) + rest + piece;
    }
  }

  function AcceptedBytes(ops: seq<WriteOp>): nat {
    if ops == [] then 0
    else AcceptedBytes(Init(ops)) + if Final(ops).Succeeds() then |Final(ops).data| else 0
  }

  /** Bytes are conserved over every run: each accepted byte is in a completed command, pending,
      or counted as lost. */
  lemma {:induction false} BytesConserved(ops: seq<WriteOp>)
    ensures var l := Writes(EMPTY_LOG, ops);
            AcceptedBytes(ops) == |Flatten(l.completed)| + |l.PendingBytes()| + l.lost
  {
    if ops != [] {
      BytesConserved(Init(ops));
      var l := Writes(EMPTY_LOG, Init(ops));
      FlattenSnoc(l.completed, l.PendingBytes() + Final(ops).data);
    }
  }

  /** The k-th write is a copy fault that hits pending bytes. */
  predicate LosesBytes(ops: seq<WriteOp>, k: nat)
    requires k < |ops|
  {
    ops[k].Faults() && Grouped(Surviving(ops[..k])).1 != ""
  }

  lemma {:induction false} LossGrows(ops: seq<WriteOp>)
    requires ops != []
    ensures var l, l' := Writes(EMPTY_LOG, Init(ops)), Writes(EMPTY_LOG, ops);
            l'.lost >= l.lost && (l'.lost > l.lost <==> LosesBytes(ops, |ops| - 1))
  {
    RunHistory(Init(ops));
    assert Init(ops) == ops[..|ops| - 1];
  }

  /** Over every run, bytes are lost exactly when some copy fault hit a command with pending bytes;
      a fault in a fresh command is harmless. */
  lemma {:induction false} NothingLostIff(ops: seq<WriteOp>)
    ensures Writes(EMPTY_LOG, ops).lost == 0 <==> forall k :: 0 <= k < |ops| ==> !LosesBytes(ops, k)
  {
    if ops != [] {
      var front, last := Init(ops), |ops| - 1;
      NothingLostIff(front);
      LossGrows(ops);
      forall k | 0 <= k < last ensures LosesBytes(ops, k) == LosesBytes(front, k) {
        assert ops[..k] == front[..k];
      }
    }
  }

  lemma SizeIsContent(l: Log)
    ensures l.Size() == |l.Content()| <==> l.lost == 0
  {
  }

  /** SEEK_END finds the end of the readable content, and the device size is the content's length,
      exactly after the runs in which no copy fault hit pending bytes; the requested offset plays no
      part in it. */
  lemma SeekEndIff(ops: seq<WriteOp>, fpos: int, off: int)
    ensures var l := Writes(EMPTY_LOG, ops);
            SeekTarget(l, fpos, off, SeekEnd) == Some(|l.Content()|) <==> forall k :: 0 <= k < |ops| ==> !LosesBytes(ops, k)
  {
    NothingLostIff(ops);
    SizeIsContent(Writes(EMPTY_LOG, ops));
  }

  // ---------------------------------------------------------------------------------------------
  // Writes that cut a byte stream at newlines
  // ---------------------------------------------------------------------------------------------

  predicate NoNewline(s: string) {
    forall k :: 0 <= k < |s| ==> s[k] != '\n'
  }

  /** Exactly one newline, as the last byte. */
  predicate IsLine(s: string) {
    Terminated(s) && NoNewline(Init(s))
  }

  /** The newline-terminated lines of a stream, byte by byte, and what follows the last newline. */
  function Lines(s: string): (seq<string>, string) {
    if s == "" then ([], "")
    else
      var (lines, rest) := Lines(Init(s));
      if Final(s) == '\n' then (lines + [rest + "\n"], "") else (lines, rest + [Final(s)])
  }

  lemma {:induction false} LinesAreLines(s: string)
    ensures Flatten(Lines(s).0) + Lines(s).1 == s
    ensures forall k :: 0 <= k < |Lines(s).0| ==> IsLine(Lines(s).0[k])
    ensures NoNewline(Lines(s).1)
  {
    if s != "" {
      LinesAreLines(Init(s));
      var (lines, rest) := Lines(Init(s));
      assert s == Init(s) + [Final(s)];
      if Final(s) == '\n' {
        FlattenSnoc(lines, rest + "\n");
        assert Init(rest + "\n") == rest;
      }
    }
  }

  /** A piece that has a newline at most at its end. */
  predicate LinePiece(s: string) {
    s != "" && NoNewline(Init(s))
  }

  lemma {:induction false} LinesAppend(s: string, piece: string)
    requires NoNewline(piece)
    ensures Lines(s + piece) == (Lines(s).0, Lines(s).1 + piece)
  {
    if piece == "" {
      assert s + piece == s && Lines(s).1 + piece == Lines(s).1;
    } else {
      LinesAppend(s, Init(piece));
      assert Init(s + piece) == s + Init(piece);
      assert Final(s + piece) == Final(piece) && Final(piece) == piece[|piece| - 1];
      assert Lines(s).1 + piece == Lines(s).1 + Init(piece) + [Final(piece)];
    }
  }

  /** Cutting is undone by accumulating: however a stream is cut, as long as no piece has a newline
      before its end, the grouped commands are the lines of the stream. */
  lemma {:induction false} GroupedIsLines(pieces: seq<string>)
    requires forall k :: 0 <= k < |pieces| ==> LinePiece(pieces[k])
    ensures Grouped(pieces) == Lines(Flatten(pieces))
  {
    if pieces != [] {
      var front, piece := Init(pieces), Final(pieces);
      GroupedIsLines(front);
      assert pieces == front + [piece];
      FlattenSnoc(front, piece);
      assert LinePiece(piece);
      var s := Flatten(front) + Init(piece);
      LinesAppend(Flatten(front), Init(piece));
      assert Flatten(pieces) == s + [Final(piece)];
      assert Init(s + [Final(piece)]) == s;
      assert piece == Init(piece) + [Final(piece)];
      assert Lines(s).1 + [Final(piece)] == Lines(Flatten(front)).1 + piece;
    }
  }

  lemma {:induction false} ClosedPartPrefix(pieces: seq<string>)
    ensures ClosedPart(pieces) <= pieces
  {
    if pieces != [] && !Terminated(Final(pieces)) {
      ClosedPartPrefix(Init(pieces));
    }
  }

  lemma {:induction false} SurvivingPieces(ops: seq<WriteOp>)
    requires forall k :: 0 <= k < |ops| ==> LinePiece(ops[k].data)
    ensures forall k :: 0 <= k < |Surviving(ops)| ==> LinePiece(Surviving(ops)[k])
  {
    if ops != [] {
      SurvivingPieces(Init(ops));
      ClosedPartPrefix(Surviving(Init(ops)));
      assert LinePiece(Final(ops).data);
    }
  }

  /** Such writes make the history the lines of the surviving stream: every completed command has
      exactly one newline, as its last byte, and the pending bytes have none. */
  lemma StreamHistory(ops: seq<WriteOp>)
    requires forall k :: 0 <= k < |ops| ==> LinePiece(ops[k].data)
    ensures var l := Writes(EMPTY_LOG, ops);
            && (l.completed, l.PendingBytes()) == Lines(Flatten(Surviving(ops)))
            && (forall k :: 0 <= k < |l.completed| ==> IsLine(l.completed[k]))
            && NoNewline(l.PendingBytes())
  {
    RunHistory(ops);
    SurvivingPieces(ops);
    GroupedIsLines(Surviving(ops));
    LinesAreLines(Flatten(Surviving(ops)));
  }

  // ---------------------------------------------------------------------------------------------
  // Successful writes on top of any history
  // ---------------------------------------------------------------------------------------------

  function Successes(pieces: seq<string>): (ops: seq<WriteOp>)
    ensures |ops| == |pieces|
    ensures forall k :: 0 <= k < |pieces| ==> ops[k] == WriteOp(pieces[k], Success)
  {
    seq(|pieces|, k requires 0 <= k < |pieces| => WriteOp(pieces[k], Success))
  }

  lemma {:induction false} SuccessesAdd(l: Log, pieces: seq<string>)
    requires l.WellFormed() && l.PendingBytes() == ""
    requires forall k :: 0 <= k < |pieces| ==> pieces[k] != ""
    ensures var l' := Writes(l, Successes(pieces));
            && l'.WellFormed() && l'.lost == l.lost
            && l'.completed == l.completed + Grouped(pieces).0 && l'.PendingBytes() == Grouped(pieces).1
            && (pieces != [] ==> !l'.hole && (l'.pending.None? <==> Terminated(Final(pieces))))
  {
    WritesKeepWellFormed(l, Successes(pieces));
    if pieces != [] {
      assert Init(Successes(pieces)) == Successes(Init(pieces));
      SuccessesAdd(l, Init(pieces));
      SuccessStep(Writes(l, Successes(Init(pieces))), Final(pieces));
    }
  }
}
