/** The socket server (aesdsocket.c): a client's line reaches the device in blocks, and the device
    is sent back in blocks. */
module SocketServer {
  import opened Sequences
  import opened CircularBuffer
  import opened CommandLog
  import opened Positions
  import opened WriteRuns
  import opened Driver
  import opened DeviceRuns

  const BLOCK: nat := 512
  const SEEKTO: string := "AESDCHAR_IOCSEEKTO:"

  /** What the server cannot control: the reading of a SEEKTO request, and how the write of the
      k-th block fares in the driver. */
  datatype Env = Env(parse: string -> Option<(nat, nat)>, outcome: nat -> Outcome)

  /** A line cut into blocks. */
  function Blocks(line: string): (r: seq<string>)
    ensures r != []
    decreases |line|
  {
    if |line| <= BLOCK then [line] else [line[..BLOCK]] + Blocks(line[BLOCK..])
  }

  /** What is known of block k of a line. */
  ghost predicate BlockShape(b: seq<string>, k: nat)
    requires k < |b|
  {
    LinePiece(b[k]) && (k < |b| - 1 ==> |b[k]| == BLOCK && NoNewline(b[k]))
  }

  lemma LineTail(line: string, n: nat)
    requires IsLine(line) && 0 < n < |line|
    ensures NoNewline(line[..n]) && LinePiece(line[..n]) && IsLine(line[n..])
  {
    assert Init(line[n..]) == Init(line)[n..];
    assert line[..n] == Init(line)[..n];
  }

  lemma {:induction false} BlocksShape(line: string)
    requires IsLine(line)
    ensures forall k :: 0 <= k < |Blocks(line)| ==> BlockShape(Blocks(line), k)
    decreases |line|
  {
    if |line| > BLOCK {
      var b, rest := Blocks(line), Blocks(line[BLOCK..]);
      LineTail(line, BLOCK);
      BlocksShape(line[BLOCK..]);
      forall k | 0 <= k < |b| ensures BlockShape(b, k) {
        if k > 0 {
          assert BlockShape(rest, k - 1);
        }
      }
    }
  }

  lemma {:induction false} BlocksOfLine(line: string)
    requires IsLine(line)
    ensures var b := Blocks(line);
            && Flatten(b) == line
            && Terminated(Final(b)) && |Final(b)| == |line| - 512 * (|b| - 1) <= 512
            && (forall k :: 0 <= k < |b| - 1 ==> |b[k]| == 512)
    ensures forall k :: 0 <= k < |Blocks(line)| ==> BlockShape(Blocks(line), k)
    decreases |line|
  {
    BlocksShape(line);
    if |line| <= BLOCK {
      assert Flatten([line]) == line + Flatten([]);
    } else {
      LineTail(line, BLOCK);
      BlocksOfLine(line[BLOCK..]);
      assert Blocks(line)[1..] == Blocks(line[BLOCK..]);
    }
  }

  predicate IsSeekTo(block: string) {
    SEEKTO <= block
  }

  /** The state of the device, the replay offset and the success flag of a client's transfer. */
  datatype Delivery = Delivery(log: Log, offset: int, ok: bool)

  /** One section under the file mutex: an ordinary block is one driver write, whatever comes of it; a
      SEEKTO block sets the offset, or ends the transfer when it is malformed or refused. */
  function Section(l: Log, block: string, offset: int, parse: string -> Option<(nat, nat)>, outcome: Outcome): (d: Delivery)
    ensures offset >= 0 ==> d.offset >= 0
  {
    if !IsSeekTo(block) then Delivery(l.Write(block, outcome), offset, true)
    else match parse(block)
      case None => Delivery(l, offset, false)
      case Some(at) =>
        var answer := SeekTo(l, at.0, at.1);
        if answer < 0 then Delivery(l, offset, false) else Delivery(l, answer, true)
  }

  /** What a section does, by the text of the block: one that begins with the text of a request, whatever
      follows, writes nothing, and sets the offset to the ioctl's answer or ends the transfer; one that
      differs from that text in a byte, or is shorter, is handed to the driver. */
  lemma SectionByText(l: Log, block: string, offset: int, parse: string -> Option<(nat, nat)>, outcome: Outcome)
    ensures var d := Section(l, block, offset, parse, outcome);
            if |block| >= 19 && block[..19] == "AESDCHAR_IOCSEEKTO:" then
              && d.log == l
              && d.ok == (parse(block).Some? && SeekTo(l, parse(block).value.0, parse(block).value.1) >= 0)
              && d.offset == if d.ok then SeekTo(l, parse(block).value.0, parse(block).value.1) else offset
            else d == Delivery(l.Write(block, outcome), offset, true)
  {
  }

  /** Blocks k, k + 1, ... in turn, with nobody else in between. */
  function Deliver(l: Log, blocks: seq<string>, k: nat, offset: int, env: Env): (d: Delivery)
    requires k <= |blocks|
    ensures offset >= 0 ==> d.offset >= 0
    decreases |blocks| - k
  {
    if k == |blocks| then Delivery(l, offset, true)
    else
      var d := Section(l, blocks[k], offset, env.parse, env.outcome(k));
      if d.ok then Deliver(d.log, blocks, k + 1, d.offset, env) else d
  }

  /** An ordinary line: no block looks like a SEEKTO request. */
  predicate Ordinary(line: string) {
    IsLine(line) && forall k :: 0 <= k < |Blocks(line)| ==> !IsSeekTo(Blocks(line)[k])
  }

  lemma DeliverStep(l: Log, blocks: seq<string>, k: nat, offset: int, env: Env)
    requires k < |blocks|
    ensures var d := Section(l, blocks[k], offset, env.parse, env.outcome(k));
            Deliver(l, blocks, k, offset, env) == if d.ok then Deliver(d.log, blocks, k + 1, d.offset, env) else d
  {
  }

  /** The driver accepts every block of the line. */
  ghost predicate AcceptsAll(line: string, env: Env) {
    forall k :: 0 <= k < |Blocks(line)| ==> env.outcome(k) == Success
  }

  lemma SuccessesTake(l: Log, pieces: seq<string>, k: nat)
    requires k < |pieces|
    ensures Writes(l, Successes(pieces[..k + 1])) == Writes(l, Successes(pieces[..k])).Write(pieces[k], Success)
  {
    assert Init(Successes(pieces[..k + 1])) == Successes(pieces[..k]);
  }

  lemma {:induction false} DeliverOrdinary(l: Log, line: string, k: nat, env: Env)
    requires Ordinary(line) && k <= |Blocks(line)| && AcceptsAll(line, env)
    ensures Deliver(Writes(l, Successes(Blocks(line)[..k])), Blocks(line), k, 0, env)
         == Delivery(Writes(l, Successes(Blocks(line))), 0, true)
    decreases |Blocks(line)| - k
  {
    var b := Blocks(line);
    if k == |b| {
      assert b[..k] == b;
    } else {
      var l' := Writes(l, Successes(b[..k]));
      SuccessesTake(l, b, k);
      DeliverStep(l', b, k, 0, env);
      assert Section(l', b[k], 0, env.parse, Success) == Delivery(l'.Write(b[k], Success), 0, true);
      DeliverOrdinary(l, line, k + 1, env);
    }
  }

  /** Pieces of which only the last is terminated group into one command. */
  lemma {:induction false} OneGroup(pieces: seq<string>, k: nat)
    requires k <= |pieces| && forall i :: 0 <= i < |pieces| - 1 ==> !Terminated(pieces[i])
    requires pieces != [] && Terminated(Final(pieces))
    ensures Grouped(pieces[..k]) == if k == |pieces| then ([Flatten(pieces)], "") else ([], Flatten(pieces[..k]))
  {
    if k > 0 {
      OneGroup(pieces, k - 1);
      assert Init(pieces[..k]) == pieces[..k - 1];
      FlattenTake(pieces, k - 1);
      if k == |pieces| {
        assert pieces[..k] == pieces;
        assert Grouped(pieces).0 == [Flatten(pieces)];
      }
    }
  }

  /** Chunking is undone by accumulation: a line of any length becomes exactly one command, provided
      no bytes of an open command are waiting and the driver accepts each block. */
  lemma LineIsOneCommand(l: Log, line: string, env: Env)
    requires l.WellFormed() && l.PendingBytes() == "" && Ordinary(line) && AcceptsAll(line, env)
    ensures Deliver(l, Blocks(line), 0, 0, env)
         == Delivery(Log(l.completed + [line], None, false, l.lost), 0, true)
  {
    var b := Blocks(line);
    BlocksOfLine(line);
    DeliverOrdinary(l, line, 0, env);
    assert Writes(l, Successes(b[..0])) == l;
    forall k | 0 <= k < |b| ensures b[k] != "" {
      assert BlockShape(b, k);
    }
    SuccessesAdd(l, b);
    forall k | 0 <= k < |b| - 1 ensures !Terminated(b[k]) {
      assert BlockShape(b, k);
    }
    OneGroup(b, |b|);
    assert b[..|b|] == b;
  }

  /** The blocks from the k-th on all reach the log. */
  ghost predicate AllArrive(blocks: seq<string>, k: nat, env: Env) {
    forall j :: k <= j < |blocks| ==> !IsSeekTo(blocks[j]) && env.outcome(j) == Success
  }

  lemma SectionBytes(l: Log, block: string, offset: int, parse: string -> Option<(nat, nat)>, outcome: Outcome)
    requires block != ""
    ensures var added := |Stream(Section(l, block, offset, parse, outcome).log)| - |Stream(l)|;
            if IsSeekTo(block) || outcome != Success then added <= 0 else added == |block|
  {
    if !IsSeekTo(block) {
      if outcome == Success {
        SuccessExtends(l, block);
      } else {
        FailureStep(l, WriteOp(block, outcome));
      }
    }
  }

  /** Blocks that look like SEEKTO requests do not reach the log, nor do those that the driver refuses. */
  lemma {:induction false} DeliverBytes(l: Log, blocks: seq<string>, k: nat, offset: int, env: Env)
    requires k <= |blocks|
    requires forall j :: k <= j < |blocks| ==> blocks[j] != ""
    ensures var added := |Stream(Deliver(l, blocks, k, offset, env).log)| - |Stream(l)|;
            && added <= |Flatten(blocks[k..])|
            && (!AllArrive(blocks, k, env) ==> added < |Flatten(blocks[k..])|)
    decreases |blocks| - k
  {
    if k < |blocks| {
      assert blocks[k..][1..] == blocks[k + 1..];
      var d := Section(l, blocks[k], offset, env.parse, env.outcome(k));
      SectionBytes(l, blocks[k], offset, env.parse, env.outcome(k));
      if d.ok {
        DeliverBytes(d.log, blocks, k + 1, d.offset, env);
      }
    }
  }

  /** From any state without pending bytes, whatever the driver does: a line becomes one command exactly
      when none of its blocks, even one in its middle, happens to start like a SEEKTO request and the
      driver accepts every block. */
  lemma LineIsOneCommandIff(l: Log, line: string, env: Env)
    requires l.WellFormed() && l.PendingBytes() == "" && IsLine(line)
    ensures Deliver(l, Blocks(line), 0, 0, env).log.completed == l.completed + [line]
            <==> Ordinary(line) && AcceptsAll(line, env)
  {
    var b := Blocks(line);
    if Ordinary(line) && AcceptsAll(line, env) {
      LineIsOneCommand(l, line, env);
    } else {
      BlocksOfLine(line);
      forall j | 0 <= j < |b| ensures b[j] != "" {
        assert BlockShape(b, j);
      }
      DeliverBytes(l, b, 0, 0, env);
      assert b[0..] == b;
      FlattenSnoc(l.completed, line);
    }
  }

  /** A client that sends a SEEKTO request, in a state in which the ioctl numbers commands as
      documented, gets the rest of the command it names and all later ones; nothing is written. */
  lemma SeekToSession(l: Log, line: string, w: nat, o: nat, env: Env)
    requires l.WellFormed() && IsLine(line) && |line| <= 512 && "AESDCHAR_IOCSEEKTO:" <= line && env.parse(line) == Some((w, o))
    requires w < SLOTS - 1 && NumbersAsDocumented(l, w)
    ensures var d, kept := Deliver(l, Blocks(line), 0, 0, env), l.Retained();
            && d.log == l
            && if w < |kept| && o < |kept[w]| then
                 d.ok && Drop(l.Content(), d.offset) == kept[w][o..] + Flatten(kept[w + 1..])
               else !d.ok && d.offset == 0
  {
    SeekToAgrees(l, w, o);
    if Documented(l, w, o).Some? {
      DocumentedContent(l, w, o);
      assert Deliver(l, Blocks(line), 0, 0, env) == Deliver(l, Blocks(line), 1, SeekTo(l, w, o), env);
    }
  }

  // ---------------------------------------------------------------------------------------------
  // The server's loops
  // ---------------------------------------------------------------------------------------------

  /** The block that starts at a position of a line. */
  function BlockFrom(line: string, position: nat): string
    requires position <= |line|
  {
    if |line| - position <= BLOCK then line[position..] else line[position..position + BLOCK]
  }

  lemma BlockFromTail(line: string, position: nat)
    requires BLOCK <= position <= |line|
    ensures BlockFrom(line, position) == BlockFrom(line[BLOCK..], position - BLOCK)
  {
  }

  lemma FirstBlockFrom(line: string)
    ensures Blocks(line)[0] == BlockFrom(line, 0)
    ensures |Blocks(line)| == 1 <==> |line| <= BLOCK
  {
  }

  lemma BlocksTail(line: string)
    requires |line| > BLOCK
    ensures |Blocks(line)| == |Blocks(line[BLOCK..])| + 1
    ensures forall k :: 0 < k < |Blocks(line)| ==> Blocks(line)[k] == Blocks(line[BLOCK..])[k - 1]
  {
  }

  lemma {:induction false} BlocksFrom(line: string, k: nat)
    requires BLOCK * k < |line|
    ensures k < |Blocks(line)| && Blocks(line)[k] == BlockFrom(line, BLOCK * k)
    ensures k + 1 == |Blocks(line)| <==> |line| - BLOCK * k <= BLOCK
  {
    if k == 0 {
      FirstBlockFrom(line);
    } else {
      BlocksTail(line);
      BlocksFrom(line[BLOCK..], k - 1);
      BlockFromTail(line, BLOCK * k);
    }
  }

  lemma NewlineEndsLine(line: string, i: nat)
    requires IsLine(line) && i < |line|
    ensures line[i] == '\n' <==> i == |line| - 1
  {
    if i < |line| - 1 {
      assert Init(line)[i] != '\n';
    }
  }

  /** The receiving loop: a zero-filled buffer takes one byte at a time, up to a newline. */
  method ReceiveBlock(line: string, received: nat) returns (block: string, newline: bool)
    requires IsLine(line) && received < |line|
    ensures newline <==> |line| - received <= 512
    ensures |block| <= 512
    ensures block == BlockFrom(line, received)
  {
    var buf := new char[BLOCK](_ => '\0');
    var internalCntr := 0;
    newline := false;
    while internalCntr < BLOCK
      invariant 0 <= internalCntr <= BLOCK && received + internalCntr <= |line|
      invariant buf[..internalCntr] == line[received..received + internalCntr]
      invariant !newline && received + internalCntr < |line|
    {
      buf[internalCntr] := line[received + internalCntr];
      NewlineEndsLine(line, received + internalCntr);
      internalCntr := internalCntr + 1;
      if buf[internalCntr - 1] == '\n' {
        newline := true;
        break;
      }
    }
    block := buf[..internalCntr];
  }

  /** What happens to one block under the file mutex. */
  method DeliverBlock(dev: AesdDevice, block: string, start: int, parse: string -> Option<(nat, nat)>, outcome: Outcome)
    returns (ok: bool, offset: int)
    requires dev.Valid()
    modifies dev, dev.circBuffer, dev.circBuffer.entry, dev.mem
    ensures dev.Valid()
    ensures Delivery(dev.log, offset, ok) == Section(old(dev.log), block, start, parse, outcome)
    // A block that begins with the text of a request is never written; any other block always is.
    ensures "AESDCHAR_IOCSEEKTO:" <= block ==> dev.log == old(dev.log)
    ensures !("AESDCHAR_IOCSEEKTO:" <= block) ==> ok && offset == start && dev.log == old(dev.log).Write(block, outcome)
  {
    ok, offset := true, start;
    var file := new OpenFile(0);
    if IsSeekTo(block) {
      var request := parse(block);
      if request.Some? {
        var answer := dev.AesdAdjustFileOffset(file, request.value.0, request.value.1);
        if answer < 0 {
          ok := false;
        } else {
          offset := answer;
        }
      } else {
        ok := false;
      }
    } else {
      var written := dev.AesdWrite(file, block, outcome);
    }
  }

  /** One client's data: everything up to and including the first newline. */
  method ReadClientDataToFile(dev: AesdDevice, line: string, start: int, env: Env) returns (result: bool, offset: int)
    requires dev.Valid() && IsLine(line)
    modifies dev, dev.circBuffer, dev.circBuffer.entry, dev.mem
    ensures dev.Valid()
    ensures Delivery(dev.log, offset, result) == Deliver(old(dev.log), Blocks(line), 0, start, env)
  {
    result, offset := true, start;
    var dataBlockEnd := false;
    var received := 0;
    var k := 0;
    ghost var blocks := Blocks(line);
    ghost var goal := Deliver(dev.log, blocks, 0, start, env);
    while !dataBlockEnd
      invariant dev.Valid()
      invariant 0 <= k <= |blocks|
      invariant !dataBlockEnd ==> received == BLOCK * k < |line| && result
      invariant goal == if dataBlockEnd then Delivery(dev.log, offset, result) else Deliver(dev.log, blocks, k, offset, env)
      decreases |line| - BLOCK * k, !dataBlockEnd
    {
      var block, newline := ReceiveBlock(line, received);
      received := received + |block|;
      dataBlockEnd := newline;
      BlocksFrom(line, k);

      DeliverStep(dev.log, blocks, k, offset, env);
      var ok;
      ok, offset := DeliverBlock(dev, block, offset, env.parse, env.outcome(k));
      if !ok {
        dataBlockEnd := true;
        result := false;
      }
      k := k + 1;
    }
  }

  function FirstBlock(rest: string): (r: string)
    ensures |r| <= BLOCK
  {
    if |rest| < BLOCK then rest else rest[..BLOCK]
  }

  /** Where the replay stands after another block. */
  lemma NextBlock(rest: string, sent: seq<string>, block: string)
    requires BLOCK * |sent| <= |rest| && Flatten(sent) == rest[..BLOCK * |sent|]
    requires block == FirstBlock(rest[BLOCK * |sent|..])
    ensures |block| == BLOCK ==>
              BLOCK * |sent + [block]| <= |rest| && Flatten(sent + [block]) == rest[..BLOCK * |sent + [block]|]
    ensures |block| < BLOCK ==>
              Flatten(sent + [block]) == rest && |sent| == |rest| / BLOCK && |block| == |rest| % BLOCK
  {
    FlattenSnoc(sent, block);
  }

  lemma FirstOf(content: string, data: string, position: nat)
    requires (data == "" <==> position >= |content|) && data <= Drop(content, position) && |data| <= 1
    ensures data == if position < |content| then [content[position]] else ""
  {
  }

  lemma OneByte(l: Log, content: string, position: nat)
    requires content == l.Content() && position < 0x8000_0000_0000_0000
    ensures ReadFits(l, ToSizeT(position), 1)
    ensures ReadBytes(l, ToSizeT(position), 1) == if position < |content| then [content[position]] else ""
  {
    var data := ReadBytes(l, ToSizeT(position), 1);
    assert ToSizeT(position) == position;
    ReadIsSlice(l, ToSizeT(position), 1);
    FirstOf(content, data, position);
  }

  /** fread of one byte. */
  method ReadByte(dev: AesdDevice, ghost content: string, file: OpenFile) returns (data: string)
    requires dev.Valid() && content == dev.log.Content() && 0 <= file.fpos < 0x8000_0000_0000_0000
    modifies file
    ensures dev.Valid()
    ensures data == if old(file.fpos) < |content| then [content[old(file.fpos)]] else ""
    ensures file.fpos == old(file.fpos) + |data|
  {
    ghost var position: nat := file.fpos;
    OneByte(dev.log, content, position);
    data := dev.AesdRead(file, 1);
  }

  /** One block of the replay, read byte by byte from a freshly opened file. */
  method ReadBlock(dev: AesdDevice, ghost content: string, position: nat) returns (block: string)
    requires dev.Valid() && content == dev.log.Content() && position < 0x8000_0000_0000_0000 && |content| < 0x8000_0000_0000_0000
    ensures block == FirstBlock(Drop(content, position))
  {
    ghost var rest := Drop(content, position);
    var file := new OpenFile(0);
    var at := dev.AesdLlseek(file, position, SeekSet);
    var buf := new char[BLOCK](_ => '\0');
    var internalCntr := 0;
    while internalCntr < BLOCK
      invariant 0 <= internalCntr <= BLOCK && internalCntr <= |rest|
      invariant dev.Valid() && content == dev.log.Content() && file.fpos == position + internalCntr
      invariant buf[..internalCntr] == rest[..internalCntr]
    {
      var data := ReadByte(dev, content, file);
      if data == "" {
        break;
      }
      buf[internalCntr] := data[0];
      internalCntr := internalCntr + 1;
    }
    block := buf[..internalCntr];
  }

  /** The k-th block is taken, under the mutex, from the content of that moment; the first short
      block is the last one. */
  ghost predicate BlockOf(contents: seq<string>, offset: nat, sent: seq<string>, k: nat)
    requires k < |sent| == |contents|
  {
    && sent[k] == FirstBlock(Drop(contents[k], offset + BLOCK * k))
    && (|sent[k]| < BLOCK <==> k == |sent| - 1)
  }

  ghost predicate Taken(contents: seq<string>, offset: nat, sent: seq<string>)
    requires |sent| == |contents|
  {
    forall k :: 0 <= k < |sent| ==> BlockOf(contents, offset, sent, k)
  }

  /** The same content at n moments. */
  function Unchanged(content: string, n: nat): (r: seq<string>)
    ensures |r| == n && forall k :: 0 <= k < n ==> r[k] == content
  {
    seq(n, _ => content)
  }

  /** The k-th block of some that are taken from a content one after the other. */
  ghost predicate NthBlock(content: string, offset: nat, sent: seq<string>, k: nat)
    requires k < |sent|
  {
    sent[k] == FirstBlock(Drop(content, offset + BLOCK * k))
  }

  lemma NextNthBlock(content: string, offset: nat, sent: seq<string>, block: string)
    requires forall k :: 0 <= k < |sent| ==> NthBlock(content, offset, sent, k)
    requires block == FirstBlock(Drop(content, offset + BLOCK * |sent|))
    ensures forall k :: 0 <= k < |sent| + 1 ==> NthBlock(content, offset, sent + [block], k)
  {
    forall k | 0 <= k < |sent| + 1 ensures NthBlock(content, offset, sent + [block], k) {
      assert k < |sent| ==> NthBlock(content, offset, sent, k);
    }
  }

  lemma BlockOfUnchanged(content: string, contents: seq<string>, offset: nat, sent: seq<string>, k: nat)
    requires k < |sent| == |contents| && contents[k] == content && NthBlock(content, offset, sent, k)
    requires |sent[k]| < BLOCK <==> k == |sent| - 1
    ensures BlockOf(contents, offset, sent, k)
  {
  }

  lemma TakenWhileUnchanged(content: string, offset: nat, sent: seq<string>)
    requires sent != [] && |sent[|sent| - 1]| < BLOCK
    requires forall k :: 0 <= k < |sent| ==> NthBlock(content, offset, sent, k)
    requires forall k :: 0 <= k < |sent| - 1 ==> |sent[k]| == BLOCK
    ensures Taken(Unchanged(content, |sent|), offset, sent)
  {
    forall k | 0 <= k < |sent| ensures BlockOf(Unchanged(content, |sent|), offset, sent, k) {
      BlockOfUnchanged(content, Unchanged(content, |sent|), offset, sent, k);
    }
  }

  /** The replay: for each block the device is reopened and sought to where the last block ended.
      Nothing is skipped or repeated, and a short or empty block comes last. */
  method SendDataBackToClient(dev: AesdDevice, offset: nat) returns (sent: seq<string>)
    requires dev.Valid() && offset < 0x8000_0000_0000_0000 && |dev.log.Content()| < 0x8000_0000_0000_0000
    ensures Flatten(sent) == Drop(dev.log.Content(), offset)
    ensures |sent| == |Drop(dev.log.Content(), offset)| / 512 + 1
    ensures forall k :: 0 <= k < |sent| - 1 ==> |sent[k]| == 512
    ensures Taken(Unchanged(dev.log.Content(), |sent|), offset, sent)
  {
    ghost var content := dev.log.Content();
    ghost var rest := Drop(content, offset);
    var dataBlockEnd := false;
    var counter := 0;
    sent := [];
    while !dataBlockEnd
      invariant counter >= 0
      invariant if dataBlockEnd then Flatten(sent) == rest && |sent| == |rest| / BLOCK + 1
                else counter == BLOCK * |sent| <= |rest| && Flatten(sent) == rest[..BLOCK * |sent|]
      invariant forall k :: 0 <= k < |sent| ==> NthBlock(content, offset, sent, k)
      invariant dataBlockEnd ==> |sent| > 0 && |sent[|sent| - 1]| < BLOCK
      invariant forall k :: 0 <= k < |sent| && (dataBlockEnd ==> k < |sent| - 1) ==> |sent[k]| == BLOCK
      decreases |rest| - BLOCK * |sent|, !dataBlockEnd
    {
      DropTwice(content, offset, counter);
      var block := ReadBlock(dev, content, counter + offset);
      NextBlock(rest, sent, block);
      NextNthBlock(content, offset, sent, block);
      sent := sent + [block];
      if |block| < BLOCK {
        counter := counter + |block| + 1;
        dataBlockEnd := true;
      } else {
        counter := counter + BLOCK;
      }
    }
    TakenWhileUnchanged(content, offset, sent);
  }

  /** A client's session: read its line, then send it the device from the resulting offset. */
  method AesdsocketTask(dev: AesdDevice, line: string, env: Env) returns (result: bool, sent: seq<string>)
    requires dev.Valid() && IsLine(line)
    requires var d := Deliver(dev.log, Blocks(line), 0, 0, env);
             d.offset < 0x8000_0000_0000_0000 && |d.log.Content()| < 0x8000_0000_0000_0000
    modifies dev, dev.circBuffer, dev.circBuffer.entry, dev.mem
    ensures dev.Valid()
    ensures var d := Deliver(old(dev.log), Blocks(line), 0, 0, env);
            && dev.log == d.log && result == d.ok
            && Flatten(sent) == Drop(d.log.Content(), d.offset)
            && |sent| == |Drop(d.log.Content(), d.offset)| / 512 + 1
  {
    var offset;
    result, offset := ReadClientDataToFile(dev, line, 0, env);
    sent := SendDataBackToClient(dev, offset);
  }

  /** What a client on its own gets back for an ordinary line that the driver
      accepts: up to nine earlier commands, then its own line. */
  lemma SessionReply(l: Log, line: string, env: Env)
    requires l.WellFormed() && l.PendingBytes() == "" && Ordinary(line) && AcceptsAll(line, env)
    ensures var d := Deliver(l, Blocks(line), 0, 0, env);
            && d.ok && d.log.completed == l.completed + [line]
            && Drop(d.log.Content(), d.offset) == Flatten(Last(l.completed, SLOTS - 1)) + line
  {
    LineIsOneCommand(l, line, env);
    var d := Deliver(l, Blocks(line), 0, 0, env);
    LastSnoc(l.completed, line);
    FlattenSnoc(Last(l.completed, SLOTS - 1), line);
    assert d.log.Content()[0..] == d.log.Content();
  }

  // ---------------------------------------------------------------------------------------------
  // Replay while other clients write
  // ---------------------------------------------------------------------------------------------

  ghost predicate Growing(contents: seq<string>) {
    forall k :: 0 <= k < |contents| - 1 ==> GrowsAt(contents, k)
  }

  ghost predicate Replayed(contents: seq<string>, offset: nat, sent: seq<string>) {
    && |sent| == |contents| > 0
    && Taken(contents, offset, sent)
    && Growing(contents)
  }

  /** The first k blocks, all full, are the content from the offset on. */
  ghost predicate Covers(content: string, offset: nat, sent: seq<string>, k: nat)
    requires k <= |sent|
  {
    BLOCK * k <= |Drop(content, offset)| && Flatten(sent[..k]) == Drop(content, offset)[..BLOCK * k]
  }

  lemma NextOf(rest: string, sent: seq<string>, k: nat)
    requires k < |sent| && BLOCK * k <= |rest| && Flatten(sent[..k]) == rest[..BLOCK * k]
    requires sent[k] == FirstBlock(Drop(rest, BLOCK * k))
    ensures |sent[k]| == BLOCK ==> BLOCK * (k + 1) <= |rest| && Flatten(sent[..k + 1]) == rest[..BLOCK * (k + 1)]
    ensures |sent[k]| < BLOCK ==> Flatten(sent[..k + 1]) == rest
  {
    NextBlock(rest, sent[..k], sent[k]);
    assert sent[..k + 1] == sent[..k] + [sent[k]];
  }

  lemma CoversMore(content: string, offset: nat, sent: seq<string>, k: nat)
    requires k < |sent| && Covers(content, offset, sent, k)
    requires sent[k] == FirstBlock(Drop(content, offset + BLOCK * k))
    ensures |sent[k]| == BLOCK ==> Covers(content, offset, sent, k + 1)
    ensures |sent[k]| < BLOCK ==> Flatten(sent[..k + 1]) == Drop(content, offset)
  {
    DropTwice(content, offset, BLOCK * k);
    NextOf(Drop(content, offset), sent, k);
  }

  lemma DropPrefix(c: string, c': string, offset: nat, n: nat)
    requires c <= c' && n <= |Drop(c, offset)|
    ensures n <= |Drop(c', offset)| && Drop(c, offset)[..n] == Drop(c', offset)[..n]
  {
    if offset <= |c| {
      assert c'[..|c|] == c;
    }
  }

  lemma ReplayStep(contents: seq<string>, offset: nat, sent: seq<string>, k: nat)
    requires k + 1 < |sent| == |contents|
    requires BlockOf(contents, offset, sent, k) && GrowsAt(contents, k) && Covers(contents[k], offset, sent, k)
    ensures Covers(contents[k + 1], offset, sent, k + 1)
  {
    CoversMore(contents[k], offset, sent, k);
    DropPrefix(contents[k], contents[k + 1], offset, BLOCK * (k + 1));
  }

  lemma {:induction false} ReplayPrefix(contents: seq<string>, offset: nat, sent: seq<string>, k: nat)
    requires Replayed(contents, offset, sent) && k < |sent|
    ensures Covers(contents[k], offset, sent, k)
  {
    if k > 0 {
      ReplayPrefix(contents, offset, sent, k - 1);
      ReplayStep(contents, offset, sent, k - 1);
    }
  }

  lemma ReplayOfContents(contents: seq<string>, offset: nat, sent: seq<string>)
    requires Replayed(contents, offset, sent)
    ensures Flatten(sent) == Drop(Final(contents), offset)
  {
    var k := |sent| - 1;
    ReplayPrefix(contents, offset, sent, k);
    assert BlockOf(contents, offset, sent, k);
    CoversMore(contents[k], offset, sent, k);
    assert sent[..k + 1] == sent;
  }

  /** The content at the k-th of some moments of a run. */
  ghost function ContentsAt(t: Trace, moments: seq<nat>): (r: seq<string>)
    requires forall k :: 0 <= k < |moments| ==> moments[k] < |t.ws|
    ensures |r| == |moments|
    ensures forall k :: 0 <= k < |moments| ==> r[k] == t.ws[moments[k]].log.Content()
  {
    seq(|moments|, k requires 0 <= k < |moments| => t.ws[moments[k]].log.Content())
  }

  ghost predicate NotBefore(moments: seq<nat>, k: nat)
    requires 0 < k < |moments|
  {
    moments[k - 1] <= moments[k]
  }

  /** The moments lie within the run, in order. */
  ghost predicate Successive(t: Trace, moments: seq<nat>) {
    && (forall k :: 0 <= k < |moments| ==> moments[k] < |t.ws|)
    && (forall k :: 0 < k < |moments| ==> NotBefore(moments, k))
  }

  lemma MomentsGrow(t: Trace, moments: seq<nat>, k: nat)
    requires t.IsRun() && OnlyAppending(t) && Successive(t, moments) && k + 1 < |moments|
    ensures GrowsAt(ContentsAt(t, moments), k)
  {
    assert NotBefore(moments, k + 1);
    ContentGrows(t, moments[k], moments[k + 1]);
  }

  lemma MomentsGrowing(t: Trace, moments: seq<nat>)
    requires t.IsRun() && OnlyAppending(t) && Successive(t, moments)
    ensures Growing(ContentsAt(t, moments))
  {
    forall k | 0 <= k < |moments| - 1 ensures GrowsAt(ContentsAt(t, moments), k) {
      MomentsGrow(t, moments, k);
    }
  }

  lemma LastContent(t: Trace, moments: seq<nat>)
    requires moments != [] && forall k :: 0 <= k < |moments| ==> moments[k] < |t.ws|
    ensures Final(ContentsAt(t, moments)) == t.ws[Final(moments)].log.Content()
  {
    var last := |moments| - 1;
    assert ContentsAt(t, moments)[last] == t.ws[moments[last]].log.Content();
  }

  /** A replay whose blocks are taken at successive moments of a run in which the others only append:
      the reply is exactly the content, from the offset on, as of the last block. */
  lemma ReplayWhileGrowing(t: Trace, moments: seq<nat>, offset: nat, sent: seq<string>)
    requires t.IsRun() && OnlyAppending(t) && Successive(t, moments) && |moments| == |sent| > 0
    requires Taken(ContentsAt(t, moments), offset, sent)
    ensures Flatten(sent) == Drop(t.ws[Final(moments)].log.Content(), offset)
  {
    MomentsGrowing(t, moments);
    LastContent(t, moments);
    ReplayOfContents(ContentsAt(t, moments), offset, sent);
  }

  /** The place in the stream of the k-th block of a replay. */
  ghost function BlockPlace(t: Trace, moments: seq<nat>, offset: nat, k: nat): int
    requires k < |moments| && moments[k] < |t.ws|
  {
    GoneAt(t, moments[k]) + offset + BLOCK * k
  }

  lemma BlockPlaceMoves(t: Trace, moments: seq<nat>, offset: nat, k: nat)
    requires t.IsRun() && Successive(t, moments) && k + 1 < |moments|
    ensures moments[k] <= moments[k + 1]
    ensures BlockPlace(t, moments, offset, k + 1)
         == BlockPlace(t, moments, offset, k) + BLOCK + EvictedBetween(t, moments[k], moments[k + 1])
  {
    assert NotBefore(moments, k + 1);
    GoneGrows(t, moments[k], moments[k + 1]);
  }

  lemma BlockTaken(t: Trace, moments: seq<nat>, offset: nat, sent: seq<string>, k: nat)
    requires Successive(t, moments) && k < |moments| == |sent| && Taken(ContentsAt(t, moments), offset, sent)
    ensures sent[k] <= Drop(t.ws[moments[k]].log.Content(), offset + BLOCK * k)
    ensures k + 1 < |sent| ==> |sent[k]| == BLOCK
  {
    assert BlockOf(ContentsAt(t, moments), offset, sent, k);
  }

  lemma BlockOfStream(t: Trace, moments: seq<nat>, offset: nat, sent: seq<string>, k: nat, later: nat)
    requires t.IsRun() && Successive(t, moments) && k < |moments| == |sent|
    requires Taken(ContentsAt(t, moments), offset, sent) && moments[k] <= later <= |t.actions|
    ensures OfStream(t, moments[k], later, BlockPlace(t, moments, offset, k), sent[k])
  {
    BlockTaken(t, moments, offset, sent, k);
    PieceOfStream(t, moments[k], offset + BLOCK * k, sent[k], later);
    assert GoneAt(t, moments[k]) + (offset + BLOCK * k) == BlockPlace(t, moments, offset, k);
  }

  /** A replay during which the others do anything at all, evictions and faulted appends included: each
      block is the stream's bytes at its place, from one block to the next the place moves on by the
      block and exactly the bytes evicted in the meantime, and what has been sent of completed commands
      stays in the stream. */
  lemma ReplayAcrossEvictions(t: Trace, moments: seq<nat>, offset: nat, sent: seq<string>, k: nat, later: nat)
    requires t.IsRun() && Successive(t, moments) && k < |moments| == |sent|
    requires Taken(ContentsAt(t, moments), offset, sent) && moments[k] <= later <= |t.actions|
    ensures OfStream(t, moments[k], later, BlockPlace(t, moments, offset, k), sent[k])
    ensures k + 1 < |moments| ==>
              && moments[k] <= moments[k + 1]
              && BlockPlace(t, moments, offset, k + 1)
                 == BlockPlace(t, moments, offset, k) + |sent[k]| + EvictedBetween(t, moments[k], moments[k + 1])
  {
    BlockOfStream(t, moments, offset, sent, k, later);
    if k + 1 < |moments| {
      BlockTaken(t, moments, offset, sent, k);
      BlockPlaceMoves(t, moments, offset, k);
    }
  }
}
