/** Inputs on which the code departs from what it documents, each reached from the empty device. */
module Counterexamples {
  import opened Sequences
  import opened CommandLog
  import opened Positions
  import opened WriteRuns
  import opened SocketServer
  import opened ServerRuns
  import opened WholeLines
  import opened ClientInterleaving

  function Repeat<T>(x: T, n: nat): (r: seq<T>)
    ensures |r| == n && forall k :: 0 <= k < n ==> r[k] == x
  {
    seq(n, _ => x)
  }

  // ---------------------------------------------------------------------------------------------
  // The SEEKTO ioctl
  // ---------------------------------------------------------------------------------------------

  /** One command per write, n times over. */
  function Fills(n: nat): Log {
    Writes(EMPTY_LOG, Successes(Repeat("x\n", n)))
  }

  lemma {:induction false} GroupedRepeat(n: nat)
    ensures Grouped(Repeat("x\n", n)) == (Repeat("x\n", n), "")
  {
    if n > 0 {
      assert Init(Repeat("x\n", n)) == Repeat("x\n", n - 1);
      GroupedRepeat(n - 1);
      assert "" + "x\n" == "x\n" && Final(Repeat("x\n", n)) == "x\n";
      assert Repeat("x\n", n) == Repeat("x\n", n - 1) + ["x\n"];
    }
  }

  lemma FillsForm(n: nat)
    requires n > 0
    ensures Fills(n) == Log(Repeat("x\n", n), None, false, 0)
  {
    SuccessesAdd(EMPTY_LOG, Repeat("x\n", n));
    GroupedRepeat(n);
    assert [] + Repeat("x\n", n) == Repeat("x\n", n);
  }

  lemma WrappedAnswers(l: Log)
    requires l == Log(Repeat("x\n", 11), None, false, 0)
    ensures SeekTo(l, 1, 0) == 0 && SeekTo(l, 9, 0) == -EINVAL
    ensures SeekTo(l, 0, 1) == 1 && SeekTo(l, 0, 100) == 100
  {
    assert l.Padded()[0] == "x\n";
    assert l.OutOffs() == 1;
  }

  lemma {:induction false} RepeatLength(n: nat)
    ensures |Flatten(Repeat("x\n", n))| == 2 * n
  {
    if n > 0 {
      assert Repeat("x\n", n)[1..] == Repeat("x\n", n - 1);
      RepeatLength(n - 1);
    }
  }

  lemma WrappedPlaces(l: Log)
    requires l == Log(Repeat("x\n", 11), None, false, 0)
    ensures Documented(l, 1, 0) == Some(2) && Documented(l, 9, 0) == Some(18)
    ensures Documented(l, 0, 1) == Some(1) && Documented(l, 0, 100).None? && |l.Content()| == 20
  {
    assert l.Retained() == Repeat("x\n", 10);
    RepeatLength(1);
    RepeatLength(9);
    RepeatLength(10);
    assert Repeat("x\n", 10)[..1] == Repeat("x\n", 1) && Repeat("x\n", 10)[..9] == Repeat("x\n", 9);
  }

  /** After eleven one-line writes, command 1 begins at byte 2; the ioctl answers 0, and refuses
      command 9 although ten are retained. For command 0 it answers the offset, even one past the end of
      the content. */
  lemma WrappedSeek()
    ensures var l := Fills(11);
            && SeekTo(l, 1, 0) == 0 && Documented(l, 1, 0) == Some(2)
            && SeekTo(l, 9, 0) == -EINVAL && Documented(l, 9, 0) == Some(18)
            && SeekTo(l, 0, 1) == 1 && Documented(l, 0, 1) == Some(1)
            && SeekTo(l, 0, 100) == 100 && Documented(l, 0, 100).None? && |l.Content()| == 20
  {
    FillsForm(11);
    WrappedAnswers(Fills(11));
    WrappedPlaces(Fills(11));
  }

  /** After ten one-line writes and one that fails, nine commands are left; the ioctl refuses byte 0
      of the first. */
  lemma SeekAtHole()
    ensures var l := Writes(EMPTY_LOG, Successes(Repeat("x\n", 10)) + [WriteOp("y", NoBuffer)]);
            l.hole && SeekTo(l, 0, 0) < 0 && Documented(l, 0, 0) == Some(0)
  {
    var ops := Successes(Repeat("x\n", 10));
    assert Init(ops + [WriteOp("y", NoBuffer)]) == ops;
    FillsForm(10);
    var l := Fills(10).Evicted();
    assert l.Retained()[0] == "x\n" && l.Padded()[0] == "";
  }

  // ---------------------------------------------------------------------------------------------
  // SEEK_END and reads
  // ---------------------------------------------------------------------------------------------

  /** An unterminated write and then a copy fault: the device is empty, and SEEK_END answers 2. */
  lemma FaultThenSeekEnd()
    ensures var l := Writes(EMPTY_LOG, [WriteOp("ab", Success), WriteOp("c", CopyFault)]);
            l.Content() == "" && SeekTarget(l, 0, 0, SeekEnd) == Some(2)
  {
    var ops := [WriteOp("ab", Success), WriteOp("c", CopyFault)];
    assert Init(ops) == [WriteOp("ab", Success)];
    SuccessStep(EMPTY_LOG, "ab");
    assert "" + "ab" == "ab";
    assert Writes(EMPTY_LOG, Init(ops)) == EMPTY_LOG.Write("ab", Success) == Log([], Some("ab"), false, 0);
    assert Writes(EMPTY_LOG, ops) == Log([], Some(""), false, 2);
  }

  /** A read of no bytes returns one. */
  lemma ReadOfNothing()
    ensures ReadBytes(Fills(1), 0, 0) == "x"
  {
    FillsForm(1);
    var l := Fills(1);
    PaddedContent(l);
    assert l.Padded()[0] == "x\n";
  }

  lemma ReadFirst(data: string)
    requires Terminated(data)
    ensures ReadBytes(EMPTY_LOG.Write(data, Success), 0, |data|) == data
  {
    var l := EMPTY_LOG.Write(data, Success);
    SuccessStep(EMPTY_LOG, data);
    assert "" + data == data && [] + [data] == [data];
    assert l == Log([data], None, false, 0);
    assert l.Padded()[0] == data;
  }

  /** A read in the middle of a command is short: three bytes are asked for and left, one is delivered. */
  lemma ShortRead()
    ensures ReadBytes(EMPTY_LOG.Write("abcdef\n", Success), 4, 3) == "e"
  {
    var l := EMPTY_LOG.Write("abcdef\n", Success);
    SuccessStep(EMPTY_LOG, "abcdef\n");
    assert "" + "abcdef\n" == "abcdef\n" && [] + ["abcdef\n"] == ["abcdef\n"];
    assert l.Padded()[0] == "abcdef\n";
    assert l.Padded()[..0] == [];
    PlaceRead(l, 0, 4, 3);
  }

  /** One command of 65536 bytes is written; a read of that many from its beginning has them as its
      target, and its loop never ends. */
  lemma EndlessRead(k: nat)
    ensures var data := Repeat('a', 65535) + "\n";
            && |data| == 65536
            && ReadBytes(EMPTY_LOG.Write(data, Success), 0, |data|) == data
            && CopyLoopAfter(|data|, 0, |data|, k).Running?
  {
    var data := Repeat('a', 65535) + "\n";
    CopyLoopEndsIff(|data|, 0, |data|);
    ReadFirst(data);
  }

  // ---------------------------------------------------------------------------------------------
  // The server
  // ---------------------------------------------------------------------------------------------

  lemma TwoBlocks(head: string, tail: string)
    requires |head| == BLOCK && 0 < |tail| <= BLOCK
    ensures Blocks(head + tail) == [head, tail]
  {
    assert (head + tail)[..BLOCK] == head && (head + tail)[BLOCK..] == tail;
  }

  lemma LongLine(c: char, tail: string)
    requires c != '\n' && IsLine(tail) && |tail| <= BLOCK && c != SEEKTO[0]
    ensures IsLine(Repeat(c, BLOCK) + tail)
    ensures Blocks(Repeat(c, BLOCK) + tail) == [Repeat(c, BLOCK), tail]
    ensures !IsSeekTo(Repeat(c, BLOCK))
    ensures EMPTY_LOG.Write(Repeat(c, BLOCK), Success) == Log([], Some(Repeat(c, BLOCK)), false, 0)
  {
    var head := Repeat(c, BLOCK);
    TwoBlocks(head, tail);
    assert Init(head + tail) == head + Init(tail);
    SuccessStep(EMPTY_LOG, head);
    assert "" + head == head;
  }

  lemma RequestAndLine()
    ensures IsLine(SEEKTO + "\n") && IsSeekTo(SEEKTO + "\n")
    ensures IsLine("b\n") && Blocks("b\n") == ["b\n"] && !IsSeekTo("b\n")
  {
    assert Init(SEEKTO + "\n") == SEEKTO;
  }

  /** A line of 512 bytes and a newline that looks like a SEEKTO request where its second block
      begins: however the request is read, the line is not completed. */
  lemma SwallowedLine(env: Env)
    requires env.outcome(0) == Success
    ensures var line := Repeat('a', BLOCK) + (SEEKTO + "\n");
            && IsLine(line) && Deliver(EMPTY_LOG, Blocks(line), 0, 0, env).log == Log([], Some(Repeat('a', BLOCK)), false, 0)
  {
    var request := SEEKTO + "\n";
    var line := Repeat('a', BLOCK) + request;
    RequestAndLine();
    LongLine('a', request);
    DeliverStep(EMPTY_LOG, Blocks(line), 0, 0, env);
    DeliverStep(Log([], Some(Repeat('a', BLOCK)), false, 0), Blocks(line), 1, 0, env);
  }

  /** An ordinary line of 513 bytes whose first block finds no memory in the driver: the server does not
      notice, the transfer ends well, and the command is what is left of the line. */
  lemma RefusedBlock(parse: string -> Option<(nat, nat)>)
    ensures var line, env := Repeat('a', BLOCK) + "\n", Env(parse, k => if k == 0 then NoBuffer else Success);
            && Ordinary(line)
            && Deliver(EMPTY_LOG, Blocks(line), 0, 0, env) == Delivery(Log(["\n"], None, false, 0), 0, true)
  {
    var line, env := Repeat('a', BLOCK) + "\n", Env(parse, k => if k == 0 then NoBuffer else Success);
    LongLine('a', "\n");
    DeliverStep(EMPTY_LOG, Blocks(line), 0, 0, env);
    DeliverStep(EMPTY_LOG, Blocks(line), 1, 0, env);
    SuccessStep(EMPTY_LOG, "\n");
    assert "" + "\n" == "\n" && [] + ["\n"] == ["\n"];
  }

  // ---------------------------------------------------------------------------------------------
  // Two clients
  // ---------------------------------------------------------------------------------------------

  /** The first client has come to block n, and the second to block m. */
  function Two(l: Log, n: nat, ok: bool, m: nat): Server {
    Server(l, [Session(n, 0, ok), Session(m, 0, true)])
  }

  lemma NoTurns(x: Setting)
    requires |x.lines| == 2
    ensures After(x, []) == Some(Two(x.start, 0, true, 0))
  {
    assert seq(|x.lines|, _ => Session(0, 0, true)) == Two(x.start, 0, true, 0).sessions;
  }

  /** In the state s, the turn t is possible, and s' is the state after it. */
  ghost predicate Leads(x: Setting, s: Server, t: Turn, s': Server) {
    Ready(x, s, t.client) && TakeTurn(x, s, t) == s'
  }

  lemma MoreTurns(x: Setting, turns: seq<Turn>, t: Turn, s: Server, next: Server)
    requires After(x, turns) == Some(s) && Leads(x, s, t, next)
    ensures After(x, turns + [t]) == Some(next)
  {
    assert Init(turns + [t]) == turns;
  }

  lemma WriteTurn(x: Setting, s: Server, t: Turn, block: string)
    requires Ready(x, s, t.client) && Blocks(x.lines[t.client])[s.sessions[t.client].next] == block && !IsSeekTo(block)
    ensures TakeTurn(x, s, t)
         == Server(s.log.Write(block, t.outcome),
                   s.sessions[t.client := Session(s.sessions[t.client].next + 1, s.sessions[t.client].offset, true)])
  {
  }

  lemma MalformedTurn(x: Setting, s: Server, t: Turn, block: string)
    requires Ready(x, s, t.client) && Blocks(x.lines[t.client])[s.sessions[t.client].next] == block
    requires IsSeekTo(block) && x.parse(block).None?
    ensures TakeTurn(x, s, t)
         == Server(s.log, s.sessions[t.client := Session(s.sessions[t.client].next + 1, s.sessions[t.client].offset, false)])
  {
  }

  /** The first client writes, ... */
  lemma FirstWrites(x: Setting, l: Log, n: nat, m: nat, block: string, outcome: Outcome)
    requires |x.lines| == 2 && n < |Blocks(x.lines[0])| && Blocks(x.lines[0])[n] == block && !IsSeekTo(block)
    ensures Leads(x, Two(l, n, true, m), Turn(0, outcome), Two(l.Write(block, outcome), n + 1, true, m))
  {
    WriteTurn(x, Two(l, n, true, m), Turn(0, outcome), block);
    assert Two(l, n, true, m).sessions[0 := Session(n + 1, 0, true)] == Two(l, n + 1, true, m).sessions;
  }

  /** ... fails to seek, ... */
  lemma FirstFails(x: Setting, l: Log, n: nat, m: nat, block: string, outcome: Outcome)
    requires |x.lines| == 2 && n < |Blocks(x.lines[0])| && Blocks(x.lines[0])[n] == block
    requires IsSeekTo(block) && x.parse(block).None?
    ensures Leads(x, Two(l, n, true, m), Turn(0, outcome), Two(l, n + 1, false, m))
  {
    MalformedTurn(x, Two(l, n, true, m), Turn(0, outcome), block);
    assert Two(l, n, true, m).sessions[0 := Session(n + 1, 0, false)] == Two(l, n + 1, false, m).sessions;
  }

  /** ... the second writes. */
  lemma SecondWrites(x: Setting, l: Log, n: nat, ok: bool, m: nat, block: string, outcome: Outcome)
    requires |x.lines| == 2 && m < |Blocks(x.lines[1])| && Blocks(x.lines[1])[m] == block && !IsSeekTo(block)
    ensures Leads(x, Two(l, n, ok, m), Turn(1, outcome), Two(l.Write(block, outcome), n, ok, m + 1))
  {
    WriteTurn(x, Two(l, n, ok, m), Turn(1, outcome), block);
    assert Two(l, n, ok, m).sessions[1 := Session(m + 1, 0, true)] == Two(l, n, ok, m + 1).sessions;
  }

  lemma ThreeTurns(x: Setting, a: Turn, b: Turn, c: Turn, s0: Server, s1: Server, s2: Server, s3: Server)
    requires After(x, []) == Some(s0) && Leads(x, s0, a, s1) && Leads(x, s1, b, s2) && Leads(x, s2, c, s3)
    ensures After(x, [a]) == Some(s1) && After(x, [a, b]) == Some(s2) && After(x, [a, b, c]) == Some(s3)
  {
    assert [] + [a] == [a] && [a] + [b] == [a, b] && [a, b] + [c] == [a, b, c];
    MoreTurns(x, [], a, s0, s1);
    MoreTurns(x, [a], b, s1, s2);
    MoreTurns(x, [a, b], c, s2, s3);
  }

  lemma WriteTwice(a: string, b: string)
    requires a != "" && !Terminated(a) && b != ""
    ensures EMPTY_LOG.Write(a, Success).Write(b, Success)
         == if Terminated(b) then Log([a + b], None, false, 0) else Log([], Some(a + b), false, 0)
  {
    SuccessStep(EMPTY_LOG, a);
    assert "" + a == a;
    SuccessStep(EMPTY_LOG.Write(a, Success), b);
  }

  lemma WriteThrice(a: string, b: string)
    requires a != "" && !Terminated(a) && b != "" && !Terminated(b)
    ensures EMPTY_LOG.Write(a, Success).Write(b, Success).Write("\n", Success).completed == [a + b + "\n"]
  {
    WriteTwice(a, b);
    SuccessStep(Log([], Some(a + b), false, 0), "\n");
  }

  lemma CutOffTurns(x: Setting, head: string, request: string, line: string, open: Log, end: Log)
    requires |x.lines| == 2 && Blocks(x.lines[0]) == [head, request] && Blocks(x.lines[1]) == [line]
    requires !IsSeekTo(head) && !IsSeekTo(line) && IsSeekTo(request) && x.parse(request).None?
    requires open == x.start.Write(head, Success) && end == open.Write(line, Success)
    ensures After(x, [Turn(0, Success), Turn(0, Success), Turn(1, Success)]) == Some(Two(end, 2, false, 1))
  {
    NoTurns(x);
    FirstWrites(x, x.start, 0, 0, head, Success);
    FirstFails(x, open, 1, 0, request, Success);
    SecondWrites(x, open, 2, false, 0, line, Success);
    ThreeTurns(x, Turn(0, Success), Turn(0, Success), Turn(1, Success),
               Two(x.start, 0, true, 0), Two(open, 1, true, 0), Two(open, 2, false, 0), Two(end, 2, false, 1));
  }

  /** When a transfer ends early, the line of the next client is appended to what it has written. */
  lemma CutOffRun(x: Setting, head: string, request: string, line: string)
    requires |x.lines| == 2 && x.start == EMPTY_LOG && Blocks(x.lines[0]) == [head, request] && Blocks(x.lines[1]) == [line]
    requires head != "" && !Terminated(head) && Terminated(line) && !IsSeekTo(head) && !IsSeekTo(line)
    requires IsSeekTo(request) && x.parse(request).None?
    ensures var turns := [Turn(0, Success), Turn(0, Success), Turn(1, Success)];
            Legal(x, turns) && After(x, turns).value.log.completed == [head + line]
  {
    var open := EMPTY_LOG.Write(head, Success);
    CutOffTurns(x, head, request, line, open, open.Write(line, Success));
    WriteTwice(head, line);
  }

  /** The transfer of a line like the swallowed one ends after its first block when its request makes no
      sense, and the line of the next client, undisturbed by anyone, becomes the end of a command of
      514 bytes. */
  lemma CutOffTransfer()
    ensures var x := Setting([Repeat('a', BLOCK) + (SEEKTO + "\n"), "b\n"], _ => None, EMPTY_LOG);
            var turns := [Turn(0, Success), Turn(0, Success), Turn(1, Success)];
            && x.Valid() && Legal(x, turns)
            && After(x, turns).value.log.completed == [Repeat('a', BLOCK) + "b\n"]
  {
    var head, request := Repeat('a', BLOCK), SEEKTO + "\n";
    var x := Setting([head + request, "b\n"], _ => None, EMPTY_LOG);
    RequestAndLine();
    LongLine('a', request);
    CutOffRun(x, head, request, "b\n");
  }

  /** The first, the second and the first client again, with some outcome for the second. */
  lemma AlternatingTurns(x: Setting, a: string, b: string, c: string, outcome: Outcome, first: Log, both: Log, end: Log)
    requires |x.lines| == 2 && Blocks(x.lines[0]) == [a, c] && Blocks(x.lines[1]) == [b, c]
    requires !IsSeekTo(a) && !IsSeekTo(b) && !IsSeekTo(c)
    requires first == x.start.Write(a, Success) && both == first.Write(b, outcome) && end == both.Write(c, Success)
    ensures After(x, [Turn(0, Success), Turn(1, outcome), Turn(0, Success)]) == Some(Two(end, 2, true, 1))
  {
    NoTurns(x);
    FirstWrites(x, x.start, 0, 0, a, Success);
    SecondWrites(x, first, 1, true, 0, b, outcome);
    FirstWrites(x, both, 1, 1, c, Success);
    ThreeTurns(x, Turn(0, Success), Turn(1, outcome), Turn(0, Success),
               Two(x.start, 0, true, 0), Two(first, 1, true, 0), Two(both, 1, true, 1), Two(end, 2, true, 1));
  }

  lemma AlternatingRun(x: Setting, a: string, b: string)
    requires |x.lines| == 2 && x.start == EMPTY_LOG && Blocks(x.lines[0]) == [a, "\n"] && Blocks(x.lines[1]) == [b, "\n"]
    requires a != "" && !Terminated(a) && !IsSeekTo(a) && b != "" && !Terminated(b) && !IsSeekTo(b)
    ensures var turns := [Turn(0, Success), Turn(1, Success), Turn(0, Success)];
            Legal(x, turns) && After(x, turns).value.log.completed == [a + b + "\n"]
  {
    var first := EMPTY_LOG.Write(a, Success);
    var both := first.Write(b, Success);
    AlternatingTurns(x, a, b, "\n", Success, first, both, both.Write("\n", Success));
    WriteThrice(a, b);
  }

  /** Two lines of 513 bytes, the mutex going to the first, the second and the first again: the one
      completed command is neither line. */
  lemma AlternatingBlocks(parse: string -> Option<(nat, nat)>)
    ensures var x := Setting([Repeat('a', BLOCK) + "\n", Repeat('b', BLOCK) + "\n"], parse, EMPTY_LOG);
            var turns := [Turn(0, Success), Turn(1, Success), Turn(0, Success)];
            && x.Valid() && Legal(x, turns)
            && After(x, turns).value.log.completed == [Repeat('a', BLOCK) + Repeat('b', BLOCK) + "\n"]
  {
    var a, b := Repeat('a', BLOCK), Repeat('b', BLOCK);
    LongLine('a', "\n");
    LongLine('b', "\n");
    AlternatingRun(Setting([a + "\n", b + "\n"], parse, EMPTY_LOG), a, b);
  }

  lemma WriteFaultWrite(a: string, b: string)
    requires a != "" && !Terminated(a) && b != ""
    ensures EMPTY_LOG.Write(a, Success).Write(b, CopyFault).Write("\n", Success) == Log(["\n"], None, false, |a|)
  {
    SuccessStep(EMPTY_LOG, a);
    assert "" + a == a && "" + "\n" == "\n" && [] + ["\n"] == ["\n"];
    assert EMPTY_LOG.Write(a, Success).Write(b, CopyFault) == Log([], Some(""), false, |a|);
    SuccessStep(Log([], Some(""), false, |a|), "\n");
  }

  lemma FaultRun(x: Setting, a: string, b: string)
    requires |x.lines| == 2 && x.start == EMPTY_LOG && Blocks(x.lines[0]) == [a, "\n"] && Blocks(x.lines[1]) == [b, "\n"]
    requires a != "" && !Terminated(a) && !IsSeekTo(a) && b != "" && !IsSeekTo(b)
    ensures var turns := [Turn(0, Success), Turn(1, CopyFault), Turn(0, Success)];
            Legal(x, turns) && After(x, turns).value.log.completed == ["\n"]
  {
    var first := EMPTY_LOG.Write(a, Success);
    var both := first.Write(b, CopyFault);
    AlternatingTurns(x, a, b, "\n", CopyFault, first, both, both.Write("\n", Success));
    WriteFaultWrite(a, b);
  }

  /** The same lines, with a copy fault in the second client's write: it wipes out the first client's
      block, whose own writes all succeed, and what is left of the line is its newline. */
  lemma FaultOfAnother(parse: string -> Option<(nat, nat)>)
    ensures var x := Setting([Repeat('a', BLOCK) + "\n", Repeat('b', BLOCK) + "\n"], parse, EMPTY_LOG);
            var turns := [Turn(0, Success), Turn(1, CopyFault), Turn(0, Success)];
            && x.Valid() && Legal(x, turns) && After(x, turns).value.log.completed == ["\n"]
  {
    var a, b := Repeat('a', BLOCK), Repeat('b', BLOCK);
    LongLine('a', "\n");
    LongLine('b', "\n");
    FaultRun(Setting([a + "\n", b + "\n"], parse, EMPTY_LOG), a, b);
  }

  // ---------------------------------------------------------------------------------------------
  // A block that stands in for another
  // ---------------------------------------------------------------------------------------------

  /** In the state s, the turn t hands this block to the driver. */
  ghost predicate Hands(x: Setting, s: Server, t: Turn, block: string) {
    Ready(x, s, t.client) && Blocks(x.lines[t.client])[s.sessions[t.client].next] == block && !IsSeekTo(block)
  }

  function TagOf(s: Server, t: Turn): Tag {
    (t.client, if t.client < |s.sessions| then s.sessions[t.client].next else 0)
  }

  lemma TagStep(x: Setting, turns: seq<Turn>, t: Turn, s: Server, block: string)
    requires After(x, turns) == Some(s) && Hands(x, s, t, block)
    ensures Legal(x, turns + [t])
    ensures Tags(x, turns + [t]) == Tags(x, turns) + [TagOf(s, t)]
    ensures Ops(x, turns + [t]) == Ops(x, turns) + [WriteOp(block, t.outcome)]
  {
    assert Init(turns + [t]) == turns && Final(turns + [t]) == t;
  }

  lemma KeptSnoc(ops: seq<WriteOp>, op: WriteOp)
    ensures op.Succeeds() ==> Kept(ops + [op]) == Kept(ops) + [|ops|]
    ensures !op.Succeeds() && !op.Faults() ==> Kept(ops + [op]) == Kept(ops)
  {
    assert Init(ops + [op]) == ops;
  }

  lemma KeptAround(a: WriteOp, b: WriteOp, c: WriteOp)
    requires a.Succeeds() && !b.Succeeds() && !b.Faults() && c.Succeeds()
    ensures Kept([a, b, c]) == [0, 2]
  {
    assert [] + [a] == [a] && [a] + [b] == [a, b] && [a, b] + [c] == [a, b, c];
    KeptSnoc([], a);
    KeptSnoc([a], b);
    KeptSnoc([a, b], c);
  }

  lemma ThreeTags(x: Setting, a: Turn, b: Turn, c: Turn, s0: Server, s1: Server, s2: Server, p: string, q: string, r: string)
    requires After(x, []) == Some(s0) && After(x, [a]) == Some(s1) && After(x, [a, b]) == Some(s2)
    requires Hands(x, s0, a, p) && Hands(x, s1, b, q) && Hands(x, s2, c, r)
    ensures Legal(x, [a, b, c])
    ensures Tags(x, [a, b, c]) == [TagOf(s0, a), TagOf(s1, b), TagOf(s2, c)]
    ensures Ops(x, [a, b, c]) == [WriteOp(p, a.outcome), WriteOp(q, b.outcome), WriteOp(r, c.outcome)]
  {
    assert [] + [a] == [a] && [a] + [b] == [a, b] && [a, b] + [c] == [a, b, c];
    TagStep(x, [], a, s0, p);
    TagStep(x, [a], b, s1, q);
    TagStep(x, [a, b], c, s2, r);
  }

  lemma StandInTurns(x: Setting, a: string, l: Log, l': Log)
    requires |x.lines| == 2 && Blocks(x.lines[0])[0] == a && Blocks(x.lines[1])[0] == a && !IsSeekTo(a)
    requires l == x.start.Write(a, Success) && l' == l.Write(a, NoBuffer)
    ensures After(x, []) == Some(Two(x.start, 0, true, 0))
    ensures After(x, [Turn(0, Success)]) == Some(Two(l, 1, true, 0))
    ensures After(x, [Turn(0, Success), Turn(1, NoBuffer)]) == Some(Two(l', 1, true, 1))
  {
    var t, u := Turn(0, Success), Turn(1, NoBuffer);
    assert [] + [t] == [t] && [t] + [u] == [t, u];
    NoTurns(x);
    FirstWrites(x, x.start, 0, 0, a, Success);
    MoreTurns(x, [], t, Two(x.start, 0, true, 0), Two(l, 1, true, 0));
    SecondWrites(x, l, 1, true, 0, a, NoBuffer);
    MoreTurns(x, [t], u, Two(l, 1, true, 0), Two(l', 1, true, 1));
  }

  lemma StandInTags(x: Setting, a: string, c: string)
    requires |x.lines| == 2 && Blocks(x.lines[0]) == [a, c] && Blocks(x.lines[1]) == [a, c]
    requires a != "" && !IsSeekTo(a) && c != "" && !IsSeekTo(c)
    ensures var turns := [Turn(0, Success), Turn(1, NoBuffer), Turn(1, Success)];
            Legal(x, turns) && InLog(x, turns) == [(0, 0), (1, 1)]
  {
    var l := x.start.Write(a, Success);
    var l' := l.Write(a, NoBuffer);
    StandInTurns(x, a, l, l');
    ThreeTags(x, Turn(0, Success), Turn(1, NoBuffer), Turn(1, Success),
              Two(x.start, 0, true, 0), Two(l, 1, true, 0), Two(l', 1, true, 1), a, a, c);
    KeptAround(WriteOp(a, Success), WriteOp(a, NoBuffer), WriteOp(c, Success));
  }

  lemma OnePending(lines: seq<string>, t: Tag)
    requires !IsEnd(lines, t)
    ensures Pending(lines, [t]) == [t] && Pieces(lines, [t]) == [Piece(lines, t)]
  {
    assert Init([t]) == [];
  }

  lemma StandInPieces(lines: seq<string>, t: Tag, u: Tag)
    requires !IsEnd(lines, t) && IsEnd(lines, u)
    requires Blocks(LineOf(lines, u.0)) == [Piece(lines, t), Piece(lines, u)]
    ensures Whole(lines, [t, u])
  {
    OnePending(lines, t);
    assert [t, u][..1] == [t];
    assert [Piece(lines, t)] + [Piece(lines, u)] == [Piece(lines, t), Piece(lines, u)];
    forall k | 0 <= k < |[t, u]| ensures WholeAt(lines, [t, u], k) {
      assert k == 0 || k == 1;
    }
  }

  lemma StandInDivided(lines: seq<string>, t: Tag, u: Tag)
    requires !IsEnd(lines, t) && IsEnd(lines, u) && t.0 != u.0
    ensures !OneLineAtATime(lines, Finished(lines, [t, u]))
  {
    assert Finished(lines, [t, u]) == [t, u];
    assert !Undivided(lines, [t, u], 1);
  }

  lemma StandInWhole(lines: seq<string>, a: string, c: string)
    requires |lines| == 2 && Blocks(lines[0]) == [a, c] && Blocks(lines[1]) == [a, c]
    ensures Whole(lines, [(0, 0), (1, 1)]) && !OneLineAtATime(lines, Finished(lines, [(0, 0), (1, 1)]))
  {
    assert LineOf(lines, 1) == lines[1];
    StandInPieces(lines, (0, 0), (1, 1));
    StandInDivided(lines, (0, 0), (1, 1));
  }

  /** Two clients send the same line. Its first block arrives from one of them, its last block from the
      other, whose own first block the driver refuses: the command is that client's line, although the
      blocks of the two alternate. So blocks that do not alternate are enough, but not necessary once
      the driver refuses some. */
  lemma StandInBlock(parse: string -> Option<(nat, nat)>)
    ensures var line := Repeat('a', BLOCK) + "\n";
            var x, turns := Setting([line, line], parse, EMPTY_LOG), [Turn(0, Success), Turn(1, NoBuffer), Turn(1, Success)];
            && x.Valid() && Legal(x, turns)
            && LinesWhole(x, turns) && !OneLineAtATime(x.lines, Finished(x.lines, InLog(x, turns)))
  {
    var line := Repeat('a', BLOCK) + "\n";
    var x, turns := Setting([line, line], parse, EMPTY_LOG), [Turn(0, Success), Turn(1, NoBuffer), Turn(1, Success)];
    LongLine('a', "\n");
    StandInTags(x, Repeat('a', BLOCK), "\n");
    StandInWhole(x.lines, Repeat('a', BLOCK), "\n");
    WholeBlocksIff(x, turns);
  }
}
