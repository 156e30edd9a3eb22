/** Several clients at once: the server's threads take the file mutex in turn, one block at a time,
    whatever their lines contain and however the driver fares. */
module ServerRuns {
  import opened Sequences
  import opened CommandLog
  import opened WriteRuns
  import opened SocketServer

  ghost predicate AllLines(lines: seq<string>) {
    forall c :: 0 <= c < |lines| ==> IsLine(lines[c])
  }

  /** One line per client, as one connection has; the reading of SEEKTO requests; the device's
      history to begin with. */
  datatype Setting = Setting(lines: seq<string>, parse: string -> Option<(nat, nat)>, start: Log) {
    ghost predicate Valid() {
      AllLines(lines)
    }
  }

  /** A thread's own variables: its next block, the replay offset, the success flag. */
  datatype Session = Session(next: nat, offset: int, ok: bool)

  datatype Server = Server(log: Log, sessions: seq<Session>)

  /** A client gets the mutex, and the driver treats a write of it so. */
  datatype Turn = Turn(client: nat, outcome: Outcome)

  /** The client is still receiving: its transfer has not ended early and blocks are left. */
  predicate Ready(x: Setting, s: Server, c: nat) {
    c < |x.lines| == |s.sessions| && s.sessions[c].ok && s.sessions[c].next < |Blocks(x.lines[c])|
  }

  /** One mutex section of client c. */
  function TakeTurn(x: Setting, s: Server, t: Turn): Server
    requires Ready(x, s, t.client)
  {
    var me := s.sessions[t.client];
    var d := Section(s.log, Blocks(x.lines[t.client])[me.next], me.offset, x.parse, t.outcome);
    Server(d.log, s.sessions[t.client := Session(me.next + 1, d.offset, d.ok)])
  }

  /** The server after some turns, or nothing if one of them was not possible. */
  function After(x: Setting, turns: seq<Turn>): (r: Option<Server>)
    ensures r.Some? ==> |r.value.sessions| == |x.lines|
  {
    if turns == [] then Some(Server(x.start, seq(|x.lines|, _ => Session(0, 0, true))))
    else
      var before := After(x, Init(turns));
      if before.Some? && Ready(x, before.value, Final(turns).client)
      then Some(TakeTurn(x, before.value, Final(turns)))
      else None
  }

  predicate Legal(x: Setting, turns: seq<Turn>) {
    After(x, turns).Some?
  }

  ghost predicate AllSucceed(turns: seq<Turn>) {
    forall k :: 0 <= k < |turns| ==> turns[k].outcome == Success
  }

  /** The block that the last turn was about. */
  function LastBlock(x: Setting, turns: seq<Turn>): string
    requires turns != [] && Legal(x, turns)
  {
    var c := Final(turns).client;
    Blocks(x.lines[c])[After(x, Init(turns)).value.sessions[c].next]
  }

  /** A client's turns with nobody else in between are its delivery. */
  lemma {:induction false} SoloRun(x: Setting, c: nat, env: Env, turns: seq<Turn>)
    requires Legal(x, turns) && c < |x.lines| && env.parse == x.parse
    requires forall k :: 0 <= k < |turns| ==> turns[k] == Turn(c, env.outcome(k))
    ensures var s, blocks := After(x, turns).value, Blocks(x.lines[c]);
            var me := s.sessions[c];
            && me.next == |turns| <= |blocks|
            && Deliver(x.start, blocks, 0, 0, env)
               == if me.ok then Deliver(s.log, blocks, me.next, me.offset, env) else Delivery(s.log, me.offset, false)
  {
    if turns != [] {
      SoloRun(x, c, env, Init(turns));
      var s, blocks := After(x, Init(turns)).value, Blocks(x.lines[c]);
      assert Final(turns) == Turn(c, env.outcome(|turns| - 1));
      DeliverStep(s.log, blocks, s.sessions[c].next, s.sessions[c].offset, env);
    }
  }

  // ---------------------------------------------------------------------------------------------
  // Commands in every run
  // ---------------------------------------------------------------------------------------------

  /** Completed commands have exactly one newline, as their last byte; pending bytes have none. */
  ghost predicate OfLines(l: Log) {
    && (forall k :: 0 <= k < |l.completed| ==> IsLine(l.completed[k]))
    && NoNewline(l.PendingBytes())
  }

  lemma WriteOfLines(l: Log, data: string, outcome: Outcome)
    requires OfLines(l) && LinePiece(data)
    ensures OfLines(l.Write(data, outcome))
  {
    if Accepted(data, outcome) {
      SuccessStep(l, data);
      var whole := l.PendingBytes() + data;
      assert Init(whole) == l.PendingBytes() + Init(data);
      assert whole == Init(whole) + [Final(data)];
    } else {
      FailureStep(l, WriteOp(data, outcome));
    }
  }

  lemma SectionOfLines(l: Log, block: string, offset: int, parse: string -> Option<(nat, nat)>, outcome: Outcome)
    requires OfLines(l) && LinePiece(block)
    ensures OfLines(Section(l, block, offset, parse, outcome).log)
  {
    if !IsSeekTo(block) {
      WriteOfLines(l, block, outcome);
    }
  }

  /** For every interleaving, whatever the lines contain, SEEKTO requests included, and whatever the
      driver does with each block: every command has exactly one newline, as its last byte, and the
      pending bytes have none. */
  lemma {:induction false} CommandsAreLines(x: Setting, turns: seq<Turn>)
    requires x.Valid() && OfLines(x.start) && Legal(x, turns)
    ensures OfLines(After(x, turns).value.log)
  {
    if turns != [] {
      CommandsAreLines(x, Init(turns));
      var c, s := Final(turns).client, After(x, Init(turns)).value;
      BlocksShape(x.lines[c]);
      assert BlockShape(Blocks(x.lines[c]), s.sessions[c].next);
      SectionOfLines(s.log, LastBlock(x, turns), s.sessions[c].offset, x.parse, Final(turns).outcome);
    }
  }

  // ---------------------------------------------------------------------------------------------
  // Which blocks reach the device
  // ---------------------------------------------------------------------------------------------

  /** A block of a client's line: the client and the number of the block. */
  type Tag = (nat, nat)

  /** The bytes of the block, if there is such a block. */
  function Piece(lines: seq<string>, t: Tag): string {
    if t.0 < |lines| && t.1 < |Blocks(lines[t.0])| then Blocks(lines[t.0])[t.1] else ""
  }

  function Pieces(lines: seq<string>, tags: seq<Tag>): (r: seq<string>)
    ensures |r| == |tags|
    ensures forall k :: 0 <= k < |tags| ==> r[k] == Piece(lines, tags[k])
  {
    if tags == [] then [] else Pieces(lines, Init(tags)) + [Piece(lines, Final(tags))]
  }

  /** The blocks handed to the driver in the course of a run, in mutex order. */
  function Tags(x: Setting, turns: seq<Turn>): seq<Tag>
    requires Legal(x, turns)
  {
    if turns == [] then []
    else if IsSeekTo(LastBlock(x, turns)) then Tags(x, Init(turns))
    else
      var c := Final(turns).client;
      Tags(x, Init(turns)) + [(c, After(x, Init(turns)).value.sessions[c].next)]
  }

  /** The driver writes of a run. */
  function Ops(x: Setting, turns: seq<Turn>): (r: seq<WriteOp>)
    requires Legal(x, turns)
    ensures |r| == |Tags(x, turns)|
  {
    if turns == [] then []
    else if IsSeekTo(LastBlock(x, turns)) then Ops(x, Init(turns))
    else Ops(x, Init(turns)) + [WriteOp(LastBlock(x, turns), Final(turns).outcome)]
  }

  /** The history of a run is that of its driver writes. */
  lemma {:induction false} RunIsItsWrites(x: Setting, turns: seq<Turn>)
    requires Legal(x, turns)
    ensures After(x, turns).value.log == Writes(x.start, Ops(x, turns))
  {
    if turns != [] {
      RunIsItsWrites(x, Init(turns));
      var front, op := Ops(x, Init(turns)), WriteOp(LastBlock(x, turns), Final(turns).outcome);
      assert Init(front + [op]) == front;
    }
  }

  lemma LastBlockData(x: Setting, turns: seq<Turn>)
    requires x.Valid() && turns != [] && Legal(x, turns)
    ensures LastBlock(x, turns) != ""
  {
    var c := Final(turns).client;
    BlocksShape(x.lines[c]);
    assert BlockShape(Blocks(x.lines[c]), After(x, Init(turns)).value.sessions[c].next);
  }

  lemma LastTag(x: Setting, turns: seq<Turn>)
    requires turns != [] && Legal(x, turns) && !IsSeekTo(LastBlock(x, turns))
    ensures Tags(x, turns) != [] && Init(Tags(x, turns)) == Tags(x, Init(turns))
    ensures Final(Tags(x, turns)).0 == Final(turns).client && Piece(x.lines, Final(Tags(x, turns))) == LastBlock(x, turns)
  {
  }

  lemma {:induction false} OpsAreTagged(x: Setting, turns: seq<Turn>)
    requires x.Valid() && Legal(x, turns)
    ensures forall k :: 0 <= k < |Ops(x, turns)| ==>
              Ops(x, turns)[k].data == Piece(x.lines, Tags(x, turns)[k]) && Ops(x, turns)[k].data != ""
    ensures AllSucceed(turns) ==> Ops(x, turns) == Successes(Pieces(x.lines, Tags(x, turns)))
  {
    if turns != [] {
      OpsAreTagged(x, Init(turns));
      LastBlockData(x, turns);
      if !IsSeekTo(LastBlock(x, turns)) {
        LastTag(x, turns);
      }
    }
  }

  /** Within each client, block numbers increase. */
  ghost predicate InOrder(tags: seq<Tag>) {
    forall i, j :: 0 <= i < j < |tags| && tags[i].0 == tags[j].0 ==> tags[i].1 < tags[j].1
  }

  lemma {:induction false} TagsInOrder(x: Setting, turns: seq<Turn>)
    requires Legal(x, turns)
    ensures InOrder(Tags(x, turns))
    ensures forall k :: 0 <= k < |Tags(x, turns)| ==>
              var t := Tags(x, turns)[k];
              && t.0 < |x.lines| && t.1 < After(x, turns).value.sessions[t.0].next <= |Blocks(x.lines[t.0])|
              && !IsSeekTo(Piece(x.lines, t))
  {
    if turns != [] {
      TagsInOrder(x, Init(turns));
    }
  }

  /** The blocks of client c among some tags, in their order. */
  function ByClient(lines: seq<string>, tags: seq<Tag>, c: nat): seq<string> {
    if tags == [] then []
    else ByClient(lines, Init(tags), c) + if Final(tags).0 == c then [Piece(lines, Final(tags))] else []
  }

  /** The blocks that are written rather than taken for SEEKTO requests. */
  function OrdinaryBlocks(blocks: seq<string>): seq<string> {
    if blocks == [] then []
    else OrdinaryBlocks(Init(blocks)) + if IsSeekTo(Final(blocks)) then [] else [Final(blocks)]
  }

  lemma {:induction false} ClientBlocks(x: Setting, turns: seq<Turn>, c: nat)
    requires Legal(x, turns) && c < |x.lines|
    ensures var n := After(x, turns).value.sessions[c].next;
            && n <= |Blocks(x.lines[c])|
            && ByClient(x.lines, Tags(x, turns), c) == OrdinaryBlocks(Blocks(x.lines[c])[..n])
  {
    if turns != [] {
      ClientBlocks(x, Init(turns), c);
      var b, n := Blocks(x.lines[c]), After(x, Init(turns)).value.sessions[c].next;
      if Final(turns).client == c {
        assert Init(b[..n + 1]) == b[..n] && Final(b[..n + 1]) == LastBlock(x, turns);
      }
      if !IsSeekTo(LastBlock(x, turns)) {
        LastTag(x, turns);
      }
    }
  }

  ghost predicate NoRequestAt(blocks: seq<string>, k: nat)
    requires k < |blocks|
  {
    !IsSeekTo(blocks[k])
  }

  lemma PlainBlock(front: seq<string>, block: string)
    requires !IsSeekTo(block)
    ensures OrdinaryBlocks(front + [block]) == OrdinaryBlocks(front) + [block]
  {
    assert Init(front + [block]) == front;
  }

  lemma TakeStep<T>(s: seq<T>, n: nat)
    requires 0 < n <= |s|
    ensures s[..n] == s[..n - 1] + [s[n - 1]]
  {
  }

  lemma {:induction false} NoRequests(blocks: seq<string>, n: nat)
    requires n <= |blocks| && forall k :: 0 <= k < |blocks| ==> NoRequestAt(blocks, k)
    ensures OrdinaryBlocks(blocks[..n]) == blocks[..n]
  {
    if n > 0 {
      NoRequests(blocks, n - 1);
      TakeStep(blocks, n);
      assert NoRequestAt(blocks, n - 1);
      PlainBlock(blocks[..n - 1], blocks[n - 1]);
    }
  }

  /** A client with an ordinary line has handed over the blocks of its line, in order, up to where it has
      got; in the end, they make up the line. */
  lemma OrdinaryClientBlocks(x: Setting, turns: seq<Turn>, c: nat)
    requires Legal(x, turns) && c < |x.lines| && Ordinary(x.lines[c])
    ensures var n, blocks := After(x, turns).value.sessions[c].next, ByClient(x.lines, Tags(x, turns), c);
            && n <= |Blocks(x.lines[c])|
            && blocks == Blocks(x.lines[c])[..n]
            && (n == |Blocks(x.lines[c])| ==> Flatten(blocks) == x.lines[c])
  {
    var b, n := Blocks(x.lines[c]), After(x, turns).value.sessions[c].next;
    ClientBlocks(x, turns, c);
    forall k | 0 <= k < |b| ensures NoRequestAt(b, k) {
    }
    NoRequests(b, n);
    BlocksOfLine(x.lines[c]);
    assert b[..|b|] == b;
  }

  // ---------------------------------------------------------------------------------------------
  // Order in the log
  // ---------------------------------------------------------------------------------------------

  lemma SuccessesSnoc(l: Log, pieces: seq<string>)
    requires pieces != []
    ensures Writes(l, Successes(pieces)) == Writes(l, Successes(Init(pieces))).Write(Final(pieces), Success)
  {
    assert Init(Successes(pieces)) == Successes(Init(pieces));
  }

  ghost predicate StreamGrowsBy(l: Log, l': Log, pieces: seq<string>) {
    Stream(l') == Stream(l) + Flatten(pieces)
  }

  lemma JoinPiece(s: string, t: string, pieces: seq<string>)
    requires pieces != [] && t == s + Flatten(Init(pieces))
    ensures t + Final(pieces) == s + Flatten(pieces)
  {
    FlattenSnoc(Init(pieces), Final(pieces));
    assert pieces == Init(pieces) + [Final(pieces)];
  }

  lemma StreamSnoc(l: Log, l': Log, pieces: seq<string>)
    requires pieces != [] && StreamGrowsBy(l, l', Init(pieces)) && Final(pieces) != ""
    ensures StreamGrowsBy(l, l'.Write(Final(pieces), Success), pieces)
  {
    SuccessExtends(l', Final(pieces));
    JoinPiece(Stream(l), Stream(l'), pieces);
  }

  lemma {:induction false} SuccessesStream(l: Log, pieces: seq<string>)
    requires forall k :: 0 <= k < |pieces| ==> pieces[k] != ""
    ensures StreamGrowsBy(l, Writes(l, Successes(pieces)), pieces)
  {
    if pieces != [] {
      SuccessesSnoc(l, pieces);
      SuccessesStream(l, Init(pieces));
      StreamSnoc(l, Writes(l, Successes(Init(pieces))), pieces);
    }
  }

  /** When the driver accepts every block, what a run adds to the log is the blocks in mutex order, and
      each client's share of it is its own blocks in the order of its line, up to where it has got. */
  lemma ClientOrder(x: Setting, turns: seq<Turn>)
    requires x.Valid() && Legal(x, turns) && AllSucceed(turns)
    ensures var s, tags := After(x, turns).value, Tags(x, turns);
            && Stream(s.log) == Stream(x.start) + Flatten(Pieces(x.lines, tags))
            && forall c :: 0 <= c < |x.lines| ==>
                 s.sessions[c].next <= |Blocks(x.lines[c])|
                 && ByClient(x.lines, tags, c) == OrdinaryBlocks(Blocks(x.lines[c])[..s.sessions[c].next])
  {
    RunIsItsWrites(x, turns);
    OpsAreTagged(x, turns);
    SuccessesStream(x.start, Pieces(x.lines, Tags(x, turns)));
    forall c | 0 <= c < |x.lines|
      ensures After(x, turns).value.sessions[c].next <= |Blocks(x.lines[c])|
      ensures ByClient(x.lines, Tags(x, turns), c)
           == OrdinaryBlocks(Blocks(x.lines[c])[..After(x, turns).value.sessions[c].next])
    {
      ClientBlocks(x, turns, c);
    }
  }

  function TagsAt(tags: seq<Tag>, kept: seq<nat>): (r: seq<Tag>)
    requires forall j :: 0 <= j < |kept| ==> kept[j] < |tags|
    ensures |r| == |kept|
    ensures forall j :: 0 <= j < |kept| ==> r[j] == tags[kept[j]]
  {
    seq(|kept|, j requires 0 <= j < |kept| => tags[kept[j]])
  }

  /** The blocks that are left in the log, as copy faults wipe out what is not yet terminated. */
  function InLog(x: Setting, turns: seq<Turn>): seq<Tag>
    requires Legal(x, turns)
  {
    TagsAt(Tags(x, turns), Kept(Ops(x, turns)))
  }

  lemma InLogSurvives(x: Setting, turns: seq<Turn>)
    requires x.Valid() && Legal(x, turns)
    ensures Surviving(Ops(x, turns)) == Pieces(x.lines, InLog(x, turns))
  {
    var ops, tags := Ops(x, turns), Tags(x, turns);
    OpsAreTagged(x, turns);
    KeptSurvive(ops);
    assert DataAt(ops, Kept(ops)) == Pieces(x.lines, TagsAt(tags, Kept(ops)));
  }

  lemma InLogInOrder(x: Setting, turns: seq<Turn>)
    requires Legal(x, turns)
    ensures InOrder(InLog(x, turns))
  {
    TagsInOrder(x, turns);
    KeptIncreasing(Ops(x, turns));
  }

  /** All bytes of a history to which pieces have been added. */
  lemma ExtendsStream(l: Log, l': Log, pieces: seq<string>)
    requires Extends(l, l', pieces)
    ensures Stream(l') == Flatten(l.completed) + Flatten(pieces)
  {
    var (commands, rest) := Grouped(pieces);
    GroupedStream(pieces);
    FlattenAppend(l.completed, commands);
    assert Flatten(l.completed) + Flatten(commands) + rest == Flatten(l.completed) + (Flatten(commands) + rest);
  }

  /** Whatever the driver does with each block: to the log's completed commands, and to the bytes pending
      at the start unless a copy fault hits them, a run adds whole blocks, and those of one client are in
      the order of its line. */
  lemma ClientOrderUnderFailures(x: Setting, turns: seq<Turn>)
    requires x.Valid() && x.start.WellFormed() && Legal(x, turns)
    ensures Stream(After(x, turns).value.log)
         == Flatten(x.start.completed)
          + Flatten(StartPiece(x.start, Ops(x, turns)) + Pieces(x.lines, InLog(x, turns)))
    ensures InOrder(InLog(x, turns))
  {
    RunIsItsWrites(x, turns);
    RunFrom(x.start, Ops(x, turns));
    InLogSurvives(x, turns);
    InLogInOrder(x, turns);
    ExtendsStream(x.start, After(x, turns).value.log, RunPieces(x.start, Ops(x, turns)));
  }
}
