/** When the lines of several clients stay whole: the file mutex is released between blocks, so the
    blocks of different lines may alternate, and a transfer may end in the middle of a line. */
module ClientInterleaving {
  import opened Sequences
  import opened CommandLog
  import opened WriteRuns
  import opened SocketServer
  import opened ServerRuns
  import opened WholeLines

  ghost predicate Fresh(tags: seq<Tag>, t: Tag) {
    forall k :: 0 <= k < |tags| && tags[k].0 == t.0 ==> tags[k].1 < t.1
  }

  /** What is known of the k-th block while the driver accepts all of them: it does not look like a SEEKTO
      request, it comes after all earlier ones of its client, and, on an ordinary line, without a gap. */
  ghost predicate ReachableAt(lines: seq<string>, tags: seq<Tag>, k: nat)
    requires k < |tags|
  {
    var t := tags[k];
    && WrittenTag(lines, t)
    && Fresh(tags[..k], t)
    && (Ordinary(lines[t.0]) ==> t.1 == Count(tags[..k], t.0))
  }

  ghost predicate Reachable(lines: seq<string>, tags: seq<Tag>) {
    forall k :: 0 <= k < |tags| ==> ReachableAt(lines, tags, k)
  }

  lemma ReachableInit(lines: seq<string>, tags: seq<Tag>)
    requires Reachable(lines, tags) && tags != []
    ensures Reachable(lines, Init(tags))
  {
    forall k | 0 <= k < |tags| - 1 ensures ReachableAt(lines, Init(tags), k) {
      assert ReachableAt(lines, tags, k);
      assert tags[..k] == Init(tags)[..k];
    }
  }

  lemma ReachableFinal(lines: seq<string>, tags: seq<Tag>)
    requires Reachable(lines, tags) && tags != []
    ensures var t := Final(tags);
            && WrittenTag(lines, t) && Fresh(Init(tags), t)
            && (Ordinary(LineOf(lines, t.0)) ==> t.1 == Count(Init(tags), t.0))
  {
    assert ReachableAt(lines, tags, |tags| - 1);
    assert tags[..|tags| - 1] == Init(tags);
  }

  lemma ReachableIsWritten(lines: seq<string>, tags: seq<Tag>)
    requires Reachable(lines, tags)
    ensures Written(lines, tags) && InOrder(tags)
  {
    forall k | 0 <= k < |tags| ensures WrittenTag(lines, tags[k]) {
      assert ReachableAt(lines, tags, k);
    }
    forall i, j | 0 <= i < j < |tags| && tags[i].0 == tags[j].0 ensures tags[i].1 < tags[j].1 {
      assert ReachableAt(lines, tags, j);
      assert tags[..j][i] == tags[i];
    }
  }

  lemma {:induction false} ReachableFinished(lines: seq<string>, tags: seq<Tag>)
    requires Reachable(lines, tags)
    ensures Reachable(lines, Finished(lines, tags))
  {
    if !Closed(lines, tags) {
      ReachableInit(lines, tags);
      ReachableFinished(lines, Init(tags));
    }
  }

  lemma ReachableSnoc(lines: seq<string>, tags: seq<Tag>, t: Tag)
    requires Reachable(lines, tags)
    requires WrittenTag(lines, t) && Fresh(tags, t)
    requires Ordinary(lines[t.0]) ==> t.1 == Count(tags, t.0)
    ensures Reachable(lines, tags + [t])
  {
    forall k | 0 <= k < |tags| + 1 ensures ReachableAt(lines, tags + [t], k) {
      assert (tags + [t])[..k] == tags[..k];
      if k < |tags| {
        assert ReachableAt(lines, tags, k);
      } else {
        assert tags[..k] == tags;
      }
    }
  }

  /** A client with an ordinary line has written as many blocks as it has taken turns. */
  lemma {:induction false} OrdinaryCount(x: Setting, turns: seq<Turn>, c: nat)
    requires Legal(x, turns) && c < |x.lines| && Ordinary(x.lines[c])
    ensures Count(Tags(x, turns), c) == After(x, turns).value.sessions[c].next
  {
    if turns != [] {
      OrdinaryCount(x, Init(turns), c);
      if !IsSeekTo(LastBlock(x, turns)) {
        LastTag(x, turns);
      }
    }
  }

  lemma {:induction false} TagsReachable(x: Setting, turns: seq<Turn>)
    requires Legal(x, turns)
    ensures Reachable(x.lines, Tags(x, turns))
  {
    if turns != [] {
      TagsReachable(x, Init(turns));
      TagsInOrder(x, Init(turns));
      if !IsSeekTo(LastBlock(x, turns)) {
        LastTag(x, turns);
        if Ordinary(x.lines[Final(turns).client]) {
          OrdinaryCount(x, Init(turns), Final(turns).client);
        }
        ReachableSnoc(x.lines, Tags(x, Init(turns)), Final(Tags(x, turns)));
        assert Tags(x, turns) == Tags(x, Init(turns)) + [Final(Tags(x, turns))];
      }
    }
  }

  // ---------------------------------------------------------------------------------------------
  // Lines that are whole have been written one at a time
  // ---------------------------------------------------------------------------------------------

  /** The last block of client c's line has been written. */
  ghost predicate Ended(lines: seq<string>, tags: seq<Tag>, c: nat) {
    exists k :: 0 <= k < |tags| && tags[k].0 == c && IsEnd(lines, tags[k])
  }

  /** All blocks of a client whose line has not ended are pending. */
  ghost predicate AllPending(lines: seq<string>, tags: seq<Tag>, c: nat) {
    Ended(lines, tags, c) || Count(tags, c) == Count(Pending(lines, tags), c)
  }

  lemma AllOrdinary(lines: seq<string>, p: seq<Tag>, t: Tag, line: string)
    requires IsLine(line) && Blocks(line) == Pieces(lines, p) + [Piece(lines, t)]
    requires AllFull(lines, p) && !IsSeekTo(Piece(lines, t))
    ensures Ordinary(line)
  {
    forall k | 0 <= k < |p| + 1 ensures !IsSeekTo(Blocks(line)[k]) {
      assert k < |p| ==> FullBlock(lines, p[k]);
    }
  }

  lemma CompletedOrdinary(lines: seq<string>, tags: seq<Tag>)
    requires AllLines(lines) && Reachable(lines, tags) && tags != [] && Matching(lines, tags) && Closed(lines, tags)
    ensures Ordinary(LineOf(lines, Final(tags).0))
    ensures |Pending(lines, Init(tags))| == Final(tags).1 == Count(Init(tags), Final(tags).0)
  {
    ReachableIsWritten(lines, tags);
    ReachableFinal(lines, tags);
    WrittenInit(lines, tags);
    CompletedBlocks(lines, tags);
    PendingFull(lines, Init(tags));
    AllOrdinary(lines, Pending(lines, Init(tags)), Final(tags), LineOf(lines, Final(tags).0));
  }

  /** A client writes nothing after the last block of its line. */
  lemma NotEndedYet(lines: seq<string>, tags: seq<Tag>)
    requires Reachable(lines, tags) && tags != []
    ensures !Ended(lines, Init(tags), Final(tags).0)
  {
    var front, t := Init(tags), Final(tags);
    ReachableFinal(lines, tags);
    forall k | 0 <= k < |front| && front[k].0 == t.0 ensures !IsEnd(lines, front[k]) {
      assert front[k].1 < t.1;
    }
  }

  /** A completed line that is whole has no block of another client in it. */
  lemma CompletedAlone(lines: seq<string>, tags: seq<Tag>)
    requires AllLines(lines) && Reachable(lines, tags) && tags != [] && Matching(lines, tags) && Closed(lines, tags)
    requires AllPending(lines, Init(tags), Final(tags).0)
    ensures Ordinary(LineOf(lines, Final(tags).0))
    ensures forall k :: 0 <= k < |Pending(lines, Init(tags))| ==> Pending(lines, Init(tags))[k].0 == Final(tags).0
  {
    CompletedOrdinary(lines, tags);
    NotEndedYet(lines, tags);
    CountAll(Pending(lines, Init(tags)), Final(tags).0);
  }

  lemma EndedStays(lines: seq<string>, tags: seq<Tag>, c: nat)
    requires tags != [] && (Ended(lines, Init(tags), c) || (Closed(lines, tags) && Final(tags).0 == c))
    ensures Ended(lines, tags, c)
  {
    if Ended(lines, Init(tags), c) {
      var k :| 0 <= k < |Init(tags)| && Init(tags)[k].0 == c && IsEnd(lines, Init(tags)[k]);
      assert tags[k] == Init(tags)[k];
    } else {
      assert tags[|tags| - 1] == Final(tags);
    }
  }

  lemma {:induction false} MatchingIsAllPending(lines: seq<string>, tags: seq<Tag>, c: nat)
    requires AllLines(lines) && Reachable(lines, tags) && Matching(lines, tags)
    ensures AllPending(lines, tags, c)
  {
    if tags != [] {
      ReachableIsWritten(lines, tags);
      MatchingStep(lines, tags);
      ReachableInit(lines, tags);
      MatchingIsAllPending(lines, Init(tags), c);
      var p := Pending(lines, Init(tags));
      if Ended(lines, Init(tags), c) || (Closed(lines, tags) && Final(tags).0 == c) {
        EndedStays(lines, tags, c);
      } else if Closed(lines, tags) {
        MatchingIsAllPending(lines, Init(tags), Final(tags).0);
        CompletedAlone(lines, tags);
        NoneOf(p, c);
      } else {
        assert Init(p + [Final(tags)]) == p;
      }
    }
  }

  lemma TailClient(f: seq<Tag>, p: seq<Tag>, last: Tag, k: nat)
    requires forall i :: 0 <= i < |p| ==> p[i].0 == last.0
    requires |f| <= k <= |f| + |p|
    ensures (f + p + [last])[k].0 == last.0
  {
    if k < |f| + |p| {
      assert (f + p + [last])[k] == p[k - |f|];
    }
  }

  /** The blocks of the line that the last block ends follow one another. */
  lemma LastLineUndivided(lines: seq<string>, tags: seq<Tag>, k: nat)
    requires tags != [] && 0 < k < |tags|
    requires var p := Pending(lines, Init(tags));
             |Init(tags)| - |p| <= k && forall i :: 0 <= i < |p| ==> p[i].0 == Final(tags).0
    ensures Undivided(lines, tags, k)
  {
    var s, p, f := Init(tags), Pending(lines, Init(tags)), Finished(lines, Init(tags));
    FinishedAndPending(lines, s);
    TailClient(f, p, Final(tags), k);
    if k == |f| {
      assert tags[k - 1] == s[k - 1] == f[k - 1] == Final(f);
    } else {
      TailClient(f, p, Final(tags), k - 1);
    }
    assert tags == f + p + [Final(tags)];
  }

  lemma LastFinished(lines: seq<string>, tags: seq<Tag>, k: nat)
    requires AllLines(lines) && Reachable(lines, tags) && tags != [] && Matching(lines, tags)
    requires Reachable(lines, Init(tags)) && Matching(lines, Init(tags))
    requires |Finished(lines, Init(tags))| <= k && 0 < k < |Finished(lines, tags)|
    ensures k < |tags| && Undivided(lines, tags, k)
  {
    FinishedAndPending(lines, tags);
    FinishedAndPending(lines, Init(tags));
    assert Closed(lines, tags);
    MatchingIsAllPending(lines, Init(tags), Final(tags).0);
    CompletedAlone(lines, tags);
    LastLineUndivided(lines, tags, k);
  }

  lemma UndividedStays(lines: seq<string>, tags: seq<Tag>, k: nat)
    requires tags != [] && 0 < k < |tags| - 1 && Undivided(lines, Init(tags), k)
    ensures Undivided(lines, tags, k)
  {
    assert tags[k] == Init(tags)[k] && tags[k - 1] == Init(tags)[k - 1];
  }

  lemma {:induction false} MatchingIsUndivided(lines: seq<string>, tags: seq<Tag>, k: nat)
    requires AllLines(lines) && Reachable(lines, tags) && Matching(lines, tags)
    requires 0 < k < |Finished(lines, tags)|
    ensures k < |tags| && Undivided(lines, tags, k)
  {
    FinishedAndPending(lines, tags);
    ReachableIsWritten(lines, tags);
    MatchingStep(lines, tags);
    ReachableInit(lines, tags);
    if k < |Finished(lines, Init(tags))| {
      MatchingIsUndivided(lines, Init(tags), k);
      UndividedStays(lines, tags, k);
    } else {
      LastFinished(lines, tags, k);
    }
  }

  lemma UnabridgedStays(lines: seq<string>, tags: seq<Tag>, k: nat)
    requires k < |tags| - 1 && Unabridged(lines, Init(tags), k)
    ensures Unabridged(lines, tags, k)
  {
    assert tags[k] == Init(tags)[k] && tags[..k + 1] == Init(tags)[..k + 1];
  }

  lemma LastUnabridged(lines: seq<string>, tags: seq<Tag>)
    requires AllLines(lines) && Reachable(lines, tags) && tags != [] && Matching(lines, tags)
    ensures Unabridged(lines, tags, |tags| - 1)
  {
    if Closed(lines, tags) {
      CompletedOrdinary(lines, tags);
    }
    assert tags[..|tags|] == tags;
  }

  lemma {:induction false} MatchingIsUnabridged(lines: seq<string>, tags: seq<Tag>, k: nat)
    requires AllLines(lines) && Reachable(lines, tags) && Matching(lines, tags) && k < |tags|
    ensures Unabridged(lines, tags, k)
  {
    if k == |tags| - 1 {
      LastUnabridged(lines, tags);
    } else {
      ReachableIsWritten(lines, tags);
      MatchingStep(lines, tags);
      ReachableInit(lines, tags);
      MatchingIsUnabridged(lines, Init(tags), k);
      UnabridgedStays(lines, tags, k);
    }
  }

  // ---------------------------------------------------------------------------------------------
  // The exact condition
  // ---------------------------------------------------------------------------------------------

  lemma MatchingIsOneLineAtATime(lines: seq<string>, tags: seq<Tag>)
    requires AllLines(lines) && Reachable(lines, tags) && Closed(lines, tags) && Matching(lines, tags)
    ensures OneLineAtATime(lines, tags)
  {
    forall k | 0 < k < |tags| ensures Undivided(lines, tags, k) {
      MatchingIsUndivided(lines, tags, k);
    }
    forall k | 0 <= k < |tags| ensures Unabridged(lines, tags, k) {
      MatchingIsUnabridged(lines, tags, k);
    }
  }

  lemma MatchingIff(lines: seq<string>, tags: seq<Tag>)
    requires AllLines(lines) && Reachable(lines, tags)
    ensures Matching(lines, tags) <==> OneLineAtATime(lines, Finished(lines, tags))
  {
    var f := Finished(lines, tags);
    ReachableIsWritten(lines, tags);
    FinishedCommands(lines, tags);
    FinishedAndPending(lines, tags);
    ReachableFinished(lines, tags);
    if Matching(lines, f) {
      MatchingIsOneLineAtATime(lines, f);
    }
    if OneLineAtATime(lines, f) {
      ReachableIsWritten(lines, f);
      OneLineAtATimeIsWhole(lines, f);
      MatchingIffWhole(lines, f);
    }
  }

  lemma SamePrefix(a: seq<string>, b: seq<string>, c: seq<string>)
    ensures a + b == a + c <==> b == c
  {
    assert (a + b)[|a|..] == b && (a + c)[|a|..] == c;
  }

  // ---------------------------------------------------------------------------------------------
  // Runs
  // ---------------------------------------------------------------------------------------------

  /** What a run adds to the completed commands. */
  lemma AddedCommands(x: Setting, turns: seq<Turn>)
    requires x.Valid() && x.start.WellFormed() && x.start.PendingBytes() == "" && Legal(x, turns)
    ensures After(x, turns).value.log.completed == x.start.completed + Commands(x.lines, InLog(x, turns)).0
  {
    RunIsItsWrites(x, turns);
    RunFromClosed(x.start, Ops(x, turns));
    InLogSurvives(x, turns);
  }

  lemma InLogWritten(x: Setting, turns: seq<Turn>)
    requires Legal(x, turns)
    ensures Written(x.lines, InLog(x, turns))
  {
    TagsInOrder(x, turns);
  }

  /** The commands that a run adds are the lines of the clients that completed them. */
  ghost predicate LinesWhole(x: Setting, turns: seq<Turn>)
    requires Legal(x, turns)
  {
    After(x, turns).value.log.completed
    == x.start.completed + LinesOf(x.lines, Completers(x.lines, InLog(x, turns)))
  }

  lemma LinesWholeIffMatching(x: Setting, turns: seq<Turn>)
    requires x.Valid() && x.start.WellFormed() && x.start.PendingBytes() == "" && Legal(x, turns)
    ensures LinesWhole(x, turns) <==> Matching(x.lines, InLog(x, turns))
  {
    var tags := InLog(x, turns);
    AddedCommands(x, turns);
    SamePrefix(x.start.completed, Commands(x.lines, tags).0, LinesOf(x.lines, Completers(x.lines, tags)));
  }

  /** Whatever the clients' lines contain and whatever the driver does with each block, faults that wipe
      out what other clients have written included: each command added is the line of the client that
      completed it if and only if, for each line that ends, the blocks left in the log since a line last
      ended are that line's blocks. */
  lemma WholeBlocksIff(x: Setting, turns: seq<Turn>)
    requires x.Valid() && x.start.WellFormed() && x.start.PendingBytes() == "" && Legal(x, turns)
    ensures LinesWhole(x, turns) <==> Whole(x.lines, InLog(x, turns))
  {
    LinesWholeIffMatching(x, turns);
    InLogWritten(x, turns);
    MatchingIffWhole(x.lines, InLog(x, turns));
  }

  lemma {:induction false} FinishedInOrder(lines: seq<string>, tags: seq<Tag>)
    requires InOrder(tags)
    ensures InOrder(Finished(lines, tags))
  {
    if !Closed(lines, tags) {
      FinishedInOrder(lines, Init(tags));
    }
  }

  /** Under any outcomes too, it is enough that the blocks of different clients in the log do not
      alternate, up to the last line that ended, and that each line that ended is there with all its
      blocks. */
  lemma OneLineAtATimeSuffices(x: Setting, turns: seq<Turn>)
    requires x.Valid() && x.start.WellFormed() && x.start.PendingBytes() == "" && Legal(x, turns)
    requires OneLineAtATime(x.lines, Finished(x.lines, InLog(x, turns)))
    ensures LinesWhole(x, turns)
  {
    var tags := InLog(x, turns);
    var f := Finished(x.lines, tags);
    LinesWholeIffMatching(x, turns);
    InLogWritten(x, turns);
    InLogInOrder(x, turns);
    FinishedInOrder(x.lines, tags);
    FinishedCommands(x.lines, tags);
    OneLineAtATimeIsWhole(x.lines, f);
    MatchingIffWhole(x.lines, f);
  }

  lemma {:induction false} AllKept(ops: seq<WriteOp>)
    requires forall k :: 0 <= k < |ops| ==> ops[k].Succeeds()
    ensures |Kept(ops)| == |ops| && forall k :: 0 <= k < |ops| ==> Kept(ops)[k] == k
  {
    if ops != [] {
      AllKept(Init(ops));
    }
  }

  lemma AllInLog(x: Setting, turns: seq<Turn>)
    requires x.Valid() && Legal(x, turns) && AllSucceed(turns)
    ensures InLog(x, turns) == Tags(x, turns)
  {
    OpsAreTagged(x, turns);
    AllKept(Ops(x, turns));
  }

  /** When the driver accepts every block, that is also necessary. Lines of any kind stay whole exactly
      when, up to the last line that ended, each block follows a block of its own client or the end of a
      line, and each line that ended was written with all its blocks: blocks of different clients do not
      alternate, no cut-off transfer has left its beginning behind, and no line that ended lost a block
      to a SEEKTO request. */
  lemma LinesStayWholeIff(x: Setting, turns: seq<Turn>)
    requires x.Valid() && x.start.WellFormed() && x.start.PendingBytes() == ""
    requires Legal(x, turns) && AllSucceed(turns)
    ensures InLog(x, turns) == Tags(x, turns)
    ensures LinesWhole(x, turns) <==> OneLineAtATime(x.lines, Finished(x.lines, Tags(x, turns)))
  {
    LinesWholeIffMatching(x, turns);
    AllInLog(x, turns);
    TagsReachable(x, turns);
    MatchingIff(x.lines, Tags(x, turns));
  }

  // ---------------------------------------------------------------------------------------------
  // Short lines
  // ---------------------------------------------------------------------------------------------

  /** The clients whose writes succeed, in mutex order; those that send SEEKTO requests do not write. */
  function Writers(lines: seq<string>, turns: seq<Turn>): seq<nat> {
    if turns == [] then []
    else if IsSeekTo(LineOf(lines, Final(turns).client)) || Final(turns).outcome != Success then Writers(lines, Init(turns))
    else Writers(lines, Init(turns)) + [Final(turns).client]
  }

  lemma WritersStep(lines: seq<string>, turns: seq<Turn>)
    requires turns != []
    ensures LinesOf(lines, Writers(lines, turns))
         == if IsSeekTo(LineOf(lines, Final(turns).client)) || Final(turns).outcome != Success
            then LinesOf(lines, Writers(lines, Init(turns)))
            else LinesOf(lines, Writers(lines, Init(turns))) + [LineOf(lines, Final(turns).client)]
  {
    var front, c := Writers(lines, Init(turns)), Final(turns).client;
    assert Init(front + [c]) == front;
  }

  /** A line in one block adds itself to the commands or leaves them as they are. */
  lemma ShortSection(l: Log, line: string, offset: int, parse: string -> Option<(nat, nat)>, outcome: Outcome)
    requires IsLine(line) && l.PendingBytes() == ""
    ensures var l' := Section(l, line, offset, parse, outcome).log;
            && l'.PendingBytes() == ""
            && l'.completed == if IsSeekTo(line) || outcome != Success then l.completed else l.completed + [line]
  {
    if !IsSeekTo(line) {
      if outcome == Success {
        SuccessStep(l, line);
        assert "" + line == line;
      } else {
        FailureStep(l, WriteOp(line, outcome));
      }
    }
  }

  lemma ShortTurn(x: Setting, turns: seq<Turn>)
    requires x.Valid() && turns != [] && Legal(x, turns) && |LineOf(x.lines, Final(turns).client)| <= BLOCK
    ensures Legal(x, Init(turns)) && IsLine(LineOf(x.lines, Final(turns).client))
    ensures var before, me := After(x, Init(turns)).value, Final(turns).client;
            After(x, turns).value.log
            == Section(before.log, LineOf(x.lines, me), before.sessions[me].offset, x.parse, Final(turns).outcome).log
  {
    assert LastBlock(x, turns) == LineOf(x.lines, Final(turns).client);
  }

  /** What turns of one-block lines have made of a history l. */
  ghost predicate ShortResult(x: Setting, turns: seq<Turn>, l: Log) {
    l.completed == x.start.completed + LinesOf(x.lines, Writers(x.lines, turns)) && l.PendingBytes() == ""
  }

  lemma ShortStep(x: Setting, turns: seq<Turn>, l: Log, offset: int)
    requires turns != [] && ShortResult(x, Init(turns), l) && IsLine(LineOf(x.lines, Final(turns).client))
    ensures ShortResult(x, turns, Section(l, LineOf(x.lines, Final(turns).client), offset, x.parse, Final(turns).outcome).log)
  {
    WritersStep(x.lines, turns);
    ShortSection(l, LineOf(x.lines, Final(turns).client), offset, x.parse, Final(turns).outcome);
  }

  /** Lines of one block each are always whole: whoever else sends SEEKTO requests and whatever the driver
      refuses, the commands added are the lines of the clients whose writes succeed, in mutex order. */
  lemma {:induction false} ShortLines(x: Setting, turns: seq<Turn>)
    requires x.Valid() && x.start.PendingBytes() == "" && Legal(x, turns)
    requires forall c :: 0 <= c < |x.lines| ==> |x.lines[c]| <= BLOCK
    ensures ShortResult(x, turns, After(x, turns).value.log)
  {
    if turns != [] {
      var before := After(x, Init(turns)).value;
      ShortTurn(x, turns);
      ShortLines(x, Init(turns));
      ShortStep(x, turns, before.log, before.sessions[Final(turns).client].offset);
    }
  }
}
